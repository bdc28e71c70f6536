// From characters to USB HID usages, and from those to Linux evdev key codes.
module Keymap {
  import opened Wrappers

  type Usage = nat
  type KeyCode = nat
  type Modifiers = m: nat | m < 256

  // ── Linux key codes, under the kernel's own names ────────────────────

  const KEY_ESC: KeyCode := 1
  const KEY_1: KeyCode := 2
  const KEY_2: KeyCode := 3
  const KEY_3: KeyCode := 4
  const KEY_4: KeyCode := 5
  const KEY_5: KeyCode := 6
  const KEY_6: KeyCode := 7
  const KEY_7: KeyCode := 8
  const KEY_8: KeyCode := 9
  const KEY_9: KeyCode := 10
  const KEY_0: KeyCode := 11
  const KEY_MINUS: KeyCode := 12
  const KEY_EQUAL: KeyCode := 13
  const KEY_BACKSPACE: KeyCode := 14
  const KEY_TAB: KeyCode := 15
  const KEY_Q: KeyCode := 16
  const KEY_W: KeyCode := 17
  const KEY_E: KeyCode := 18
  const KEY_R: KeyCode := 19
  const KEY_T: KeyCode := 20
  const KEY_Y: KeyCode := 21
  const KEY_U: KeyCode := 22
  const KEY_I: KeyCode := 23
  const KEY_O: KeyCode := 24
  const KEY_P: KeyCode := 25
  const KEY_LEFTBRACE: KeyCode := 26
  const KEY_RIGHTBRACE: KeyCode := 27
  const KEY_ENTER: KeyCode := 28
  const KEY_LEFTCTRL: KeyCode := 29
  const KEY_A: KeyCode := 30
  const KEY_S: KeyCode := 31
  const KEY_D: KeyCode := 32
  const KEY_F: KeyCode := 33
  const KEY_G: KeyCode := 34
  const KEY_H: KeyCode := 35
  const KEY_J: KeyCode := 36
  const KEY_K: KeyCode := 37
  const KEY_L: KeyCode := 38
  const KEY_SEMICOLON: KeyCode := 39
  const KEY_APOSTROPHE: KeyCode := 40
  const KEY_GRAVE: KeyCode := 41
  const KEY_LEFTSHIFT: KeyCode := 42
  const KEY_BACKSLASH: KeyCode := 43
  const KEY_Z: KeyCode := 44
  const KEY_X: KeyCode := 45
  const KEY_C: KeyCode := 46
  const KEY_V: KeyCode := 47
  const KEY_B: KeyCode := 48
  const KEY_N: KeyCode := 49
  const KEY_M: KeyCode := 50
  const KEY_COMMA: KeyCode := 51
  const KEY_DOT: KeyCode := 52
  const KEY_SLASH: KeyCode := 53
  const KEY_RIGHTSHIFT: KeyCode := 54
  const KEY_KPASTERISK: KeyCode := 55
  const KEY_LEFTALT: KeyCode := 56
  const KEY_SPACE: KeyCode := 57
  const KEY_CAPSLOCK: KeyCode := 58
  const KEY_F1: KeyCode := 59
  const KEY_F2: KeyCode := 60
  const KEY_F3: KeyCode := 61
  const KEY_F4: KeyCode := 62
  const KEY_F5: KeyCode := 63
  const KEY_F6: KeyCode := 64
  const KEY_F7: KeyCode := 65
  const KEY_F8: KeyCode := 66
  const KEY_F9: KeyCode := 67
  const KEY_F10: KeyCode := 68
  const KEY_NUMLOCK: KeyCode := 69
  const KEY_SCROLLLOCK: KeyCode := 70
  const KEY_KP7: KeyCode := 71
  const KEY_KP8: KeyCode := 72
  const KEY_KP9: KeyCode := 73
  const KEY_KPMINUS: KeyCode := 74
  const KEY_KP4: KeyCode := 75
  const KEY_KP5: KeyCode := 76
  const KEY_KP6: KeyCode := 77
  const KEY_KPPLUS: KeyCode := 78
  const KEY_KP1: KeyCode := 79
  const KEY_KP2: KeyCode := 80
  const KEY_KP3: KeyCode := 81
  const KEY_KP0: KeyCode := 82
  const KEY_KPDOT: KeyCode := 83
  const KEY_102ND: KeyCode := 86
  const KEY_F11: KeyCode := 87
  const KEY_F12: KeyCode := 88
  const KEY_KPENTER: KeyCode := 96
  const KEY_RIGHTCTRL: KeyCode := 97
  const KEY_KPSLASH: KeyCode := 98
  const KEY_SYSRQ: KeyCode := 99
  const KEY_RIGHTALT: KeyCode := 100
  const KEY_HOME: KeyCode := 102
  const KEY_UP: KeyCode := 103
  const KEY_PAGEUP: KeyCode := 104
  const KEY_LEFT: KeyCode := 105
  const KEY_RIGHT: KeyCode := 106
  const KEY_END: KeyCode := 107
  const KEY_DOWN: KeyCode := 108
  const KEY_PAGEDOWN: KeyCode := 109
  const KEY_INSERT: KeyCode := 110
  const KEY_DELETE: KeyCode := 111
  const KEY_MUTE: KeyCode := 113
  const KEY_VOLUMEDOWN: KeyCode := 114
  const KEY_VOLUMEUP: KeyCode := 115
  const KEY_PAUSE: KeyCode := 119
  const KEY_LEFTMETA: KeyCode := 125
  const KEY_RIGHTMETA: KeyCode := 126
  const KEY_COMPOSE: KeyCode := 127
  const KEY_NEXTSONG: KeyCode := 163
  const KEY_PLAYPAUSE: KeyCode := 164
  const KEY_PREVIOUSSONG: KeyCode := 165
  const KEY_STOPCD: KeyCode := 166
  const KEY_F13: KeyCode := 183

  // a..z, 1..9 0, F1..F12 and keypad 1..9 0, each in HID order.
  const LETTERS: seq<KeyCode> := [
    KEY_A, KEY_B, KEY_C, KEY_D, KEY_E, KEY_F, KEY_G, KEY_H, KEY_I, KEY_J, KEY_K, KEY_L, KEY_M,
    KEY_N, KEY_O, KEY_P, KEY_Q, KEY_R, KEY_S, KEY_T, KEY_U, KEY_V, KEY_W, KEY_X, KEY_Y, KEY_Z
  ]

  const DIGITS: seq<KeyCode> := [
    KEY_1, KEY_2, KEY_3, KEY_4, KEY_5, KEY_6, KEY_7, KEY_8, KEY_9, KEY_0
  ]

  const F_KEYS: seq<KeyCode> := [
    KEY_F1, KEY_F2, KEY_F3, KEY_F4, KEY_F5, KEY_F6, KEY_F7, KEY_F8, KEY_F9, KEY_F10, KEY_F11,
    KEY_F12
  ]

  const KEYPAD_DIGITS: seq<KeyCode> := [
    KEY_KP1, KEY_KP2, KEY_KP3, KEY_KP4, KEY_KP5, KEY_KP6, KEY_KP7, KEY_KP8, KEY_KP9, KEY_KP0
  ]

  // The evdev code of a HID keyboard-page usage, if it has one.
  function HidToEvdev(usage: Usage): Option<KeyCode> {
    if 0x04 <= usage <= 0x1D then Some(LETTERS[usage - 0x04])
    else if 0x1E <= usage <= 0x27 then Some(DIGITS[usage - 0x1E])
    else if 0x3A <= usage <= 0x45 then Some(F_KEYS[usage - 0x3A])
    else if 0x59 <= usage <= 0x62 then Some(KEYPAD_DIGITS[usage - 0x59])
    else if 0x68 <= usage <= 0x73 then Some(KEY_F13 + (usage - 0x68))
    else SingleKey(usage)
  }

  function SingleKey(usage: Usage): Option<KeyCode> {
    match usage
    case 0x28 => Some(KEY_ENTER)
    case 0x29 => Some(KEY_ESC)
    case 0x2A => Some(KEY_BACKSPACE)
    case 0x2B => Some(KEY_TAB)
    case 0x2C => Some(KEY_SPACE)
    case 0x2D => Some(KEY_MINUS)
    case 0x2E => Some(KEY_EQUAL)
    case 0x2F => Some(KEY_LEFTBRACE)
    case 0x30 => Some(KEY_RIGHTBRACE)
    case 0x31 => Some(KEY_BACKSLASH)
    case 0x32 => Some(KEY_BACKSLASH)  // the non-US '#', in the same physical position
    case 0x33 => Some(KEY_SEMICOLON)
    case 0x34 => Some(KEY_APOSTROPHE)
    case 0x35 => Some(KEY_GRAVE)
    case 0x36 => Some(KEY_COMMA)
    case 0x37 => Some(KEY_DOT)
    case 0x38 => Some(KEY_SLASH)
    case 0x39 => Some(KEY_CAPSLOCK)
    case 0x46 => Some(KEY_SYSRQ)
    case 0x47 => Some(KEY_SCROLLLOCK)
    case 0x48 => Some(KEY_PAUSE)
    case 0x49 => Some(KEY_INSERT)
    case 0x4A => Some(KEY_HOME)
    case 0x4B => Some(KEY_PAGEUP)
    case 0x4C => Some(KEY_DELETE)
    case 0x4D => Some(KEY_END)
    case 0x4E => Some(KEY_PAGEDOWN)
    case 0x4F => Some(KEY_RIGHT)
    case 0x50 => Some(KEY_LEFT)
    case 0x51 => Some(KEY_DOWN)
    case 0x52 => Some(KEY_UP)
    case 0x53 => Some(KEY_NUMLOCK)
    case 0x54 => Some(KEY_KPSLASH)
    case 0x55 => Some(KEY_KPASTERISK)
    case 0x56 => Some(KEY_KPMINUS)
    case 0x57 => Some(KEY_KPPLUS)
    case 0x58 => Some(KEY_KPENTER)
    case 0x63 => Some(KEY_KPDOT)
    case 0x64 => Some(KEY_102ND)
    case 0x65 => Some(KEY_COMPOSE)
    case 0xE0 => Some(KEY_LEFTCTRL)
    case 0xE1 => Some(KEY_LEFTSHIFT)
    case 0xE2 => Some(KEY_LEFTALT)
    case 0xE3 => Some(KEY_LEFTMETA)
    case 0xE4 => Some(KEY_RIGHTCTRL)
    case 0xE5 => Some(KEY_RIGHTSHIFT)
    case 0xE6 => Some(KEY_RIGHTALT)
    case 0xE7 => Some(KEY_RIGHTMETA)
    case _ => None
  }

  // ── Characters ───────────────────────────────────────────────────────

  // The HID usage that types `c` on a US-QWERTY keyboard, and whether Shift is held.
  function AsciiToHid(c: char): Option<(Usage, bool)> {
    if 'a' <= c <= 'z' then Some((0x04 + (c as int - 'a' as int), false))
    else if 'A' <= c <= 'Z' then Some((0x04 + (c as int - 'A' as int), true))
    else if '1' <= c <= '9' then Some((0x1E + (c as int - '1' as int), false))
    else match c
      case '0' => Some((0x27, false))
      case ' ' => Some((0x2C, false))
      case '\n' => Some((0x28, false))
      case '\r' => Some((0x28, false))
      case '\t' => Some((0x2B, false))
      case '\U{8}' => Some((0x2A, false))
      case '-' => Some((0x2D, false))
      case '=' => Some((0x2E, false))
      case '[' => Some((0x2F, false))
      case ']' => Some((0x30, false))
      case '\\' => Some((0x31, false))
      case ';' => Some((0x33, false))
      case '\'' => Some((0x34, false))
      case '`' => Some((0x35, false))
      case ',' => Some((0x36, false))
      case '.' => Some((0x37, false))
      case '/' => Some((0x38, false))
      case '!' => Some((0x1E, true))
      case '@' => Some((0x1F, true))
      case '#' => Some((0x20, true))
      case '$' => Some((0x21, true))
      case '%' => Some((0x22, true))
      case '^' => Some((0x23, true))
      case '&' => Some((0x24, true))
      case '*' => Some((0x25, true))
      case '(' => Some((0x26, true))
      case ')' => Some((0x27, true))
      case '_' => Some((0x2D, true))
      case '+' => Some((0x2E, true))
      case '{' => Some((0x2F, true))
      case '}' => Some((0x30, true))
      case '|' => Some((0x31, true))
      case ':' => Some((0x33, true))
      case '\"' => Some((0x34, true))
      case '~' => Some((0x35, true))
      case '<' => Some((0x36, true))
      case '>' => Some((0x37, true))
      case '?' => Some((0x38, true))
      case _ => None
  }

  // ── Modifier bits ────────────────────────────────────────────────────

  const MODIFIER_BITS: seq<nat> := [1, 2, 4, 8, 16, 32, 64, 128]

  // Bit `bit` of a HID modifier bitmap.
  predicate HasModifier(mods: Modifiers, bit: nat)
    requires bit < 8
  {
    mods / MODIFIER_BITS[bit] % 2 == 1
  }

  // The usages 0xE0 + n of the bits set in `mods` from bit `from` up, in order.
  function ModifierUsages(mods: Modifiers, from: nat := 0): seq<Usage>
    requires from <= 8
    decreases 8 - from
  {
    if from == 8 then []
    else (if HasModifier(mods, from) then [0xE0 + from] else []) + ModifierUsages(mods, from + 1)
  }
}
