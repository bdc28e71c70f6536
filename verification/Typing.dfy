// What an application sees when the Linux backend types: a simulated keyboard with any layout and the
// Ctrl+Shift+U way of entering code points, and the proof of what typing a text yields.
module Typing {
  import opened Wrappers
  import opened Keymap
  import opened LinuxInput
  import opened Messages
  import opened InputBackend

  // ── The simulated keyboard ───────────────────────────────────────────

  // A control character entered as a code point is invisible: it does not do what its key does.
  datatype Typed =
    | Character(codePoint: nat)
    | Invisible(codePoint: nat)
    | Shortcut(code: KeyCode)

  // The character a key types without and with Shift, if it types one.
  type Layout = (KeyCode, bool) -> Option<nat>

  // The keys that are down, the number being entered after Ctrl+Shift+U if one is, and what has
  // been typed so far.
  datatype Keyboard = Keyboard(down: set<KeyCode>, entering: Option<nat>, typed: seq<Typed>)

  predicate CtrlDown(down: set<KeyCode>) {
    KEY_LEFTCTRL in down || KEY_RIGHTCTRL in down
  }

  predicate ShiftDown(down: set<KeyCode>) {
    KEY_LEFTSHIFT in down || KEY_RIGHTSHIFT in down
  }

  predicate IsModifier(code: KeyCode) {
    code in {KEY_LEFTCTRL, KEY_RIGHTCTRL, KEY_LEFTSHIFT, KEY_RIGHTSHIFT}
  }

  // The rows of a US keyboard, from the kernel's numbering of its keys.
  const PLAIN_DIGITS: string := "1234567890-="
  const SHIFTED_DIGITS: string := "!@#$%^&*()_+"
  const PLAIN_TOP: string := "qwertyuiop[]"
  const SHIFTED_TOP: string := "QWERTYUIOP{}"
  const PLAIN_HOME: string := "asdfghjkl;'`"
  const SHIFTED_HOME: string := "ASDFGHJKL:\"~"
  const PLAIN_BOTTOM: string := "zxcvbnm,./"
  const SHIFTED_BOTTOM: string := "ZXCVBNM<>?"

  function Row(shift: bool, plain: string, shifted: string, i: nat): Option<nat>
    requires i < |plain| == |shifted|
  {
    Some((if shift then shifted[i] else plain[i]) as int)
  }

  // The character a key types.
  function UsLayout(code: KeyCode, shift: bool): Option<nat> {
    if 2 <= code <= 13 then Row(shift, PLAIN_DIGITS, SHIFTED_DIGITS, code - 2)
    else if 16 <= code <= 27 then Row(shift, PLAIN_TOP, SHIFTED_TOP, code - 16)
    else if 30 <= code <= 41 then Row(shift, PLAIN_HOME, SHIFTED_HOME, code - 30)
    else if 44 <= code <= 53 then Row(shift, PLAIN_BOTTOM, SHIFTED_BOTTOM, code - 44)
    else if code == 43 then Some(if shift then '|' as int else '\\' as int)
    else if code == 57 then Some(' ' as int)
    else if code == 28 then Some('\n' as int)
    else if code == 15 then Some('\t' as int)
    else if code == 14 then Some(8)
    else None
  }

  function HexValue(codePoint: nat): Option<nat> {
    if '0' as int <= codePoint <= '9' as int then Some(codePoint - '0' as int)
    else if 'a' as int <= codePoint <= 'f' as int then Some(codePoint - 'a' as int + 10)
    else None
  }

  // The code point entry that ends with `codePoint`.
  function Entered(codePoint: nat): Typed {
    if codePoint < 0x20 || codePoint == 0x7F then Invisible(codePoint) else Character(codePoint)
  }

  // A key other than Ctrl and Shift goes down while `down` are down.
  function Pressed(layout: Layout, keyboard: Keyboard, code: KeyCode): Keyboard {
    var character := layout(code, ShiftDown(keyboard.down));
    if CtrlDown(keyboard.down) then
      if character == Some('U' as int) then keyboard.(entering := Some(0))
      else keyboard.(typed := keyboard.typed + [Shortcut(code)])
    else
      match (keyboard.entering, character)
      case (_, None) => keyboard.(typed := keyboard.typed + [Shortcut(code)])
      case (None, Some(c)) => keyboard.(typed := keyboard.typed + [Character(c)])
      case (Some(value), Some(c)) =>
        if c == ' ' as int then
          keyboard.(entering := None, typed := keyboard.typed + [Entered(value)])
        else
          match HexValue(c)
          case Some(digit) => keyboard.(entering := Some(16 * value + digit))
          case None => keyboard.(entering := None, typed := keyboard.typed + [Shortcut(code)])
  }

  function React(layout: Layout, keyboard: Keyboard, event: RawEvent): Keyboard {
    if event.kind != EV_KEY then keyboard
    else if event.value == 0 then keyboard.(down := keyboard.down - {event.code})
    else
      var pressed := if IsModifier(event.code) then keyboard else Pressed(layout, keyboard, event.code);
      pressed.(down := pressed.down + {event.code})
  }

  function Replay(layout: Layout, keyboard: Keyboard, events: seq<RawEvent>): Keyboard {
    if events == [] then keyboard
    else React(layout, Replay(layout, keyboard, events[..|events| - 1]), events[|events| - 1])
  }

  // ── What a text should come out as ───────────────────────────────────

  // Carriage return is the Enter key, and a control character with no key is not typed.
  function Expected(text: string): seq<Typed> {
    if text == "" then [] else Expected(text[..|text| - 1]) + ExpectedChar(text[|text| - 1])
  }

  function ExpectedChar(c: char): seq<Typed> {
    if c == '\r' then [Character('\n' as int)]
    else if c in {'\n', '\t', '\U{8}'} || ' ' <= c <= '~' || c as int >= 128 then [Character(c as int)]
    else []
  }

  // ── Replaying pieces ─────────────────────────────────────────────────

  lemma {:induction false} ReplayConcat(layout: Layout, keyboard: Keyboard, a: seq<RawEvent>, b: seq<RawEvent>)
    ensures Replay(layout, keyboard, a + b) == Replay(layout, Replay(layout, keyboard, a), b)
  {
    if b == [] {
      assert a + b == a;
    } else {
      var last := |b| - 1;
      assert (a + b)[..|a + b| - 1] == a + b[..last];
      ReplayConcat(layout, keyboard, a, b[..last]);
    }
  }

  lemma ReplayKeyEvent(layout: Layout, keyboard: Keyboard, code: KeyCode, down: bool)
    ensures Replay(layout, keyboard, KeyEvent(code, down))
            == React(layout, keyboard, RawEvent(EV_KEY, code, if down then 1 else 0))
  {
    var events := KeyEvent(code, down);
    var first := [events[0]];
    assert first[..0] == [];
    assert Replay(layout, keyboard, first) == React(layout, keyboard, events[0]);
    assert events[..1] == first;
  }

  lemma PressedKeepsDown(layout: Layout, keyboard: Keyboard, code: KeyCode)
    ensures Pressed(layout, keyboard, code).down == keyboard.down
  {
  }

  // A key tapped on an otherwise idle keyboard.
  lemma ReplayTap(layout: Layout, keyboard: Keyboard, code: KeyCode)
    requires !IsModifier(code) && code !in keyboard.down
    ensures Replay(layout, keyboard, Taps([code])) == Pressed(layout, keyboard, code)
  {
    hide Pressed, IsModifier, Replay;
    SingleKeyEvents(code);
    var held := Replay(layout, keyboard, KeyEvent(code, true));
    ReplayConcat(layout, keyboard, KeyEvent(code, true), KeyEvent(code, false));
    ReplayKeyEvent(layout, keyboard, code, true);
    ReplayKeyEvent(layout, held, code, false);
    PressedKeepsDown(layout, keyboard, code);
    assert held.down - {code} == keyboard.down;
  }

  // ── Hexadecimal entry ────────────────────────────────────────────────

  // The number a string of hexadecimal digits stands for.
  function HexNumber(digits: string): nat
    requires forall d <- digits :: IsHexDigit(d)
  {
    if digits == "" then 0
    else 16 * HexNumber(digits[..|digits| - 1]) + HexValue(digits[|digits| - 1] as int).GetOr(0)
  }

  lemma HexDigitValue(n: nat)
    requires n < 16
    ensures HexValue(HEX_DIGITS[n] as int) == Some(n)
  {
  }

  // No leading zero is lost and no digit is out of place.
  lemma {:induction false} HexRoundTrip(n: nat)
    ensures HexNumber(Hex(n)) == n
  {
    var digits := Hex(n);
    if n < 16 {
      HexDigitValue(n);
      assert digits[..0] == "";
    } else {
      HexRoundTrip(n / 16);
      HexDigitValue(n % 16);
      assert digits[..|digits| - 1] == Hex(n / 16);
    }
  }

  lemma UnshiftedDigit(digit: char)
    requires IsHexDigit(digit)
    ensures Mapped(digit) && !AsciiToHid(digit).value.1
  {
  }

  lemma HexNumberOneMore(digits: string)
    requires digits != "" && forall d <- digits :: IsHexDigit(d)
    ensures var last := |digits| - 1;
            && (forall d <- digits[..last] :: IsHexDigit(d)) && HexValue(digits[last] as int).Some?
            && HexNumber(digits) == 16 * HexNumber(digits[..last]) + HexValue(digits[last] as int).value
  {
    assert IsHexDigit(digits[|digits| - 1]);
  }

  lemma NoDigits(layout: Layout, keyboard: Keyboard)
    ensures Replay(layout, keyboard, Taps(DigitCodes(""))) == keyboard && HexNumber("") == 0
  {
  }

  lemma ReplayThree(layout: Layout, k: Keyboard, a: seq<RawEvent>, b: seq<RawEvent>, c: seq<RawEvent>,
                    k1: Keyboard, k2: Keyboard, k3: Keyboard)
    requires Replay(layout, k, a) == k1 && Replay(layout, k1, b) == k2 && Replay(layout, k2, c) == k3
    ensures Replay(layout, k, a + b + c) == k3
  {
    ReplayConcat(layout, k, a, b);
    ReplayConcat(layout, k, a + b, c);
  }

  lemma ChordOfThree(a: KeyCode, b: KeyCode, c: KeyCode)
    ensures Presses([a, b, c]) == KeyEvent(a, true) + KeyEvent(b, true) + KeyEvent(c, true)
    ensures Releases([a, b, c]) == KeyEvent(c, false) + KeyEvent(b, false) + KeyEvent(a, false)
  {
    SingleKeyEvents(a);
    SingleKeyEvents(c);
    assert [a, b][..1] == [a];
    assert Presses([a, b]) == KeyEvent(a, true) + KeyEvent(b, true);
    assert [a, b, c][..2] == [a, b];
    assert [b, c][1..] == [c];
    assert Releases([b, c]) == KeyEvent(c, false) + KeyEvent(b, false);
    assert [a, b, c][1..] == [b, c];
  }

  // ── Typing ───────────────────────────────────────────────────────────

  // Nothing is down and no code point is being entered.
  predicate Idle(keyboard: Keyboard) {
    keyboard.down == {} && keyboard.entering == None
  }

  // The key code and Shift state that types `c`.
  function KeyOf(c: char): Option<(KeyCode, bool)> {
    match AsciiToHid(c)
    case None => None
    case Some((usage, shift)) => (match HidToEvdev(usage) case None => None case Some(code) => Some((code, shift)))
  }

  // They type `typed` on the US layout.
  predicate KeyTypes(c: char, typed: nat) {
    match KeyOf(c)
    case None => false
    case Some((code, shift)) => !IsModifier(code) && UsLayout(code, shift) == Some(typed)
  }

  // What the key of the `i`th letter types.
  predicate TypesLetter(i: nat)
    requires i < 26
  {
    && UsLayout(LETTERS[i], false) == Some('a' as int + i) && UsLayout(LETTERS[i], true) == Some('A' as int + i)
    && !IsModifier(LETTERS[i])
  }

  lemma LettersToD(i: nat)
    requires i < 4
    ensures TypesLetter(i)
  {
  }

  lemma LettersToH(i: nat)
    requires 4 <= i < 8
    ensures TypesLetter(i)
  {
  }

  lemma LettersToL(i: nat)
    requires 8 <= i < 12
    ensures TypesLetter(i)
  {
  }

  lemma LettersToP(i: nat)
    requires 12 <= i < 16
    ensures TypesLetter(i)
  {
  }

  lemma LettersToT(i: nat)
    requires 16 <= i < 20
    ensures TypesLetter(i)
  {
  }

  lemma LettersToW(i: nat)
    requires 20 <= i < 23
    ensures TypesLetter(i)
  {
  }

  lemma LettersToZ(i: nat)
    requires 23 <= i < 26
    ensures TypesLetter(i)
  {
  }

  lemma LetterTyped(i: nat)
    requires i < 26
    ensures TypesLetter(i)
  {
    hide TypesLetter;
    if i < 4 {
      LettersToD(i);
    } else if i < 8 {
      LettersToH(i);
    } else if i < 12 {
      LettersToL(i);
    } else if i < 16 {
      LettersToP(i);
    } else if i < 20 {
      LettersToT(i);
    } else if i < 23 {
      LettersToW(i);
    } else {
      LettersToZ(i);
    }
  }

  lemma LetterUsage(c: char)
    requires 'a' <= c <= 'z' || 'A' <= c <= 'Z'
    ensures var i := c as int - (if c <= 'Z' then 'A' else 'a') as int;
            AsciiToHid(c) == Some((0x04 + i, c <= 'Z')) && HidToEvdev(0x04 + i) == Some(LETTERS[i])
  {
  }

  lemma LowerCaseKeys(c: char)
    requires 'a' <= c <= 'z'
    ensures KeyTypes(c, c as int)
  {
    hide AsciiToHid, HidToEvdev, UsLayout, IsModifier;
    LetterUsage(c);
    LetterTyped(c as int - 'a' as int);
  }

  lemma UpperCaseKeys(c: char)
    requires 'A' <= c <= 'Z'
    ensures KeyTypes(c, c as int)
  {
    hide AsciiToHid, HidToEvdev, UsLayout, IsModifier;
    LetterUsage(c);
    LetterTyped(c as int - 'A' as int);
  }

  lemma DigitTyped(i: nat)
    requires i < 10
    ensures UsLayout(DIGITS[i], false) == Some('0' as int + (i + 1) % 10) && !IsModifier(DIGITS[i])
  {
  }

  lemma DigitUsage(c: char)
    requires '0' <= c <= '9'
    ensures var i := (c as int - '0' as int + 9) % 10;
            AsciiToHid(c) == Some((0x1E + i, false)) && HidToEvdev(0x1E + i) == Some(DIGITS[i])
  {
  }

  lemma DigitKeys(c: char)
    requires '0' <= c <= '9'
    ensures KeyTypes(c, c as int)
  {
    hide AsciiToHid, HidToEvdev, UsLayout, IsModifier;
    DigitUsage(c);
    DigitTyped((c as int - '0' as int + 9) % 10);
  }

  // For each group of characters: the usages of their keys, the codes of those, and what they type.
  lemma PunctuationBeforeParenthesisUsages()
    ensures AsciiToHid(' ') == Some((0x2C, false))
    ensures AsciiToHid('!') == Some((0x1E, true))
    ensures AsciiToHid('\"') == Some((0x34, true))
    ensures AsciiToHid('#') == Some((0x20, true))
    ensures AsciiToHid('$') == Some((0x21, true))
    ensures AsciiToHid('%') == Some((0x22, true))
    ensures AsciiToHid('&') == Some((0x24, true))
    ensures AsciiToHid('\'') == Some((0x34, false))
  {
  }

  lemma PunctuationBeforeParenthesisCodes()
    ensures HidToEvdev(0x2C) == Some(KEY_SPACE)
    ensures HidToEvdev(0x1E) == Some(KEY_1)
    ensures HidToEvdev(0x34) == Some(KEY_APOSTROPHE)
    ensures HidToEvdev(0x20) == Some(KEY_3)
    ensures HidToEvdev(0x21) == Some(KEY_4)
    ensures HidToEvdev(0x22) == Some(KEY_5)
    ensures HidToEvdev(0x24) == Some(KEY_7)
  {
  }

  lemma PunctuationBeforeParenthesisTypedLeft()
    ensures UsLayout(KEY_SPACE, false) == Some(' ' as int) && !IsModifier(KEY_SPACE)
    ensures UsLayout(KEY_1, true) == Some('!' as int) && !IsModifier(KEY_1)
    ensures UsLayout(KEY_APOSTROPHE, true) == Some('\"' as int) && !IsModifier(KEY_APOSTROPHE)
    ensures UsLayout(KEY_3, true) == Some('#' as int) && !IsModifier(KEY_3)
  {
  }

  lemma PunctuationBeforeParenthesisTypedRight()
    ensures UsLayout(KEY_4, true) == Some('$' as int) && !IsModifier(KEY_4)
    ensures UsLayout(KEY_5, true) == Some('%' as int) && !IsModifier(KEY_5)
    ensures UsLayout(KEY_7, true) == Some('&' as int) && !IsModifier(KEY_7)
    ensures UsLayout(KEY_APOSTROPHE, false) == Some('\'' as int) && !IsModifier(KEY_APOSTROPHE)
  {
  }

  lemma PunctuationBeforeParenthesisKeys(c: char)
    requires ' ' <= c < '('
    ensures KeyTypes(c, c as int)
  {
    hide AsciiToHid, HidToEvdev, UsLayout, IsModifier;
    PunctuationBeforeParenthesisUsages();
    PunctuationBeforeParenthesisCodes();
    PunctuationBeforeParenthesisTypedLeft();
    PunctuationBeforeParenthesisTypedRight();
  }

  lemma PunctuationBeforeDigitsUsages()
    ensures AsciiToHid('(') == Some((0x26, true))
    ensures AsciiToHid(')') == Some((0x27, true))
    ensures AsciiToHid('*') == Some((0x25, true))
    ensures AsciiToHid('+') == Some((0x2E, true))
    ensures AsciiToHid(',') == Some((0x36, false))
    ensures AsciiToHid('-') == Some((0x2D, false))
    ensures AsciiToHid('.') == Some((0x37, false))
    ensures AsciiToHid('/') == Some((0x38, false))
  {
  }

  lemma PunctuationBeforeDigitsCodes()
    ensures HidToEvdev(0x26) == Some(KEY_9)
    ensures HidToEvdev(0x27) == Some(KEY_0)
    ensures HidToEvdev(0x25) == Some(KEY_8)
    ensures HidToEvdev(0x2E) == Some(KEY_EQUAL)
    ensures HidToEvdev(0x36) == Some(KEY_COMMA)
    ensures HidToEvdev(0x2D) == Some(KEY_MINUS)
    ensures HidToEvdev(0x37) == Some(KEY_DOT)
    ensures HidToEvdev(0x38) == Some(KEY_SLASH)
  {
  }

  lemma PunctuationBeforeDigitsTypedLeft()
    ensures UsLayout(KEY_9, true) == Some('(' as int) && !IsModifier(KEY_9)
    ensures UsLayout(KEY_0, true) == Some(')' as int) && !IsModifier(KEY_0)
    ensures UsLayout(KEY_8, true) == Some('*' as int) && !IsModifier(KEY_8)
    ensures UsLayout(KEY_EQUAL, true) == Some('+' as int) && !IsModifier(KEY_EQUAL)
  {
  }

  lemma PunctuationBeforeDigitsTypedRight()
    ensures UsLayout(KEY_COMMA, false) == Some(',' as int) && !IsModifier(KEY_COMMA)
    ensures UsLayout(KEY_MINUS, false) == Some('-' as int) && !IsModifier(KEY_MINUS)
    ensures UsLayout(KEY_DOT, false) == Some('.' as int) && !IsModifier(KEY_DOT)
    ensures UsLayout(KEY_SLASH, false) == Some('/' as int) && !IsModifier(KEY_SLASH)
  {
  }

  lemma PunctuationBeforeDigitsKeys(c: char)
    requires '(' <= c < '0'
    ensures KeyTypes(c, c as int)
  {
    hide AsciiToHid, HidToEvdev, UsLayout, IsModifier;
    PunctuationBeforeDigitsUsages();
    PunctuationBeforeDigitsCodes();
    PunctuationBeforeDigitsTypedLeft();
    PunctuationBeforeDigitsTypedRight();
  }

  lemma PunctuationBeforeUpperUsages()
    ensures AsciiToHid(':') == Some((0x33, true))
    ensures AsciiToHid(';') == Some((0x33, false))
    ensures AsciiToHid('<') == Some((0x36, true))
    ensures AsciiToHid('=') == Some((0x2E, false))
    ensures AsciiToHid('>') == Some((0x37, true))
    ensures AsciiToHid('?') == Some((0x38, true))
    ensures AsciiToHid('@') == Some((0x1F, true))
  {
  }

  lemma PunctuationBeforeUpperCodes()
    ensures HidToEvdev(0x33) == Some(KEY_SEMICOLON)
    ensures HidToEvdev(0x36) == Some(KEY_COMMA)
    ensures HidToEvdev(0x2E) == Some(KEY_EQUAL)
    ensures HidToEvdev(0x37) == Some(KEY_DOT)
    ensures HidToEvdev(0x38) == Some(KEY_SLASH)
    ensures HidToEvdev(0x1F) == Some(KEY_2)
  {
  }

  lemma PunctuationBeforeUpperTypedLeft()
    ensures UsLayout(KEY_SEMICOLON, true) == Some(':' as int) && !IsModifier(KEY_SEMICOLON)
    ensures UsLayout(KEY_SEMICOLON, false) == Some(';' as int) && !IsModifier(KEY_SEMICOLON)
    ensures UsLayout(KEY_COMMA, true) == Some('<' as int) && !IsModifier(KEY_COMMA)
    ensures UsLayout(KEY_EQUAL, false) == Some('=' as int) && !IsModifier(KEY_EQUAL)
  {
  }

  lemma PunctuationBeforeUpperTypedRight()
    ensures UsLayout(KEY_DOT, true) == Some('>' as int) && !IsModifier(KEY_DOT)
    ensures UsLayout(KEY_SLASH, true) == Some('?' as int) && !IsModifier(KEY_SLASH)
    ensures UsLayout(KEY_2, true) == Some('@' as int) && !IsModifier(KEY_2)
  {
  }

  lemma PunctuationBeforeUpperKeys(c: char)
    requires '9' < c < 'A'
    ensures KeyTypes(c, c as int)
  {
    hide AsciiToHid, HidToEvdev, UsLayout, IsModifier;
    PunctuationBeforeUpperUsages();
    PunctuationBeforeUpperCodes();
    PunctuationBeforeUpperTypedLeft();
    PunctuationBeforeUpperTypedRight();
  }

  lemma PunctuationBeforeLowerUsages()
    ensures AsciiToHid('[') == Some((0x2F, false))
    ensures AsciiToHid('\\') == Some((0x31, false))
    ensures AsciiToHid(']') == Some((0x30, false))
    ensures AsciiToHid('^') == Some((0x23, true))
    ensures AsciiToHid('_') == Some((0x2D, true))
    ensures AsciiToHid('`') == Some((0x35, false))
  {
  }

  lemma PunctuationBeforeLowerCodes()
    ensures HidToEvdev(0x2F) == Some(KEY_LEFTBRACE)
    ensures HidToEvdev(0x31) == Some(KEY_BACKSLASH)
    ensures HidToEvdev(0x30) == Some(KEY_RIGHTBRACE)
    ensures HidToEvdev(0x23) == Some(KEY_6)
    ensures HidToEvdev(0x2D) == Some(KEY_MINUS)
    ensures HidToEvdev(0x35) == Some(KEY_GRAVE)
  {
  }

  lemma PunctuationBeforeLowerTypedLeft()
    ensures UsLayout(KEY_LEFTBRACE, false) == Some('[' as int) && !IsModifier(KEY_LEFTBRACE)
    ensures UsLayout(KEY_BACKSLASH, false) == Some('\\' as int) && !IsModifier(KEY_BACKSLASH)
    ensures UsLayout(KEY_RIGHTBRACE, false) == Some(']' as int) && !IsModifier(KEY_RIGHTBRACE)
  {
  }

  lemma PunctuationBeforeLowerTypedRight()
    ensures UsLayout(KEY_6, true) == Some('^' as int) && !IsModifier(KEY_6)
    ensures UsLayout(KEY_MINUS, true) == Some('_' as int) && !IsModifier(KEY_MINUS)
    ensures UsLayout(KEY_GRAVE, false) == Some('`' as int) && !IsModifier(KEY_GRAVE)
  {
  }

  lemma PunctuationBeforeLowerKeys(c: char)
    requires 'Z' < c < 'a'
    ensures KeyTypes(c, c as int)
  {
    hide AsciiToHid, HidToEvdev, UsLayout, IsModifier;
    PunctuationBeforeLowerUsages();
    PunctuationBeforeLowerCodes();
    PunctuationBeforeLowerTypedLeft();
    PunctuationBeforeLowerTypedRight();
  }

  lemma PunctuationAfterLowerUsages()
    ensures AsciiToHid('{') == Some((0x2F, true))
    ensures AsciiToHid('|') == Some((0x31, true))
    ensures AsciiToHid('}') == Some((0x30, true))
    ensures AsciiToHid('~') == Some((0x35, true))
  {
  }

  lemma PunctuationAfterLowerCodes()
    ensures HidToEvdev(0x2F) == Some(KEY_LEFTBRACE)
    ensures HidToEvdev(0x31) == Some(KEY_BACKSLASH)
    ensures HidToEvdev(0x30) == Some(KEY_RIGHTBRACE)
    ensures HidToEvdev(0x35) == Some(KEY_GRAVE)
  {
  }

  lemma PunctuationAfterLowerTyped()
    ensures UsLayout(KEY_LEFTBRACE, true) == Some('{' as int) && !IsModifier(KEY_LEFTBRACE)
    ensures UsLayout(KEY_BACKSLASH, true) == Some('|' as int) && !IsModifier(KEY_BACKSLASH)
    ensures UsLayout(KEY_RIGHTBRACE, true) == Some('}' as int) && !IsModifier(KEY_RIGHTBRACE)
    ensures UsLayout(KEY_GRAVE, true) == Some('~' as int) && !IsModifier(KEY_GRAVE)
  {
  }

  lemma PunctuationAfterLowerKeys(c: char)
    requires 'z' < c <= '~'
    ensures KeyTypes(c, c as int)
  {
    hide AsciiToHid, HidToEvdev, UsLayout, IsModifier;
    PunctuationAfterLowerUsages();
    PunctuationAfterLowerCodes();
    PunctuationAfterLowerTyped();
  }

  lemma ControlKeys(c: char)
    requires c < ' '
    ensures AsciiToHid(c).Some? <==> c in {'\n', '\r', '\t', '\U{8}'}
    ensures c in {'\n', '\t', '\U{8}'} ==> KeyTypes(c, c as int)
    ensures c == '\r' ==> KeyTypes(c, '\n' as int)
  {
  }

  lemma NoOtherKeys(c: char)
    requires c > '~'
    ensures AsciiToHid(c).None?
  {
  }

  // The US layout, read from the key codes, undoes the way from characters to key codes.
  lemma LayoutUndoesKeymap(c: char)
    ensures if AsciiToHid(c).None? then c as int >= 128 || ExpectedChar(c) == []
            else exists typed :: KeyTypes(c, typed) && ExpectedChar(c) == [Character(typed)]
  {
    hide AsciiToHid, HidToEvdev, UsLayout;
    if 'a' <= c <= 'z' {
      LowerCaseKeys(c);
    } else if 'A' <= c <= 'Z' {
      UpperCaseKeys(c);
    } else if '0' <= c <= '9' {
      DigitKeys(c);
    } else if ' ' <= c < '(' {
      PunctuationBeforeParenthesisKeys(c);
    } else if '(' <= c < '0' {
      PunctuationBeforeDigitsKeys(c);
    } else if '9' < c < 'A' {
      PunctuationBeforeUpperKeys(c);
    } else if 'Z' < c < 'a' {
      PunctuationBeforeLowerKeys(c);
    } else if 'z' < c <= '~' {
      PunctuationAfterLowerKeys(c);
    } else if c < ' ' {
      ControlKeys(c);
    } else {
      NoOtherKeys(c);
    }
  }

  // What a key types on an idle keyboard.
  function KeyResult(layout: Layout, code: KeyCode, shift: bool): Typed {
    match layout(code, shift) case Some(c) => Character(c) case None => Shortcut(code)
  }

  lemma ReplayKeyStep(layout: Layout, keyboard: Keyboard, code: KeyCode, shift: bool)
    requires Idle(keyboard) && !IsModifier(code)
    ensures var tap := Taps([code]);
            var events := if shift then Presses([KEY_LEFTSHIFT]) + tap + Releases([KEY_LEFTSHIFT]) else tap;
            Replay(layout, keyboard, events) == keyboard.(typed := keyboard.typed + [KeyResult(layout, code, shift)])
  {
    hide Replay;
    if shift {
      SingleKeyEvents(KEY_LEFTSHIFT);
      var k1 := keyboard.(down := {KEY_LEFTSHIFT});
      var k2 := k1.(typed := keyboard.typed + [KeyResult(layout, code, shift)]);
      var k3 := keyboard.(typed := keyboard.typed + [KeyResult(layout, code, shift)]);
      ReplayKeyEvent(layout, keyboard, KEY_LEFTSHIFT, true);
      ReplayTap(layout, k1, code);
      ReplayKeyEvent(layout, k2, KEY_LEFTSHIFT, false);
      ReplayThree(layout, keyboard, Presses([KEY_LEFTSHIFT]), Taps([code]), Releases([KEY_LEFTSHIFT]), k1, k2, k3);
    } else {
      ReplayTap(layout, keyboard, code);
    }
  }

  lemma ReplayUnicodeStep(layout: Layout, keyboard: Keyboard, codePoint: nat)
    requires Idle(keyboard) && EntryKeys(layout)
    ensures Replay(layout, keyboard, StepEventsOf(UnicodeEntry(codePoint)))
            == keyboard.(typed := keyboard.typed + [Entered(codePoint)])
  {
    hide Replay, StepEventsOf, KeyOf, UsLayout;
    SpaceKey();
    EntryExactly(layout, keyboard, codePoint);
  }

  lemma SpaceKey()
    ensures KeyOf(' ') == Some((KEY_SPACE, false)) && UsLayout(KEY_SPACE, false) == Some(' ' as int)
  {
  }

  // ── Any layout ───────────────────────────────────────────────────────

  const WHITESPACE: set<char> := {' ', '\n', '\r', '\t', '\U{8}'}

  // The key of `c` types on this layout what it types on the US one.
  predicate TypesAsUs(layout: Layout, c: char) {
    match KeyOf(c) case Some((code, shift)) => layout(code, shift) == UsLayout(code, shift) case None => true
  }

  // The keys that entering a code point takes.
  predicate EntryKeys(layout: Layout) {
    && layout(KEY_U, true) == Some('U' as int)
    && TypesAsUs(layout, ' ')
    && forall d :: IsHexDigit(d) ==> TypesAsUs(layout, d)
  }

  // Characters that are to be entered by their code point: in one mode all but whitespace, in the other
  // those that are not ASCII.
  predicate ByCodePoint(c: char, entry: TextEntry) {
    ExpectedChar(c) != [] && c !in WHITESPACE && (entry == Unicode || c as int >= 128)
  }

  // What becomes of `c`: by its code point or not at all, itself or nothing; by its key, what the layout
  // has there.
  function WrittenChar(layout: Layout, c: char, entry: TextEntry): seq<Typed> {
    if ExpectedChar(c) == [] || ByCodePoint(c, entry) then ExpectedChar(c)
    else match KeyOf(c) case Some((code, shift)) => [KeyResult(layout, code, shift)] case None => []
  }

  function Written(layout: Layout, text: string, entry: TextEntry): seq<Typed> {
    if text == "" then []
    else Written(layout, text[..|text| - 1], entry) + WrittenChar(layout, text[|text| - 1], entry)
  }

  // Each character leaves the keyboard idle, having typed what the layout makes of it.
  lemma StepTypesItsCharacter(layout: Layout, keyboard: Keyboard, c: char, entry: TextEntry)
    requires Idle(keyboard) && (ByCodePoint(c, entry) ==> EntryKeys(layout))
    ensures match PlanChar(c, entry)
            case None => WrittenChar(layout, c, entry) == []
            case Some(step) =>
              && Typeable(step)
              && Replay(layout, keyboard, StepEventsOf(step))
                 == keyboard.(typed := keyboard.typed + WrittenChar(layout, c, entry))
  {
    hide Replay, Presses, Releases, Taps, AsciiToHid, HidToEvdev, UsLayout, EntryKeys;
    LayoutUndoesKeymap(c);
    KeyedIsExpected(c);
    match PlanChar(c, entry)
    case None =>
    case Some(Key(usage, shift)) =>
      var typed :| KeyTypes(c, typed) && ExpectedChar(c) == [Character(typed)];
      ReplayKeyStep(layout, keyboard, HidToEvdev(usage).value, shift);
    case Some(UnicodeEntry(codePoint)) =>
      ReplayUnicodeStep(layout, keyboard, codePoint);
  }

  // Typing any text leaves the keyboard idle, on every layout that has the keys for the code points
  // the text needs.
  lemma {:induction false} TypingComesOut(layout: Layout, keyboard: Keyboard, text: string, entry: TextEntry)
    requires Idle(keyboard) && ((exists c <- text :: ByCodePoint(c, entry)) ==> EntryKeys(layout))
    ensures Replay(layout, keyboard, TextEventsOf(text, entry))
            == keyboard.(typed := keyboard.typed + Written(layout, text, entry))
  {
    hide Replay, PlanChar, StepEventsOf, Typeable, WrittenChar, TextEventsOf, EntryKeys, ByCodePoint;
    if text == "" {
      NothingTyped(entry);
      EmptyReplay(layout, keyboard);
    } else {
      var before, c := text[..|text| - 1], text[|text| - 1];
      assert text == before + [c];
      TypingComesOut(layout, keyboard, before, entry);
      StepTypesItsCharacter(layout, keyboard.(typed := keyboard.typed + Written(layout, before, entry)), c, entry);
      OneMoreCharacter(text, entry);
      assert keyboard.typed + Written(layout, before, entry) + WrittenChar(layout, c, entry)
          == keyboard.typed + Written(layout, text, entry);
      match PlanChar(c, entry)
      case None =>
      case Some(step) => ReplayConcat(layout, keyboard, TextEventsOf(before, entry), StepEventsOf(step));
    }
  }

  // ── What entering a code point takes ─────────────────────────────────

  // Keys tapped one after another without modifiers.
  function Tapped(layout: Layout, keyboard: Keyboard, codes: seq<KeyCode>): Keyboard {
    if codes == [] then keyboard
    else Pressed(layout, Tapped(layout, keyboard, codes[..|codes| - 1]), codes[|codes| - 1])
  }

  lemma {:induction false} ReplayTaps(layout: Layout, keyboard: Keyboard, codes: seq<KeyCode>)
    requires keyboard.down == {} && forall c <- codes :: !IsModifier(c)
    ensures Replay(layout, keyboard, Taps(codes)) == Tapped(layout, keyboard, codes)
    ensures Tapped(layout, keyboard, codes).down == {}
  {
    hide Replay, IsModifier, Pressed;
    if codes == [] {
      EmptyReplay(layout, keyboard);
    } else {
      var before, last := codes[..|codes| - 1], codes[|codes| - 1];
      ReplayTaps(layout, keyboard, before);
      SingleKeyEvents(last);
      ReplayConcat(layout, keyboard, Taps(before), Taps([last]));
      ReplayTap(layout, Tapped(layout, keyboard, before), last);
      PressedKeepsDown(layout, Tapped(layout, keyboard, before), last);
      assert Taps(codes) == Taps(before) + (KeyEvent(last, true) + KeyEvent(last, false));
    }
  }

  // A digit typed by a key.
  function DigitTypedBy(layout: Layout, code: KeyCode): Option<nat> {
    match layout(code, false) case Some(c) => HexValue(c) case None => None
  }

  // While every key types a hexadecimal digit nothing is typed and the number grows; after the first that
  // does not, something has been typed.
  lemma {:induction false} EnteringDigits(layout: Layout, keyboard: Keyboard, codes: seq<KeyCode>)
    requires keyboard.down == {} && keyboard.entering == Some(0)
    ensures var after := Tapped(layout, keyboard, codes);
            && after.down == {} && keyboard.typed <= after.typed
            && (after.typed == keyboard.typed <==> forall c <- codes :: DigitTypedBy(layout, c).Some?)
            && (after.typed == keyboard.typed ==> after.entering == Some(NumberTyped(layout, codes)))
  {
    hide Pressed, DigitTypedBy;
    if codes == [] {
    } else {
      var before, last := codes[..|codes| - 1], codes[|codes| - 1];
      assert codes == before + [last];
      EnteringDigits(layout, keyboard, before);
      OneDigitMore(layout, Tapped(layout, keyboard, before), last);
    }
  }

  lemma OneDigitMore(layout: Layout, keyboard: Keyboard, code: KeyCode)
    requires keyboard.down == {}
    ensures var after, digit := Pressed(layout, keyboard, code), DigitTypedBy(layout, code);
            && after.down == {} && keyboard.typed <= after.typed
            && (keyboard.entering.Some? ==>
                  && (after.typed == keyboard.typed <==> digit.Some?)
                  && (digit.Some? ==> after.entering == Some(16 * keyboard.entering.value + digit.value)))
  {
    hide HexValue;
    SpaceIsNoDigit();
  }

  lemma SpaceIsNoDigit()
    ensures HexValue(' ' as int) == None
  {
  }

  function NumberTyped(layout: Layout, codes: seq<KeyCode>): nat {
    if codes == [] then 0
    else 16 * NumberTyped(layout, codes[..|codes| - 1]) + DigitTypedBy(layout, codes[|codes| - 1]).GetOr(0)
  }

  // The keys of the digits type the number if and only if each types its digit.
  lemma {:induction false} NumberAsMeant(layout: Layout, digits: string)
    requires forall d <- digits :: IsHexDigit(d)
    requires forall c <- DigitCodes(digits) :: DigitTypedBy(layout, c).Some?
    ensures NumberTyped(layout, DigitCodes(digits)) == HexNumber(digits) <==> forall d <- digits :: TypesAsUs(layout, d)
  {
    hide DigitCode, IsHexDigit, TypesAsUs, DigitTypedBy, HexValue;
    if digits == "" {
      NoDigits(layout, Keyboard({}, None, []));
    } else {
      var last := |digits| - 1;
      var before, digit := digits[..last], digits[last];
      assert digits == before + [digit];
      var codes := DigitCodes(digits);
      DigitCodesOneMore(digits);
      assert DigitTypedBy(layout, codes[|codes| - 1]).Some?;
      NumberAsMeant(layout, before);
      DigitAsMeant(layout, digit);
      HexNumberOneMore(digits);
    }
  }

  lemma DigitCodesOneMore(digits: string)
    requires digits != "" && forall d <- digits :: IsHexDigit(d)
    ensures var last := |digits| - 1;
            && (forall d <- digits[..last] :: IsHexDigit(d)) && IsHexDigit(digits[last])
            && var before, codes := DigitCodes(digits[..last]), DigitCodes(digits);
               && codes == before + [DigitCode(digits[last])] && codes[..|codes| - 1] == before
               && forall c <- before :: c in codes
  {
    assert IsHexDigit(digits[|digits| - 1]);
  }

  lemma DigitAsMeant(layout: Layout, digit: char)
    requires IsHexDigit(digit)
    ensures DigitTypedBy(layout, DigitCode(digit)).GetOr(0) < 16 && HexValue(digit as int).Some?
    ensures HexValue(digit as int).value < 16
    ensures DigitTypedBy(layout, DigitCode(digit)) == HexValue(digit as int) <==> TypesAsUs(layout, digit)
  {
    hide AsciiToHid, HidToEvdev, UsLayout;
    if '0' <= digit <= '9' {
      DigitKeys(digit);
    } else {
      LowerCaseKeys(digit);
    }
    UnshiftedDigit(digit);
  }

  lemma DigitsAreKeys(digits: string)
    requires forall d <- digits :: IsHexDigit(d)
    ensures forall c <- DigitCodes(digits) :: !IsModifier(c)
  {
    hide DigitCode, IsModifier;
    if digits == "" {
    } else {
      DigitsAreKeys(digits[..|digits| - 1]);
      DigitIsKey(digits[|digits| - 1]);
    }
  }

  lemma DigitIsKey(digit: char)
    requires IsHexDigit(digit)
    ensures !IsModifier(DigitCode(digit))
  {
    hide AsciiToHid, HidToEvdev, UsLayout;
    if '0' <= digit <= '9' {
      DigitKeys(digit);
    } else {
      LowerCaseKeys(digit);
    }
  }

  // A code point comes out as entered if and only if U and Space are where the US layout has them and so is
  // each of its hexadecimal digits. So this mode depends on the layout that far.
  lemma EntryExactly(layout: Layout, keyboard: Keyboard, codePoint: nat)
    requires Idle(keyboard)
    ensures Replay(layout, keyboard, StepEventsOf(UnicodeEntry(codePoint)))
            == keyboard.(typed := keyboard.typed + [Entered(codePoint)])
            <==> && layout(KEY_U, true) == Some('U' as int)
                 && layout(KEY_SPACE, false) == Some(' ' as int)
                 && forall d <- Hex(codePoint) :: TypesAsUs(layout, d)
  {
    hide Replay, Presses, Releases, Taps, Tapped, Pressed, AsciiToHid, HidToEvdev, UsLayout, Hex, DigitCodes;
    hide TypesAsUs, HexValue, NumberTyped, HexNumber, DigitTypedBy, IsHexDigit;
    var chord := Presses(UNICODE_CHORD) + Releases(UNICODE_CHORD);
    var codes := DigitCodes(Hex(codePoint));
    var k1 := Replay(layout, keyboard, chord);
    ReplayConcat(layout, keyboard, chord, Taps(codes));
    ReplayConcat(layout, keyboard, chord + Taps(codes), Taps([KEY_SPACE]));
    ChordResult(layout, keyboard);
    DigitsAreKeys(Hex(codePoint));
    ReplayTaps(layout, k1, codes);
    var k2 := Tapped(layout, k1, codes);
    ReplayTap(layout, k2, KEY_SPACE);
    if layout(KEY_U, true) == Some('U' as int) {
      EnteringDigits(layout, k1, codes);
      SpaceEnds(layout, keyboard, k2, codePoint);
      if forall c <- codes :: DigitTypedBy(layout, c).Some? {
        NumberAsMeant(layout, Hex(codePoint));
        HexRoundTrip(codePoint);
      } else {
        NotAllDigits(layout, Hex(codePoint));
      }
    } else {
      TypedGrows(layout, k1, codes);
      SpaceEnds(layout, keyboard, k2, codePoint);
    }
  }

  // The space ends the entry, and only if it is one and nothing else has been typed since.
  lemma SpaceEnds(layout: Layout, keyboard: Keyboard, last: Keyboard, codePoint: nat)
    requires Idle(keyboard) && last.down == {} && keyboard.typed <= last.typed
    requires last.entering == None ==> keyboard.typed < last.typed
    ensures Pressed(layout, last, KEY_SPACE) == keyboard.(typed := keyboard.typed + [Entered(codePoint)])
            <==> && last.typed == keyboard.typed && last.entering == Some(codePoint)
                 && layout(KEY_SPACE, false) == Some(' ' as int)
  {
    hide HexValue;
    SpaceIsNoDigit();
    var n := |keyboard.typed|;
    if last.typed == keyboard.typed && last.entering.Some? {
      var entered := Entered(last.entering.value);
      assert (keyboard.typed + [entered])[n] == entered;
      assert (keyboard.typed + [Entered(codePoint)])[n] == Entered(codePoint);
      assert (keyboard.typed + [Shortcut(KEY_SPACE)])[n] == Shortcut(KEY_SPACE);
    }
  }

  lemma NotAllDigits(layout: Layout, digits: string)
    requires forall d <- digits :: IsHexDigit(d)
    requires exists c <- DigitCodes(digits) :: DigitTypedBy(layout, c).None?
    ensures exists d <- digits :: !TypesAsUs(layout, d)
  {
    hide DigitCode, IsHexDigit, TypesAsUs, DigitTypedBy, HexValue;
    var last := |digits| - 1;
    var before, digit := digits[..last], digits[last];
    assert digits == before + [digit];
    DigitAsMeant(layout, digit);
    if exists c <- DigitCodes(before) :: DigitTypedBy(layout, c).None? {
      NotAllDigits(layout, before);
    }
  }

  lemma {:induction false} TypedGrows(layout: Layout, keyboard: Keyboard, codes: seq<KeyCode>)
    requires keyboard.down == {} && keyboard.entering == None
    ensures var after := Tapped(layout, keyboard, codes);
            after.down == {} && after.entering == None && keyboard.typed <= after.typed
  {
    if codes == [] {
    } else {
      TypedGrows(layout, keyboard, codes[..|codes| - 1]);
    }
  }

  // Ctrl+Shift and the U key start an entry if the key types a U; otherwise they are a shortcut.
  lemma ChordResult(layout: Layout, keyboard: Keyboard)
    requires Idle(keyboard)
    ensures Replay(layout, keyboard, Presses(UNICODE_CHORD) + Releases(UNICODE_CHORD))
            == if layout(KEY_U, true) == Some('U' as int) then keyboard.(entering := Some(0))
               else keyboard.(typed := keyboard.typed + [Shortcut(KEY_U)])
  {
    hide Replay;
    var ctrl, shift, u := KEY_LEFTCTRL, KEY_LEFTSHIFT, KEY_U;
    var k1 := keyboard.(down := {ctrl});
    var k2 := keyboard.(down := {ctrl, shift});
    var started := Pressed(layout, k2, u);
    var k3 := started.(down := {ctrl, shift, u});
    var k4 := k3.(down := {ctrl, shift});
    var k5 := k3.(down := {ctrl});
    ChordOfThree(ctrl, shift, u);
    ReplayKeyEvent(layout, keyboard, ctrl, true);
    ReplayKeyEvent(layout, k1, shift, true);
    ReplayKeyEvent(layout, k2, u, true);
    ReplayThree(layout, keyboard, KeyEvent(ctrl, true), KeyEvent(shift, true), KeyEvent(u, true), k1, k2, k3);
    assert {ctrl, shift, u} - {u} == {ctrl, shift};
    assert {ctrl, shift} - {shift} == {ctrl};
    ReplayKeyEvent(layout, k3, u, false);
    ReplayKeyEvent(layout, k4, shift, false);
    ReplayKeyEvent(layout, k5, ctrl, false);
    var k6 := k3.(down := {});
    ReplayThree(layout, k3, KeyEvent(u, false), KeyEvent(shift, false), KeyEvent(ctrl, false), k4, k5, k6);
    ReplayConcat(layout, keyboard, Presses(UNICODE_CHORD), Releases(UNICODE_CHORD));
  }

  // ── What is written ──────────────────────────────────────────────────

  // What is written is the text if and only if the layout has the US characters on the keys used.
  lemma {:induction false} WrittenAsMeant(layout: Layout, text: string, entry: TextEntry)
    ensures |Written(layout, text, entry)| == |Expected(text)|
    ensures Written(layout, text, entry) == Expected(text) <==>
            forall c <- text :: KeyOf(c).Some? && !ByCodePoint(c, entry) ==> TypesAsUs(layout, c)
  {
    hide WrittenChar, ExpectedChar, ByCodePoint, KeyOf, TypesAsUs;
    if text == "" {
    } else {
      var before, c := text[..|text| - 1], text[|text| - 1];
      assert text == before + [c];
      WrittenAsMeant(layout, before, entry);
      CharacterAsMeant(layout, c, entry);
      var n := |Expected(before)|;
      assert Written(layout, text, entry)[..n] == Written(layout, before, entry);
      assert Expected(text)[..n] == Expected(before);
      assert Written(layout, text, entry)[n..] == WrittenChar(layout, c, entry);
      assert Expected(text)[n..] == ExpectedChar(c);
    }
  }

  lemma CharacterAsMeant(layout: Layout, c: char, entry: TextEntry)
    ensures |WrittenChar(layout, c, entry)| == |ExpectedChar(c)|
    ensures WrittenChar(layout, c, entry) == ExpectedChar(c) <==>
            (KeyOf(c).Some? && !ByCodePoint(c, entry) ==> TypesAsUs(layout, c))
  {
    hide AsciiToHid, HidToEvdev, UsLayout;
    LayoutUndoesKeymap(c);
  }

  // On any layout that has the keys for code points, typing yields exactly the text if and only if each
  // character that is typed by its key is where the US layout has it.
  lemma TypingIsFaithful(layout: Layout, keyboard: Keyboard, text: string, entry: TextEntry)
    requires Idle(keyboard) && ((exists c <- text :: ByCodePoint(c, entry)) ==> EntryKeys(layout))
    ensures Replay(layout, keyboard, TextEventsOf(text, entry)) == keyboard.(typed := keyboard.typed + Expected(text))
            <==> forall c <- text :: KeyOf(c).Some? && !ByCodePoint(c, entry) ==> TypesAsUs(layout, c)
  {
    hide Replay, TextEventsOf, EntryKeys, ByCodePoint, Written, Expected, KeyOf, TypesAsUs;
    TypingComesOut(layout, keyboard, text, entry);
    WrittenAsMeant(layout, text, entry);
    var written, expected := Written(layout, text, entry), Expected(text);
    assert (keyboard.typed + written)[|keyboard.typed|..] == written;
    assert (keyboard.typed + expected)[|keyboard.typed|..] == expected;
  }

  // So by code points any text comes out right on every layout that has their keys and whitespace in
  // place, whatever else it moves.
  lemma UnicodeIgnoresLayout(layout: Layout, keyboard: Keyboard, text: string)
    requires Idle(keyboard) && EntryKeys(layout) && forall c <- WHITESPACE :: TypesAsUs(layout, c)
    ensures Replay(layout, keyboard, TextEventsOf(text, Unicode)) == keyboard.(typed := keyboard.typed + Expected(text))
  {
    hide Replay, TextEventsOf, EntryKeys, TypesAsUs, Expected;
    TypingIsFaithful(layout, keyboard, text, Unicode);
    forall c | c in text && KeyOf(c).Some? && !ByCodePoint(c, Unicode) ensures c in WHITESPACE {
      KeyedIsExpected(c);
    }
  }

  lemma KeyedIsExpected(c: char)
    ensures KeyOf(c).Some? ==> ExpectedChar(c) != []
    ensures c as int >= 128 ==> KeyOf(c).None?
  {
    hide AsciiToHid, HidToEvdev, UsLayout;
    LayoutUndoesKeymap(c);
    if c > '~' {
      NoOtherKeys(c);
    }
  }

  // And by keys exactly when the layout has each keyed character of the text where the US one has it.
  lemma KeysFollowLayout(layout: Layout, keyboard: Keyboard, text: string)
    requires Idle(keyboard) && ((exists c <- text :: c as int >= 128) ==> EntryKeys(layout))
    ensures Replay(layout, keyboard, TextEventsOf(text, Keys)) == keyboard.(typed := keyboard.typed + Expected(text))
            <==> forall c <- text :: TypesAsUs(layout, c)
  {
    hide Replay, TextEventsOf, EntryKeys, UsLayout, KeyOf, Expected;
    TypingIsFaithful(layout, keyboard, text, Keys);
    forall c | c in text && KeyOf(c).Some? ensures !ByCodePoint(c, Keys) {
      KeyedIsExpected(c);
    }
  }

  // So it is for a text from a phone, by the mode of the computer's input.
  lemma TextMessageTypes(layout: Layout, backend: Backend, keyboard: Keyboard, text: string)
    requires Idle(keyboard) && EntryKeys(layout)
    ensures Replay(layout, keyboard, KeyboardEvents(backend, TextInput(text)))
            == keyboard.(typed := keyboard.typed + Expected(text))
            <==> forall c <- text :: backend.entry == Keys || c in WHITESPACE ==> TypesAsUs(layout, c)
  {
    hide Replay, TextEventsOf, EntryKeys, UsLayout, KeyOf, Expected;
    TypingIsFaithful(layout, keyboard, text, backend.entry);
    forall c | c in text && KeyOf(c).Some?
      ensures ByCodePoint(c, backend.entry) <==> backend.entry == Unicode && c !in WHITESPACE
    {
      KeyedIsExpected(c);
    }
  }

  // ── The US layout ────────────────────────────────────────────────────

  lemma UsHasEntryKeys()
    ensures EntryKeys(UsLayout)
  {
    hide KeyOf;
    assert UsLayout(KEY_U, true) == Some('U' as int);
  }

  // On it typing any text, in either mode, types exactly that text and leaves the keyboard idle.
  lemma TypingPreservesMeaning(keyboard: Keyboard, text: string, entry: TextEntry)
    requires Idle(keyboard)
    ensures Replay(UsLayout, keyboard, TextEventsOf(text, entry)) == keyboard.(typed := keyboard.typed + Expected(text))
  {
    hide Replay, TextEventsOf, EntryKeys, KeyOf, Expected;
    UsHasEntryKeys();
    TypingIsFaithful(UsLayout, keyboard, text, entry);
  }

  lemma NothingTyped(entry: TextEntry)
    ensures TextEventsOf("", entry) == []
  {
  }

  lemma OneMoreCharacter(text: string, entry: TextEntry)
    requires text != ""
    ensures var before := TextEventsOf(text[..|text| - 1], entry);
            match PlanChar(text[|text| - 1], entry)
            case None => TextEventsOf(text, entry) == before
            case Some(step) => Typeable(step) && TextEventsOf(text, entry) == before + StepEventsOf(step)
  {
    hide PlanChar, StepEventsOf, Typeable;
    PlannedStepsAreTypeable(text, entry);
    PlannedStepsAreTypeable(text[..|text| - 1], entry);
    match PlanChar(text[|text| - 1], entry)
    case None =>
    case Some(step) =>
      var steps := PlanText(text[..|text| - 1], entry);
      assert (steps + [step])[..|steps|] == steps;
  }

  lemma EmptyReplay(layout: Layout, keyboard: Keyboard)
    ensures Replay(layout, keyboard, []) == keyboard
  {
  }

  // There the two modes send different keys for the same result.
  lemma ModesAgree(keyboard: Keyboard, text: string)
    requires Idle(keyboard)
    ensures Replay(UsLayout, keyboard, TextEventsOf(text, Keys))
            == Replay(UsLayout, keyboard, TextEventsOf(text, Unicode))
  {
    TypingPreservesMeaning(keyboard, text, Keys);
    TypingPreservesMeaning(keyboard, text, Unicode);
  }
}
