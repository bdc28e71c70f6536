// Which keyboard keys the kernel considers down after the events the Linux backend writes.
module KeysDown {
  import opened Wrappers
  import opened Keymap
  import opened LinuxInput

  function DownAfterEvent(down: set<KeyCode>, event: RawEvent): set<KeyCode> {
    if event.kind != EV_KEY then down
    else if event.value == 0 then down - {event.code}
    else down + {event.code}
  }

  function DownAfter(down: set<KeyCode>, events: seq<RawEvent>): set<KeyCode> {
    if events == [] then down
    else DownAfterEvent(DownAfter(down, events[..|events| - 1]), events[|events| - 1])
  }

  function Codes(codes: seq<KeyCode>): set<KeyCode> {
    set c | c in codes
  }

  // ── Effects of the event lists ───────────────────────────────────────

  lemma {:induction false} DownAfterConcat(down: set<KeyCode>, a: seq<RawEvent>, b: seq<RawEvent>)
    ensures DownAfter(down, a + b) == DownAfter(DownAfter(down, a), b)
  {
    if b == [] {
      assert a + b == a;
    } else {
      var last := |b| - 1;
      assert (a + b)[..|a + b| - 1] == a + b[..last];
      DownAfterConcat(down, a, b[..last]);
    }
  }

  lemma DownAfterKeyEvent(down: set<KeyCode>, code: KeyCode, pressed: bool)
    ensures DownAfter(down, KeyEvent(code, pressed)) == if pressed then down + {code} else down - {code}
  {
    var events := KeyEvent(code, pressed);
    var first := [events[0]];
    assert first[..0] == [];
    assert DownAfter(down, first) == DownAfterEvent(down, events[0]);
    assert events[..1] == first;
  }

  lemma {:induction false} DownAfterPresses(down: set<KeyCode>, codes: seq<KeyCode>)
    ensures DownAfter(down, Presses(codes)) == down + Codes(codes)
  {
    if codes == [] {
    } else {
      var before, last := codes[..|codes| - 1], codes[|codes| - 1];
      DownAfterPresses(down, before);
      DownAfterConcat(down, Presses(before), KeyEvent(last, true));
      DownAfterKeyEvent(down + Codes(before), last, true);
      assert codes == before + [last];
    }
  }

  lemma {:induction false} DownAfterReleases(down: set<KeyCode>, codes: seq<KeyCode>)
    ensures DownAfter(down, Releases(codes)) == down - Codes(codes)
  {
    if codes == [] {
    } else {
      var first, after := codes[0], codes[1..];
      DownAfterReleases(down, after);
      DownAfterConcat(down, Releases(after), KeyEvent(first, false));
      DownAfterKeyEvent(down - Codes(after), first, false);
      assert codes == [first] + after;
    }
  }

  lemma {:induction false} DownAfterTaps(down: set<KeyCode>, codes: seq<KeyCode>)
    ensures DownAfter(down, Taps(codes)) == down - Codes(codes)
  {
    if codes == [] {
    } else {
      var before, last := codes[..|codes| - 1], codes[|codes| - 1];
      DownAfterTaps(down, before);
      var middle := Taps(before) + KeyEvent(last, true);
      DownAfterConcat(down, Taps(before), KeyEvent(last, true));
      DownAfterKeyEvent(down - Codes(before), last, true);
      DownAfterConcat(down, middle, KeyEvent(last, false));
      DownAfterKeyEvent(DownAfter(down, middle), last, false);
      assert codes == before + [last];
    }
  }

  // ── Keys ─────────────────────────────────────────────────────────────

  // The codes a key message with these modifiers presses or releases.
  function CodesOf(usage: Usage, mods: Modifiers): set<KeyCode> {
    match HidToEvdev(usage)
    case None => {}
    case Some(code) => {code} + Codes(ModifierCodes(mods))
  }

  lemma DownAfterKey(down: set<KeyCode>, usage: Usage, mods: Modifiers, pressed: bool)
    ensures DownAfter(down, KeyEventsOf(usage, mods, pressed))
            == if pressed then down + CodesOf(usage, mods) else down - CodesOf(usage, mods)
  {
    hide HidToEvdev, ModifierCodes;
    match HidToEvdev(usage)
    case None =>
    case Some(code) =>
      var modifierCodes := ModifierCodes(mods);
      if pressed {
        DownAfterPresses(down, modifierCodes);
        DownAfterConcat(down, Presses(modifierCodes), KeyEvent(code, true));
        DownAfterKeyEvent(down + Codes(modifierCodes), code, true);
      } else {
        DownAfterConcat(down, KeyEvent(code, false), Releases(modifierCodes));
        DownAfterKeyEvent(down, code, false);
        DownAfterReleases(down - {code}, modifierCodes);
      }
  }

  // A key goes down once its modifiers are down, and comes up before any of them does.
  lemma KeyUnderItsModifiers(down: set<KeyCode>, usage: Usage, mods: Modifiers, code: KeyCode)
    requires HidToEvdev(usage) == Some(code)
    ensures var events := KeyEventsOf(usage, mods, true);
            var n := |events| - 2;
            && n >= 0 && events[n..] == KeyEvent(code, true)
            && DownAfter(down, events[..n]) == down + Codes(ModifierCodes(mods))
    ensures var events := KeyEventsOf(usage, mods, false);
            |events| >= 2 && events[..2] == KeyEvent(code, false)
  {
    hide HidToEvdev, ModifierCodes;
    var modifiers := Presses(ModifierCodes(mods));
    DownAfterPresses(down, ModifierCodes(mods));
    assert (modifiers + KeyEvent(code, true))[..|modifiers|] == modifiers;
  }

  // A chord leaves up whatever it touched.
  lemma DownAfterChord(down: set<KeyCode>, codes: seq<KeyCode>)
    ensures DownAfter(down, Presses(codes) + Releases(codes)) == down - Codes(codes)
  {
    DownAfterConcat(down, Presses(codes), Releases(codes));
    DownAfterPresses(down, codes);
    DownAfterReleases(down + Codes(codes), codes);
  }

  lemma DownAfterStep(down: set<KeyCode>, step: TextStep)
    requires Typeable(step)
    ensures DownAfter(down, StepEventsOf(step)) <= down
  {
    hide HidToEvdev, Hex, DigitCodes;
    match step
    case Key(usage, shift) =>
      var tap := Taps([HidToEvdev(usage).value]);
      DownAfterTaps(down, [HidToEvdev(usage).value]);
      if shift {
        var codes := [KEY_LEFTSHIFT];
        DownAfterConcat(down, Presses(codes) + tap, Releases(codes));
        DownAfterConcat(down, Presses(codes), tap);
        DownAfterPresses(down, codes);
        DownAfterTaps(down + Codes(codes), [HidToEvdev(usage).value]);
        DownAfterReleases(DownAfter(down, Presses(codes) + tap), codes);
      }
    case UnicodeEntry(codePoint) =>
      var chord := Presses(UNICODE_CHORD) + Releases(UNICODE_CHORD);
      var digits := Taps(DigitCodes(Hex(codePoint)));
      DownAfterChord(down, UNICODE_CHORD);
      DownAfterConcat(down, chord, digits);
      DownAfterTaps(DownAfter(down, chord), DigitCodes(Hex(codePoint)));
      DownAfterConcat(down, chord + digits, Taps([KEY_SPACE]));
      DownAfterTaps(DownAfter(down, chord + digits), [KEY_SPACE]);
  }

  lemma {:induction false} DownAfterSteps(down: set<KeyCode>, steps: seq<TextStep>)
    requires forall step <- steps :: Typeable(step)
    ensures DownAfter(down, StepsEventsOf(steps)) <= down
  {
    if steps == [] {
    } else {
      hide Typeable, StepEventsOf;
      var before, last := steps[..|steps| - 1], steps[|steps| - 1];
      DownAfterSteps(down, before);
      DownAfterConcat(down, StepsEventsOf(before), StepEventsOf(last));
      DownAfterStep(DownAfter(down, StepsEventsOf(before)), last);
    }
  }

  // Typing a text can lift keys that were held, and holds down none that were not.
  lemma TypingHoldsNothing(down: set<KeyCode>, text: string, entry: TextEntry)
    ensures DownAfter(down, TextEventsOf(text, entry)) <= down
  {
    PlannedStepsAreTypeable(text, entry);
    DownAfterSteps(down, PlanText(text, entry));
  }

  // ── Modifiers ────────────────────────────────────────────────────────

  lemma {:induction false} EvdevCodesHas(usages: seq<Usage>, code: KeyCode)
    ensures code in EvdevCodes(usages) <==> exists u <- usages :: HidToEvdev(u) == Some(code)
  {
    hide HidToEvdev;
    if usages == [] {
    } else {
      EvdevCodesHas(usages[1..], code);
      assert usages == [usages[0]] + usages[1..];
    }
  }

  lemma {:induction false} ModifierUsagesHas(mods: Modifiers, from: nat, u: Usage)
    requires from <= 8
    ensures u in ModifierUsages(mods, from) <==> 0xE0 + from <= u < 0xE8 && HasModifier(mods, u - 0xE0)
    decreases 8 - from
  {
    hide HasModifier;
    if from >= 8 {
    } else {
      ModifierUsagesHas(mods, from + 1, u);
    }
  }

  // The bits of a modifier bitmap, least first.
  lemma ModifierBits(mods: Modifiers)
    ensures mods == Bit(mods, 0, 1) + Bit(mods, 1, 2) + Bit(mods, 2, 4) + Bit(mods, 3, 8)
                    + Bit(mods, 4, 16) + Bit(mods, 5, 32) + Bit(mods, 6, 64) + Bit(mods, 7, 128)
  {
    LowBits(mods);
    HighBits(mods);
  }

  function Bit(mods: Modifiers, bit: nat, value: nat): nat
    requires bit < 8
  {
    if HasModifier(mods, bit) then value else 0
  }

  lemma LowBits(mods: Modifiers)
    ensures mods == Bit(mods, 0, 1) + Bit(mods, 1, 2) + Bit(mods, 2, 4) + Bit(mods, 3, 8) + 16 * (mods / 16)
  {
    assert mods == 2 * (mods / 2) + mods % 2;
    assert mods / 2 == 2 * (mods / 4) + mods / 2 % 2;
    assert mods / 4 == 2 * (mods / 8) + mods / 4 % 2;
    assert mods / 8 == 2 * (mods / 16) + mods / 8 % 2;
  }

  lemma HighBits(mods: Modifiers)
    ensures 16 * (mods / 16) == Bit(mods, 4, 16) + Bit(mods, 5, 32) + Bit(mods, 6, 64) + Bit(mods, 7, 128)
  {
    assert mods / 16 == 2 * (mods / 32) + mods / 16 % 2;
    assert mods / 32 == 2 * (mods / 64) + mods / 32 % 2;
    assert mods / 64 == 2 * (mods / 128) + mods / 64 % 2;
    assert mods / 128 < 2;
  }

  const MODIFIER_CODES: seq<KeyCode> := [
    KEY_LEFTCTRL, KEY_LEFTSHIFT, KEY_LEFTALT, KEY_LEFTMETA,
    KEY_RIGHTCTRL, KEY_RIGHTSHIFT, KEY_RIGHTALT, KEY_RIGHTMETA
  ]

  lemma ModifierCode(bit: nat)
    requires bit < 8
    ensures HidToEvdev(0xE0 + bit) == Some(MODIFIER_CODES[bit])
  {
  }

  lemma OtherCode(usage: Usage, code: KeyCode)
    requires !(0xE0 <= usage < 0xE8) && HidToEvdev(usage) == Some(code)
    ensures code !in MODIFIER_CODES
  {
    if usage <= 0x27 {
      LetterOrDigit(usage, code);
    }
  }

  lemma LetterOrDigit(usage: Usage, code: KeyCode)
    requires usage <= 0x27 && HidToEvdev(usage) == Some(code)
    ensures code !in MODIFIER_CODES
  {
  }

  // The codes of the eight modifiers are their own: no other key has one of them.
  lemma ModifierCodesAreDistinct(bit: nat, usage: Usage)
    requires bit < 8
    ensures HidToEvdev(0xE0 + bit).Some?
    ensures HidToEvdev(usage) == HidToEvdev(0xE0 + bit) <==> usage == 0xE0 + bit
  {
    hide HidToEvdev;
    ModifierCode(bit);
    if 0xE0 <= usage < 0xE8 {
      ModifierCode(usage - 0xE0);
    } else if HidToEvdev(usage).Some? {
      OtherCode(usage, HidToEvdev(usage).value);
    }
  }

  // The code of modifier `bit` is among those of a key message exactly when the message has that
  // modifier or is about that modifier's own key.
  lemma ModifierInCodesOf(usage: Usage, mods: Modifiers, bit: nat)
    requires bit < 8 && HidToEvdev(usage).Some?
    ensures HidToEvdev(0xE0 + bit).Some?
    ensures HidToEvdev(0xE0 + bit).value in CodesOf(usage, mods)
            <==> HasModifier(mods, bit) || usage == 0xE0 + bit
  {
    hide HidToEvdev, ModifierUsages;
    ModifierCodesAreDistinct(bit, usage);
    var code := HidToEvdev(0xE0 + bit).value;
    EvdevCodesHas(ModifierUsages(mods), code);
    ModifierUsagesHas(mods, 0, 0xE0 + bit);
    if code in ModifierCodes(mods) {
      var u :| u in ModifierUsages(mods) && HidToEvdev(u) == Some(code);
      ModifierCodesAreDistinct(bit, u);
      ModifierUsagesHas(mods, 0, u);
    }
  }

  // What releasing with `mods'` leaves down of what pressing with `mods` put down: nothing, exactly
  // when the key has no code or each modifier of the press is one of the release or the key itself.
  lemma ReleaseUndoesPress(usage: Usage, mods: Modifiers, mods': Modifiers)
    ensures CodesOf(usage, mods) <= CodesOf(usage, mods') <==>
            HidToEvdev(usage).None? ||
            forall bit :: 0 <= bit < 8 && HasModifier(mods, bit) ==>
              HasModifier(mods', bit) || usage == 0xE0 + bit
  {
    hide HidToEvdev, ModifierUsages, HasModifier;
    if HidToEvdev(usage).Some? {
      if CodesOf(usage, mods) <= CodesOf(usage, mods') {
        forall bit | 0 <= bit < 8 && HasModifier(mods, bit)
          ensures HasModifier(mods', bit) || usage == 0xE0 + bit
        {
          ModifierInCodesOf(usage, mods, bit);
          ModifierInCodesOf(usage, mods', bit);
        }
      } else {
        var code :| code in CodesOf(usage, mods) && code !in CodesOf(usage, mods');
        EvdevCodesHas(ModifierUsages(mods), code);
        var u :| u in ModifierUsages(mods) && HidToEvdev(u) == Some(code);
        ModifierUsagesHas(mods, 0, u);
        ModifierInCodesOf(usage, mods', u - 0xE0);
      }
    }
  }
}
