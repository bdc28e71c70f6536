// Linux input injection: the evdev events written for keys, chords and text.
module LinuxInput {
  import opened Wrappers
  import opened Keymap

  // ── Events ───────────────────────────────────────────────────────────

  datatype RawEvent = RawEvent(kind: nat, code: nat, value: int)

  const EV_SYN: nat := 0
  const EV_KEY: nat := 1
  const SYN_REPORT: nat := 0

  // One key going down or up, and the report that ends the event.
  function KeyEvent(code: KeyCode, down: bool): seq<RawEvent> {
    [RawEvent(EV_KEY, code, if down then 1 else 0), RawEvent(EV_SYN, SYN_REPORT, 0)]
  }

  // `codes` going down in order.
  function Presses(codes: seq<KeyCode>): seq<RawEvent> {
    if codes == [] then []
    else Presses(codes[..|codes| - 1]) + KeyEvent(codes[|codes| - 1], true)
  }

  // `codes` coming up, the last one first.
  function Releases(codes: seq<KeyCode>): seq<RawEvent> {
    if codes == [] then []
    else Releases(codes[1..]) + KeyEvent(codes[0], false)
  }

  // `codes` pressed and released one after another.
  function Taps(codes: seq<KeyCode>): seq<RawEvent> {
    if codes == [] then []
    else Taps(codes[..|codes| - 1]) + KeyEvent(codes[|codes| - 1], true) + KeyEvent(codes[|codes| - 1], false)
  }

  // ── Keys ─────────────────────────────────────────────────────────────

  function EvdevCodes(usages: seq<Usage>): seq<KeyCode> {
    if usages == [] then []
    else
      match HidToEvdev(usages[0])
      case None => EvdevCodes(usages[1..])
      case Some(code) => [code] + EvdevCodes(usages[1..])
  }

  function ModifierCodes(mods: Modifiers): seq<KeyCode> {
    EvdevCodes(ModifierUsages(mods))
  }

  // A press or release of `usage` inside the modifiers of `mods`.
  function KeyEventsOf(usage: Usage, mods: Modifiers, pressed: bool): seq<RawEvent> {
    match HidToEvdev(usage)
    case None => []
    case Some(code) =>
      if pressed then Presses(ModifierCodes(mods)) + KeyEvent(code, true)
      else KeyEvent(code, false) + Releases(ModifierCodes(mods))
  }

  method KeyEvents(usage: Usage, mods: Modifiers, pressed: bool) returns (events: seq<RawEvent>)
    ensures events == KeyEventsOf(usage, mods, pressed)
  {
    hide HidToEvdev, ModifierUsages;
    events := [];
    match HidToEvdev(usage)
    case None =>
    case Some(code) =>
      var modifierCodes := ModifierCodes(mods);
      if pressed {
        for i := 0 to |modifierCodes|
          invariant events == Presses(modifierCodes[..i])
        {
          assert modifierCodes[..i + 1][..i] == modifierCodes[..i];
          events := events + KeyEvent(modifierCodes[i], true);
        }
        assert modifierCodes[..|modifierCodes|] == modifierCodes;
        events := events + KeyEvent(code, true);
      } else {
        events := events + KeyEvent(code, false);
        for i := |modifierCodes| downto 0
          invariant events == KeyEvent(code, false) + Releases(modifierCodes[i..])
        {
          assert modifierCodes[i..][1..] == modifierCodes[i + 1..];
          events := events + KeyEvent(modifierCodes[i], false);
        }
        assert modifierCodes[0..] == modifierCodes;
      }
  }

  // A chord: the codes go down one after the other and come up last first.
  method ChordEvents(codes: seq<KeyCode>) returns (events: seq<RawEvent>)
    ensures events == Presses(codes) + Releases(codes)
  {
    events := [];
    for i := 0 to |codes|
      invariant events == Presses(codes[..i])
    {
      assert codes[..i + 1][..i] == codes[..i];
      events := events + KeyEvent(codes[i], true);
    }
    assert codes[..|codes|] == codes;
    for i := |codes| downto 0
      invariant events == Presses(codes) + Releases(codes[i..])
    {
      assert codes[i..][1..] == codes[i + 1..];
      events := events + KeyEvent(codes[i], false);
    }
    assert codes[0..] == codes;
  }

  method TapCodes(codes: seq<KeyCode>) returns (events: seq<RawEvent>)
    ensures events == Taps(codes)
  {
    events := [];
    for i := 0 to |codes|
      invariant events == Taps(codes[..i])
    {
      assert codes[..i + 1][..i] == codes[..i];
      events := events + KeyEvent(codes[i], true);
      events := events + KeyEvent(codes[i], false);
    }
    assert codes[..|codes|] == codes;
  }

  // ── Text ─────────────────────────────────────────────────────────────

  datatype TextEntry = Keys | Unicode

  datatype TextStep =
    | Key(usage: Usage, shift: bool)
    | UnicodeEntry(codePoint: nat)

  predicate IsLayoutDependent(c: char) {
    c !in {' ', '\n', '\r', '\t', '\U{8}'}
  }

  // How `c` is typed, or `None` when it is an ASCII control character without a key.
  function PlanChar(c: char, entry: TextEntry): Option<TextStep> {
    match AsciiToHid(c)
    case Some((usage, shift)) =>
      if entry == Keys || !IsLayoutDependent(c) then Some(Key(usage, shift))
      else Some(UnicodeEntry(c as int))
    case None =>
      if c as int < 128 then None else Some(UnicodeEntry(c as int))
  }

  function PlanText(text: string, entry: TextEntry): seq<TextStep> {
    if text == "" then []
    else
      var before := PlanText(text[..|text| - 1], entry);
      match PlanChar(text[|text| - 1], entry)
      case None => before
      case Some(step) => before + [step]
  }

  const HEX_DIGITS: string := "0123456789abcdef"

  predicate IsHexDigit(c: char) {
    c in HEX_DIGITS
  }

  // `n` in lower-case hexadecimal, without leading zeros.
  function Hex(n: nat): (digits: string)
    ensures forall d <- digits :: IsHexDigit(d)
  {
    if n < 16 then [HEX_DIGITS[n]] else Hex(n / 16) + [HEX_DIGITS[n % 16]]
  }

  // The program stops if a digit or a planned key has no key code; none is without one.
  predicate Mapped(c: char) {
    AsciiToHid(c).Some? && HidToEvdev(AsciiToHid(c).value.0).Some?
  }

  lemma HexDigitsAreMapped(c: char)
    requires IsHexDigit(c)
    ensures Mapped(c)
  {
  }

  // The key of a hexadecimal digit.
  function DigitCode(digit: char): KeyCode
    requires IsHexDigit(digit)
  {
    HexDigitsAreMapped(digit);
    HidToEvdev(AsciiToHid(digit).value.0).value
  }

  function DigitCodes(digits: string): seq<KeyCode>
    requires forall d <- digits :: IsHexDigit(d)
  {
    if digits == "" then []
    else DigitCodes(digits[..|digits| - 1]) + [DigitCode(digits[|digits| - 1])]
  }

  const UNICODE_CHORD: seq<KeyCode> := [KEY_LEFTCTRL, KEY_LEFTSHIFT, KEY_U]

  predicate Typeable(step: TextStep) {
    step.Key? ==> HidToEvdev(step.usage).Some?
  }

  function StepEventsOf(step: TextStep): seq<RawEvent>
    requires Typeable(step)
  {
    match step
    case Key(usage, shift) =>
      var tap := Taps([HidToEvdev(usage).value]);
      if shift then Presses([KEY_LEFTSHIFT]) + tap + Releases([KEY_LEFTSHIFT]) else tap
    case UnicodeEntry(codePoint) =>
      Presses(UNICODE_CHORD) + Releases(UNICODE_CHORD) + Taps(DigitCodes(Hex(codePoint))) + Taps([KEY_SPACE])
  }

  // What one step writes, and whether to pause after it.
  method StepEvents(step: TextStep) returns (events: seq<RawEvent>, settle: bool)
    requires Typeable(step)
    ensures events == StepEventsOf(step)
    ensures settle == step.UnicodeEntry?
  {
    hide HidToEvdev, AsciiToHid, Mapped, DigitCode, Hex;
    match step
    case Key(usage, shift) =>
      var code := HidToEvdev(usage).value;
      events := [];
      if shift {
        events := events + KeyEvent(KEY_LEFTSHIFT, true);
      }
      events := events + KeyEvent(code, true);
      events := events + KeyEvent(code, false);
      if shift {
        events := events + KeyEvent(KEY_LEFTSHIFT, false);
      }
      SingleKeyEvents(KEY_LEFTSHIFT);
      SingleKeyEvents(code);
      settle := false;
    case UnicodeEntry(codePoint) =>
      var chord := ChordEvents(UNICODE_CHORD);
      events := chord;
      var digits := Hex(codePoint);
      for i := 0 to |digits|
        invariant events == chord + Taps(DigitCodes(digits[..i]))
      {
        var tap := TapCodes([DigitCode(digits[i])]);
        events := events + tap;
        NextDigit(digits, i);
      }
      assert digits[..|digits|] == digits;
      var space := TapCodes([KEY_SPACE]);
      events := events + space;
      settle := true;
  }

  lemma NextDigit(digits: string, i: nat)
    requires i < |digits| && forall d <- digits :: IsHexDigit(d)
    ensures Taps(DigitCodes(digits[..i + 1])) == Taps(DigitCodes(digits[..i])) + Taps([DigitCode(digits[i])])
  {
    hide DigitCode;
    SingleKeyEvents(DigitCode(digits[i]));
    assert digits[..i + 1][..i] == digits[..i];
    var codes := DigitCodes(digits[..i + 1]);
    assert codes[..|codes| - 1] == DigitCodes(digits[..i]);
  }

  lemma SingleKeyEvents(code: KeyCode)
    ensures Presses([code]) == KeyEvent(code, true)
    ensures Releases([code]) == KeyEvent(code, false)
    ensures Taps([code]) == KeyEvent(code, true) + KeyEvent(code, false)
  {
    assert [code][..0] == [];
    assert [code][1..] == [];
  }

  // Each character has a key or a code point that can be entered.
  lemma {:induction false} PlannedStepsAreTypeable(text: string, entry: TextEntry)
    ensures forall step <- PlanText(text, entry) :: Typeable(step)
  {
    if text == "" {
    } else {
      PlannedStepsAreTypeable(text[..|text| - 1], entry);
    }
  }

  // Everything written for a list of steps.
  function StepsEventsOf(steps: seq<TextStep>): seq<RawEvent>
    requires forall step <- steps :: Typeable(step)
  {
    if steps == [] then []
    else StepsEventsOf(steps[..|steps| - 1]) + StepEventsOf(steps[|steps| - 1])
  }

  function TextEventsOf(text: string, entry: TextEntry): seq<RawEvent> {
    PlannedStepsAreTypeable(text, entry);
    StepsEventsOf(PlanText(text, entry))
  }

  // Types `text`, one step at a time. The result is what the keyboard was sent.
  method Text(text: string, entry: TextEntry) returns (sent: seq<RawEvent>)
    ensures sent == TextEventsOf(text, entry)
  {
    hide Typeable, StepEventsOf, PlanText;
    PlannedStepsAreTypeable(text, entry);
    var steps := PlanText(text, entry);
    sent := [];
    for i := 0 to |steps|
      invariant sent == StepsEventsOf(steps[..i])
    {
      var events, settle := StepEvents(steps[i]);
      sent := sent + events;
      assert steps[..i + 1][..i] == steps[..i];
    }
    assert steps[..|steps|] == steps;
  }
}
