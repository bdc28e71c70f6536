// Typing text on a Mac: real keys where a character must be one, and pieces of UTF-16 for the rest.
module MacText {
  import opened Wrappers

  type Unit = u: nat | u < 0x1_0000

  const RETURN: Unit := 0x24
  const TAB: Unit := 0x30
  const DELETE: Unit := 0x33
  const MAX_UNICODE_UNITS_PER_EVENT: nat := 20

  datatype TextAction = Key(vk: Unit) | Chars(units: seq<Unit>)

  // ── UTF-16, as section 2 of RFC 2781 has it ──────────────────────────

  function Encode(c: char): (units: seq<Unit>)
    ensures 1 <= |units| <= 2
  {
    var code := c as nat;
    if code < 0x1_0000 then [code]
    else [0xD800 + (code - 0x1_0000) / 0x400, 0xDC00 + (code - 0x1_0000) % 0x400]
  }

  function EncodeAll(s: string): seq<Unit> {
    if s == "" then [] else Encode(s[0]) + EncodeAll(s[1..])
  }

  // How many units the character that starts here takes.
  function Length(first: Unit): nat {
    if 0xD800 <= first < 0xDC00 then 2 else 1
  }

  // The character of a surrogate pair.
  function PairChar(high: Unit, low: Unit): char
    requires 0xD800 <= high < 0xDC00 <= low <= 0xDFFF
  {
    var upper: int, lower: int := high - 0xD800, low - 0xDC00;
    (0x1_0000 + upper * 0x400 + lower) as char
  }

  // The characters, if every surrogate is one of a pair.
  function Decode(units: seq<Unit>): Option<string> {
    if units == [] then Some("")
    else if units[0] < 0xD800 || units[0] > 0xDFFF then Preceded(units[0] as char, Decode(units[1..]))
    else if units[0] < 0xDC00 && |units| >= 2 && 0xDC00 <= units[1] <= 0xDFFF then
      Preceded(PairChar(units[0], units[1]), Decode(units[2..]))
    else None
  }

  function Preceded(c: char, rest: Option<string>): Option<string> {
    match rest case Some(s) => Some([c] + s) case None => None
  }

  lemma {:induction false} DecodeUndoesEncode(c: char, rest: seq<Unit>)
    ensures Decode(Encode(c) + rest) == Preceded(c, Decode(rest))
    ensures Length(Encode(c)[0]) == |Encode(c)|
  {
    var units, code := Encode(c) + rest, c as nat;
    if code < 0x1_0000 {
      assert units[1..] == rest;
    } else {
      assert code - 0x1_0000 < 0x10_0000;
      assert units[2..] == rest;
    }
  }

  lemma {:induction false} EncodeUndoesDecode(units: seq<Unit>)
    requires Decode(units).Some?
    ensures EncodeAll(Decode(units).value) == units
    decreases |units|
  {
    if units == [] {
    } else {
      var s := Decode(units).value;
      if units[0] < 0xD800 || units[0] > 0xDFFF {
        EncodeUndoesDecode(units[1..]);
        assert s[1..] == Decode(units[1..]).value;
      } else {
        EncodeUndoesDecode(units[2..]);
        assert s[1..] == Decode(units[2..]).value;
        PairBack(units[0], units[1]);
        assert [units[0], units[1]] + units[2..] == units;
      }
    }
  }

  lemma PairBack(high: Unit, low: Unit)
    requires 0xD800 <= high < 0xDC00 <= low <= 0xDFFF
    ensures Encode(PairChar(high, low)) == [high, low]
  {
    var code: int := (high as int - 0xD800) * 0x400 + (low as int - 0xDC00);
    assert code / 0x400 == high - 0xD800 && code % 0x400 == low - 0xDC00;
  }

  lemma PrecededBoth(c: char, s: string, t: string)
    ensures Preceded(c, Some(s + t)) == Some(Preceded(c, Some(s)).value + t)
  {
    assert [c] + (s + t) == [c] + s + t;
  }

  lemma {:induction false} DecodeBoth(a: seq<Unit>, b: seq<Unit>)
    requires Decode(a).Some? && Decode(b).Some?
    ensures Decode(a + b) == Some(Decode(a).value + Decode(b).value)
    decreases |a|
  {
    hide PairChar, Decode;
    if a == [] {
      NothingDecoded();
      assert a + b == b;
      assert "" + Decode(b).value == Decode(b).value;
    } else {
      var n := Length(a[0]);
      DecodeFirst(a, b);
      DecodeBoth(a[n..], b);
      var c := Decode(a).value[0];
      PrecededBoth(c, Decode(a[n..]).value, Decode(b).value);
    }
  }

  lemma NothingDecoded()
    ensures Decode([]) == Some("")
  {
  }

  // The first character is decoded alike whatever follows the units.
  lemma DecodeFirst(a: seq<Unit>, b: seq<Unit>)
    requires a != [] && Decode(a).Some?
    ensures var n := Length(a[0]);
            && n <= |a| && Decode(a[n..]).Some? && Decode(a).value != ""
            && Decode(a) == Preceded(Decode(a).value[0], Decode(a[n..]))
            && Decode(a + b) == Preceded(Decode(a).value[0], Decode(a[n..] + b))
  {
    hide PairChar;
    assert (a + b)[1..] == a[1..] + b;
    assert |a| >= 2 ==> (a + b)[2..] == a[2..] + b;
  }

  lemma DecodeOneMore(units: seq<Unit>, c: char)
    requires Decode(units).Some?
    ensures Decode(units + Encode(c)) == Some(Decode(units).value + [c])
  {
    DecodeUndoesEncode(c, []);
    assert Encode(c) + [] == Encode(c);
    assert [c] + "" == [c];
    hide Encode, Decode;
    DecodeBoth(units, Encode(c));
  }

  // ── What a text asks for ─────────────────────────────────────────────

  datatype Stroke = Pressed(vk: Unit) | Typed(c: char)

  // Unicode's control characters.
  predicate IsControl(c: char) {
    c as nat < 0x20 || 0x7F <= c as nat < 0xA0
  }

  // A line feed right after a carriage return is part of it, and other control characters are dropped.
  function StrokesAt(text: string, i: nat): seq<Stroke>
    requires i < |text|
  {
    var c := text[i];
    if c == '\r' then [Pressed(0x24)]
    else if c == '\n' then (if i > 0 && text[i - 1] == '\r' then [] else [Pressed(0x24)])
    else if c == '\t' then [Pressed(0x30)]
    else if c == '\U{8}' then [Pressed(0x33)]
    else if IsControl(c) then []
    else [Typed(c)]
  }

  function StrokesOf(text: string): seq<Stroke> {
    if text == "" then []
    else StrokesOf(text[..|text| - 1]) + StrokesAt(text, |text| - 1)
  }

  // ── What a plan does ─────────────────────────────────────────────────

  function TypedAll(s: string): (strokes: seq<Stroke>)
    ensures |strokes| == |s| && forall i :: 0 <= i < |s| ==> strokes[i] == Typed(s[i])
  {
    seq(|s|, i requires 0 <= i < |s| => Typed(s[i]))
  }

  function ActionStrokes(action: TextAction): seq<Stroke> {
    match action
    case Key(vk) => [Pressed(vk)]
    case Chars(units) => TypedAll(Decode(units).GetOr(""))
  }

  function PlanStrokes(actions: seq<TextAction>): seq<Stroke> {
    if actions == [] then [] else ActionStrokes(actions[0]) + PlanStrokes(actions[1..])
  }

  lemma {:induction false} PlanStrokesOneMore(actions: seq<TextAction>, last: TextAction)
    ensures PlanStrokes(actions + [last]) == PlanStrokes(actions) + ActionStrokes(last)
  {
    hide ActionStrokes;
    if actions == [] {
      assert [] + [last] == [last] && [last][1..] == [];
      assert [] + ActionStrokes(last) == ActionStrokes(last) + [];
    } else {
      PlanStrokesOneMore(actions[1..], last);
      assert (actions + [last])[1..] == actions[1..] + [last];
    }
  }

  // Each piece is not empty, fits an event of twenty units and is well-formed on its own.
  predicate FitsAnEvent(action: TextAction) {
    action.Chars? ==> 1 <= |action.units| <= 20 && Decode(action.units).Some?
  }

  // Of two adjacent pieces, the second's first character would not have fitted in the first.
  predicate Full(action: TextAction, next: TextAction) {
    action.Chars? && next.Chars? && next.units != [] ==>
      |action.units| + Length(next.units[0]) > 20
  }

  predicate WellCut(actions: seq<TextAction>) {
    && (forall a <- actions :: FitsAnEvent(a))
    && forall i :: 0 <= i < |actions| - 1 ==> Full(actions[i], actions[i + 1])
  }

  predicate IsPlan(text: string, actions: seq<TextAction>) {
    WellCut(actions) && PlanStrokes(actions) == StrokesOf(text)
  }

  // The actions with the piece under way at the end.
  function Flushed(actions: seq<TextAction>, chunk: seq<Unit>): seq<TextAction> {
    if chunk == [] then actions else actions + [Chars(chunk)]
  }

  lemma FlushThenKey(actions: seq<TextAction>, vk: Unit)
    requires WellCut(actions)
    ensures WellCut(actions + [Key(vk)])
    ensures PlanStrokes(actions + [Key(vk)]) == PlanStrokes(actions) + [Pressed(vk)]
  {
    hide FitsAnEvent, Decode;
    assert FitsAnEvent(Key(vk)) by { KeyFits(vk); }
    PlanStrokesOneMore(actions, Key(vk));
  }

  lemma KeyFits(vk: Unit)
    ensures FitsAnEvent(Key(vk))
  {
  }

  lemma OnePiece(c: char)
    ensures FitsAnEvent(Chars(Encode(c))) && ActionStrokes(Chars(Encode(c))) == [Typed(c)]
    ensures Length(Encode(c)[0]) == |Encode(c)|
  {
    DecodeUndoesEncode(c, []);
    assert Encode(c) + [] == Encode(c);
    assert [c] + "" == [c];
    hide Encode, Decode;
    assert TypedAll([c]) == [Typed(c)];
  }

  lemma NewPiece(actions: seq<TextAction>, c: char)
    requires WellCut(actions)
    requires actions != [] && actions[|actions| - 1].Chars? ==>
             |actions[|actions| - 1].units| + |Encode(c)| > MAX_UNICODE_UNITS_PER_EVENT
    ensures WellCut(actions + [Chars(Encode(c))])
    ensures PlanStrokes(actions + [Chars(Encode(c))]) == PlanStrokes(actions) + [Typed(c)]
  {
    OnePiece(c);
    hide Encode, Decode, Length, ActionStrokes, FitsAnEvent;
    PlanStrokesOneMore(actions, Chars(Encode(c)));
  }

  lemma LongerPiece(actions: seq<TextAction>, chunk: seq<Unit>, c: char)
    requires chunk != [] && WellCut(actions + [Chars(chunk)])
    requires |chunk| + |Encode(c)| <= MAX_UNICODE_UNITS_PER_EVENT
    ensures WellCut(actions + [Chars(chunk + Encode(c))])
    ensures PlanStrokes(actions + [Chars(chunk + Encode(c))]) == PlanStrokes(actions + [Chars(chunk)]) + [Typed(c)]
  {
    var was, now := actions + [Chars(chunk)], actions + [Chars(chunk + Encode(c))];
    assert FitsAnEvent(was[|actions|]);
    DecodeOneMore(chunk, c);
    hide Encode, Decode, Length;
    assert FitsAnEvent(now[|actions|]);
    forall a | a in now ensures FitsAnEvent(a) {
      assert a in actions ==> a in was;
    }
    forall i | 0 <= i < |now| - 1 ensures Full(now[i], now[i + 1]) {
      assert Full(was[i], was[i + 1]);
    }
    PlanStrokesOneMore(actions, Chars(chunk));
    PlanStrokesOneMore(actions, Chars(chunk + Encode(c)));
    var s := Decode(chunk).value;
    assert TypedAll(s + [c]) == TypedAll(s) + [Typed(c)];
  }

  method PlanText(text: string) returns (actions: seq<TextAction>)
    ensures IsPlan(text, actions)
  {
    hide Encode, Decode, PlanStrokes, WellCut, IsControl, StrokesOf;
    actions := [];
    var chunk: seq<Unit> := [];
    var previousWasCr := false;
    NothingPlanned();
    for i := 0 to |text|
      invariant previousWasCr <==> i > 0 && text[i - 1] == '\r'
      invariant |chunk| <= MAX_UNICODE_UNITS_PER_EVENT
      invariant WellCut(Flushed(actions, chunk))
      invariant PlanStrokes(Flushed(actions, chunk)) == StrokesOf(text[..i])
      invariant chunk == [] && actions != [] ==> actions[|actions| - 1].Key?
    {
      StrokesOneMore(text, i);
      var c := text[i];
      var wasCr := previousWasCr;
      previousWasCr := c == '\r';
      var key: Option<Unit> := None;
      if c == '\r' {
        key := Some(RETURN);
      } else if c == '\n' {
        if wasCr {
          continue;
        }
        key := Some(RETURN);
      } else if c == '\t' {
        key := Some(TAB);
      } else if c == '\U{8}' {
        key := Some(DELETE);
      } else if IsControl(c) {
        continue;
      }
      if key.Some? {
        FlushThenKey(Flushed(actions, chunk), key.value);
        actions, chunk := Flushed(actions, chunk) + [Key(key.value)], [];
        continue;
      }
      if chunk != [] && |chunk| + |Encode(c)| <= MAX_UNICODE_UNITS_PER_EVENT {
        LongerPiece(actions, chunk, c);
      } else {
        NewPiece(Flushed(actions, chunk), c);
      }
      if |chunk| + |Encode(c)| > MAX_UNICODE_UNITS_PER_EVENT {
        actions, chunk := Flushed(actions, chunk), [];
      }
      assert chunk == [] ==> chunk + Encode(c) == Encode(c);
      chunk := chunk + Encode(c);
    }
    assert text[..|text|] == text;
    actions := Flushed(actions, chunk);
  }

  lemma NothingPlanned()
    ensures WellCut([]) && PlanStrokes([]) == [] && StrokesOf("") == []
  {
  }

  lemma StrokesOneMore(text: string, i: nat)
    requires i < |text|
    ensures StrokesOf(text[..i + 1]) == StrokesOf(text[..i]) + StrokesAt(text, i)
  {
    var longer := text[..i + 1];
    assert longer[..i] == text[..i];
    assert StrokesAt(longer, i) == StrokesAt(text, i);
  }

  // ── There is only one such plan ──────────────────────────────────────

  lemma {:induction false} TypedPrefix(s: string, t: string, rest: seq<Stroke>, rest': seq<Stroke>)
    requires TypedAll(s) + rest == TypedAll(t) + rest' && |s| <= |t|
    ensures t[..|s|] == s && rest == TypedAll(t[|s|..]) + rest'
  {
    var all := TypedAll(s) + rest;
    forall i | 0 <= i < |s| ensures t[i] == s[i] {
      assert all[i] == Typed(s[i]);
      assert (TypedAll(t) + rest')[i] == Typed(t[i]);
    }
    assert all[|s|..] == rest;
    assert (TypedAll(t) + rest')[|s|..] == TypedAll(t[|s|..]) + rest';
  }

  lemma {:induction false} EncodeBoth(s: string, t: string)
    ensures EncodeAll(s + t) == EncodeAll(s) + EncodeAll(t)
  {
    hide Encode;
    if s == "" {
      assert s + t == t;
    } else {
      EncodeBoth(s[1..], t);
      assert (s + t)[1..] == s[1..] + t;
    }
  }

  lemma EncodeFirst(s: string)
    ensures s != "" ==> |EncodeAll(s)| >= |Encode(s[0])|
  {
  }

  // A piece that could have taken in the start of the next one was not full.
  lemma PiecesAgree(a: seq<Unit>, b: seq<Unit>, rest: seq<TextAction>, rest': seq<TextAction>)
    requires WellCut([Chars(a)] + rest) && WellCut([Chars(b)] + rest')
    requires TypedAll(Decode(a).GetOr("")) + PlanStrokes(rest) == TypedAll(Decode(b).GetOr("")) + PlanStrokes(rest')
    requires |Decode(a).GetOr("")| <= |Decode(b).GetOr("")|
    ensures a == b && PlanStrokes(rest) == PlanStrokes(rest')
  {
    hide Decode, Encode, Length, EncodeAll, WellCut, PlanStrokes;
    PieceFits(a, rest);
    PieceFits(b, rest');
    var s, t := Decode(a).value, Decode(b).value;
    TypedPrefix(s, t, PlanStrokes(rest), PlanStrokes(rest'));
    EncodeUndoesDecode(a);
    EncodeUndoesDecode(b);
    var more := t[|s|..];
    assert t == s + more;
    EncodeBoth(s, more);
    EncodeFirst(more);
    if more == "" {
      assert s == t;
      assert TypedAll(more) + PlanStrokes(rest') == PlanStrokes(rest');
    } else {
      assert PlanStrokes(rest)[0] == Typed(more[0]);
      NextPieceStarts(a, rest, more[0]);
    }
  }

  lemma PieceFits(a: seq<Unit>, rest: seq<TextAction>)
    requires WellCut([Chars(a)] + rest)
    ensures FitsAnEvent(Chars(a)) && WellCut(rest)
  {
    var all := [Chars(a)] + rest;
    assert all[0] == Chars(a);
    forall i | 0 <= i < |rest| - 1 ensures Full(rest[i], rest[i + 1]) {
      assert Full(all[i + 1], all[i + 2]);
    }
  }

  lemma NextPieceStarts(a: seq<Unit>, rest: seq<TextAction>, c: char)
    requires WellCut([Chars(a)] + rest) && PlanStrokes(rest) != [] && PlanStrokes(rest)[0] == Typed(c)
    ensures |a| + |Encode(c)| > MAX_UNICODE_UNITS_PER_EVENT
  {
    var all := [Chars(a)] + rest;
    assert FitsAnEvent(all[1]) && Full(all[0], all[1]);
    assert all[1] == rest[0];
    var units := rest[0].units;
    var s := Decode(units).value;
    EncodeUndoesDecode(units);
    assert s != "" && s[0] == c;
    DecodeUndoesEncode(c, []);
  }

  // The text alone settles the plan.
  lemma {:induction false} PlanIsUnique(actions: seq<TextAction>, actions': seq<TextAction>)
    requires WellCut(actions) && WellCut(actions') && PlanStrokes(actions) == PlanStrokes(actions')
    ensures actions == actions'
    decreases |actions|
  {
    hide WellCut, PlanStrokes;
    NothingPlanned();
    NotNothing(actions);
    NotNothing(actions');
    if actions != [] && actions' != [] {
      var a, b, rest, rest' := actions[0], actions'[0], actions[1..], actions'[1..];
      assert actions == [a] + rest && actions' == [b] + rest';
      SameFirst(a, rest, b, rest');
      PlanIsUnique(rest, rest');
    }
  }

  lemma SameFirst(a: TextAction, rest: seq<TextAction>, b: TextAction, rest': seq<TextAction>)
    requires WellCut([a] + rest) && WellCut([b] + rest') && PlanStrokes([a] + rest) == PlanStrokes([b] + rest')
    ensures a == b && WellCut(rest) && WellCut(rest') && PlanStrokes(rest) == PlanStrokes(rest')
  {
    hide Decode, Encode, Length, WellCut;
    NotNothing([a] + rest);
    NotNothing([b] + rest');
    Later(a, rest);
    Later(b, rest');
    assert ([a] + rest)[1..] == rest && ([b] + rest')[1..] == rest';
    match a
    case Key(vk) =>
      assert PlanStrokes([a] + rest)[0] == Pressed(vk);
      assert b.Key?;
      assert PlanStrokes([a] + rest)[1..] == PlanStrokes(rest) && PlanStrokes([b] + rest')[1..] == PlanStrokes(rest');
    case Chars(units) =>
      assert b.Chars?;
      if |Decode(units).GetOr("")| <= |Decode(b.units).GetOr("")| {
        PiecesAgree(units, b.units, rest, rest');
      } else {
        PiecesAgree(b.units, units, rest', rest);
      }
  }

  // The first stroke of a plan that is not empty tells a key from a piece.
  lemma NotNothing(actions: seq<TextAction>)
    requires WellCut(actions)
    ensures actions != [] ==> PlanStrokes(actions) != []
    ensures actions != [] ==> (actions[0].Chars? <==> PlanStrokes(actions)[0].Typed?)
  {
    if actions != [] && actions[0].Chars? {
      assert FitsAnEvent(actions[0]);
      EncodeUndoesDecode(actions[0].units);
    }
  }

  lemma Later(a: TextAction, rest: seq<TextAction>)
    requires WellCut([a] + rest)
    ensures WellCut(rest)
  {
    var all := [a] + rest;
    forall i | 0 <= i < |rest| - 1 ensures Full(rest[i], rest[i + 1]) {
      assert Full(all[i + 1], all[i + 2]);
    }
  }

  // So what the planner returns is the only plan for the text.
  lemma OnePlanPerText(text: string, actions: seq<TextAction>, actions': seq<TextAction>)
    requires IsPlan(text, actions) && IsPlan(text, actions')
    ensures actions == actions'
  {
    PlanIsUnique(actions, actions');
  }
}
