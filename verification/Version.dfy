// Version numbers: reading, printing, which is newer, and who is offered what.
module Versions {
  import opened Wrappers
  import opened Texts

  const U64_LIMIT: nat := 0x1_0000_0000_0000_0000

  datatype Part = Number(n: nat) | Text(text: string)

  datatype Version = Version(major: nat, minor: nat, patch: nat, pre: seq<Part>)

  // ── What a version can be ────────────────────────────────────────────

  predicate IsIdentifierChar(c: char) {
    IsDigit(c) || 'a' <= c <= 'z' || 'A' <= c <= 'Z' || c == '-'
  }

  predicate IsIdentifier(s: string) {
    s != "" && forall c <- s :: IsIdentifierChar(c)
  }

  predicate ValidPart(part: Part) {
    match part
    case Number(n) => n < U64_LIMIT
    case Text(text) => IsIdentifier(text) && !AllDigits(text)
  }

  predicate Valid(version: Version) {
    && version.major < U64_LIMIT && version.minor < U64_LIMIT && version.patch < U64_LIMIT
    && forall p <- version.pre :: ValidPart(p)
  }

  // ── Printing ─────────────────────────────────────────────────────────

  function PartText(part: Part): string {
    match part case Number(n) => DecimalOf(n) case Text(text) => text
  }

  function PartTexts(parts: seq<Part>): seq<string> {
    seq(|parts|, i requires 0 <= i < |parts| => PartText(parts[i]))
  }

  function CoreOf(version: Version): seq<string> {
    [DecimalOf(version.major), DecimalOf(version.minor), DecimalOf(version.patch)]
  }

  function PreText(texts: seq<string>): string {
    if texts == [] then "" else "-" + Join(texts, '.')
  }

  function Printed(version: Version): string {
    Join(CoreOf(version), '.') + PreText(PartTexts(version.pre))
  }

  method Print(version: Version) returns (out: string)
    ensures out == Printed(version)
  {
    hide DecimalOf, PreText, PartText;
    out := DecimalOf(version.major) + "." + DecimalOf(version.minor) + "." + DecimalOf(version.patch);
    ghost var core := out;
    CoreJoined(CoreOf(version));
    ghost var texts := PartTexts(version.pre);
    NoPreText();
    for i := 0 to |version.pre|
      invariant out == core + PreText(texts[..i])
    {
      var mark := if i == 0 then "-" else ".";
      PreTextOneMore(texts[..i], texts[i], mark);
      assert texts[..i + 1] == texts[..i] + [texts[i]];
      out := out + (mark + PartText(version.pre[i]));
    }
    assert texts[..|texts|] == texts;
  }

  lemma NoPreText()
    ensures PreText([]) == ""
  {
  }

  lemma PreTextOneMore(texts: seq<string>, last: string, mark: string)
    requires mark == if texts == [] then "-" else "."
    ensures forall core: string :: core + PreText(texts + [last]) == core + PreText(texts) + (mark + last)
  {
    hide Join;
    JoinOneMore(texts, last, '.');
    assert PreText(texts + [last]) == PreText(texts) + (mark + last);
  }

  lemma CoreJoined(core: seq<string>)
    requires |core| == 3
    ensures Join(core, '.') == core[0] + "." + core[1] + "." + core[2]
  {
    assert core[1..][1..] == [core[2]];
    assert Join(core[1..], '.') == core[1] + ['.'] + core[2];
    assert core[0] + ['.'] + (core[1] + ['.'] + core[2]) == core[0] + "." + core[1] + "." + core[2];
  }

  lemma {:induction false} JoinOneMore(parts: seq<string>, last: string, c: char)
    ensures Join(parts + [last], c) == if parts == [] then last else Join(parts, c) + [c] + last
  {
    if parts == [] {
      assert [] + [last] == [last];
    } else {
      JoinOneMore(parts[1..], last, c);
      assert (parts + [last])[1..] == parts[1..] + [last];
      if |parts| > 1 {
        var tail := Join(parts[1..], c);
        assert parts[0] + [c] + (tail + [c] + last) == (parts[0] + [c] + tail) + [c] + last;
      }
    }
  }

  // ── Reading ──────────────────────────────────────────────────────────

  function NumberOf(s: string): Option<nat> {
    if s != "" && AllDigits(s) && ValueOf(s) < U64_LIMIT then Some(ValueOf(s)) else None
  }

  function PartOf(s: string): Option<Part> {
    if !IsIdentifier(s) then None
    else if AllDigits(s) then (match NumberOf(s) case Some(n) => Some(Number(n)) case None => None)
    else Some(Text(s))
  }

  function Followed(parts: seq<Part>, rest: Option<seq<Part>>): Option<seq<Part>> {
    match rest case Some(more) => Some(parts + more) case None => None
  }

  function PartsOf(texts: seq<string>): Option<seq<Part>> {
    if texts == [] then Some([])
    else
      match PartOf(texts[0])
      case Some(part) => Followed([part], PartsOf(texts[1..]))
      case None => None
  }

  function CoreNumbers(core: string, pre: seq<Part>): Option<Version> {
    var numbers := Split(core, '.');
    if |numbers| != 3 then None
    else
      match (NumberOf(numbers[0]), NumberOf(numbers[1]), NumberOf(numbers[2]))
      case (Some(major), Some(minor), Some(patch)) => Some(Version(major, minor, patch, pre))
      case _ => None
  }

  // A leading v is skipped, and so is build metadata.
  function Bare(text: string): string {
    var rest := if text != "" && text[0] == 'v' then text[1..] else text;
    rest[..IndexOf(rest, '+')]
  }

  function ReadBare(rest: string): Option<Version> {
    var i := IndexOf(rest, '-');
    if i == |rest| then CoreNumbers(rest, [])
    else
      match PartsOf(Split(rest[i + 1..], '.'))
      case Some(pre) => CoreNumbers(rest[..i], pre)
      case None => None
  }

  function Parsed(text: string): Option<Version> {
    ReadBare(Bare(text))
  }

  method ParseNumber(s: string) returns (number: Option<nat>)
    ensures number == NumberOf(s)
  {
    if s == "" || !AllDigits(s) {
      return None;
    }
    var n := ReadDecimal(s);
    return if n < U64_LIMIT then Some(n) else None;
  }

  method ParseCore(core: string, pre: seq<Part>) returns (version: Option<Version>)
    ensures version == CoreNumbers(core, pre)
  {
    var numbers := Cut(core, '.');
    var read: seq<nat> := [];
    while |read| < 3
      invariant |read| <= 3 && |read| <= |numbers|
      invariant forall i :: 0 <= i < |read| ==> NumberOf(numbers[i]) == Some(read[i])
      decreases 3 - |read|
    {
      if |read| == |numbers| {
        return None;
      }
      var number := ParseNumber(numbers[|read|]);
      if number.None? {
        return None;
      }
      read := read + [number.value];
    }
    if |numbers| > 3 {
      return None;
    }
    return Some(Version(read[0], read[1], read[2], pre));
  }

  lemma FollowedOneMore(parts: seq<Part>, part: Part, rest: Option<seq<Part>>)
    ensures Followed(parts, Followed([part], rest)) == Followed(parts + [part], rest)
    ensures Followed([], rest) == rest
    ensures Followed(parts, Some([])) == Some(parts)
  {
    assert parts + [] == parts;
    if rest.Some? {
      assert [] + rest.value == rest.value;
      assert parts + ([part] + rest.value) == (parts + [part]) + rest.value;
    }
  }

  method ParsePre(texts: seq<string>) returns (pre: Option<seq<Part>>)
    ensures pre == PartsOf(texts)
  {
    var parts: seq<Part> := [];
    assert texts[0..] == texts;
    FollowedOneMore([], Number(0), PartsOf(texts));
    for i := 0 to |texts|
      invariant PartsOf(texts) == Followed(parts, PartsOf(texts[i..]))
    {
      assert texts[i..][1..] == texts[i + 1..];
      var part := PartOf(texts[i]);
      if part.None? {
        return None;
      }
      FollowedOneMore(parts, part.value, PartsOf(texts[i + 1..]));
      parts := parts + [part.value];
    }
    assert texts[|texts|..] == [];
    FollowedOneMore(parts, Number(0), None);
    return Some(parts);
  }

  method Parse(text: string) returns (version: Option<Version>)
    ensures version == Parsed(text)
  {
    var rest := if text != "" && text[0] == 'v' then text[1..] else text;
    var plus := Find(rest, '+');
    rest := rest[..plus];
    var hyphen := Find(rest, '-');
    if hyphen == |rest| {
      version := ParseCore(rest, []);
    } else {
      var texts := Cut(rest[hyphen + 1..], '.');
      var pre := ParsePre(texts);
      if pre.None? {
        return None;
      }
      version := ParseCore(rest[..hyphen], pre.value);
    }
  }

  // ── Reading undoes printing ──────────────────────────────────────────

  lemma DecimalParses(n: nat)
    requires n < U64_LIMIT
    ensures NumberOf(DecimalOf(n)) == Some(n)
    ensures IsIdentifier(DecimalOf(n)) && '.' !in DecimalOf(n) && '-' !in DecimalOf(n) && '+' !in DecimalOf(n)
  {
    ValueOfDecimal(n);
    assert forall c <- DecimalOf(n) :: IsDigit(c);
  }

  lemma PartParses(part: Part)
    requires ValidPart(part)
    ensures PartOf(PartText(part)) == Some(part)
    ensures '.' !in PartText(part) && '+' !in PartText(part)
  {
    hide NumberOf, DecimalOf;
    match part
    case Number(n) => DecimalParses(n);
    case Text(text) => assert forall c <- text :: IsIdentifierChar(c);
  }

  lemma {:induction false} PartsParse(parts: seq<Part>)
    requires forall p <- parts :: ValidPart(p)
    ensures PartsOf(PartTexts(parts)) == Some(parts)
    ensures forall s <- PartTexts(parts) :: '.' !in s && '+' !in s
  {
    hide PartOf, PartText, ValidPart;
    if parts == [] {
    } else {
      PartParses(parts[0]);
      PartsParse(parts[1..]);
      assert PartTexts(parts) == [PartText(parts[0])] + PartTexts(parts[1..]);
      assert PartTexts(parts)[1..] == PartTexts(parts[1..]);
      assert [parts[0]] + parts[1..] == parts;
    }
  }

  lemma CoreParses(version: Version, pre: seq<Part>)
    requires Valid(version)
    ensures var core := Join(CoreOf(version), '.');
            CoreNumbers(core, pre) == Some(version.(pre := pre)) && '-' !in core && '+' !in core && 'v' !in core
  {
    hide DecimalOf, NumberOf;
    DecimalParses(version.major);
    DecimalParses(version.minor);
    DecimalParses(version.patch);
    var core := CoreOf(version);
    SplitOfJoin(core, '.');
    assert forall s <- core :: AllDigits(s);
    NoneOfThese(core);
  }

  lemma NoneOfThese(core: seq<string>)
    requires forall s <- core :: AllDigits(s)
    ensures '-' !in Join(core, '.') && '+' !in Join(core, '.') && 'v' !in Join(core, '.')
  {
    JoinHas(core, '.', '-');
    JoinHas(core, '.', '+');
    JoinHas(core, '.', 'v');
  }

  lemma BareOfPrinted(version: Version)
    requires Valid(version)
    ensures Bare(Printed(version)) == Printed(version) && Bare("v" + Printed(version)) == Printed(version)
  {
    hide IndexOf, CoreNumbers, Valid, Join, PartsOf;
    var text := Printed(version);
    PrintedLacks(version);
    IndexIs(text, '+', |text|);
    assert ("v" + text)[1..] == text && text[..|text|] == text;
  }

  lemma PrintedLacks(version: Version)
    requires Valid(version)
    ensures '+' !in Printed(version) && Printed(version) != "" && Printed(version)[0] != 'v'
  {
    hide PartsOf, CoreNumbers;
    CoreParses(version, []);
    PartsParse(version.pre);
    JoinHas(PartTexts(version.pre), '.', '+');
    var core := Join(CoreOf(version), '.');
    assert core != "" && core[0] in core;
  }

  lemma PrintedPieces(version: Version)
    ensures var core := Join(CoreOf(version), '.');
            Printed(version) == if version.pre == [] then core else core + ['-'] + Join(PartTexts(version.pre), '.')
  {
    hide Join;
    var core, tail := Join(CoreOf(version), '.'), Join(PartTexts(version.pre), '.');
    assert core + "" == core;
    assert core + ("-" + tail) == core + ['-'] + tail;
  }

  // Every version prints to text that reads back as it, with or without a v in front.
  lemma PrintedParses(version: Version)
    requires Valid(version)
    ensures Parsed(Printed(version)) == Some(version) && Parsed("v" + Printed(version)) == Some(version)
  {
    hide PartsOf, CoreNumbers, Split, Join, PartTexts, Valid, Printed;
    BareOfPrinted(version);
    var text, core := Printed(version), Join(CoreOf(version), '.');
    PrintedPieces(version);
    CoreParses(version, version.pre);
    if version.pre == [] {
      assert text[..|text|] == text;
      IndexIs(text, '-', |text|);
    } else {
      var tail := Join(PartTexts(version.pre), '.');
      assert text[..|core|] == core && text[|core| + 1..] == tail;
      IndexIs(text, '-', |core|);
      ValidPre(version);
      PartsParse(version.pre);
      TextsNotNone(version.pre);
      SplitOfJoin(PartTexts(version.pre), '.');
    }
  }

  lemma ValidPre(version: Version)
    requires Valid(version)
    ensures forall p <- version.pre :: ValidPart(p)
  {
  }

  lemma TextsNotNone(parts: seq<Part>)
    requires parts != []
    ensures PartTexts(parts) != []
  {
  }

  // What is read is a version.
  lemma ParsedIsValid(text: string)
    requires Parsed(text).Some?
    ensures Valid(Parsed(text).value)
  {
    var rest := Bare(text);
    var i := IndexOf(rest, '-');
    if i < |rest| {
      PartsAreValid(Split(rest[i + 1..], '.'));
    }
  }

  lemma {:induction false} PartsAreValid(texts: seq<string>)
    requires PartsOf(texts).Some?
    ensures forall p <- PartsOf(texts).value :: ValidPart(p)
    ensures |PartsOf(texts).value| == |texts|
    ensures forall i :: 0 <= i < |texts| ==> PartOf(texts[i]) == Some(PartsOf(texts).value[i])
  {
    if texts == [] {
    } else {
      PartsAreValid(texts[1..]);
      assert ValidPart(PartOf(texts[0]).value);
    }
  }

  // ── Tags ─────────────────────────────────────────────────────────────

  // The version of a tag that is written as the project writes them.
  function TagVersion(tag: string): Option<Version> {
    match Parsed(tag)
    case Some(version) => if tag == "v" + Printed(version) then Some(version) else None
    case None => None
  }

  // A tag counts exactly when it is a v and a printed version; so different tags are different versions.
  lemma TagsArePrintedVersions(tag: string, version: Version)
    ensures TagVersion(tag) == Some(version) <==> Valid(version) && tag == "v" + Printed(version)
  {
    hide Printed, Parsed;
    if Parsed(tag).Some? {
      ParsedIsValid(tag);
    }
    if Valid(version) {
      PrintedParses(version);
    }
  }

  // The numeric and alphanumeric identifiers of section 2 and section 9 of Semantic Versioning 2.0.0.
  predicate NumericIdentifier(s: string) {
    s != "" && AllDigits(s) && NoLeadingZero(s)
  }

  predicate PreIdentifier(s: string) {
    if AllDigits(s) then NumericIdentifier(s) else IsIdentifier(s)
  }

  predicate InRange(s: string) {
    AllDigits(s) ==> ValueOf(s) < 0x1_0000_0000_0000_0000
  }

  // The text of a version without build metadata, its numbers of at most 64 bits.
  predicate IsSemVer(text: string) {
    var i := IndexOf(text, '-');
    var core := Split(text[..i], '.');
    && |core| == 3 && (forall s <- core :: NumericIdentifier(s) && InRange(s))
    && (i < |text| ==> forall s <- Split(text[i + 1..], '.') :: PreIdentifier(s) && InRange(s))
  }

  lemma NumberPrintsBack(s: string)
    requires NumberOf(s).Some?
    ensures DecimalOf(NumberOf(s).value) == s <==> NoLeadingZero(s)
  {
    DecimalOfValue(s);
  }

  lemma PartPrintsBack(s: string)
    ensures PreIdentifier(s) && InRange(s) <==> PartOf(s).Some? && PartText(PartOf(s).value) == s
  {
    hide ValueOf, DecimalOf;
    if NumberOf(s).Some? {
      NumberPrintsBack(s);
    }
    if s != "" && AllDigits(s) {
      assert forall c <- s :: IsDigit(c);
    }
  }

  lemma {:induction false} PartsPrintBack(texts: seq<string>)
    ensures (forall s <- texts :: PreIdentifier(s) && InRange(s)) <==>
            PartsOf(texts).Some? && PartTexts(PartsOf(texts).value) == texts
  {
    hide PreIdentifier, InRange, PartOf, PartText;
    if texts == [] {
    } else {
      PartPrintsBack(texts[0]);
      PartsPrintBack(texts[1..]);
      assert texts == [texts[0]] + texts[1..];
      if PartsOf(texts).Some? {
        var part, rest := PartOf(texts[0]).value, PartsOf(texts[1..]).value;
        assert PartTexts([part] + rest) == [PartText(part)] + PartTexts(rest);
        assert PartTexts([part] + rest)[0] == PartText(part) && PartTexts([part] + rest)[1..] == PartTexts(rest);
      }
    }
  }

  lemma CorePrintsBack(core: string, pre: seq<Part>)
    ensures var numbers := Split(core, '.');
            |numbers| == 3 && (forall s <- numbers :: NumericIdentifier(s) && InRange(s)) <==>
            CoreNumbers(core, pre).Some? && CoreOf(CoreNumbers(core, pre).value) == numbers
  {
    hide DecimalOf, NoLeadingZero, ValueOf, Split;
    var numbers := Split(core, '.');
    forall s | s in numbers
      ensures NumericIdentifier(s) && InRange(s) <==> NumberOf(s).Some? && DecimalOf(NumberOf(s).value) == s
    {
      if NumberOf(s).Some? {
        NumberPrintsBack(s);
      }
    }
    if |numbers| == 3 {
      assert numbers == [numbers[0], numbers[1], numbers[2]];
      assert numbers[0] in numbers && numbers[1] in numbers && numbers[2] in numbers;
    }
  }

  // Printing gives the text back exactly when it is a version by the standard's grammar.
  lemma SemVerPrintsBack(text: string)
    ensures IsSemVer(text) <==> ReadBare(text).Some? && Printed(ReadBare(text).value) == text
  {
    hide Split, Join, PartsOf, PartTexts, NumericIdentifier, PreIdentifier, InRange, CoreNumbers, CoreOf, Printed;
    var i := IndexOf(text, '-');
    var core := text[..i];
    if i == |text| {
      assert core == text;
      CorePrintsBack(core, []);
      if CoreNumbers(core, []).Some? {
        CoreGivesPre(core, []);
        PrintedIs(CoreNumbers(core, []).value, core, "");
      }
    } else {
      var tail := text[i + 1..];
      assert text == core + ['-'] + tail;
      PartsPrintBack(Split(tail, '.'));
      if PartsOf(Split(tail, '.')).Some? {
        var pre := PartsOf(Split(tail, '.')).value;
        CorePrintsBack(core, pre);
        if CoreNumbers(core, pre).Some? {
          CoreGivesPre(core, pre);
          PartsAreValid(Split(tail, '.'));
          PrintedIs(CoreNumbers(core, pre).value, core, tail);
        }
      }
    }
  }

  lemma CoreGivesPre(core: string, pre: seq<Part>)
    requires CoreNumbers(core, pre).Some?
    ensures CoreNumbers(core, pre).value.pre == pre && '-' !in core
  {
    JoinOfSplit(core, '.');
    var numbers := Split(core, '.');
    assert numbers == [numbers[0], numbers[1], numbers[2]];
    assert forall s <- numbers :: AllDigits(s);
    NoneOfThese(numbers);
  }

  // Two texts with the same first hyphen, taken apart.
  lemma SameHyphen(a: string, b: string, c: string, d: string)
    requires '-' !in a && '-' !in c
    ensures a + ['-'] + b == c + ['-'] + d <==> a == c && b == d
  {
    var left, right := a + ['-'] + b, c + ['-'] + d;
    assert left[..|a|] == a && left[|a| + 1..] == b;
    assert right[..|c|] == c && right[|c| + 1..] == d;
    IndexIs(left, '-', |a|);
    IndexIs(right, '-', |c|);
  }

  lemma SameParts(parts: seq<string>, s: string)
    requires parts != [] && forall p <- parts :: '.' !in p
    ensures Join(parts, '.') == s <==> parts == Split(s, '.')
  {
    SplitOfJoin(parts, '.');
    JoinOfSplit(s, '.');
  }

  lemma PrintedIs(version: Version, core: string, tail: string)
    requires '-' !in core && forall p <- version.pre :: ValidPart(p)
    ensures Printed(version) == (if version.pre == [] then core else core + ['-'] + tail) <==>
            CoreOf(version) == Split(core, '.') && (version.pre == [] || PartTexts(version.pre) == Split(tail, '.'))
  {
    hide Split, Join, PartTexts, Printed, ValidPart;
    PrintedPieces(version);
    var numbers := CoreOf(version);
    assert forall s <- numbers :: AllDigits(s);
    NoneOfThese(numbers);
    SameParts(numbers, core);
    if version.pre != [] {
      PartsParse(version.pre);
      TextsNotNone(version.pre);
      SameParts(PartTexts(version.pre), tail);
      SameHyphen(Join(numbers, '.'), Join(PartTexts(version.pre), '.'), core, tail);
    }
  }

  // So the tags that count are a v and a version by that grammar, and nothing else.
  lemma TagsAreSemVer(tag: string)
    ensures TagVersion(tag).Some? <==> tag != "" && tag[0] == 'v' && '+' !in tag && IsSemVer(tag[1..])
  {
    hide IsSemVer, ReadBare, Printed;
    if tag != "" && tag[0] == 'v' {
      assert ("v" + tag[1..]) == tag;
      var rest := tag[1..];
      if '+' !in tag {
        IndexIs(rest, '+', |rest|);
        assert Bare(tag) == rest;
        SemVerPrintsBack(rest);
        assert forall t: string :: tag == "v" + t <==> rest == t;
      } else if TagVersion(tag).Some? {
        var version := TagVersion(tag).value;
        TagsArePrintedVersions(tag, version);
        PrintedLacks(version);
      }
    }
  }
}
