// The list of releases, read from a feed whose notes are not to be trusted.
module Feed {
  import opened Wrappers
  import opened Texts
  import opened Marks
  import opened Versions
  import opened VersionOrder

  // ── Cutting the notes out ────────────────────────────────────────────

  const OPEN := "<content"
  const CLOSE := "</content>"
  const FEED := "<feed"
  const ENTRY := "<entry>"
  const END_ENTRY := "</entry>"

  lemma TheMarks()
    ensures IsMark(OPEN) && IsMark(CLOSE) && IsMark(FEED) && IsMark(ENTRY) && IsMark(END_ENTRY)
    ensures OPEN[0] == CLOSE[0] == FEED[0] == ENTRY[0] == END_ENTRY[0] == '<'
  {
  }

  function WithoutContent(text: string): string
    decreases |text|
  {
    match FindText(text, OPEN)
    case None => text
    case Some(start) =>
      match FindText(text[start..], CLOSE)
      case None => text[..start]
      case Some(end) => text[..start] + WithoutContent(text[start + end + |CLOSE|..])
  }

  lemma Regroup(a: string, b: string, c: string)
    ensures (a + b) + c == a + (b + c)
  {
  }

  method CutContent(text: string) returns (out: string)
    ensures out == WithoutContent(text)
  {
    hide FindText;
    out := "";
    var rest := text;
    var start := FindText(rest, OPEN);
    while start.Some?
      invariant start == FindText(rest, OPEN)
      invariant out + WithoutContent(rest) == WithoutContent(text)
      decreases |rest|, if start.Some? then 1 else 0
    {
      NothingToCut();
      var end := FindText(rest[start.value..], CLOSE);
      ghost var next := if end.Some? then rest[start.value + end.value + |CLOSE|..] else "";
      Regroup(out, rest[..start.value], WithoutContent(next));
      out := out + rest[..start.value];
      match end {
        case Some(e) => rest := rest[start.value + e + |CLOSE|..];
        case None => rest := "";
      }
      start := FindText(rest, OPEN);
    }
    out := out + rest;
  }

  lemma NothingToCut()
    ensures FindText("", OPEN) == None && WithoutContent("") == ""
  {
  }

  // Every section that `text` opens it also closes.
  predicate Closed(text: string)
    decreases |text|
  {
    match FindText(text, OPEN)
    case None => true
    case Some(start) =>
      match FindText(text[start..], CLOSE)
      case None => false
      case Some(end) => Closed(text[start + end + |CLOSE|..])
  }

  lemma {:induction false} CutInBoth(a: string, b: string)
    requires Closed(a) && (b == "" || b[0] == '<')
    ensures WithoutContent(a + b) == WithoutContent(a) + WithoutContent(b)
    ensures Closed(a + b) == Closed(b)
    decreases |a|
  {
    hide FindText, Lacks, IsMark, IsFirst, WithoutContent;
    TheMarks();
    FindInBoth(a, b, OPEN);
    match FindText(a, OPEN)
    case None =>
      CutAfterPlain(a, b);
      PlainIsClosed(a);
    case Some(start) =>
      assert (a + b)[start..] == a[start..] + b;
      FindInBoth(a[start..], b, CLOSE);
      var end := FindText(a[start..], CLOSE).value;
      CutAfterSection(a, b, start, end);
      CutInBoth(a[start + end + |CLOSE|..], b);
      Regroup(a[..start], WithoutContent(a[start + end + |CLOSE|..]), WithoutContent(b));
  }

  lemma CutAfterSection(a: string, b: string, start: nat, end: nat)
    requires FindText(a, OPEN) == FindText(a + b, OPEN) == Some(start)
    requires FindText(a[start..], CLOSE) == FindText((a + b)[start..], CLOSE) == Some(end)
    ensures var rest := a[start + end + |CLOSE|..];
            && WithoutContent(a) == a[..start] + WithoutContent(rest)
            && WithoutContent(a + b) == a[..start] + WithoutContent(rest + b)
            && Closed(a) == Closed(rest) && Closed(a + b) == Closed(rest + b)
  {
    hide FindText;
    assert (a + b)[start + end + |CLOSE|..] == a[start + end + |CLOSE|..] + b && (a + b)[..start] == a[..start];
  }

  lemma SliceLater(a: string, b: string, i: nat)
    requires i <= |b|
    ensures (a + b)[|a| + i..] == b[i..] && (a + b)[..|a| + i] == a + b[..i]
  {
  }

  lemma PlainIsClosed(a: string)
    requires FindText(a, OPEN) == None
    ensures WithoutContent(a) == a
  {
  }

  lemma CutAfterPlain(a: string, b: string)
    requires FindText(a, OPEN) == None
    requires FindText(a + b, OPEN) == Shifted(FindText(b, OPEN), |a|)
    ensures WithoutContent(a + b) == a + WithoutContent(b)
    ensures Closed(a + b) == Closed(b)
  {
    hide FindText, IsFirst, Lacks;
    if FindText(b, OPEN).Some? {
      CutAfterPlainFrom(a, b, FindText(b, OPEN).value);
    }
  }

  lemma CutAfterPlainFrom(a: string, b: string, start: nat)
    requires FindText(b, OPEN) == Some(start) && FindText(a + b, OPEN) == Some(|a| + start)
    ensures WithoutContent(a + b) == a + WithoutContent(b)
    ensures Closed(a + b) == Closed(b)
  {
    hide FindText, IsFirst, Lacks;
    SliceLater(a, b, start);
    if FindText(b[start..], CLOSE).Some? {
      var end := FindText(b[start..], CLOSE).value;
      SliceLater(a, b, start + end + |CLOSE|);
      Regroup(a, b[..start], WithoutContent(b[start + end + |CLOSE|..]));
    }
  }

  function Section(notes: string): string {
    OPEN + notes + CLOSE
  }

  lemma CutSection(notes: string, rest: string)
    requires Lacks(notes, CLOSE)
    ensures WithoutContent(Section(notes) + rest) == WithoutContent(rest)
  {
    hide FindText, Lacks, IsMark;
    TheMarks();
    LacksAfterMark(OPEN, notes, CLOSE);
    NothingToCut();
    FoundOrLacks("", OPEN);
    FindMark("", OPEN, notes + CLOSE + rest);
    FindMark(OPEN + notes, CLOSE, rest);
    SectionApart(OPEN, notes, CLOSE, rest);
  }

  lemma SectionApart(open: string, notes: string, close: string, rest: string)
    ensures var text := open + notes + close + rest;
            && text == "" + (open + (notes + close + rest))
            && text == (open + notes) + (close + rest)
            && text[0..] == text && text[..0] == "" && text[|open + notes| + |close|..] == rest
  {
  }

  // ── The releases ─────────────────────────────────────────────────────

  function Pieces(s: string, mark: string): (pieces: seq<string>)
    requires mark != ""
    ensures |pieces| >= 1
    decreases |s|
  {
    match FindText(s, mark)
    case None => [s]
    case Some(i) => [s[..i]] + Pieces(s[i + |mark|..], mark)
  }

  // The tag in the link to a release's page.
  function EntryTag(entry: string, page: string): Option<string> {
    var body := match FindText(entry, END_ENTRY) case Some(i) => entry[..i] case None => entry;
    match FindText(body, page)
    case None => None
    case Some(at) =>
      var rest := body[at + |page|..];
      Some(rest[..IndexOf(rest, '"')])
  }

  function ForTag(tag: string, pageBase: string): Option<Release> {
    match TagVersion(tag)
    case Some(version) => Some(Release(version, tag, pageBase + "/" + tag))
    case None => None
  }

  function PageMark(pageBase: string): string {
    "href=\"" + pageBase + "/"
  }

  function ReleaseIn(entry: string, pageBase: string): seq<Release> {
    match EntryTag(entry, PageMark(pageBase))
    case None => []
    case Some(tag) => (match ForTag(tag, pageBase) case Some(release) => [release] case None => [])
  }

  function ReleasesIn(entries: seq<string>, pageBase: string): seq<Release> {
    if entries == [] then []
    else ReleasesIn(entries[..|entries| - 1], pageBase) + ReleaseIn(entries[|entries| - 1], pageBase)
  }

  function Parsed(feed: string, pageBase: string): Option<seq<Release>> {
    if FindText(feed, FEED).None? then None
    else Some(ReleasesIn(Pieces(WithoutContent(feed), ENTRY)[1..], pageBase))
  }

  method Parse(feed: string, pageBase: string) returns (releases: Option<seq<Release>>)
    ensures releases == Parsed(feed, pageBase)
  {
    hide FindText, IsFirst, Pieces, WithoutContent, EntryTag, ForTag, PageMark;
    if FindText(feed, FEED).None? {
      return None;
    }
    var page := PageMark(pageBase);
    var text := CutContent(feed);
    var entries := Pieces(text, ENTRY)[1..];
    var found := [];
    for i := 0 to |entries|
      invariant found == ReleasesIn(entries[..i], pageBase)
    {
      assert entries[..i + 1][..i] == entries[..i];
      var tag := EntryTag(entries[i], page);
      if tag.Some? {
        var release := ForTag(tag.value, pageBase);
        if release.Some? {
          found := found + [release.value];
        }
      }
    }
    assert entries[..|entries|] == entries;
    return Some(found);
  }

  // ── What the notes say does not matter ───────────────────────────────

  lemma FeedInParts(a: string, notes: string, b: string)
    ensures Lacks(a + (Section(notes) + b), FEED) <==> Lacks(a, FEED) && Lacks(notes, FEED) && Lacks(b, FEED)
  {
    hide Lacks, IsMark;
    TheMarks();
    LacksBoth(a, Section(notes) + b, FEED);
    SectionApart(OPEN, notes, CLOSE, b);
    LacksBoth(OPEN + notes, CLOSE + b, FEED);
    LacksAfterMark(OPEN, notes, FEED);
    LacksAfterMark(CLOSE, b, FEED);
  }

  // Replacing the notes of a section by any other text that does not end it leaves the list as it
  // was, if and only if the feed is still one: its first mark is looked for in the notes as well.
  lemma NotesDoNotMatter(a: string, notes: string, notes': string, b: string, pageBase: string)
    requires Closed(a) && Lacks(notes, CLOSE) && Lacks(notes', CLOSE)
    ensures Parsed(a + (Section(notes) + b), pageBase) == Parsed(a + (Section(notes') + b), pageBase) <==>
            !Lacks(a, FEED) || !Lacks(b, FEED) || (Lacks(notes, FEED) <==> Lacks(notes', FEED))
  {
    hide FindText, Lacks, Closed, WithoutContent, ReleasesIn, Pieces;
    FoundOrLacks(a + (Section(notes) + b), FEED);
    FoundOrLacks(a + (Section(notes') + b), FEED);
    FeedInParts(a, notes, b);
    FeedInParts(a, notes', b);
    CutInBoth(a, Section(notes) + b);
    CutInBoth(a, Section(notes') + b);
    CutSection(notes, b);
    CutSection(notes', b);
  }
}
