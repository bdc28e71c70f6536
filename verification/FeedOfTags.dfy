// A feed made from a list of releases, as the site writes it, reads back as those releases.
module FeedOfTags {
  import opened Wrappers
  import opened Texts
  import opened Marks
  import opened Versions
  import opened VersionOrder
  import opened Feed

  // One entry: what comes before the link to the page, the tag in it, what comes between the link
  // and the notes, the notes, the rest of the entry, and what follows it.
  datatype Entry = Entry(lead: string, tag: string, mid: string, notes: string, tail: string, gap: string)

  function Body(e: Entry, page: string): string {
    e.lead + (page + (e.tag + ("\"" + e.mid)))
  }

  function Ending(e: Entry): string {
    e.tail + (END_ENTRY + e.gap)
  }

  predicate StartsTag(s: string) {
    s == "" || s[0] == '<'
  }

  // No part holds a mark that belongs to another, and the link to the page is the first in its entry.
  ghost predicate WellMade(e: Entry, page: string) {
    && Lacks(Body(e, page), OPEN) && Lacks(Body(e, page), ENTRY) && Lacks(Body(e, page), END_ENTRY)
    && IsFirst(Body(e, page), page, Some(|e.lead|))
    && '"' !in e.tag
    && Lacks(e.notes, CLOSE)
    && StartsTag(e.tail) && Lacks(e.tail, OPEN) && Lacks(e.tail, ENTRY) && Lacks(e.tail, END_ENTRY)
    && Lacks(e.gap, OPEN) && Lacks(e.gap, ENTRY)
  }

  function EntriesText(entries: seq<Entry>, page: string, footer: string): string {
    if entries == [] then footer
    else
      (ENTRY + Body(entries[0], page)) +
      (Section(entries[0].notes) + (Ending(entries[0]) + EntriesText(entries[1..], page, footer)))
  }

  // The same without the notes.
  function Bared(entries: seq<Entry>, page: string, footer: string): string {
    if entries == [] then footer
    else ENTRY + ((Body(entries[0], page) + Ending(entries[0])) + Bared(entries[1..], page, footer))
  }

  function FeedText(header: string, entries: seq<Entry>, page: string, footer: string): string {
    header + EntriesText(entries, page, footer)
  }

  lemma StartsWithTag(entries: seq<Entry>, page: string, footer: string)
    requires StartsTag(footer)
    ensures StartsTag(EntriesText(entries, page, footer)) && StartsTag(Bared(entries, page, footer))
  {
    TheMarks();
  }

  lemma PlainCut(a: string, b: string)
    requires Lacks(a, OPEN) && StartsTag(b)
    ensures WithoutContent(a + b) == a + WithoutContent(b)
  {
    hide FindText, Lacks, WithoutContent;
    FoundOrLacks(a, OPEN);
    PlainIsClosed(a);
    CutInBoth(a, b);
  }

  lemma EndingLacks(e: Entry, page: string)
    requires WellMade(e, page)
    ensures Lacks(Ending(e), OPEN) && Lacks(Ending(e), ENTRY) && Lacks(ENTRY + Body(e, page), OPEN)
    ensures Lacks(Body(e, page) + Ending(e), ENTRY)
    ensures StartsTag(Ending(e))
  {
    hide Lacks, IsMark, IsFirst, Body;
    TheMarks();
    LacksAfterMark(ENTRY, Body(e, page), OPEN);
    LacksAfterMark(END_ENTRY, e.gap, OPEN);
    LacksAfterMark(END_ENTRY, e.gap, ENTRY);
    LacksBoth(e.tail, END_ENTRY + e.gap, OPEN);
    LacksBoth(e.tail, END_ENTRY + e.gap, ENTRY);
    LacksBoth(Body(e, page), Ending(e), ENTRY);
  }

  lemma {:induction false} BaredIsCut(entries: seq<Entry>, page: string, footer: string)
    requires forall e <- entries :: WellMade(e, page)
    requires StartsTag(footer) && Lacks(footer, OPEN)
    ensures WithoutContent(EntriesText(entries, page, footer)) == Bared(entries, page, footer)
  {
    hide Lacks, WithoutContent, WellMade, Body, Ending, FindText, IsFirst, StartsTag;
    if entries == [] {
      FoundOrLacks(footer, OPEN);
      PlainIsClosed(footer);
    } else {
      var e, rest := entries[0], EntriesText(entries[1..], page, footer);
      BaredIsCut(entries[1..], page, footer);
      EndingLacks(e, page);
      NotesLackClose(e, page);
      StartsWithTag(entries[1..], page, footer);
      PlainCut(Ending(e), rest);
      CutSection(e.notes, Ending(e) + rest);
      SectionStarts(e.notes, Ending(e) + rest);
      PlainCut(ENTRY + Body(e, page), Section(e.notes) + (Ending(e) + rest));
      var bare := Bared(entries[1..], page, footer);
      Regroup(ENTRY, Body(e, page), Ending(e) + bare);
      Regroup(Body(e, page), Ending(e), bare);
    }
  }

  lemma NotesLackClose(e: Entry, page: string)
    requires WellMade(e, page)
    ensures Lacks(e.notes, CLOSE)
  {
  }

  lemma SectionStarts(notes: string, rest: string)
    ensures StartsTag(Section(notes) + rest)
  {
  }

  // ── The pieces ───────────────────────────────────────────────────────

  // What the reader sees of each entry; the last one runs on to the end.
  function Seen(entries: seq<Entry>, page: string, footer: string): seq<string> {
    if entries == [] then []
    else
      var text := Body(entries[0], page) + Ending(entries[0]);
      [if |entries| == 1 then text + footer else text] + Seen(entries[1..], page, footer)
  }

  lemma PieceAtMark(a: string, rest: string)
    requires Lacks(a, ENTRY)
    ensures Pieces(a + (ENTRY + rest), ENTRY) == [a] + Pieces(rest, ENTRY)
  {
    hide Lacks, IsMark, FindText, IsFirst;
    TheMarks();
    FindMark(a, ENTRY, rest);
    ApartAtMark(a, ENTRY, rest);
  }

  lemma ApartAtMark(a: string, mark: string, rest: string)
    ensures (a + (mark + rest))[..|a|] == a && (a + (mark + rest))[|a| + |mark|..] == rest
  {
  }

  lemma OnePiece(a: string, footer: string)
    requires Lacks(a, ENTRY) && Lacks(footer, ENTRY) && StartsTag(footer)
    ensures Pieces(a + footer, ENTRY) == [a + footer]
  {
    hide Lacks, IsMark, FindText, IsFirst;
    TheMarks();
    LacksBoth(a, footer, ENTRY);
    FoundOrLacks(a + footer, ENTRY);
  }

  lemma {:induction false} PiecesSeen(a: string, entries: seq<Entry>, page: string, footer: string)
    requires Lacks(a, ENTRY) && forall e <- entries :: WellMade(e, page)
    requires StartsTag(footer) && Lacks(footer, ENTRY)
    ensures Pieces(a + Bared(entries, page, footer), ENTRY)
            == if entries == [] then [a + footer] else [a] + Seen(entries, page, footer)
    decreases |entries|
  {
    hide Lacks, Pieces, WellMade, Body, Ending, FindText, IsFirst, StartsTag;
    if entries == [] {
      OnePiece(a, footer);
    } else {
      var text := Body(entries[0], page) + Ending(entries[0]);
      EndingLacks(entries[0], page);
      PieceAtMark(a, text + Bared(entries[1..], page, footer));
      PiecesSeen(text, entries[1..], page, footer);
    }
  }

  // ── The tags ─────────────────────────────────────────────────────────

  lemma TagSeen(e: Entry, page: string, more: string)
    requires WellMade(e, page)
    ensures EntryTag((Body(e, page) + Ending(e)) + more, page) == Some(e.tag)
  {
    hide Lacks, IsMark, FindText, IsFirst, Body, Ending;
    TheMarks();
    LacksBoth(Body(e, page), e.tail, END_ENTRY);
    FindMark(Body(e, page) + e.tail, END_ENTRY, e.gap + more);
    EntryApart(e, page, more);
    PageFound(e, page);
    TagInBody(e, page);
  }

  lemma TagInBody(e: Entry, page: string)
    requires WellMade(e, page)
    ensures var rest := (Body(e, page) + e.tail)[|e.lead| + |page|..]; rest[..IndexOf(rest, '"')] == e.tag
  {
    hide Lacks, IsFirst, IndexOf;
    LinkApart(e, page);
    ApartAtMark(e.lead, page, e.tag + ("\"" + e.mid) + e.tail);
    QuoteFound(e.tag, e.mid + e.tail);
  }

  lemma EntryApart(e: Entry, page: string, more: string)
    ensures var body := Body(e, page) + e.tail;
            var text := (Body(e, page) + Ending(e)) + more;
            text == body + (END_ENTRY + (e.gap + more)) && text[..|body|] == body
  {
    hide Body;
    GroupFour(Body(e, page), e.tail, END_ENTRY, e.gap, more);
  }

  lemma GroupFour(a: string, b: string, c: string, d: string, f: string)
    ensures (a + (b + (c + d))) + f == (a + b) + (c + (d + f))
    ensures ((a + b) + (c + (d + f)))[..|a + b|] == a + b
  {
  }

  // The first link stays the first when more text follows.
  lemma PageFound(e: Entry, page: string)
    requires WellMade(e, page)
    ensures FindText(Body(e, page) + e.tail, page) == Some(|e.lead|)
  {
    hide Body;
    var body, text := Body(e, page), Body(e, page) + e.tail;
    forall i | 0 <= i <= |e.lead| ensures Occurs(text, page, i) == Occurs(body, page, i) {
      assert i + |page| <= |body|;
      assert text[i..i + |page|] == body[i..i + |page|];
    }
    FirstIsUnique(text, page, Some(|e.lead|));
  }

  lemma LinkApart(e: Entry, page: string)
    ensures Body(e, page) + e.tail == e.lead + (page + (e.tag + ("\"" + e.mid) + e.tail))
    ensures e.tag + ("\"" + e.mid) + e.tail == e.tag + ("\"" + (e.mid + e.tail))
  {
    GroupFive(e.lead, page, e.tag, "\"", e.mid, e.tail);
  }

  lemma GroupFive(a: string, b: string, c: string, d: string, f: string, g: string)
    ensures (a + (b + (c + (d + f)))) + g == a + (b + (c + (d + f) + g))
    ensures c + (d + f) + g == c + (d + (f + g))
  {
  }

  lemma QuoteFound(tag: string, rest: string)
    requires '"' !in tag
    ensures var s := tag + ("\"" + rest); IndexOf(s, '"') == |tag| && s[..|tag|] == tag
  {
    var s := tag + ("\"" + rest);
    assert s[..|tag|] == tag;
    IndexIs(s, '"', |tag|);
  }

  // The releases of those tags that are versions, in order.
  function ReleasesOf(entries: seq<Entry>, pageBase: string): seq<Release> {
    if entries == [] then []
    else
      (match ForTag(entries[0].tag, pageBase) case Some(release) => [release] case None => [])
      + ReleasesOf(entries[1..], pageBase)
  }

  lemma {:induction false} ReleasesFromFirst(first: string, rest: seq<string>, pageBase: string)
    ensures ReleasesIn([first] + rest, pageBase) == ReleaseIn(first, pageBase) + ReleasesIn(rest, pageBase)
    decreases |rest|
  {
    hide ReleaseIn;
    if rest == [] {
      assert [first] + rest == [first] && [first][..0] == [];
      assert [] + ReleaseIn(first, pageBase) == ReleaseIn(first, pageBase) + [];
    } else {
      var n := |rest| - 1;
      ReleasesFromFirst(first, rest[..n], pageBase);
      assert ([first] + rest)[..n + 1] == [first] + rest[..n];
    }
  }

  lemma {:induction false} SeenGivesReleases(entries: seq<Entry>, pageBase: string, footer: string)
    requires forall e <- entries :: WellMade(e, PageMark(pageBase))
    ensures ReleasesIn(Seen(entries, PageMark(pageBase), footer), pageBase) == ReleasesOf(entries, pageBase)
  {
    hide ReleasesIn, EntryTag, Body, Ending, WellMade, ForTag, PageMark;
    if entries == [] {
      NoReleases(pageBase);
    } else {
      var page, e := PageMark(pageBase), entries[0];
      var text := Body(e, page) + Ending(e);
      assert text + "" == text;
      TagSeen(e, page, if |entries| == 1 then footer else "");
      SeenGivesReleases(entries[1..], pageBase, footer);
      ReleasesFromFirst(Seen(entries, page, footer)[0], Seen(entries[1..], page, footer), pageBase);
    }
  }

  lemma NoReleases(pageBase: string)
    ensures ReleasesIn([], pageBase) == []
  {
  }

  // A feed of any entries so made reads as the releases of its tags that are versions, in order.
  lemma FeedReadsBack(header: string, entries: seq<Entry>, footer: string, pageBase: string)
    requires forall e <- entries :: WellMade(e, PageMark(pageBase))
    requires !Lacks(header, FEED) && Lacks(header, OPEN) && Lacks(header, ENTRY)
    requires StartsTag(footer) && Lacks(footer, OPEN) && Lacks(footer, ENTRY)
    ensures Feed.Parsed(FeedText(header, entries, PageMark(pageBase), footer), pageBase)
            == Some(ReleasesOf(entries, pageBase))
  {
    hide Lacks, WithoutContent, Pieces, WellMade, FindText, IsFirst, IsMark, ReleasesIn, PageMark, StartsTag;
    TheMarks();
    var page := PageMark(pageBase);
    var text := EntriesText(entries, page, footer);
    StartsWithTag(entries, page, footer);
    TagOrNothing(text);
    LacksBoth(header, text, FEED);
    FoundOrLacks(header + text, FEED);
    PlainCut(header, text);
    BaredIsCut(entries, page, footer);
    PiecesSeen(header, entries, page, footer);
    SeenGivesReleases(entries, pageBase, footer);
    var seen := Seen(entries, page, footer);
    assert ([header] + seen)[1..] == seen && [header + footer][1..] == [];
    if entries == [] {
      NoReleases(pageBase);
    }
  }

  lemma TagOrNothing(s: string)
    requires StartsTag(s)
    ensures s == "" || s[0] == '<'
  {
  }

  // ── From nothing but tags and notes ──────────────────────────────────

  const LEAD := "<link rel=\"alternate\" "

  function PlainEntry(tag: string, notes: string): Entry {
    Entry(LEAD, tag, "/>", notes, "", "\n")
  }

  lemma PlainEntryIsWellMade(tag: string, notes: string, pageBase: string)
    requires '<' !in tag && '"' !in tag && '<' !in pageBase && Lacks(notes, CLOSE)
    ensures WellMade(PlainEntry(tag, notes), PageMark(pageBase))
  {
    var e, page := PlainEntry(tag, notes), PageMark(pageBase);
    OnlyFirstTag(tag, pageBase);
    NoMarkInside(Body(e, page), OPEN);
    NoMarkInside(Body(e, page), ENTRY);
    NoMarkInside(Body(e, page), END_ENTRY);
    FirstLink(tag, pageBase);
    NoTagNoMark("\n", OPEN);
    NoTagNoMark("\n", ENTRY);
    NoTagNoMark("\n", END_ENTRY);
  }

  lemma OnlyFirstTag(tag: string, pageBase: string)
    requires '<' !in tag && '<' !in pageBase
    ensures var body := Body(PlainEntry(tag, ""), PageMark(pageBase));
            && |body| >= 2 && body[1] == 'l' && forall i :: 0 < i < |body| ==> body[i] != '<'
  {
    var rest := PageMark(pageBase) + (tag + ("\"" + "/>"));
    assert '<' !in PageMark(pageBase) && '<' !in rest;
    assert Body(PlainEntry(tag, ""), PageMark(pageBase)) == LEAD + rest;
    assert forall i :: 0 < i < |LEAD| ==> LEAD[i] != '<';
  }

  lemma NoMarkInside(s: string, mark: string)
    requires |s| >= 2 && s[1] == 'l' && forall i :: 0 < i < |s| ==> s[i] != '<'
    requires |mark| >= 2 && mark[0] == '<' && mark[1] != 'l'
    ensures Lacks(s, mark)
  {
    forall i | 0 <= i <= |s| ensures !Occurs(s, mark, i) {
      OccursStarts(s, mark, i);
    }
  }

  lemma NoTagNoMark(s: string, mark: string)
    requires '<' !in s && |mark| >= 2 && mark[0] == '<'
    ensures Lacks(s, mark) && Lacks("", mark)
  {
    forall i | 0 <= i <= |s| ensures !Occurs(s, mark, i) {
      OccursStarts(s, mark, i);
    }
  }

  lemma FirstLink(tag: string, pageBase: string)
    ensures IsFirst(Body(PlainEntry(tag, ""), PageMark(pageBase)), PageMark(pageBase), Some(|LEAD|))
  {
    var page := PageMark(pageBase);
    var rest := tag + ("\"" + "/>");
    NoLinkInLead();
    assert page[0] == 'h';
    FirstAfter(LEAD, page, rest);
  }

  lemma NoLinkInLead()
    ensures 'h' !in LEAD
  {
  }

  lemma FirstAfter(lead: string, page: string, rest: string)
    requires |page| >= 2 && page[0] !in lead
    ensures IsFirst(lead + (page + rest), page, Some(|lead|))
  {
    var body := lead + (page + rest);
    assert body[|lead|..|lead| + |page|] == page;
    forall i | 0 <= i < |lead| ensures !Occurs(body, page, i) {
      OccursStarts(body, page, i);
      assert body[i] == lead[i] && lead[i] in lead;
    }
  }

  function PlainEntries(tags: seq<string>, notes: seq<string>): seq<Entry>
    requires |tags| == |notes|
  {
    seq(|tags|, i requires 0 <= i < |tags| => PlainEntry(tags[i], notes[i]))
  }

  // Such a feed in full.
  function PlainFeed(tags: seq<string>, notes: seq<string>, pageBase: string): string
    requires |tags| == |notes|
  {
    "<feed>" + PlainRest(tags, notes, pageBase)
  }

  function PlainRest(tags: seq<string>, notes: seq<string>, pageBase: string): string
    requires |tags| == |notes|
  {
    if tags == [] then "</feed>"
    else
      ("<entry><link rel=\"alternate\" href=\"" + pageBase + "/" + tags[0] + "\"/>")
      + ("<content" + notes[0] + "</content>")
      + ("</entry>\n" + PlainRest(tags[1..], notes[1..], pageBase))
  }

  lemma PlainBody(tag: string, notes: string, pageBase: string)
    ensures "<entry><link rel=\"alternate\" href=\"" + pageBase + "/" + tag + "\"/>"
            == ENTRY + Body(PlainEntry(tag, notes), PageMark(pageBase))
  {
    LinkStart();
    BodyInPieces(ENTRY, LEAD, "href=\"", pageBase, tag);
  }

  lemma LinkStart()
    ensures "<entry><link rel=\"alternate\" href=\"" == ENTRY + LEAD + "href=\""
    ensures "\"/>" == "\"" + "/>"
  {
  }

  lemma BodyInPieces(entry: string, lead: string, link: string, pageBase: string, tag: string)
    ensures entry + lead + link + pageBase + "/" + tag + ("\"" + "/>")
            == entry + (lead + ((link + pageBase + "/") + (tag + ("\"" + "/>"))))
  {
  }

  lemma PlainEnding(tag: string, notes: string, rest: string)
    ensures "</entry>\n" + rest == Ending(PlainEntry(tag, notes)) + rest
  {
    assert "</entry>\n" == END_ENTRY + "\n" == "" + (END_ENTRY + "\n");
  }

  lemma {:induction false} PlainRestIs(tags: seq<string>, notes: seq<string>, pageBase: string)
    requires |tags| == |notes|
    ensures PlainRest(tags, notes, pageBase)
            == EntriesText(PlainEntries(tags, notes), PageMark(pageBase), "</feed>")
  {
    hide Body, Ending, PageMark;
    if tags == [] {
    } else {
      PlainRestIs(tags[1..], notes[1..], pageBase);
      assert PlainEntries(tags, notes)[1..] == PlainEntries(tags[1..], notes[1..]);
      var rest := PlainRest(tags[1..], notes[1..], pageBase);
      PlainBody(tags[0], notes[0], pageBase);
      PlainEnding(tags[0], notes[0], rest);
      assert "<content" + notes[0] + "</content>" == Section(notes[0]);
    }
  }

  function VersionTags(tags: seq<string>): seq<string> {
    if tags == [] then []
    else (if TagVersion(tags[0]).Some? then [tags[0]] else []) + VersionTags(tags[1..])
  }

  // The releases of these tags, each with its version and the address of its page.
  predicate Lists(releases: seq<Release>, tags: seq<string>, pageBase: string) {
    && |releases| == |tags|
    && forall i :: 0 <= i < |tags| ==>
         && releases[i].tag == tags[i] && TagVersion(tags[i]) == Some(releases[i].version)
         && releases[i].page == pageBase + "/" + tags[i]
  }

  lemma {:induction false} ReleasesListed(tags: seq<string>, notes: seq<string>, pageBase: string)
    requires |tags| == |notes|
    ensures Lists(ReleasesOf(PlainEntries(tags, notes), pageBase), VersionTags(tags), pageBase)
  {
    hide TagVersion;
    if tags == [] {
    } else {
      ReleasesListed(tags[1..], notes[1..], pageBase);
      assert PlainEntries(tags, notes)[1..] == PlainEntries(tags[1..], notes[1..]);
    }
  }

  // Whatever the tags and whatever the notes say, short of ending their section, the list is that of
  // the tags that are versions.
  lemma TagsReadBack(tags: seq<string>, notes: seq<string>, pageBase: string)
    requires |tags| == |notes| && '<' !in pageBase
    requires forall t <- tags :: '<' !in t && '"' !in t
    requires forall n <- notes :: Lacks(n, "</content>")
    ensures var releases := Feed.Parsed(PlainFeed(tags, notes, pageBase), pageBase);
            releases.Some? && Lists(releases.value, VersionTags(tags), pageBase)
  {
    hide Lacks, WellMade, PageMark, ReleasesOf, PlainRest, VersionTags, Lists;
    var entries := PlainEntries(tags, notes);
    forall e | e in entries ensures WellMade(e, PageMark(pageBase)) {
      var i :| 0 <= i < |entries| && e == entries[i];
      PlainEntryIsWellMade(tags[i], notes[i], pageBase);
    }
    PlainEnds();
    FeedReadsBack("<feed>", entries, "</feed>", pageBase);
    PlainRestIs(tags, notes, pageBase);
    ReleasesListed(tags, notes, pageBase);
  }

  lemma PlainEnds()
    ensures !Lacks("<feed>", FEED) && Lacks("<feed>", OPEN) && Lacks("<feed>", ENTRY)
    ensures Lacks("</feed>", OPEN) && Lacks("</feed>", ENTRY)
  {
    assert Occurs("<feed>", FEED, 0);
    assert forall i :: 0 < i < 6 ==> "<feed>"[i] != '<';
    assert forall i :: 0 < i < 7 ==> "</feed>"[i] != '<';
    forall i | 0 <= i <= 7
      ensures !Occurs("<feed>", OPEN, i) && !Occurs("<feed>", ENTRY, i)
      ensures !Occurs("</feed>", OPEN, i) && !Occurs("</feed>", ENTRY, i)
    {
      OccursStarts("<feed>", OPEN, i);
      OccursStarts("<feed>", ENTRY, i);
      OccursStarts("</feed>", OPEN, i);
      OccursStarts("</feed>", ENTRY, i);
    }
  }
}
