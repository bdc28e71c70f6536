// Which of two versions is later, and what a person is offered.
module VersionOrder {
  import opened Wrappers
  import opened Versions

  datatype Ordering = Less | Equal | Greater

  function Then(first: Ordering, second: Ordering): Ordering {
    if first == Equal then second else first
  }

  function Reversed(order: Ordering): Ordering {
    match order case Less => Greater case Equal => Equal case Greater => Less
  }

  // ── The comparison ───────────────────────────────────────────────────

  function CompareNumbers(a: nat, b: nat): Ordering {
    if a < b then Less else if a == b then Equal else Greater
  }

  function CompareTexts(a: string, b: string): Ordering {
    if a == "" || b == "" then CompareNumbers(|a|, |b|)
    else Then(CompareNumbers(a[0] as nat, b[0] as nat), CompareTexts(a[1..], b[1..]))
  }

  // Numbers come before words.
  function CompareParts(a: Part, b: Part): Ordering {
    match (a, b)
    case (Number(m), Number(n)) => CompareNumbers(m, n)
    case (Text(s), Text(t)) => CompareTexts(s, t)
    case (Number(_), Text(_)) => Less
    case (Text(_), Number(_)) => Greater
  }

  function ComparePre(a: seq<Part>, b: seq<Part>): Ordering {
    if a == [] || b == [] then CompareNumbers(|a|, |b|)
    else Then(CompareParts(a[0], b[0]), ComparePre(a[1..], b[1..]))
  }

  function CompareCore(a: Version, b: Version): Ordering {
    Then(CompareNumbers(a.major, b.major), Then(CompareNumbers(a.minor, b.minor), CompareNumbers(a.patch, b.patch)))
  }

  // With the same numbers, a final version is later than a pre-release.
  function Compare(a: Version, b: Version): Ordering {
    Then(CompareCore(a, b),
         if a.pre == [] && b.pre == [] then Equal
         else if a.pre == [] then Greater
         else if b.pre == [] then Less
         else ComparePre(a.pre, b.pre))
  }

  // ── Precedence, as section 11 of Semantic Versioning 2.0.0 has it ─────

  // The first difference decides; of two texts the one that is the start of the other comes first.
  predicate TextPrecedes(a: string, b: string) {
    exists i :: 0 <= i <= |a| && TextDiffersAt(a, b, i)
  }

  predicate TextDiffersAt(a: string, b: string, i: nat)
    requires i <= |a|
  {
    i < |b| && a[..i] == b[..i] && (i == |a| || a[i] < b[i])
  }

  predicate PartPrecedes(a: Part, b: Part) {
    match (a, b)
    case (Number(m), Number(n)) => m < n
    case (Text(s), Text(t)) => TextPrecedes(s, t)
    case (Number(_), Text(_)) => true
    case (Text(_), Number(_)) => false
  }

  predicate PrePrecedes(a: seq<Part>, b: seq<Part>) {
    exists i :: 0 <= i <= |a| && PreDiffersAt(a, b, i)
  }

  predicate PreDiffersAt(a: seq<Part>, b: seq<Part>, i: nat)
    requires i <= |a|
  {
    i < |b| && a[..i] == b[..i] && (i == |a| || PartPrecedes(a[i], b[i]))
  }

  predicate Precedes(a: Version, b: Version) {
    || a.major < b.major
    || (a.major == b.major && a.minor < b.minor)
    || (a.major == b.major && a.minor == b.minor && a.patch < b.patch)
    || (a.major == b.major && a.minor == b.minor && a.patch == b.patch && a.pre != [] && b.pre == [])
    || (a.major == b.major && a.minor == b.minor && a.patch == b.patch
        && a.pre != [] && b.pre != [] && PrePrecedes(a.pre, b.pre))
  }

  lemma {:induction false} TextsCompare(a: string, b: string)
    ensures CompareTexts(a, b) == Equal <==> a == b
    ensures CompareTexts(b, a) == Reversed(CompareTexts(a, b))
    ensures CompareTexts(a, b) == Less <==> TextPrecedes(a, b)
  {
    if a == "" || b == "" {
      assert b != "" && a == "" ==> TextDiffersAt(a, b, 0);
    } else {
      TextsCompare(a[1..], b[1..]);
      assert a == [a[0]] + a[1..] && b == [b[0]] + b[1..];
      TextPrecedesTail(a, b);
    }
  }

  lemma TextPrecedesTail(a: string, b: string)
    requires a != "" && b != ""
    ensures TextPrecedes(a, b) <==> a[0] < b[0] || (a[0] == b[0] && TextPrecedes(a[1..], b[1..]))
  {
    if i :| 0 <= i <= |a| && TextDiffersAt(a, b, i) {
      if i > 0 {
        assert a[0] == a[..i][0] == b[..i][0] == b[0];
        assert a[1..][..i - 1] == a[..i][1..] && b[1..][..i - 1] == b[..i][1..];
        assert TextDiffersAt(a[1..], b[1..], i - 1);
      }
    }
    if a[0] < b[0] {
      assert TextDiffersAt(a, b, 0);
    }
    if a[0] == b[0] && TextPrecedes(a[1..], b[1..]) {
      var i :| 0 <= i <= |a[1..]| && TextDiffersAt(a[1..], b[1..], i);
      assert a[..i + 1] == [a[0]] + a[1..][..i] && b[..i + 1] == [b[0]] + b[1..][..i];
      assert TextDiffersAt(a, b, i + 1);
    }
  }

  lemma PartsCompare(a: Part, b: Part)
    ensures CompareParts(a, b) == Equal <==> a == b
    ensures CompareParts(b, a) == Reversed(CompareParts(a, b))
    ensures CompareParts(a, b) == Less <==> PartPrecedes(a, b)
  {
    if a.Text? && b.Text? {
      TextsCompare(a.text, b.text);
    }
  }

  lemma {:induction false} PresCompare(a: seq<Part>, b: seq<Part>)
    ensures ComparePre(a, b) == Equal <==> a == b
    ensures ComparePre(b, a) == Reversed(ComparePre(a, b))
    ensures ComparePre(a, b) == Less <==> PrePrecedes(a, b)
  {
    hide CompareParts, PartPrecedes;
    if a == [] || b == [] {
      assert b != [] && a == [] ==> PreDiffersAt(a, b, 0);
    } else {
      PresCompare(a[1..], b[1..]);
      PartsCompare(a[0], b[0]);
      assert a == [a[0]] + a[1..] && b == [b[0]] + b[1..];
      PrePrecedesTail(a, b);
    }
  }

  lemma PrePrecedesTail(a: seq<Part>, b: seq<Part>)
    requires a != [] && b != []
    ensures PrePrecedes(a, b) <==> PartPrecedes(a[0], b[0]) || (a[0] == b[0] && PrePrecedes(a[1..], b[1..]))
  {
    hide PartPrecedes;
    if i :| 0 <= i <= |a| && PreDiffersAt(a, b, i) {
      if i > 0 {
        assert a[0] == a[..i][0] == b[..i][0] == b[0];
        assert a[1..][..i - 1] == a[..i][1..] && b[1..][..i - 1] == b[..i][1..];
        assert PreDiffersAt(a[1..], b[1..], i - 1);
      }
    }
    if PartPrecedes(a[0], b[0]) {
      assert PreDiffersAt(a, b, 0);
    }
    if a[0] == b[0] && PrePrecedes(a[1..], b[1..]) {
      var i :| 0 <= i <= |a[1..]| && PreDiffersAt(a[1..], b[1..], i);
      assert a[..i + 1] == [a[0]] + a[1..][..i] && b[..i + 1] == [b[0]] + b[1..][..i];
      assert PreDiffersAt(a, b, i + 1);
    }
  }

  // The comparison is the standard's precedence, made total: it says equal of nothing but the same
  // version, and swapping the two swaps the answer.
  lemma CompareIsPrecedence(a: Version, b: Version)
    ensures Compare(a, b) == Less <==> Precedes(a, b)
    ensures Compare(a, b) == Greater <==> Precedes(b, a)
    ensures Compare(a, b) == Equal <==> a == b
    ensures Compare(b, a) == Reversed(Compare(a, b))
  {
    hide ComparePre, PrePrecedes;
    PresCompare(a.pre, b.pre);
    PresCompare(b.pre, a.pre);
  }

  // ── Transitivity ─────────────────────────────────────────────────────

  lemma {:induction false} TextsTransitive(a: string, b: string, c: string)
    requires CompareTexts(a, b) == Less && CompareTexts(b, c) == Less
    ensures CompareTexts(a, c) == Less
  {
    if a != "" && b != "" && c != "" && a[0] == b[0] == c[0] {
      TextsTransitive(a[1..], b[1..], c[1..]);
    }
  }

  lemma PartsTransitive(a: Part, b: Part, c: Part)
    requires CompareParts(a, b) == Less && CompareParts(b, c) == Less
    ensures CompareParts(a, c) == Less
  {
    if a.Text? && c.Text? {
      TextsTransitive(a.text, b.text, c.text);
    }
  }

  lemma {:induction false} PresTransitive(a: seq<Part>, b: seq<Part>, c: seq<Part>)
    requires ComparePre(a, b) == Less && ComparePre(b, c) == Less
    ensures ComparePre(a, c) == Less
  {
    hide CompareParts;
    if a != [] && b != [] && c != [] {
      PartsCompare(a[0], b[0]);
      PartsCompare(b[0], c[0]);
      PartsCompare(a[0], c[0]);
      if a[0] == b[0] && b[0] == c[0] {
        PresTransitive(a[1..], b[1..], c[1..]);
      } else if a[0] != b[0] && b[0] != c[0] {
        PartsTransitive(a[0], b[0], c[0]);
      }
    }
  }

  lemma CompareIsTransitive(a: Version, b: Version, c: Version)
    requires Compare(a, b) == Less && Compare(b, c) == Less
    ensures Compare(a, c) == Less
  {
    hide ComparePre;
    var (p, q, r) := (a.pre, b.pre, c.pre);
    if p != [] && q != [] && r != [] && ComparePre(p, q) == Less && ComparePre(q, r) == Less {
      PresTransitive(a.pre, b.pre, c.pre);
    }
  }

  // ── Offers ───────────────────────────────────────────────────────────

  // Later, and a pre-release only to somebody on one.
  predicate IsOffered(current: Version, newer: Version) {
    Compare(newer, current) == Greater && (newer.pre == [] || current.pre != [])
  }

  // By the standard's precedence: any later final version, and a later pre-release on a pre-release.
  lemma OfferedExactly(current: Version, newer: Version)
    ensures IsOffered(current, newer) <==> Precedes(current, newer) && (newer.pre == [] || current.pre != [])
  {
    hide Compare, Precedes;
    CompareIsPrecedence(newer, current);
  }

  datatype Release = Release(version: Version, tag: string, page: string)

  // `newest` is offered, no other offered release is later, and none after it in the list is the same.
  ghost predicate IsNewest(releases: seq<Release>, current: Version, newest: Release) {
    exists i :: 0 <= i < |releases| && NewestAt(releases, current, i) && releases[i] == newest
  }

  ghost predicate NewestAt(releases: seq<Release>, current: Version, i: nat)
    requires i < |releases|
  {
    && IsOffered(current, releases[i].version)
    && (forall j :: 0 <= j < i && IsOffered(current, releases[j].version) ==>
          Compare(releases[j].version, releases[i].version) != Greater)
    && (forall j :: i < j < |releases| && IsOffered(current, releases[j].version) ==>
          Compare(releases[j].version, releases[i].version) == Less)
  }

  method NewestFor(releases: seq<Release>, current: Version) returns (newest: Option<Release>)
    ensures newest.Some? ==> IsNewest(releases, current, newest.value)
    ensures newest.None? <==> forall r <- releases :: !IsOffered(current, r.version)
  {
    hide Compare;
    var best: Option<nat> := None;
    for k := 0 to |releases|
      invariant best.Some? ==> best.value < k && NewestAt(releases[..k], current, best.value)
      invariant best.None? <==> forall r <- releases[..k] :: !IsOffered(current, r.version)
    {
      ghost var longer := releases[..k + 1];
      assert longer == releases[..k] + [releases[k]];
      if IsOffered(current, releases[k].version) {
        if best.None? {
          best := Some(k);
        } else {
          CompareIsPrecedence(releases[k].version, releases[best.value].version);
          if Compare(releases[best.value].version, releases[k].version) != Greater {
            LaterIsNewest(releases, current, best.value, k);
            best := Some(k);
          }
        }
      }
    }
    assert releases[..|releases|] == releases;
    newest := match best case Some(i) => Some(releases[i]) case None => None;
  }

  lemma LaterIsNewest(releases: seq<Release>, current: Version, i: nat, k: nat)
    requires i < k < |releases| && NewestAt(releases[..k], current, i)
    requires IsOffered(current, releases[k].version) && Compare(releases[i].version, releases[k].version) != Greater
    ensures NewestAt(releases[..k + 1], current, k)
  {
    hide Compare;
    forall j | 0 <= j < k && IsOffered(current, releases[j].version)
      ensures Compare(releases[j].version, releases[k].version) != Greater
    {
      assert releases[..k][j] == releases[j] && releases[..k][i] == releases[i];
      if j != i {
        NotLater(releases[j].version, releases[i].version, releases[k].version);
      }
    }
  }

  lemma NotLater(a: Version, b: Version, c: Version)
    requires Compare(a, b) != Greater && Compare(b, c) != Greater
    ensures Compare(a, c) != Greater
  {
    hide Compare;
    CompareIsPrecedence(a, b);
    CompareIsPrecedence(b, c);
    if Compare(a, b) == Less && Compare(b, c) == Less {
      CompareIsTransitive(a, b, c);
    }
  }

  lemma OfferedThrough(current: Version, newest: Version, later: Version)
    requires IsOffered(current, newest) && IsOffered(newest, later)
    ensures IsOffered(current, later)
  {
    hide Compare;
    CompareIsPrecedence(later, newest);
    CompareIsPrecedence(newest, current);
    CompareIsTransitive(current, newest, later);
    CompareIsPrecedence(current, later);
  }

  // Whoever updates to the newest hears of nothing more in the same list.
  lemma UpdatingSettles(releases: seq<Release>, current: Version, newest: Release)
    requires IsNewest(releases, current, newest)
    ensures forall r <- releases :: !IsOffered(newest.version, r.version)
  {
    hide Compare;
    forall r | r in releases ensures !IsOffered(newest.version, r.version) {
      if IsOffered(newest.version, r.version) {
        OfferedThrough(current, newest.version, r.version);
        CompareIsPrecedence(r.version, newest.version);
      }
    }
  }

  // Each version is the newest for the one before it in some list.
  ghost predicate UpdateRun(versions: seq<Version>, lists: seq<seq<Release>>) {
    && |versions| == |lists| + 1
    && forall i :: 0 <= i < |lists| ==> Updates(versions[i], lists[i], versions[i + 1])
  }

  ghost predicate Updates(current: Version, releases: seq<Release>, next: Version) {
    exists r <- releases :: IsNewest(releases, current, r) && r.version == next
  }

  // Along a run of updates versions strictly rise, and a final one is never followed by a pre-release.
  lemma {:induction false} UpdatesOnlyRise(versions: seq<Version>, lists: seq<seq<Release>>, i: nat, j: nat)
    requires UpdateRun(versions, lists) && i < j < |versions|
    ensures Precedes(versions[i], versions[j])
    ensures versions[i].pre == [] ==> versions[j].pre == []
    decreases j
  {
    hide Compare, Precedes;
    assert Updates(versions[j - 1], lists[j - 1], versions[j]);
    CompareIsPrecedence(versions[j], versions[j - 1]);
    if i < j - 1 {
      UpdatesOnlyRise(versions, lists, i, j - 1);
      CompareIsPrecedence(versions[i], versions[j - 1]);
      CompareIsPrecedence(versions[j - 1], versions[j]);
      CompareIsTransitive(versions[i], versions[j - 1], versions[j]);
      CompareIsPrecedence(versions[i], versions[j]);
    }
  }
}
