// Finding a mark, such as the start of a tag, in a text.
module Marks {
  import opened Wrappers

  predicate Occurs(s: string, mark: string, i: nat) {
    i + |mark| <= |s| && s[i..i + |mark|] == mark
  }

  predicate Lacks(s: string, mark: string) {
    forall i :: 0 <= i <= |s| ==> !Occurs(s, mark, i)
  }

  ghost predicate IsFirst(s: string, mark: string, at: Option<nat>) {
    match at
    case Some(i) => i <= |s| && Occurs(s, mark, i) && forall j :: 0 <= j < i ==> !Occurs(s, mark, j)
    case None => Lacks(s, mark)
  }

  // Where `mark` first occurs.
  function FindText(s: string, mark: string): (at: Option<nat>)
    ensures IsFirst(s, mark, at)
    ensures at.Some? ==> at.value + |mark| <= |s|
  {
    if Occurs(s, mark, 0) then Some(0)
    else if s == "" then None
    else
      OccursTail(s, mark);
      match FindText(s[1..], mark)
      case Some(i) => Some(i + 1)
      case None => None
  }

  lemma OccursTail(s: string, mark: string)
    requires s != ""
    ensures forall j :: 0 < j <= |s| ==> Occurs(s, mark, j) == Occurs(s[1..], mark, j - 1)
    ensures forall j :: 0 <= j < |s| ==> Occurs(s, mark, j + 1) == Occurs(s[1..], mark, j)
  {
    forall j | 0 < j <= |s| ensures Occurs(s, mark, j) == Occurs(s[1..], mark, j - 1) {
      if j + |mark| <= |s| {
        SliceTail(s, j, j + |mark|);
      }
    }
  }

  lemma SliceTail(s: string, i: nat, j: nat)
    requires 0 < i <= j <= |s|
    ensures s[i..j] == s[1..][i - 1..j - 1]
  {
    assert forall k :: 0 <= k < j - i ==> s[i..j][k] == s[1..][i - 1..j - 1][k];
  }

  lemma FirstIsUnique(s: string, mark: string, at: Option<nat>)
    requires IsFirst(s, mark, at)
    ensures FindText(s, mark) == at
  {
    hide Occurs;
    var found := FindText(s, mark);
    assert IsFirst(s, mark, found);
  }

  // A mark whose first character does not come again in it.
  predicate IsMark(mark: string) {
    mark != "" && forall k :: 0 < k < |mark| ==> mark[k] != mark[0]
  }

  // If `b` starts with that character, the mark is in one of the two or not at all.
  lemma OccursInBoth(a: string, b: string, mark: string, i: nat)
    requires IsMark(mark) && (b == "" || b[0] == mark[0])
    ensures Occurs(a + b, mark, i) == if i < |a| then Occurs(a, mark, i) else Occurs(b, mark, i - |a|)
  {
    if i >= |a| {
      OccursLater(a, b, mark, i - |a|);
    } else if i + |mark| <= |a| {
      assert (a + b)[i..i + |mark|] == a[i..i + |mark|];
    } else if i + |mark| <= |a + b| {
      assert (a + b)[i..i + |mark|][|a| - i] == b[0];
      assert mark[|a| - i] != mark[0];
    }
  }

  lemma OccursLater(a: string, b: string, mark: string, i: nat)
    ensures Occurs(a + b, mark, |a| + i) == Occurs(b, mark, i)
  {
    if i + |mark| <= |b| {
      assert (a + b)[|a| + i..|a| + i + |mark|] == b[i..i + |mark|];
    }
  }

  function Shifted(at: Option<nat>, length: nat): Option<nat> {
    match at case Some(i) => Some(length + i) case None => None
  }

  // Looking through `a` and then `b`.
  lemma FindInBoth(a: string, b: string, mark: string)
    requires IsMark(mark) && (b == "" || b[0] == mark[0])
    ensures FindText(a + b, mark) ==
            if FindText(a, mark).Some? then FindText(a, mark) else Shifted(FindText(b, mark), |a|)
  {
    hide Occurs, IsMark, IsFirst;
    FoundOrLacks(a, mark);
    if FindText(a, mark).Some? {
      FirstInA(a, b, mark, FindText(a, mark).value);
      FirstIsUnique(a + b, mark, FindText(a, mark));
    } else {
      FirstInB(a, b, mark, FindText(b, mark));
      FirstIsUnique(a + b, mark, Shifted(FindText(b, mark), |a|));
    }
  }

  lemma FirstInA(a: string, b: string, mark: string, i: nat)
    requires IsMark(mark) && (b == "" || b[0] == mark[0]) && IsFirst(a, mark, Some(i))
    ensures IsFirst(a + b, mark, Some(i))
  {
    hide Occurs, IsMark;
    NotAtTheEnd(a, mark);
    forall j | 0 <= j < |a| ensures Occurs(a + b, mark, j) == Occurs(a, mark, j) {
      OccursInBoth(a, b, mark, j);
    }
  }

  lemma FirstInB(a: string, b: string, mark: string, at: Option<nat>)
    requires IsMark(mark) && (b == "" || b[0] == mark[0]) && Lacks(a, mark) && IsFirst(b, mark, at)
    ensures IsFirst(a + b, mark, Shifted(at, |a|))
  {
    hide Occurs, IsMark;
    forall j: nat ensures Occurs(a + b, mark, j) == (j >= |a| && Occurs(b, mark, j - |a|)) {
      OccursInBoth(a, b, mark, j);
    }
  }

  lemma NotAtTheEnd(s: string, mark: string)
    requires IsMark(mark)
    ensures forall i :: i >= |s| ==> !Occurs(s, mark, i)
  {
  }

  lemma FindMark(a: string, mark: string, b: string)
    requires IsMark(mark) && Lacks(a, mark)
    ensures FindText(a + (mark + b), mark) == Some(|a|)
  {
    FindInBoth(a, mark + b, mark);
    assert Occurs(mark + b, mark, 0);
    FirstIsUnique(mark + b, mark, Some(0));
    assert IsFirst(a, mark, FindText(a, mark));
  }

  lemma LacksBoth(a: string, b: string, mark: string)
    requires IsMark(mark) && (b == "" || b[0] == mark[0])
    ensures Lacks(a + b, mark) <==> Lacks(a, mark) && Lacks(b, mark)
  {
    hide Occurs, IsMark;
    FindInBoth(a, b, mark);
    FoundOrLacks(a, mark);
    FoundOrLacks(b, mark);
    FoundOrLacks(a + b, mark);
  }

  lemma FoundOrLacks(s: string, mark: string)
    ensures FindText(s, mark).None? <==> Lacks(s, mark)
  {
  }

  // In front of other text, one mark does not make another appear.
  lemma LacksAfterMark(other: string, b: string, mark: string)
    requires IsMark(mark) && |mark| >= 2 && |other| >= 2
    requires mark[0] == other[0] && mark[1] != other[1] && forall k :: 0 < k < |other| ==> other[k] != other[0]
    ensures Lacks(other + b, mark) <==> Lacks(b, mark)
  {
    forall i: nat ensures Occurs(other + b, mark, i) == (i >= |other| && Occurs(b, mark, i - |other|)) {
      if i >= |other| {
        OccursLater(other, b, mark, i - |other|);
      } else {
        OccursStarts(other + b, mark, i);
      }
    }
    hide Occurs;
    assert Lacks(other + b, mark) ==> forall i: nat :: i <= |b| ==> !Occurs(b, mark, i) by {
      forall i: nat | i <= |b| ensures Lacks(other + b, mark) ==> !Occurs(b, mark, i) {
        assert Occurs(other + b, mark, |other| + i) == Occurs(b, mark, i);
      }
    }
  }

  lemma OccursStarts(s: string, mark: string, i: nat)
    requires |mark| >= 2
    ensures Occurs(s, mark, i) ==> i + 1 < |s| && s[i] == mark[0] && s[i + 1] == mark[1]
  {
    if Occurs(s, mark, i) {
      assert s[i] == s[i..i + |mark|][0] && s[i + 1] == s[i..i + |mark|][1];
    }
  }
}
