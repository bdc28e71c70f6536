// Cutting strings at a character, and numbers in decimal.
module Texts {

  // ── Cutting ──────────────────────────────────────────────────────────

  function Split(s: string, c: char): (parts: seq<string>)
    ensures |parts| >= 1
  {
    if s == "" then [""]
    else
      var rest := Split(s[1..], c);
      if s[0] == c then [""] + rest else [[s[0]] + rest[0]] + rest[1..]
  }

  function Join(parts: seq<string>, c: char): string {
    if parts == [] then ""
    else if |parts| == 1 then parts[0]
    else parts[0] + [c] + Join(parts[1..], c)
  }

  lemma {:induction false} JoinOfSplit(s: string, c: char)
    ensures Join(Split(s, c), c) == s
  {
    if s == "" {
    } else {
      JoinOfSplit(s[1..], c);
      var rest := Split(s[1..], c);
      if s[0] == c {
        JoinEmptyFirst(rest, c);
      } else {
        JoinLongerFirst(s[0], rest, c);
      }
      assert s == [s[0]] + s[1..];
    }
  }

  lemma JoinEmptyFirst(parts: seq<string>, c: char)
    requires parts != []
    ensures Join([""] + parts, c) == [c] + Join(parts, c)
  {
    assert ([""] + parts)[1..] == parts;
    assert "" + [c] == [c];
  }

  lemma JoinLongerFirst(x: char, parts: seq<string>, c: char)
    requires parts != []
    ensures Join([[x] + parts[0]] + parts[1..], c) == [x] + Join(parts, c)
  {
    var longer := [[x] + parts[0]] + parts[1..];
    assert longer[1..] == parts[1..] && longer[0] == [x] + parts[0];
    if |parts| > 1 {
      var tail := Join(parts[1..], c);
      assert [x] + parts[0] + [c] + tail == [x] + (parts[0] + [c] + tail);
    }
  }

  lemma {:induction false} PartsLack(s: string, c: char)
    ensures forall p <- Split(s, c) :: c !in p
  {
    if s == "" {
    } else {
      PartsLack(s[1..], c);
    }
  }

  lemma {:induction false} SplitOne(s: string, c: char)
    requires c !in s
    ensures Split(s, c) == [s]
  {
    if s == "" {
    } else {
      SplitOne(s[1..], c);
      assert s == [s[0]] + s[1..];
    }
  }

  lemma {:induction false} SplitFirst(s: string, c: char, rest: string)
    requires c !in s
    ensures Split(s + [c] + rest, c) == [s] + Split(rest, c)
  {
    var all := s + [c] + rest;
    if s == "" {
      assert all[0] == c && all[1..] == rest;
    } else {
      SplitFirst(s[1..], c, rest);
      assert all[1..] == s[1..] + [c] + rest;
      assert s == [s[0]] + s[1..];
    }
  }

  lemma {:induction false} SplitOfJoin(parts: seq<string>, c: char)
    requires parts != [] && forall p <- parts :: c !in p
    ensures Split(Join(parts, c), c) == parts
  {
    if |parts| == 1 {
      SplitOne(parts[0], c);
    } else {
      SplitOfJoin(parts[1..], c);
      SplitFirst(parts[0], c, Join(parts[1..], c));
    }
  }

  lemma {:induction false} JoinHas(parts: seq<string>, c: char, x: char)
    requires x != c && forall p <- parts :: x !in p
    ensures x !in Join(parts, c)
  {
    if |parts| <= 1 {
    } else {
      JoinHas(parts[1..], c, x);
    }
  }

  // Where `c` first occurs, or the length of `s`.
  function IndexOf(s: string, c: char): (i: nat)
    ensures i <= |s| && c !in s[..i] && (i < |s| ==> s[i] == c)
  {
    if s == "" || s[0] == c then 0 else 1 + IndexOf(s[1..], c)
  }

  lemma {:induction false} IndexIs(s: string, c: char, i: nat)
    requires i <= |s| && c !in s[..i] && (i < |s| ==> s[i] == c)
    ensures IndexOf(s, c) == i
  {
    if i == 0 {
    } else {
      assert s[0] == s[..i][0] && s[1..][..i - 1] == s[..i][1..];
      IndexIs(s[1..], c, i - 1);
    }
  }

  method Find(s: string, c: char) returns (i: nat)
    ensures i == IndexOf(s, c)
  {
    i := 0;
    while i < |s| && s[i] != c
      invariant i <= |s| && c !in s[..i]
    {
      i := i + 1;
    }
    IndexIs(s, c, i);
  }

  lemma SplitAt(s: string, c: char)
    ensures var i := IndexOf(s, c);
            if i < |s| then Split(s, c) == [s[..i]] + Split(s[i + 1..], c) else Split(s, c) == [s]
  {
    var i := IndexOf(s, c);
    if i < |s| {
      assert s == s[..i] + [c] + s[i + 1..];
      SplitFirst(s[..i], c, s[i + 1..]);
    } else {
      assert s[..i] == s;
      SplitOne(s, c);
    }
  }

  method Cut(s: string, c: char) returns (parts: seq<string>)
    ensures parts == Split(s, c)
  {
    hide Split, IndexOf;
    parts := [];
    var rest := s;
    var i := Find(rest, c);
    while i < |rest|
      invariant i == IndexOf(rest, c)
      invariant parts + Split(rest, c) == Split(s, c)
      decreases |rest|
    {
      SplitAt(rest, c);
      parts, rest := parts + [rest[..i]], rest[i + 1..];
      i := Find(rest, c);
    }
    SplitAt(rest, c);
    parts := parts + [rest];
  }

  // ── Decimal ──────────────────────────────────────────────────────────

  predicate IsDigit(c: char) {
    '0' <= c <= '9'
  }

  predicate AllDigits(s: string) {
    forall c <- s :: IsDigit(c)
  }

  function DigitOf(n: nat): (c: char)
    requires n < 10
    ensures IsDigit(c) && (c == '0' <==> n == 0)
  {
    '0' + n as char
  }

  function DigitValue(c: char): (n: nat)
    requires IsDigit(c)
    ensures n < 10 && DigitOf(n) == c
  {
    (c - '0') as nat
  }

  function DecimalOf(n: nat): (s: string)
    ensures s != "" && AllDigits(s)
  {
    if n < 10 then [DigitOf(n)] else DecimalOf(n / 10) + [DigitOf(n % 10)]
  }

  function ValueOf(s: string): nat
    requires AllDigits(s)
  {
    if s == "" then 0
    else
      assert forall c <- s[..|s| - 1] :: c in s;
      ValueOf(s[..|s| - 1]) * 10 + DigitValue(s[|s| - 1])
  }

  lemma {:induction false} ValueOfDecimal(n: nat)
    ensures ValueOf(DecimalOf(n)) == n
  {
    var s := DecimalOf(n);
    DigitBack(n % 10);
    if n >= 10 {
      assert s[..|s| - 1] == DecimalOf(n / 10);
      ValueOfDecimal(n / 10);
    } else {
      assert s[..0] == "";
    }
  }

  lemma DigitBack(n: nat)
    requires n < 10
    ensures DigitValue(DigitOf(n)) == n
  {
  }

  predicate NoLeadingZero(s: string)
    requires s != ""
  {
    |s| == 1 || s[0] != '0'
  }

  lemma {:induction false} DecimalHasNoLeadingZero(n: nat)
    ensures NoLeadingZero(DecimalOf(n)) && (n > 0 ==> DecimalOf(n)[0] != '0')
  {
    if n >= 10 {
      DecimalHasNoLeadingZero(n / 10);
    }
  }

  // The numerals that print back as they were read are those without a leading zero.
  lemma {:induction false} DecimalOfValue(s: string)
    requires s != "" && AllDigits(s)
    ensures DecimalOf(ValueOf(s)) == s <==> NoLeadingZero(s)
  {
    hide DecimalOf, DigitOf, DigitValue;
    DecimalHasNoLeadingZero(ValueOf(s));
    var n := |s| - 1;
    if n == 0 {
      OneDigit(s[0]);
      assert s[..0] == "" && s == [s[0]];
    } else if s[0] != '0' {
      var most := s[..n];
      assert forall c <- most :: c in s;
      DecimalOfValue(most);
      NotZero(most);
      DecimalOneMore(ValueOf(most), s[n]);
      assert s == most + [s[n]];
    }
  }

  lemma OneDigit(digit: char)
    requires IsDigit(digit)
    ensures ValueOf([digit]) == DigitValue(digit) && DecimalOf(DigitValue(digit)) == [digit]
  {
    assert [digit][..0] == "";
  }

  lemma NotZero(s: string)
    requires s != "" && AllDigits(s) && s[0] != '0' && DecimalOf(ValueOf(s)) == s
    ensures ValueOf(s) > 0
  {
  }

  lemma DecimalOneMore(n: nat, digit: char)
    requires n > 0 && IsDigit(digit)
    ensures DecimalOf(n * 10 + DigitValue(digit)) == DecimalOf(n) + [digit]
  {
    var value := n * 10 + DigitValue(digit);
    assert value / 10 == n && value % 10 == DigitValue(digit);
  }

  method ReadDecimal(s: string) returns (n: nat)
    requires AllDigits(s)
    ensures n == ValueOf(s)
  {
    n := 0;
    for i := 0 to |s|
      invariant AllDigits(s[..i]) && n == ValueOf(s[..i])
    {
      assert s[..i + 1][..i] == s[..i];
      n := n * 10 + DigitValue(s[i]);
    }
    assert s[..|s|] == s;
  }
}
