// UTF-8 as sections 3 and 4 of RFC 3629 define it, and cutting text at a character boundary.
module Utf8 {
  import opened Wrappers

  type Byte = b: nat | b < 256

  // ── One character ────────────────────────────────────────────────────

  function EncodeChar(c: char): (bytes: seq<Byte>)
    ensures 1 <= |bytes| <= 4
  {
    var v := c as int;
    if v < 0x80 then [v]
    else if v < 0x800 then [0xC0 + v / 0x40, 0x80 + v % 0x40]
    else if v < 0x10000 then [0xE0 + v / 0x1000, 0x80 + v / 0x40 % 0x40, 0x80 + v % 0x40]
    else [0xF0 + v / 0x40000, 0x80 + v / 0x1000 % 0x40, 0x80 + v / 0x40 % 0x40, 0x80 + v % 0x40]
  }

  predicate Between(b: Byte, low: Byte, high: Byte) {
    low <= b <= high
  }

  // A byte that continues a character (UTF8-tail).
  predicate IsTail(b: Byte) {
    Between(b, 0x80, 0xBF)
  }

  // The second byte a three-byte or four-byte lead allows; the limits keep out overlong forms,
  // surrogates and anything past U+10FFFF.
  predicate SecondFits(lead: Byte, second: Byte) {
    if lead == 0xE0 then Between(second, 0xA0, 0xBF)
    else if lead == 0xED then Between(second, 0x80, 0x9F)
    else if lead == 0xF0 then Between(second, 0x90, 0xBF)
    else if lead == 0xF4 then Between(second, 0x80, 0x8F)
    else IsTail(second)
  }

  // The scalar values of two, three and four bytes.
  function Value2(b0: int, b1: int): int {
    (b0 - 0xC0) * 0x40 + (b1 - 0x80)
  }

  function Value3(b0: int, b1: int, b2: int): int {
    (b0 - 0xE0) * 0x1000 + (b1 - 0x80) * 0x40 + (b2 - 0x80)
  }

  function Value4(b0: int, b1: int, b2: int, b3: int): int {
    (b0 - 0xF0) * 0x40000 + (b1 - 0x80) * 0x1000 + (b2 - 0x80) * 0x40 + (b3 - 0x80)
  }

  // How many bytes the well-formed character at the start of `bytes` takes, 0 if there is none.
  function FirstLength(bytes: seq<Byte>): (n: nat)
    ensures n <= |bytes|
  {
    if bytes == [] then 0
    else if bytes[0] < 0x80 then 1
    else if Between(bytes[0], 0xC2, 0xDF) then
      if |bytes| >= 2 && IsTail(bytes[1]) then 2 else 0
    else if Between(bytes[0], 0xE0, 0xEF) then
      if |bytes| >= 3 && SecondFits(bytes[0], bytes[1]) && IsTail(bytes[2]) then 3 else 0
    else if Between(bytes[0], 0xF0, 0xF4) then
      if |bytes| >= 4 && SecondFits(bytes[0], bytes[1]) && IsTail(bytes[2]) && IsTail(bytes[3]) then 4 else 0
    else 0
  }

  // The first character of `bytes` and how many bytes it takes.
  function DecodeFirst(bytes: seq<Byte>): (r: Option<(char, nat)>)
    ensures r.Some? ==> 1 <= r.value.1 <= |bytes|
  {
    match FirstLength(bytes)
    case 0 => None
    case 1 => Some((bytes[0] as char, 1))
    case 2 => Some((Value2(bytes[0], bytes[1]) as char, 2))
    case 3 => Some((Value3(bytes[0], bytes[1], bytes[2]) as char, 3))
    case _ => Some((Value4(bytes[0], bytes[1], bytes[2], bytes[3]) as char, 4))
  }

  lemma Value2Inverse(v: int)
    requires 0x80 <= v < 0x800
    ensures Value2(0xC0 + v / 0x40, 0x80 + v % 0x40) == v
  {
  }

  lemma Value3Inverse(v: int)
    requires 0x800 <= v < 0x10000
    ensures Value3(0xE0 + v / 0x1000, 0x80 + v / 0x40 % 0x40, 0x80 + v % 0x40) == v
  {
  }

  lemma Value4Inverse(v: int)
    requires 0x10000 <= v < 0x110000
    ensures Value4(0xF0 + v / 0x40000, 0x80 + v / 0x1000 % 0x40, 0x80 + v / 0x40 % 0x40, 0x80 + v % 0x40) == v
  {
    SixBits(v);
    SixBits(v / 0x40);
    SixBits(v / 0x1000);
    assert v / 0x40 / 0x40 == v / 0x1000 && v / 0x1000 / 0x40 == v / 0x40000;
  }

  lemma SixBits(v: int)
    requires v >= 0
    ensures v == v / 0x40 * 0x40 + v % 0x40
  {
  }

  lemma DecodeFirstUndoesEncodeChar(c: char, rest: seq<Byte>)
    ensures DecodeFirst(EncodeChar(c) + rest) == Some((c, |EncodeChar(c)|))
  {
    var v := c as int;
    var bytes := EncodeChar(c) + rest;
    EncodedLength(c, rest);
    hide FirstLength, Value2, Value3, Value4;
    if v < 0x80 {
    } else if v < 0x800 {
      Value2Inverse(v);
    } else if v < 0x10000 {
      Value3Inverse(v);
    } else {
      Value4Inverse(v);
    }
  }

  lemma EncodedLength(c: char, rest: seq<Byte>)
    ensures FirstLength(EncodeChar(c) + rest) == |EncodeChar(c)|
  {
    var v, bytes := c as int, EncodeChar(c) + rest;
    if v < 0x800 {
      assert v >= 0x80 ==> bytes[0] == 0xC0 + v / 0x40 && bytes[1] == 0x80 + v % 0x40;
    } else if v < 0x10000 {
      ThreeBytes(v);
      assert bytes[0] == 0xE0 + v / 0x1000 && bytes[1] == 0x80 + v / 0x40 % 0x40 && bytes[2] == 0x80 + v % 0x40;
    } else {
      FourBytes(v);
      assert bytes[0] == 0xF0 + v / 0x40000 && bytes[1] == 0x80 + v / 0x1000 % 0x40;
      assert bytes[2] == 0x80 + v / 0x40 % 0x40 && bytes[3] == 0x80 + v % 0x40;
    }
  }

  lemma ThreeBytes(v: int)
    requires 0x800 <= v < 0xD800 || 0xE000 <= v < 0x10000
    ensures SecondFits(0xE0 + v / 0x1000, 0x80 + v / 0x40 % 0x40) && 0xE0 + v / 0x1000 <= 0xEF
  {
  }

  lemma FourBytes(v: int)
    requires 0x10000 <= v < 0x110000
    ensures SecondFits(0xF0 + v / 0x40000, 0x80 + v / 0x1000 % 0x40) && 0xF0 + v / 0x40000 <= 0xF4
  {
  }

  // Only the shortest form is accepted, so what decodes is what would have been encoded.
  lemma EncodeCharUndoesDecodeFirst(bytes: seq<Byte>)
    requires DecodeFirst(bytes).Some?
    ensures var (c, n) := DecodeFirst(bytes).value; EncodeChar(c) == bytes[..n]
  {
    match FirstLength(bytes)
    case 1 =>
    case 2 => Bytes2(bytes[0], bytes[1]);
    case 3 => Bytes3(bytes[0], bytes[1], bytes[2]);
    case _ => Bytes4(bytes[0], bytes[1], bytes[2], bytes[3]);
  }

  lemma Bytes2(b0: Byte, b1: Byte)
    requires Between(b0, 0xC2, 0xDF) && IsTail(b1)
    ensures EncodeChar(Value2(b0, b1) as char) == [b0, b1]
  {
  }

  lemma Bytes3(b0: Byte, b1: Byte, b2: Byte)
    requires Between(b0, 0xE0, 0xEF) && SecondFits(b0, b1) && IsTail(b2)
    ensures EncodeChar(Value3(b0, b1, b2) as char) == [b0, b1, b2]
  {
    var x := (b0 as int - 0xE0) * 0x40 + (b1 as int - 0x80);
    var v := x * 0x40 + (b2 as int - 0x80);
    assert v == Value3(b0, b1, b2) && 0x800 <= v < 0x10000;
    assert v / 0x40 == x && v / 0x1000 == b0 as int - 0xE0;
    assert x % 0x40 == b1 as int - 0x80 && v % 0x40 == b2 as int - 0x80;
    hide Value3;
  }

  lemma Bytes4(b0: Byte, b1: Byte, b2: Byte, b3: Byte)
    requires Between(b0, 0xF0, 0xF4) && SecondFits(b0, b1) && IsTail(b2) && IsTail(b3)
    ensures EncodeChar(Value4(b0, b1, b2, b3) as char) == [b0, b1, b2, b3]
  {
    var x := (b0 as int - 0xF0) * 0x40 + (b1 as int - 0x80);
    var y := x * 0x40 + (b2 as int - 0x80);
    var v := y * 0x40 + (b3 as int - 0x80);
    assert v == Value4(b0, b1, b2, b3) && 0x10000 <= v < 0x110000;
    assert v / 0x40 == y && v / 0x1000 == x && v / 0x40000 == b0 as int - 0xF0;
    assert x % 0x40 == b1 as int - 0x80 && y % 0x40 == b2 as int - 0x80 && v % 0x40 == b3 as int - 0x80;
    hide Value4;
  }

  lemma CharBytes(c: char)
    ensures !IsTail(EncodeChar(c)[0])
    ensures forall i :: 1 <= i < |EncodeChar(c)| ==> IsTail(EncodeChar(c)[i])
  {
  }

  // ── Strings ──────────────────────────────────────────────────────────

  function Encode(text: string): seq<Byte> {
    if text == "" then [] else EncodeChar(text[0]) + Encode(text[1..])
  }

  function Decode(bytes: seq<Byte>): Option<string> {
    if bytes == [] then Some("")
    else
      match DecodeFirst(bytes)
      case None => None
      case Some((c, n)) =>
        match Decode(bytes[n..])
        case None => None
        case Some(text) => Some([c] + text)
  }

  lemma {:induction false} DecodeUndoesEncode(text: string)
    ensures Decode(Encode(text)) == Some(text)
  {
    hide DecodeFirst, EncodeChar;
    if text == "" {
    } else {
      DecodeFirstUndoesEncodeChar(text[0], Encode(text[1..]));
      DecodeUndoesEncode(text[1..]);
      assert Encode(text)[|EncodeChar(text[0])|..] == Encode(text[1..]);
      assert [text[0]] + text[1..] == text;
    }
  }

  lemma {:induction false} EncodeUndoesDecode(bytes: seq<Byte>)
    requires Decode(bytes).Some?
    ensures Encode(Decode(bytes).value) == bytes
  {
    hide DecodeFirst, EncodeChar;
    if bytes == [] {
    } else {
      var (c, n) := DecodeFirst(bytes).value;
      EncodeCharUndoesDecodeFirst(bytes);
      EncodeUndoesDecode(bytes[n..]);
      assert Decode(bytes).value[1..] == Decode(bytes[n..]).value;
      assert bytes[..n] + bytes[n..] == bytes;
    }
  }

  // ── Cutting at a character boundary ──────────────────────────────────

  // Whether byte `i` of a text's bytes is the start of a character or their end.
  predicate IsCharBoundary(bytes: seq<Byte>, i: nat) {
    i == 0 || i == |bytes| || (i < |bytes| && !IsTail(bytes[i]))
  }

  // How many whole characters of `text` fit in `max` bytes, from the start.
  function CharsWithin(text: string, max: nat): (n: nat)
    ensures n <= |text|
  {
    if text == "" || |EncodeChar(text[0])| > max then 0
    else 1 + CharsWithin(text[1..], max - |EncodeChar(text[0])|)
  }

  // The longest start of `text` whose bytes number at most `max`.
  function Truncated(text: string, max: nat): string {
    text[..CharsWithin(text, max)]
  }

  lemma {:induction false} TruncatedIsLongest(text: string, max: nat)
    ensures |Encode(Truncated(text, max))| <= max
    ensures forall k :: CharsWithin(text, max) < k <= |text| ==> |Encode(text[..k])| > max
  {
    hide EncodeChar;
    if text == "" {
    } else {
      var first := |EncodeChar(text[0])|;
      if first <= max {
        TruncatedIsLongest(text[1..], max - first);
        var n := CharsWithin(text, max);
        assert text[..n][1..] == text[1..][..n - 1];
      }
      forall k | CharsWithin(text, max) < k <= |text| ensures |Encode(text[..k])| > max {
        assert text[..k][1..] == text[1..][..k - 1];
      }
    }
  }

  lemma {:induction false} EncodePrefix(text: string, k: nat)
    requires k <= |text|
    ensures Encode(text[..k]) <= Encode(text)
  {
    hide EncodeChar;
    if k == 0 {
    } else {
      EncodePrefix(text[1..], k - 1);
      assert text[..k][1..] == text[1..][..k - 1];
    }
  }

  // Between the longest start that fits and `max` there is no boundary, so walking back from `max`
  // stops at the end of that start, after at most three bytes.
  lemma {:induction false} BoundariesBelow(text: string, max: nat)
    requires max < |Encode(text)|
    ensures var cut := |Encode(Truncated(text, max))|;
            && cut <= max <= cut + 3
            && IsCharBoundary(Encode(text), cut)
            && (forall i :: cut < i <= max ==> !IsCharBoundary(Encode(text), i))
  {
    hide EncodeChar;
    var first := EncodeChar(text[0]);
    var bytes := Encode(text);
    CharBytes(text[0]);
    if |first| > max {
      forall i | 0 < i <= max ensures !IsCharBoundary(bytes, i) {
        assert bytes[i] == first[i];
      }
    } else {
      var rest := text[1..];
      var n := CharsWithin(text, max);
      assert Truncated(text, max)[1..] == Truncated(rest, max - |first|);
      BoundariesBelow(rest, max - |first|);
      var cut := |Encode(Truncated(rest, max - |first|))|;
      forall i | |first| <= i < |bytes| ensures bytes[i] == Encode(rest)[i - |first|] {
      }
      if cut == 0 && rest != "" {
        CharBytes(rest[0]);
      }
      forall i | |first| + cut < i <= max ensures !IsCharBoundary(bytes, i) {
        assert !IsCharBoundary(Encode(rest), i - |first|);
      }
    }
  }

  // The longest start of a text of whole characters in at most `max` bytes, on the text's bytes.
  method TruncateToCharBoundary(ghost text: string, bytes: seq<Byte>, max: nat) returns (cut: seq<Byte>)
    requires bytes == Encode(text)
    ensures cut == Encode(Truncated(text, max))
  {
    if |bytes| <= max {
      WholeTextFits(text, max);
      return bytes;
    }
    BoundariesBelow(text, max);
    ghost var target := |Encode(Truncated(text, max))|;
    var end := max;
    while !IsCharBoundary(bytes, end)
      invariant target <= end <= max <= target + 3
      decreases end
    {
      end := end - 1;
    }
    EncodePrefix(text, CharsWithin(text, max));
    return bytes[..end];
  }

  lemma {:induction false} WholeTextFits(text: string, max: nat)
    requires |Encode(text)| <= max
    ensures Truncated(text, max) == text
  {
    hide EncodeChar;
    if text == "" {
    } else {
      WholeTextFits(text[1..], max - |EncodeChar(text[0])|);
    }
  }
}
