/** The printed form of a digest, `v1:sha256:` and 64 lower-case hexadecimal
    digits, and its parser. */
module DigestText {
  import opened Core
  import opened Order

  const COLON: Byte := 58
  const VERSION: Bytes := [118, 49]                       // v1
  const ALGORITHM: Bytes := [115, 104, 97, 50, 53, 54]    // sha256

  /** std::string_view::find of one character; |s| stands for npos. */
  function Find(s: Bytes, c: Byte, from: nat): (r: nat)
    requires from <= |s|
    ensures from <= r <= |s|
    ensures forall i :: from <= i < r ==> s[i] != c
    ensures r < |s| ==> s[r] == c
    decreases |s| - from
  {
    if from == |s| || s[from] == c then from else Find(s, c, from + 1)
  }

  function HexDigit(v: nat): Byte
    requires v < 16
  {
    if v < 10 then 48 + v else 87 + v
  }

  function HexValue(c: Byte): (r: Option<nat>)
    ensures r.Some? ==> r.value < 16
  {
    if 48 <= c <= 57 then Some(c - 48)
    else if 97 <= c <= 102 then Some(10 + c - 97)
    else None
  }

  function Hex(d: Bytes): Bytes {
    if d == [] then [] else [HexDigit(d[0] / 16), HexDigit(d[0] % 16)] + Hex(d[1..])
  }

  function UnHex(h: Bytes): Option<Bytes>
    requires |h| % 2 == 0
  {
    if h == [] then Some([])
    else
      var high :- HexValue(h[0]);
      var low :- HexValue(h[1]);
      Onto([high * 16 + low], UnHex(h[2..]))
  }

  function Onto(head: Bytes, tail: Option<Bytes>): Option<Bytes> {
    if tail.None? then None else Some(head + tail.value)
  }

  lemma OntoTwice(a: Bytes, b: Bytes, tail: Option<Bytes>)
    ensures Onto(a, Onto(b, tail)) == Onto(a + b, tail)
  {
    if tail.Some? { assert a + (b + tail.value) == a + b + tail.value; }
  }

  function Print(d: Digest): Bytes {
    VERSION + [COLON] + ALGORITHM + [COLON] + Hex(d)
  }

  function Parse(s: Bytes): Option<Digest> {
    var first := Find(s, COLON, 0);
    var second := if first == |s| then |s| else Find(s, COLON, first + 1);
    if first == |s| || second == |s| || Find(s, COLON, second + 1) != |s| then None
    else if s[..first] != VERSION then None
    else if s[first + 1..second] != ALGORITHM then None
    else if |s[second + 1..]| != 64 then None
    else
      var d :- UnHex(s[second + 1..]);
      if |d| == 32 then Some(d) else None
  }

  lemma {:induction false} HexShape(d: Bytes)
    ensures |Hex(d)| == 2 * |d|
    ensures COLON !in Hex(d)
  {
    if d != [] { HexShape(d[1..]); }
  }

  lemma {:induction false} UnHexInverts(d: Bytes)
    ensures |Hex(d)| % 2 == 0 && UnHex(Hex(d)) == Some(d)
  {
    HexShape(d);
    if d != [] {
      hide HexValue, HexDigit;
      assert Hex(d)[2..] == Hex(d[1..]);
      UnHexInverts(d[1..]);
      DigitInverts(d[0] / 16);
      DigitInverts(d[0] % 16);
      assert d == [(d[0] / 16) * 16 + d[0] % 16] + d[1..];
    }
  }

  lemma DigitInverts(n: nat)
    requires n < 16
    ensures HexValue(HexDigit(n)) == Some(n)
  {
  }

  lemma {:induction false} HexInverts(h: Bytes)
    requires |h| % 2 == 0 && UnHex(h).Some?
    ensures Hex(UnHex(h).value) == h
  {
    if h != [] {
      HexInverts(h[2..]);
      var d := UnHex(h).value;
      var high, low := HexValue(h[0]).value, HexValue(h[1]).value;
      assert d[0] == high * 16 + low && d[1..] == UnHex(h[2..]).value;
      assert d[0] / 16 == high && d[0] % 16 == low;
      assert HexDigit(high) == h[0] && HexDigit(low) == h[1];
      assert h == [h[0], h[1]] + h[2..];
    }
  }

  const DIGITS: string := "0123456789abcdef"

  lemma {:induction false} HexAt(d: Bytes, i: nat)
    requires i < |d|
    ensures |Hex(d)| == 2 * |d|
    ensures Hex(d)[2 * i] == DIGITS[d[i] / 16] as int && Hex(d)[2 * i + 1] == DIGITS[d[i] % 16] as int
  {
    HexShape(d);
    DigitAt(d[0] / 16);
    DigitAt(d[0] % 16);
    if i > 0 {
      hide HexDigit;
      HexAt(d[1..], i - 1);
      assert Hex(d)[2..] == Hex(d[1..]);
    }
  }

  lemma DigitAt(n: nat)
    requires n < 16
    ensures HexDigit(n) == DIGITS[n] as int
  {
  }

  /** The text in full: `v1:sha256:`, then for every byte its high and its low digit, in
      lower case. */
  lemma PrintAt(d: Digest, i: nat)
    requires i < 32
    ensures |Print(d)| == 74
    ensures Print(d)[..10] == [118, 49, 58, 115, 104, 97, 50, 53, 54, 58]
    ensures Print(d)[10 + 2 * i] == DIGITS[d[i] / 16] as int && Print(d)[11 + 2 * i] == DIGITS[d[i] % 16] as int
  {
    PrintShape(d);
    HexAt(d, i);
    assert Print(d)[10..][2 * i] == Hex(d)[2 * i] && Print(d)[10..][2 * i + 1] == Hex(d)[2 * i + 1];
  }

  lemma PrintShape(d: Digest)
    ensures |Print(d)| == 74
    ensures Print(d)[..2] == VERSION && Print(d)[2] == COLON
    ensures Print(d)[3..9] == ALGORITHM && Print(d)[9] == COLON && Print(d)[10..] == Hex(d)
    ensures forall i :: 0 <= i < 74 && i != 2 && i != 9 ==> Print(d)[i] != COLON
  {
    HexShape(d);
    forall i | 10 <= i < 74 ensures Print(d)[i] != COLON {
      assert Print(d)[i] == Hex(d)[i - 10];
    }
  }

  /** Parsing and printing are mutual inverses: the accepted strings are exactly
      the printed digests. */
  lemma ParsePrint(s: Bytes, d: Digest)
    ensures Parse(s) == Some(d) <==> s == Print(d)
  {
    PrintShape(d);
    UnHexInverts(d);
    if s == Print(d) {
      assert Find(s, COLON, 0) == 2;
      assert Find(s, COLON, 3) == 9;
      assert Find(s, COLON, 10) == |s|;
    }
    if Parse(s) == Some(d) {
      var first := Find(s, COLON, 0);
      var second := Find(s, COLON, first + 1);
      HexInverts(s[second + 1..]);
      assert s == s[..first] + [s[first]] + s[first + 1..second] + [s[second]] + s[second + 1..];
    }
  }

  /** Digest order is the order of the printed text. */
  lemma {:induction false} HexOrder(a: Bytes, b: Bytes)
    ensures Less(Hex(a), Hex(b)) == Less(a, b)
  {
    if a != [] && b != [] {
      var x, y := Hex(a), Hex(b);
      HexOrder(a[1..], b[1..]);
      assert x[1..][1..] == Hex(a[1..]) && y[1..][1..] == Hex(b[1..]);
      assert a[0] == (a[0] / 16) * 16 + a[0] % 16;
      assert b[0] == (b[0] / 16) * 16 + b[0] % 16;
    }
  }

  lemma PrintOrder(a: Digest, b: Digest)
    ensures Less(Print(a), Print(b)) == Less(a, b)
  {
    HexOrder(a, b);
    LessAfterPrefix(VERSION + [COLON] + ALGORITHM + [COLON], Hex(a), Hex(b));
  }

  /** What is left of the text after index bytes have been read from it. */
  ghost function Unread(hexadecimal: Bytes, index: nat): (r: Bytes)
    requires |hexadecimal| == 64 && index <= 32
    ensures |r| % 2 == 0
  {
    hexadecimal[2 * index..]
  }

  lemma UnHexStart(hexadecimal: Bytes)
    requires |hexadecimal| == 64
    ensures Onto([], UnHex(Unread(hexadecimal, 0))) == UnHex(hexadecimal)
  {
    hide UnHex;
    assert Unread(hexadecimal, 0) == hexadecimal;
    var o := UnHex(hexadecimal);
    if o.Some? { assert [] + o.value == o.value; }
  }

  /** One turn of the loop: two characters, or a failure of the whole. */
  lemma UnHexStep(bytes: Bytes, hexadecimal: Bytes, index: nat)
    requires |hexadecimal| == 64 && index < 32
    ensures var high, low := HexValue(hexadecimal[2 * index]), HexValue(hexadecimal[2 * index + 1]);
            Onto(bytes, UnHex(Unread(hexadecimal, index))) ==
              if high.None? || low.None? then None
              else Onto(bytes + [high.value * 16 + low.value], UnHex(Unread(hexadecimal, index + 1)))
  {
    hide HexValue;
    var left := Unread(hexadecimal, index);
    assert left[2..] == Unread(hexadecimal, index + 1);
    assert left[0] == hexadecimal[2 * index] && left[1] == hexadecimal[2 * index + 1];
    var high, low := HexValue(left[0]), HexValue(left[1]);
    if high.Some? && low.Some? {
      OntoTwice(bytes, [high.value * 16 + low.value], UnHex(left[2..]));
    }
  }

  lemma UnHexEnd(bytes: Bytes, hexadecimal: Bytes)
    requires |hexadecimal| == 64
    ensures Onto(bytes, UnHex(Unread(hexadecimal, 32))) == Some(bytes)
  {
    assert Unread(hexadecimal, 32) == [] && bytes + [] == bytes;
  }

  /** The loop that fills the digest, two characters a byte. */
  method ParseHex(hexadecimal: Bytes) returns (r: Option<Digest>)
    requires |hexadecimal| == 64
    ensures r == var d := UnHex(hexadecimal); if d.Some? && |d.value| == 32 then Some(d.value) else None
  {
    hide UnHex, HexValue, Unread;
    var bytes: Bytes := [];
    UnHexStart(hexadecimal);
    for index := 0 to 32
      invariant |bytes| == index
      invariant UnHex(hexadecimal) == Onto(bytes, UnHex(Unread(hexadecimal, index)))
    {
      UnHexStep(bytes, hexadecimal, index);
      var high, low := HexValue(hexadecimal[2 * index]), HexValue(hexadecimal[2 * index + 1]);
      if high.None? || low.None? {
        return None;
      }
      bytes := bytes + [high.value * 16 + low.value];
    }
    UnHexEnd(bytes, hexadecimal);
    return Some(bytes);
  }

  method ParseDigest(input: Bytes) returns (r: Option<Digest>)
    ensures r == Parse(input)
  {
    var first := Find(input, COLON, 0);
    var second := if first == |input| then |input| else Find(input, COLON, first + 1);
    if first == |input| || second == |input| || Find(input, COLON, second + 1) != |input| {
      return None;
    }
    var hexadecimal := input[second + 1..];
    if input[..first] != VERSION || input[first + 1..second] != ALGORITHM || |hexadecimal| != 64 {
      return None;
    }
    r := ParseHex(hexadecimal);
  }

  method PrintDigest(d: Digest) returns (text: Bytes)
    ensures text == Print(d)
  {
    text := VERSION + [COLON] + ALGORITHM + [COLON];
    ghost var prefix := text;
    for i := 0 to 32
      invariant text + Hex(d[i..]) == prefix + Hex(d)
    {
      assert d[i..][1..] == d[i + 1..];
      assert text + ([HexDigit(d[i] / 16), HexDigit(d[i] % 16)] + Hex(d[i + 1..]))
          == text + [HexDigit(d[i] / 16), HexDigit(d[i] % 16)] + Hex(d[i + 1..]);
      text := text + [HexDigit(d[i] / 16), HexDigit(d[i] % 16)];
    }
    assert d[32..] == [];
    assert text + [] == text;
  }
}
