/** The primitives of both byte codecs and of the hash preimages: big-endian
    integers, sign-magnitude integers, length-prefixed bytes, digests, options
    and counted lists, as pure encoders and parsers that undo them. */
module Wire {
  import opened Core
  import DigestText

  type U16 = n: nat | n < U16_LIMIT
  type U32 = n: nat | n < U32_LIMIT
  type U64 = n: nat | n < U64_LIMIT
  type I64 = v: int | -0x8000_0000_0000_0000 <= v < 0x8000_0000_0000_0000

  const I64_MAX: nat := 0x7FFF_FFFF_FFFF_FFFF

  // ---- integers ----------------------------------------------------------

  function Pow256(k: nat): (r: nat)
    ensures r > 0
  {
    if k == 0 then 1 else 256 * Pow256(k - 1)
  }

  /** The k low-order bytes of n, most significant first. */
  function BE(n: nat, k: nat): (r: Bytes)
    ensures |r| == k
  {
    if k == 0 then [] else BE(n / 256, k - 1) + [n % 256]
  }

  function UnBE(b: Bytes): nat {
    if b == [] then 0 else UnBE(b[..|b| - 1]) * 256 + b[|b| - 1]
  }

  lemma {:induction false} UnBEInverts(n: nat, k: nat)
    requires n < Pow256(k)
    ensures UnBE(BE(n, k)) == n
  {
    if k > 0 {
      UnBEInverts(n / 256, k - 1);
      assert BE(n, k)[..k - 1] == BE(n / 256, k - 1);
    }
  }

  lemma TimesKeepsOrder(d: nat, a: int, b: int)
    ensures a >= b ==> d * a >= d * b
  {
    if a >= b {
      assert d * (a - b) >= 0;
      assert d * (a - b) == d * a - d * b;
    }
  }

  lemma IsQuotient(n: nat, d: nat, q: nat)
    requires d > 0 && d * q <= n < d * q + d
    ensures n / d == q
  {
    assert d * (n / d) + n % d == n;
    assert d * (n / d + 1) == d * (n / d) + d && d * (q + 1) == d * q + d;
    TimesKeepsOrder(d, q, n / d + 1);
    TimesKeepsOrder(d, n / d, q + 1);
  }

  /** Shifting by one byte and then by k bytes is shifting by k + 1 bytes. */
  lemma ShiftTwice(n: nat, k: nat)
    ensures n / 256 / Pow256(k) == n / Pow256(k + 1)
  {
    var p := Pow256(k);
    var q, u := n / 256, n / 256 / p;
    assert p * u + q % p == q;
    assert 256 * p * u == 256 * (p * u);
    IsQuotient(n, 256 * p, u);
  }

  /** Byte i counts from the most significant end. */
  lemma {:induction false} BEAt(n: nat, k: nat, i: nat)
    requires i < k
    ensures BE(n, k)[i] == (n / Pow256(k - 1 - i)) % 256
  {
    if i < k - 1 {
      BEAt(n / 256, k - 1, i);
      ShiftTwice(n, k - 2 - i);
    }
  }

  /** Reading is the other half of the bijection: every byte string is the writing of
      the integer it is read as. */
  lemma {:induction false} BEInverts(b: Bytes)
    ensures BE(UnBE(b), |b|) == b
  {
    if b != [] {
      var rest, last := b[..|b| - 1], b[|b| - 1];
      BEInverts(rest);
      assert (UnBE(rest) * 256 + last) / 256 == UnBE(rest) && (UnBE(rest) * 256 + last) % 256 == last;
      assert b == rest + [last];
    }
  }

  lemma {:induction false} UnBEBound(b: Bytes)
    ensures UnBE(b) < Pow256(|b|)
  {
    if b != [] { UnBEBound(b[..|b| - 1]); }
  }

  lemma Widths()
    ensures Pow256(1) == 256 && Pow256(2) == U16_LIMIT && Pow256(4) == U32_LIMIT && Pow256(8) == U64_LIMIT
  {
    assert Pow256(3) == 256 * Pow256(2);
    assert Pow256(4) == 256 * Pow256(3);
    assert Pow256(5) == 256 * Pow256(4);
    assert Pow256(6) == 256 * Pow256(5);
    assert Pow256(7) == 256 * Pow256(6);
  }

  // ---- encoders ----------------------------------------------------------

  function EncU16(n: nat): Bytes { BE(n, 2) }
  function EncU32(n: nat): Bytes { BE(n, 4) }
  function EncU64(n: nat): Bytes { BE(n, 8) }
  function EncBool(b: bool): Bytes { [if b then 1 else 0] }

  /** Sign byte and magnitude.  The C++ code computes the magnitude of a
      negative value as `-(v + 1) + 1` so that it never overflows. */
  function EncI64(v: I64): Bytes {
    EncBool(v < 0) + EncU64(if v < 0 then -(v + 1) + 1 else v)
  }

  function EncBytes(s: Bytes): Bytes { EncU64(|s|) + s }

  /** How a digest is written: its text in the codecs, its version, algorithm
      and raw bytes in a hash preimage. */
  datatype DigestForm = Text | Record

  function EncDigest(form: DigestForm, d: Digest): Bytes {
    match form
    case Text => EncBytes(DigestText.Print(d))
    case Record => EncU16(1) + EncU16(1) + EncBytes(d)
  }

  function DigestEnc(form: DigestForm): Digest -> Bytes { d => EncDigest(form, d) }

  function EncOption<T>(enc: T -> Bytes, o: Option<T>): Bytes {
    EncBool(o.Some?) + if o.Some? then enc(o.value) else []
  }

  function EncList<T>(enc: T -> Bytes, xs: seq<T>): Bytes {
    if xs == [] then [] else enc(xs[0]) + EncList(enc, xs[1..])
  }

  function EncVector<T>(enc: T -> Bytes, xs: seq<T>): Bytes {
    EncU64(|xs|) + EncList(enc, xs)
  }

  // ---- parsers -----------------------------------------------------------

  function Take(n: nat, s: Bytes): Parsed<Bytes> {
    if n > |s| then Rejected(Truncated) else Parsed(s[..n], s[n..])
  }

  function ParseInteger(k: nat, s: Bytes): (r: Parsed<nat>)
    ensures r.Parsed? ==> r.value < Pow256(k)
  {
    var (b, rest) :- Take(k, s);
    UnBEBound(b);
    Parsed(UnBE(b), rest)
  }

  function ParseMagic(expected: Bytes, s: Bytes): Parsed<()> {
    var (actual, s) :- Take(|expected|, s);
    if actual == expected then Parsed((), s) else Rejected(InvalidMagic)
  }

  function ParseU8(s: Bytes): Parsed<Byte> {
    if s == [] then Rejected(Truncated) else Parsed(s[0], s[1..])
  }

  function ParseU16(s: Bytes): Parsed<U16> { Widths(); ParseInteger(2, s) }
  function ParseU32(s: Bytes): Parsed<U32> { Widths(); ParseInteger(4, s) }
  function ParseU64(s: Bytes): Parsed<U64> { Widths(); ParseInteger(8, s) }

  function ParseBool(s: Bytes): Parsed<bool> {
    var (b, rest) :- ParseU8(s);
    if b > 1 then Rejected(InvalidValue) else Parsed(b == 1, rest)
  }

  function ParseI64(s: Bytes): Parsed<I64> {
    var (negative, s) :- ParseBool(s);
    var (magnitude, s) :- ParseU64(s);
    var limit := I64_MAX + if negative then 1 else 0;
    if magnitude > limit then Rejected(InvalidValue)
    else
      var v: int := magnitude;
      Parsed(if negative then -v else v, s)
  }

  function ParseBytes(s: Bytes): (r: Parsed<Bytes>)
    ensures r.Parsed? ==> Sized(r.value)
  {
    var (size, s) :- ParseU64(s);
    Take(size, s)
  }

  /** A count is refused when it is above the reader's limit or above the number
      of bytes left, since no element is empty. */
  function ParseCount(limit: nat, s: Bytes): Parsed<U64> {
    var (n, s) :- ParseU64(s);
    if n > limit || n > |s| then Rejected(LimitExceeded) else Parsed(n, s)
  }

  function ParseDigest(form: DigestForm, s: Bytes): Parsed<Digest> {
    match form
    case Text =>
      var (text, s) :- ParseBytes(s);
      Built(DigestText.Parse(text), s)
    case Record =>
      var (version, s) :- ParseU16(s);
      var (algorithm, s) :- ParseU16(s);
      var (raw, s) :- ParseBytes(s);
      if version == 1 && algorithm == 1 && |raw| == 32 then Parsed(raw, s) else Rejected(InvalidValue)
  }

  function DigestParse(form: DigestForm): Bytes -> Parsed<Digest> { s => ParseDigest(form, s) }

  function ParseOption<T>(parse: Bytes -> Parsed<T>, s: Bytes): Parsed<Option<T>> {
    var (present, s) :- ParseBool(s);
    if !present then Parsed(None, s)
    else
      var (x, s) :- parse(s);
      Parsed(Some(x), s)
  }

  function ParseList<T>(parse: Bytes -> Parsed<T>, n: nat, s: Bytes): (r: Parsed<seq<T>>)
    ensures r.Parsed? ==> |r.value| == n
  {
    if n == 0 then Parsed([], s)
    else
      var (x, s) :- parse(s);
      var (xs, s) :- ParseList(parse, n - 1, s);
      Parsed([x] + xs, s)
  }

  /** The generation reader's counts have no limit of their own. */
  const NO_LIMIT: nat := U64_LIMIT

  function ParseVector<T>(parse: Bytes -> Parsed<T>, limit: nat, s: Bytes): (r: Parsed<seq<T>>)
    ensures r.Parsed? ==> Sized(r.value) && |r.value| <= limit
  {
    var (n, s) :- ParseCount(limit, s);
    ParseList(parse, n, s)
  }

  // ---- every parser undoes its encoder, whatever follows ------------------

  lemma TakePrefix(a: Bytes, rest: Bytes)
    ensures Take(|a|, a + rest) == Parsed(a, rest)
  {
    assert (a + rest)[..|a|] == a && (a + rest)[|a|..] == rest;
  }

  lemma IntegerRoundTrip(n: nat, k: nat, rest: Bytes)
    requires n < Pow256(k)
    ensures ParseInteger(k, BE(n, k) + rest) == Parsed(n, rest)
  {
    TakePrefix(BE(n, k), rest);
    UnBEInverts(n, k);
  }

  lemma U8RoundTrip(b: Byte, rest: Bytes)
    ensures ParseU8([b] + rest) == Parsed(b, rest)
  {
    assert ([b] + rest)[1..] == rest;
  }

  lemma U16RoundTrip(n: U16, rest: Bytes)
    ensures ParseU16(EncU16(n) + rest) == Parsed(n, rest)
  {
    Widths();
    IntegerRoundTrip(n, 2, rest);
  }

  lemma U32RoundTrip(n: U32, rest: Bytes)
    ensures ParseU32(EncU32(n) + rest) == Parsed(n, rest)
  {
    Widths();
    IntegerRoundTrip(n, 4, rest);
  }

  lemma U64RoundTrip(n: U64, rest: Bytes)
    ensures ParseU64(EncU64(n) + rest) == Parsed(n, rest)
  {
    Widths();
    IntegerRoundTrip(n, 8, rest);
  }

  /** The reader takes the high byte first. */
  lemma U16At(a: Byte, b: Byte, rest: Bytes)
    ensures ParseU16([a, b] + rest) == Parsed(a * 256 + b, rest)
  {
    Widths();
    TakePrefix([a, b], rest);
    BEInverts([a, b]);
    assert [a, b][..1] == [a] && [a][..0] == [];
    assert UnBE([a]) == UnBE([]) * 256 + a;
  }

  /** A flag is one byte, 0 or 1; any other byte is refused. */
  lemma BoolExact(b: Byte, rest: Bytes)
    ensures ParseBool([b] + rest) == if b == 0 then Parsed(false, rest) else if b == 1 then Parsed(true, rest)
                                     else Rejected(InvalidValue)
    ensures EncBool(true) == [1] && EncBool(false) == [0]
  {
    U8RoundTrip(b, rest);
  }

  lemma BoolRoundTrip(b: bool, rest: Bytes)
    ensures ParseBool(EncBool(b) + rest) == Parsed(b, rest)
  {
    U8RoundTrip(if b then 1 else 0, rest);
  }

  /** All of [-2^63, 2^63 - 1] survives, and no magnitude overflows u64. */
  lemma I64RoundTrip(v: I64, rest: Bytes)
    ensures ParseI64(EncI64(v) + rest) == Parsed(v, rest)
  {
    var m: U64 := if v < 0 then -(v + 1) + 1 else v;
    assert EncI64(v) + rest == EncBool(v < 0) + (EncU64(m) + rest);
    BoolRoundTrip(v < 0, EncU64(m) + rest);
    U64RoundTrip(m, rest);
  }

  /** Which sign and magnitude are a value, and which value they are. */
  lemma I64Exact(negative: bool, magnitude: U64, rest: Bytes)
    ensures ParseI64(EncBool(negative) + EncU64(magnitude) + rest)
         == if magnitude > (if negative then 0x8000_0000_0000_0000 else 0x7FFF_FFFF_FFFF_FFFF) then Rejected(InvalidValue)
            else Parsed(if negative then 0 - magnitude else magnitude, rest)
  {
    hide EncU64, ParseU64, ParseBool;
    assert EncBool(negative) + EncU64(magnitude) + rest == EncBool(negative) + (EncU64(magnitude) + rest);
    BoolRoundTrip(negative, EncU64(magnitude) + rest);
    U64RoundTrip(magnitude, rest);
  }

  /** A count is read exactly when it is within the limit and within what is left. */
  lemma CountExact(n: U64, limit: nat, rest: Bytes)
    ensures ParseCount(limit, EncU64(n) + rest) == if n <= limit && n <= |rest| then Parsed(n, rest) else Rejected(LimitExceeded)
  {
    hide EncU64, ParseU64;
    U64RoundTrip(n, rest);
  }

  /** The bytes of negative zero are read as zero but are no encoding of it, so
      only the comparison with the re-encoded record refuses them. */
  lemma NegativeZero(rest: Bytes)
    ensures ParseI64(EncBool(true) + EncU64(0) + rest) == Parsed(0, rest)
    ensures forall v: I64 :: EncI64(v) != EncBool(true) + EncU64(0)
  {
    assert EncBool(true) + EncU64(0) + rest == EncBool(true) + (EncU64(0) + rest);
    BoolRoundTrip(true, EncU64(0) + rest);
    U64RoundTrip(0, rest);
    forall v: I64 ensures EncI64(v) != EncBool(true) + EncU64(0) {
      assert EncI64(v)[0] == if v < 0 then 1 else 0;
      I64RoundTrip(v, rest);
    }
  }

  lemma BytesRoundTrip(s: Bytes, rest: Bytes)
    requires Sized(s)
    ensures ParseBytes(EncBytes(s) + rest) == Parsed(s, rest)
  {
    assert EncBytes(s) + rest == EncU64(|s|) + (s + rest);
    U64RoundTrip(|s|, s + rest);
    TakePrefix(s, rest);
  }

  lemma DigestRoundTrip(form: DigestForm, d: Digest, rest: Bytes)
    ensures ParseDigest(form, EncDigest(form, d) + rest) == Parsed(d, rest)
  {
    match form
    case Text =>
      DigestText.PrintShape(d);
      BytesRoundTrip(DigestText.Print(d), rest);
      DigestText.ParsePrint(DigestText.Print(d), d);
    case Record =>
      assert EncDigest(form, d) + rest == EncU16(1) + (EncU16(1) + (EncBytes(d) + rest));
      U16RoundTrip(1, EncU16(1) + (EncBytes(d) + rest));
      U16RoundTrip(1, EncBytes(d) + rest);
      BytesRoundTrip(d, rest);
  }

  lemma DigestSize(form: DigestForm, d: Digest)
    ensures |EncDigest(form, d)| == if form.Text? then 82 else 44
  {
    DigestText.PrintShape(d);
  }

  ghost predicate Inverse<T>(enc: T -> Bytes, parse: Bytes -> Parsed<T>, x: T) {
    forall rest: Bytes :: parse(enc(x) + rest) == Parsed(x, rest)
  }

  lemma OptionRoundTrip<T>(enc: T -> Bytes, parse: Bytes -> Parsed<T>, o: Option<T>, rest: Bytes)
    requires o.Some? ==> Inverse(enc, parse, o.value)
    ensures ParseOption(parse, EncOption(enc, o) + rest) == Parsed(o, rest)
  {
    var tail := if o.Some? then enc(o.value) else [];
    assert EncOption(enc, o) + rest == EncBool(o.Some?) + (tail + rest);
    BoolRoundTrip(o.Some?, tail + rest);
    if o.None? { assert tail + rest == rest; }
  }

  lemma {:induction false} ListRoundTrip<T>(enc: T -> Bytes, parse: Bytes -> Parsed<T>, xs: seq<T>, rest: Bytes)
    requires forall x :: x in xs ==> Inverse(enc, parse, x)
    ensures ParseList(parse, |xs|, EncList(enc, xs) + rest) == Parsed(xs, rest)
  {
    if xs == [] {
      assert EncList(enc, xs) + rest == rest;
    } else {
      var more := EncList(enc, xs[1..]) + rest;
      assert EncList(enc, xs) + rest == enc(xs[0]) + more;
      ListRoundTrip(enc, parse, xs[1..], rest);
      assert Inverse(enc, parse, xs[0]);
      assert parse(enc(xs[0]) + more) == Parsed(xs[0], more);
      assert [xs[0]] + xs[1..] == xs;
    }
  }

  lemma {:induction false} ListSize<T>(enc: T -> Bytes, xs: seq<T>, least: nat)
    requires forall x :: x in xs ==> |enc(x)| >= least
    ensures |EncList(enc, xs)| >= |xs| * least
  {
    if xs != [] {
      ListSize(enc, xs[1..], least);
      assert |xs| * least == |xs[1..]| * least + least;
    }
  }

  /** A counted list comes back provided no element is empty, for then the
      plausibility check on the count cannot refuse it. */
  lemma VectorRoundTrip<T>(enc: T -> Bytes, parse: Bytes -> Parsed<T>, limit: nat, xs: seq<T>, rest: Bytes)
    requires Sized(xs)
    requires forall x :: x in xs ==> Inverse(enc, parse, x) && |enc(x)| >= 1
    ensures ParseVector(parse, limit, EncVector(enc, xs) + rest)
         == if |xs| > limit then Rejected(LimitExceeded) else Parsed(xs, rest)
  {
    var more := EncList(enc, xs) + rest;
    assert EncVector(enc, xs) + rest == EncU64(|xs|) + more;
    U64RoundTrip(|xs|, more);
    ListSize(enc, xs, 1);
    ListRoundTrip(enc, parse, xs, rest);
  }

  lemma {:induction false} EncListAppend<T>(enc: T -> Bytes, xs: seq<T>, ys: seq<T>)
    ensures EncList(enc, xs + ys) == EncList(enc, xs) + EncList(enc, ys)
  {
    if xs == [] {
      assert xs + ys == ys;
    } else {
      assert (xs + ys)[1..] == xs[1..] + ys;
      EncListAppend(enc, xs[1..], ys);
    }
  }

  lemma EncListStep<T>(enc: T -> Bytes, xs: seq<T>, i: nat)
    requires i < |xs|
    ensures EncList(enc, xs[..i + 1]) == EncList(enc, xs[..i]) + enc(xs[i])
  {
    assert xs[..i + 1] == xs[..i] + [xs[i]];
    EncListAppend(enc, xs[..i], [xs[i]]);
    assert EncList(enc, [xs[i]]) == enc(xs[i]) + [];
  }

  /** What a parser guarantees of every value it guarantees of all in a list. */
  lemma {:induction false} ListAll<T>(parse: Bytes -> Parsed<T>, good: T -> bool, n: nat, s: Bytes)
    requires forall t :: parse(t).Parsed? ==> good(parse(t).value)
    ensures var r := ParseList(parse, n, s); r.Parsed? ==> forall x :: x in r.value ==> good(x)
  {
    if n > 0 && parse(s).Parsed? {
      ListAll(parse, good, n - 1, parse(s).rest);
    }
  }

  lemma VectorAll<T>(parse: Bytes -> Parsed<T>, good: T -> bool, limit: nat, s: Bytes)
    requires forall t :: parse(t).Parsed? ==> good(parse(t).value)
    ensures var r := ParseVector(parse, limit, s); r.Parsed? ==> forall x :: x in r.value ==> good(x)
  {
    var count := ParseCount(limit, s);
    if count.Parsed? {
      ListAll(parse, good, count.value, count.rest);
    }
  }

  /** A list whose first elements are already read. */
  function Prepend<T>(xs: seq<T>, parsed: Parsed<seq<T>>): Parsed<seq<T>> {
    match parsed
    case Parsed(value, rest) => Parsed(xs + value, rest)
    case Rejected(fault) => Rejected(fault)
  }

  lemma PrependNothing<T>(parsed: Parsed<seq<T>>)
    ensures Prepend([], parsed) == parsed
  {
    if parsed.Parsed? { assert [] + parsed.value == parsed.value; }
  }

  /** One turn of a decoding loop. */
  lemma ParseListStep<T>(parse: Bytes -> Parsed<T>, n: nat, xs: seq<T>, s: Bytes)
    requires n > 0
    ensures Prepend(xs, ParseList(parse, n, s))
         == match parse(s)
            case Parsed(x, rest) => Prepend(xs + [x], ParseList(parse, n - 1, rest))
            case Rejected(fault) => Rejected(fault)
  {
    var x := parse(s);
    if x.Parsed? {
      var tail := ParseList(parse, n - 1, x.rest);
      if tail.Parsed? { assert xs + ([x.value] + tail.value) == xs + [x.value] + tail.value; }
    }
  }

  /** The end of a decoding loop. */
  lemma ParseListEnd<T>(parse: Bytes -> Parsed<T>, xs: seq<T>, s: Bytes)
    ensures Prepend(xs, ParseList(parse, 0, s)) == Parsed(xs, s)
  {
    assert xs + [] == xs;
  }
}
