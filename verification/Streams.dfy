/** The mutable byte sink and byte reader behind the codecs and the canonical
    records, each method tied to the pure encoder or parser it implements. */
module Streams {
  import opened Core
  import opened Wire
  import opened CanonicalRecord
  import DigestText

  /** value >> (8 * count) */
  function ShiftRight(value: nat, count: nat): nat {
    if count == 0 then value else ShiftRight(value, count - 1) / 256
  }

  /** The codec writers and canonical_record: they differ in the header and in
      how a digest is written. */
  class ByteSink {
    const form: DigestForm
    var bytes: Bytes

    constructor Writer()
      ensures form == Text && bytes == []
    {
      form := Text;
      bytes := [];
    }

    constructor CanonicalRecord(domain: Domain)
      ensures form == Record && bytes == Header(domain)
    {
      form := Record;
      bytes := [];
      new;
      hide EncU16, EncBytes, Domain.Text;
      Raw(RECORD_MAGIC);
      U16(1);
      Bytes(domain.Text());
    }

    method Raw(value: Bytes)
      modifies this
      ensures bytes == old(bytes) + value
    {
      bytes := bytes + value;
    }

    method U8(value: Byte)
      modifies this
      ensures bytes == old(bytes) + [value]
    {
      bytes := bytes + [value];
    }

    /** Pushes k bytes, shifting the most significant one down first. */
    method BigEndian(value: nat, k: nat)
      modifies this
      ensures bytes == old(bytes) + BE(value, k)
    {
      var shift := k;
      while shift > 0
        invariant 0 <= shift <= k
        invariant bytes == old(bytes) + BE(ShiftRight(value, shift), k - shift)
      {
        shift := shift - 1;
        bytes := bytes + [ShiftRight(value, shift) % 256];
      }
    }

    method U16(value: nat)
      modifies this
      ensures bytes == old(bytes) + EncU16(value)
    {
      BigEndian(value, 2);
    }

    method U32(value: nat)
      modifies this
      ensures bytes == old(bytes) + EncU32(value)
    {
      BigEndian(value, 4);
    }

    method U64(value: nat)
      modifies this
      ensures bytes == old(bytes) + EncU64(value)
    {
      BigEndian(value, 8);
    }

    method Boolean(value: bool)
      modifies this
      ensures bytes == old(bytes) + EncBool(value)
    {
      U8(if value then 1 else 0);
    }

    method Signed(value: I64)
      modifies this
      ensures bytes == old(bytes) + EncI64(value)
    {
      var negative := value < 0;
      var magnitude: U64 := if negative then -(value + 1) + 1 else value;
      Boolean(negative);
      U64(magnitude);
    }

    method Bytes(value: Bytes)
      modifies this
      ensures bytes == old(bytes) + EncBytes(value)
    {
      U64(|value|);
      Raw(value);
    }

    method Digest(value: Digest)
      modifies this
      ensures bytes == old(bytes) + EncDigest(form, value)
    {
      hide DigestText.Print, EncU16, EncBytes;
      if form == Text {
        var text := DigestText.PrintDigest(value);
        Bytes(text);
      } else {
        U16(1);
        U16(1);
        Bytes(value);
      }
    }

    method OptionalDigest(value: Option<Digest>)
      modifies this
      ensures bytes == old(bytes) + EncOption(DigestEnc(form), value)
    {
      Boolean(value.Some?);
      if value.Some? {
        Digest(value.value);
      }
    }

    method OptionalBytes(value: Option<Bytes>)
      modifies this
      ensures bytes == old(bytes) + EncOption(EncBytes, value)
    {
      Boolean(value.Some?);
      if value.Some? {
        Bytes(value.value);
      }
    }

    /** A counted list of digests. */
    method Digests(values: seq<Digest>)
      modifies this
      ensures bytes == old(bytes) + EncVector(DigestEnc(form), values)
    {
      hide EncDigest, EncU64;
      U64(|values|);
      ghost var start := bytes;
      for i := 0 to |values|
        invariant bytes == start + EncList(DigestEnc(form), values[..i])
      {
        EncListStep(DigestEnc(form), values, i);
        Digest(values[i]);
      }
      assert values[..|values|] == values;
    }
  }

  /** Reads a byte string from the front.  A failed read leaves the position
      unspecified: the library abandons the reader. */
  class Reader {
    const bytes: Bytes
    const maximumCount: nat
    var position: nat

    constructor (bytes: Bytes, maximumCount: nat)
      ensures this.bytes == bytes && this.maximumCount == maximumCount
      ensures Valid() && Rest() == bytes
    {
      this.bytes := bytes;
      this.maximumCount := maximumCount;
      position := 0;
    }

    ghost predicate Valid()
      reads this
    {
      position <= |bytes|
    }

    ghost function Rest(): Bytes
      reads this
      requires Valid()
    {
      bytes[position..]
    }

    /** The answer and the new position are those of the pure parser. */
    ghost predicate Agrees<T>(parsed: Parsed<T>, answer: Result<T>)
      reads this
    {
      && Valid()
      && match parsed
         case Parsed(value, rest) => answer == Success(value) && Rest() == rest
         case Rejected(fault) => answer == Failure(fault)
    }

    method TakeBytes(size: nat) returns (r: Result<Bytes>)
      requires Valid()
      modifies this
      ensures Agrees(Take(size, old(Rest())), r)
    {
      if size > |bytes| - position {
        return Failure(Truncated);
      }
      assert Rest()[..size] == bytes[position..position + size];
      r := Success(bytes[position..position + size]);
      position := position + size;
    }

    method Expect(expected: Bytes) returns (r: Result<()>)
      requires Valid()
      modifies this
      ensures Agrees(ParseMagic(expected, old(Rest())), r)
    {
      var actual :- TakeBytes(|expected|);
      if actual != expected {
        return Failure(InvalidMagic);
      }
      return Success(());
    }

    method U8() returns (r: Result<Byte>)
      requires Valid()
      modifies this
      ensures Agrees(ParseU8(old(Rest())), r)
    {
      if position == |bytes| {
        return Failure(Truncated);
      }
      r := Success(bytes[position]);
      position := position + 1;
    }

    /** Shifts k bytes in, most significant first. */
    method BigEndian(k: nat) returns (r: Result<nat>)
      requires Valid()
      modifies this
      ensures Agrees(ParseInteger(k, old(Rest())), r)
    {
      if k > |bytes| - position {
        return Failure(Truncated);
      }
      ghost var chunk := bytes[position..position + k];
      var result: nat := 0;
      for index := 0 to k
        invariant position == old(position)
        invariant result == UnBE(chunk[..index])
      {
        assert chunk[..index + 1][..index] == chunk[..index];
        result := result * 256 + bytes[position + index];
      }
      assert chunk[..k] == chunk;
      assert chunk == Rest()[..k];
      position := position + k;
      return Success(result);
    }

    method U16() returns (r: Result<U16>)
      requires Valid()
      modifies this
      ensures Agrees(ParseU16(old(Rest())), r)
    {
      Widths();
      var n :- BigEndian(2);
      return Success(n);
    }

    method U32() returns (r: Result<U32>)
      requires Valid()
      modifies this
      ensures Agrees(ParseU32(old(Rest())), r)
    {
      Widths();
      var n :- BigEndian(4);
      return Success(n);
    }

    method U64() returns (r: Result<U64>)
      requires Valid()
      modifies this
      ensures Agrees(ParseU64(old(Rest())), r)
    {
      Widths();
      var n :- BigEndian(8);
      return Success(n);
    }

    method Boolean() returns (r: Result<bool>)
      requires Valid()
      modifies this
      ensures Agrees(ParseBool(old(Rest())), r)
    {
      var b :- U8();
      if b > 1 {
        return Failure(InvalidValue);
      }
      return Success(b == 1);
    }

    method Signed() returns (r: Result<I64>)
      requires Valid()
      modifies this
      ensures Agrees(ParseI64(old(Rest())), r)
    {
      var negative :- Boolean();
      var magnitude :- U64();
      var limit := I64_MAX + if negative then 1 else 0;
      if magnitude > limit {
        return Failure(InvalidValue);
      }
      var v: int := magnitude;
      if !negative {
        return Success(v);
      }
      return Success(-v);
    }

    method Bytes() returns (r: Result<Bytes>)
      requires Valid()
      modifies this
      ensures Agrees(ParseBytes(old(Rest())), r)
    {
      var size :- U64();
      r := TakeBytes(size);
    }

    method Count() returns (r: Result<U64>)
      requires Valid()
      modifies this
      ensures Agrees(ParseCount(maximumCount, old(Rest())), r)
    {
      var value :- U64();
      if value > maximumCount || value > |bytes| - position {
        return Failure(LimitExceeded);
      }
      return Success(value);
    }

    method Digest() returns (r: Result<Digest>)
      requires Valid()
      modifies this
      ensures Agrees(ParseDigest(Text, old(Rest())), r)
    {
      var text :- Bytes();
      var d := DigestText.ParseDigest(text);
      return if d.Some? then Success(d.value) else Failure(InvalidValue);
    }

    method OptionalDigest() returns (r: Result<Option<Digest>>)
      requires Valid()
      modifies this
      ensures Agrees(ParseOption(DigestParse(Text), old(Rest())), r)
    {
      var present :- Boolean();
      if !present {
        return Success(None);
      }
      var d :- Digest();
      return Success(Some(d));
    }

    method OptionalBytes() returns (r: Result<Option<Bytes>>)
      requires Valid()
      modifies this
      ensures Agrees(ParseOption(ParseBytes, old(Rest())), r)
    {
      var present :- Boolean();
      if !present {
        return Success(None);
      }
      var b :- Bytes();
      return Success(Some(b));
    }
  }
}
