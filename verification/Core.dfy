/** Byte strings, outcomes and the one foreign function of the library. */
module Core {

  type Byte = b: int | 0 <= b < 256
  type Bytes = seq<Byte>

  const U16_LIMIT: nat := 0x1_0000
  const U32_LIMIT: nat := 0x1_0000_0000
  const U64_LIMIT: nat := 0x1_0000_0000_0000_0000

  /** Every C++ string and vector has a length that fits std::size_t. */
  predicate Sized<T>(s: seq<T>) { |s| < U64_LIMIT }

  type Digest = d: Bytes | |d| == 32 witness seq(32, _ => 0)

  /** SHA-256 is computed by OpenSSL.  Nothing is assumed of it but its type:
      an arbitrary function from byte strings to 32-byte digests. */
  const SHA256: Bytes -> Digest

  /** Two distinct preimages with the same digest. */
  predicate Collision(x: Bytes, y: Bytes) { x != y && SHA256(x) == SHA256(y) }

  datatype Option<+T> = None | Some(value: T) {
    predicate IsFailure() { None? }

    function PropagateFailure<U>(): Option<U>
      requires None?
    {
      None
    }

    function Extract(): T
      requires Some?
    {
      value
    }
  }

  /** The codec's failure classes; `StoreFailure` is every failure of the
      generation codec, `InvalidValue` also every rejected constructor call. */
  datatype Fault =
    | StoreFailure
    | LimitExceeded
    | InvalidMagic
    | UnsupportedVersion
    | Truncated
    | TrailingData
    | ChecksumMismatch
    | InvalidValue
    | ExpectedSnapshotMismatch
    | RequestMismatch
    | ActualPriorMismatch
    | IdentityMismatch

  datatype Result<+T> = Success(value: T) | Failure(fault: Fault) {
    predicate IsFailure() { Failure? }

    function PropagateFailure<U>(): Result<U>
      requires Failure?
    {
      Failure(fault)
    }

    function Extract(): T
      requires Success?
    {
      value
    }
  }

  /** A parse of the head of a byte string: the value and the unread tail. */
  datatype Parsed<+T> = Parsed(value: T, rest: Bytes) | Rejected(fault: Fault) {
    predicate IsFailure() { Rejected? }

    function PropagateFailure<U>(): Parsed<U>
      requires Rejected?
    {
      Rejected(fault)
    }

    function Extract(): (T, Bytes)
      requires Parsed?
    {
      (value, rest)
    }
  }

  /** Lift a constructor's answer into a parse that consumed up to `rest`. */
  function Built<T>(made: Option<T>, rest: Bytes): Parsed<T> {
    if made.Some? then Parsed(made.value, rest) else Rejected(InvalidValue)
  }
}
