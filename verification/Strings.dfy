/** String values: bytes, with the size cap, APPEND, SETRANGE and the decimal counters of INCRBY. */
module Strings {
  import opened Base

  /** The largest string value, in bytes (512 MiB). */
  const MAX_STRING_SIZE: nat := 536_870_912

  type bytes = seq<byte>

  // ------------------------------------------------------ APPEND, SETRANGE

  /** APPEND fits under the size cap. */
  predicate AppendFits(s: bytes, suffix: bytes) {
    |s| + |suffix| <= MAX_STRING_SIZE
  }

  /** SETRANGE ends under the size cap. The cap is far below any machine word, so the checked sum adds nothing. */
  predicate RangeFits(offset: nat, patch: bytes) {
    offset + |patch| <= MAX_STRING_SIZE
  }

  /** `s` with `patch` written at `offset`; bytes between the old end and the offset read as zero. */
  function Overwrite(s: bytes, offset: nat, patch: bytes): (r: bytes)
    ensures |r| == if patch == [] then |s| else Max(|s|, offset + |patch|)
  {
    if patch == [] then s
    else
      seq(Max(|s|, offset + |patch|), i requires 0 <= i < Max(|s|, offset + |patch|) =>
        if offset <= i < offset + |patch| then patch[i - offset]
        else if i < |s| then s[i]
        else 0)
  }

  /** `r` is `s` with `patch` at `offset`, byte by byte. */
  predicate PatchedAt(s: bytes, offset: nat, patch: bytes, r: bytes) {
    if patch == [] then r == s
    else
      && |r| == (if offset + |patch| <= |s| then |s| else offset + |patch|)
      && r[offset..offset + |patch|] == patch
      && (forall i :: 0 <= i < |s| && !(offset <= i < offset + |patch|) ==> r[i] == s[i])
      && (forall i :: |s| <= i < offset ==> r[i] == 0)
  }

  /** A string value, updated in place. */
  class StringValue {
    var value: bytes

    constructor (value: bytes)
      ensures this.value == value
    {
      this.value := value;
    }

    /** The new length, or None when the result would be too large. */
    method Append(suffix: bytes) returns (len: Option<nat>)
      modifies this
      ensures len.Some? <==> AppendFits(old(value), suffix)
      ensures value == if len.Some? then old(value) + suffix else old(value)
      ensures len.Some? ==> len.value == |value|
    {
      if |value| + |suffix| > MAX_STRING_SIZE {
        return None;
      }
      value := value + suffix;
      return Some(|value|);
    }

    /** Zero-pads up to the end of the patch, then copies it in; an empty patch changes nothing. */
    method SetRange(offset: nat, patch: bytes) returns (len: Option<nat>)
      modifies this
      ensures len.None? <==> patch != [] && !RangeFits(offset, patch)
      ensures len.Some? ==> PatchedAt(old(value), offset, patch, value)
      ensures value == if len.Some? then Overwrite(old(value), offset, patch) else old(value)
      ensures len.Some? ==> len.value == |value|
    {
      if patch == [] {
        return Some(|value|);
      }
      var end := offset + |patch|;
      if end > MAX_STRING_SIZE {
        return None;
      }
      if end > |value| {
        value := value + seq(end - |value|, _ => 0);
      }
      value := value[..offset] + patch + value[end..];
      return Some(|value|);
    }
  }

  // ---------------------------------------------------------------- numbers

  const PLUS: byte := 43
  const MINUS: byte := 45
  const ZERO: byte := 48

  /** The decimal digits of a natural number. */
  function Digits(n: nat): (ds: bytes)
    ensures ds != [] && ds[0] != MINUS && ds[0] != PLUS
  {
    if n < 10 then [ZERO + n] else Digits(n / 10) + [ZERO + n % 10]
  }

  /** The number a string of digits denotes; None when there is anything else in it. */
  function ParseDigits(ds: bytes): Option<nat> {
    if ds == [] then Some(0)
    else
      var d := ds[|ds| - 1];
      match ParseDigits(ds[..|ds| - 1])
      case None => None
      case Some(n) => if ZERO <= d < ZERO + 10 then Some(10 * n + (d - ZERO)) else None
  }

  /** A signed 64-bit decimal: an optional sign, then at least one digit, in range. */
  function ParseInt(s: bytes): Option<i64> {
    if s == [] then None
    else
      var signed := s[0] == PLUS || s[0] == MINUS;
      var ds := if signed then s[1..] else s;
      if ds == [] then None
      else match ParseDigits(ds)
        case None => None
        case Some(n) =>
          var x: int := if s[0] == MINUS then 0 - n else n;
          if I64_MIN <= x <= I64_MAX then Some(x) else None
  }

  function FormatInt(x: i64): bytes {
    if x < 0 then [MINUS] + Digits(0 - x) else Digits(x)
  }

  lemma {:induction false} ParseOfDigits(n: nat)
    ensures ParseDigits(Digits(n)) == Some(n)
  {
    var ds := Digits(n);
    if n < 10 {
      assert ds[..|ds| - 1] == [];
    } else {
      assert ds[..|ds| - 1] == Digits(n / 10);
      ParseOfDigits(n / 10);
    }
  }

  /** A stored counter reads back as the number it was written from. */
  lemma FormatParses(x: i64)
    ensures FormatInt(x) != [] && ParseInt(FormatInt(x)) == Some(x)
  {
    if x < 0 {
      var ds := Digits(0 - x);
      ParseOfDigits(0 - x);
      assert FormatInt(x) == [MINUS] + ds && ([MINUS] + ds)[1..] == ds;
    } else {
      ParseOfDigits(x);
      assert FormatInt(x)[0] == Digits(x)[0];
    }
  }

  /** INCRBY on the bytes of a string: an empty string counts from 0; None is "not an integer or out of range". */
  function Increment(s: bytes, delta: i64): Option<i64> {
    var current := if s == [] then Some(0) else ParseInt(s);
    match current
    case None => None
    case Some(n) => if I64_MIN <= n + delta <= I64_MAX then Some(n + delta) else None
  }

  /** Counting composes: two increments are one by the sum, whenever the first succeeds. */
  lemma IncrementsAdd(s: bytes, a: i64, b: i64)
    requires Increment(s, a).Some?
    requires I64_MIN <= a + b <= I64_MAX
    ensures Increment(FormatInt(Increment(s, a).value), b) == Increment(s, a + b)
  {
    FormatParses(Increment(s, a).value);
  }
}
