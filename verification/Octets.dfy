/** Octet strings, Python's exceptions and slices, and the big-endian integers that
    BACnet puts on the wire (clauses 20.2.4 and 20.2.5 of ANSI/ASHRAE 135-2024). */
module Octets {
  type byte = b: int | 0 <= b < 256
  type octets = seq<byte>

  datatype Option<+T> = None | Some(value: T)

  /** What a Python expression of the codec can raise. */
  datatype Exception = IndexError | StructError | ValueError | TypeError

  datatype Outcome<+T> = Ok(value: T) | Raise(error: Exception) {
    predicate IsFailure() { Raise? }

    function PropagateFailure<U>(): Outcome<U>
      requires Raise?
    {
      Raise(error)
    }

    function Extract(): T
      requires Ok?
    {
      value
    }
  }

  /** `except (IndexError, struct.error): return None` around a parser. */
  function Caught<T>(o: Outcome<T>): Outcome<Option<T>> {
    match o
    case Ok(v) => Ok(Some(v))
    case Raise(e) => if e in {IndexError, StructError} then Ok(None) else Raise(e)
  }

  /** Only an index past the end and a struct.error are caught. */
  lemma CaughtIff<T>(o: Outcome<T>)
    ensures Caught(o) == Ok(None) <==> o == Raise(IndexError) || o == Raise(StructError)
    ensures o.Ok? ==> Caught(o) == Ok(Some(o.value))
  {
  }

  function Min(a: nat, b: nat): nat { if a <= b then a else b }

  /** Python's `s[low:high]` for non-negative bounds: it truncates, never raises. */
  function Slice<T>(s: seq<T>, low: nat, high: nat): seq<T> {
    var l, h := Min(low, |s|), Min(high, |s|);
    if l <= h then s[l..h] else []
  }

  /** `part` stands in `data` at `position`. */
  predicate At(data: octets, position: nat, part: octets) {
    position + |part| <= |data| && data[position..position + |part|] == part
  }

  lemma AtSlice(data: octets, position: nat, part: octets)
    requires At(data, position, part)
    ensures position + |part| <= |data| && data[position..position + |part|] == part
  {
  }

  lemma AtSplit(data: octets, position: nat, a: octets, b: octets)
    ensures At(data, position, a + b) <==> At(data, position, a) && At(data, position + |a|, b)
  {
    if position + |a| + |b| <= |data| {
      var whole := data[position..position + |a| + |b|];
      assert whole[..|a|] == data[position..position + |a|];
      assert whole[|a|..] == data[position + |a|..position + |a| + |b|];
      assert (a + b)[..|a|] == a && (a + b)[|a|..] == b;
      assert whole == whole[..|a|] + whole[|a|..];
    }
  }

  /** What follows a header stands right after it. */
  lemma AtTail(head: octets, tail: octets)
    ensures At(head + tail, |head|, tail)
  {
  }

  lemma SliceTail(head: octets, body: octets)
    ensures Slice(head + body, |head|, |head| + |body|) == body
  {}

  /** The end of the data, and the end of that without its first two octets. */
  lemma TailSlices(data: octets, start: nat, tail: octets)
    requires At(data, start, tail) && start + |tail| == |data|
    ensures Slice(data, start, |data|) == tail && Slice(data, start + 2, |data|) == Slice(tail, 2, |tail|)
  {
    assert data[start..] == tail;
  }

  lemma LastAt(data: octets, position: nat, part: octets)
    requires At(data, position, part) && part != []
    ensures position + |part| <= |data| && data[position + |part| - 1] == part[|part| - 1]
  {
    assert data[position..position + |part|][|part| - 1] == data[position + |part| - 1];
  }

  // ---- big-endian integers ----

  function Pow256(n: nat): nat {
    if n == 0 then 1 else 256 * Pow256(n - 1)
  }

  lemma Pow256Values()
    ensures Pow256(0) == 1 && Pow256(1) == 0x100 && Pow256(2) == 0x1_0000
    ensures Pow256(3) == 0x100_0000 && Pow256(4) == 0x1_0000_0000
  {
    assert Pow256(4) == 256 * Pow256(3) == 256 * (256 * Pow256(2));
  }

  /** int.from_bytes(s, "big") */
  function FromBytes(s: octets): nat {
    if s == [] then 0 else 256 * FromBytes(s[..|s| - 1]) + s[|s| - 1]
  }

  /** value.to_bytes(n, "big", signed=...): the low `n` octets of `v` in two's complement,
      which for a `v` in 0..256^n - 1 is its plain big-endian form. */
  function ToBytes(v: int, n: nat): (s: octets)
    ensures |s| == n
    decreases n
  {
    if n == 0 then [] else ToBytes(v / 256, n - 1) + [v % 256]
  }

  lemma {:induction false} FromToBytes(v: nat, n: nat)
    requires v < Pow256(n)
    ensures FromBytes(ToBytes(v, n)) == v
  {
    if n > 0 {
      FromToBytes(v / 256, n - 1);
      assert ToBytes(v, n)[..n - 1] == ToBytes(v / 256, n - 1);
    }
  }

  lemma {:induction false} ToFromBytes(s: octets)
    ensures FromBytes(s) < Pow256(|s|)
    ensures ToBytes(FromBytes(s), |s|) == s
  {
    if s != [] {
      ToFromBytes(s[..|s| - 1]);
      assert s == s[..|s| - 1] + [s[|s| - 1]];
    }
  }

  lemma {:induction false} LeadingZero(s: octets)
    requires s != [] && s[0] == 0
    ensures FromBytes(s) < Pow256(|s| - 1)
  {
    if |s| > 1 {
      LeadingZero(s[..|s| - 1]);
    }
  }

  /** struct.unpack(">H" / ">I" ...): the slice must have exactly `n` octets. */
  function Unpack(s: octets, n: nat): (r: Outcome<nat>) {
    if |s| == n then Ok(FromBytes(s)) else Raise(StructError)
  }

  function ShortestLength(v: nat): (n: nat)
    requires v < 0x1_0000_0000
    ensures 1 <= n <= 4
  {
    if v < 0x100 then 1 else if v < 0x1_0000 then 2 else if v < 0x100_0000 then 3 else 4
  }

  /** _unsigned_octets: the shortest form, with no zero octet in front. */
  function UnsignedOctets(v: nat): (s: octets)
    requires v < 0x1_0000_0000
    ensures 1 <= |s| <= 4
    ensures FromBytes(s) == v
    ensures |s| > 1 ==> s[0] != 0
  {
    var s := ToBytes(v, ShortestLength(v));
    Pow256Values();
    FromToBytes(v, |s|);
    assert s[0] == 0 ==> FromBytes(s) < Pow256(|s| - 1) by { if s[0] == 0 { LeadingZero(s); } }
    s
  }

  /** No octet string that decodes to the same number is shorter than the one chosen. */
  lemma UnsignedOctetsShortest(v: nat, other: octets)
    requires v < 0x1_0000_0000 && other != [] && FromBytes(other) == v
    ensures |UnsignedOctets(v)| <= |other|
  {
    Pow256Values();
    ToFromBytes(other);
  }

  // ---- two's complement ----

  function SignedLength(v: int): (n: nat)
    requires -0x8000_0000 <= v < 0x8000_0000
    ensures 1 <= n <= 4
  {
    if -0x80 <= v < 0x80 then 1 else if -0x8000 <= v < 0x8000 then 2
    else if -0x80_0000 <= v < 0x80_0000 then 3 else 4
  }

  /** int.from_bytes(s, "big", signed=True): the leading octet carries the sign. */
  function FromSigned(s: octets): int {
    if s == [] then 0
    else if |s| == 1 then (if s[0] < 128 then s[0] else s[0] - 256)
    else 256 * FromSigned(s[..|s| - 1]) + s[|s| - 1]
  }

  lemma {:induction false} FromSignedToBytes(v: int, n: nat)
    requires 0 < n && -128 * Pow256(n - 1) <= v < 128 * Pow256(n - 1)
    ensures FromSigned(ToBytes(v, n)) == v
    decreases n
  {
    if n == 1 {
      assert ToBytes(v, 1) == [v % 256];
    } else {
      FromSignedToBytes(v / 256, n - 1);
      assert ToBytes(v, n)[..n - 1] == ToBytes(v / 256, n - 1);
    }
  }

  lemma {:induction false} FromSignedRange(s: octets)
    requires s != []
    ensures -128 * Pow256(|s| - 1) <= FromSigned(s) < 128 * Pow256(|s| - 1)
  {
    if |s| > 1 {
      FromSignedRange(s[..|s| - 1]);
    }
  }

  /** _signed_octets: the shortest two's-complement form. */
  function SignedOctets(v: int): (s: octets)
    requires -0x8000_0000 <= v < 0x8000_0000
    ensures 1 <= |s| <= 4
    ensures FromSigned(s) == v
  {
    Pow256Values();
    FromSignedToBytes(v, SignedLength(v));
    ToBytes(v, SignedLength(v))
  }

  lemma SignedOctetsShortest(v: int, other: octets)
    requires -0x8000_0000 <= v < 0x8000_0000
    requires other != [] && FromSigned(other) == v
    ensures |SignedOctets(v)| <= |other|
  {
    Pow256Values();
    FromSignedRange(other);
  }
}
