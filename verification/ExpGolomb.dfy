/**
  Bit-level syntax of H.264: fixed-width fields and Exp-Golomb codes (section 9.1 of ITU-T H.264)
  read from the most significant bit of each byte on.
 */
module ExpGolomb {
  import opened Rtp
  import opened Sequences

  type Bits = seq<bool>

  function Pow2(n: nat): nat
    ensures Pow2(n) > 0
  {
    if n == 0 then 1 else 2 * Pow2(n - 1)
  }

  /** The unsigned value of a bit string, most significant bit first. */
  function Value(bits: Bits): (v: nat)
    ensures v < Pow2(|bits|)
  {
    if bits == [] then 0
    else 2 * Value(bits[..|bits| - 1]) + (if bits[|bits| - 1] then 1 else 0)
  }

  /** x in n bits. */
  function Fixed(x: nat, n: nat): (b: Bits)
    ensures |b| == n
  {
    if n == 0 then [] else Fixed(x / 2, n - 1) + [x % 2 == 1]
  }

  lemma ValueSnoc(bits: Bits, b: bool)
    ensures Value(bits + [b]) == 2 * Value(bits) + (if b then 1 else 0)
  {
    assert (bits + [b])[..|bits|] == bits;
  }

  lemma {:induction false} ValueFixed(x: nat, n: nat)
    requires x < Pow2(n)
    ensures Value(Fixed(x, n)) == x
  {
    if n > 0 {
      ValueFixed(x / 2, n - 1);
      ValueSnoc(Fixed(x / 2, n - 1), x % 2 == 1);
    }
  }

  lemma {:induction false} FixedValue(bits: Bits)
    ensures Fixed(Value(bits), |bits|) == bits
  {
    if bits != [] {
      FixedValue(bits[..|bits| - 1]);
    }
  }

  // ---------------------------------------------------------------- reading

  datatype Parsed<T> = Fail | Got(value: T, rest: Bits) {
    predicate IsFailure() {
      Fail?
    }

    function PropagateFailure<V>(): Parsed<V>
      requires Fail?
    {
      Fail
    }

    function Extract(): (T, Bits)
      requires Got?
    {
      (value, rest)
    }
  }

  function ReadU(bits: Bits, n: nat): Parsed<nat> {
    if |bits| < n then Fail else Got(Value(bits[..n]), bits[n..])
  }

  function LeadingZeros(bits: Bits): (z: nat)
    ensures z <= |bits|
  {
    if bits == [] || bits[0] then 0 else 1 + LeadingZeros(bits[1..])
  }

  /** At most 31 leading zeros, so that the value fits 32 bits. */
  function ReadUe(bits: Bits): Parsed<nat> {
    var z := LeadingZeros(bits);
    if z > 31 || z == |bits| then Fail
    else
      match ReadU(bits[z + 1..], z)
      case Fail => Fail
      case Got(v, rest) => Got(Pow2(z) - 1 + v, rest)
  }

  // ---------------------------------------------------------------- writing

  const MAX_UE: nat := 0xffff_fffe

  /** The number of bits after the leading one of x. */
  function Log2(x: nat): nat
    requires x > 0
  {
    if x == 1 then 0 else 1 + Log2(x / 2)
  }

  function Zeros(n: nat): (b: Bits)
    ensures |b| == n
  {
    seq(n, i => false)
  }

  /** The Exp-Golomb code word: value + 1 in binary, after as many zeros as it has further bits. */
  function UeCode(v: nat): Bits {
    var n := Log2(v + 1);
    Zeros(n) + Fixed(v + 1, n + 1)
  }

  lemma {:induction false} Log2Bounds(x: nat)
    requires x > 0
    ensures Pow2(Log2(x)) <= x < 2 * Pow2(Log2(x))
  {
    if x > 1 {
      Log2Bounds(x / 2);
    }
  }

  lemma {:induction false} Log2Unique(x: nat, n: nat)
    requires Pow2(n) <= x < 2 * Pow2(n)
    ensures Log2(x) == n
  {
    if n > 0 {
      Log2Unique(x / 2, n - 1);
    }
  }

  lemma {:induction false} Pow2Monotone(m: nat, n: nat)
    requires m <= n
    ensures Pow2(m) <= Pow2(n)
  {
    if m < n {
      Pow2Monotone(m, n - 1);
    }
  }

  /** The leading bit of a full-width value is one, and the rest is the value less its top power. */
  lemma {:induction false} FixedTop(x: nat, n: nat)
    requires Pow2(n) <= x < 2 * Pow2(n)
    ensures Fixed(x, n + 1) == [true] + Fixed(x - Pow2(n), n)
  {
    if n > 0 {
      FixedTop(x / 2, n - 1);
      assert (x - Pow2(n)) / 2 == x / 2 - Pow2(n - 1) && (x - Pow2(n)) % 2 == x % 2;
    } else {
      assert Fixed(1, 1) == Fixed(0, 0) + [true] == [true];
    }
  }

  lemma {:induction false} ZerosLead(n: nat, rest: Bits)
    ensures LeadingZeros(Zeros(n) + ([true] + rest)) == n
  {
    var bits := Zeros(n) + ([true] + rest);
    if n > 0 {
      ZerosLead(n - 1, rest);
      assert bits[1..] == Zeros(n - 1) + ([true] + rest);
    }
  }

  lemma {:induction false} LeadingZerosMeaning(bits: Bits)
    ensures forall i :: 0 <= i < LeadingZeros(bits) ==> !bits[i]
    ensures LeadingZeros(bits) < |bits| ==> bits[LeadingZeros(bits)]
  {
    if bits != [] && !bits[0] {
      LeadingZerosMeaning(bits[1..]);
      forall i | 0 <= i < LeadingZeros(bits)
        ensures !bits[i]
      {
        if i > 0 {
          assert bits[i] == bits[1..][i - 1];
        }
      }
    }
  }

  /** Every code word is zeros, a one, and the remaining bits of value + 1. */
  lemma UeShape(v: nat)
    ensures var n := Log2(v + 1);
      && Pow2(n) <= v + 1 < 2 * Pow2(n)
      && UeCode(v) == Zeros(n) + ([true] + Fixed(v + 1 - Pow2(n), n))
  {
    Log2Bounds(v + 1);
    FixedTop(v + 1, Log2(v + 1));
  }

  /** Reading n bits undoes writing n bits, whatever follows. */
  lemma URoundTrip(v: nat, n: nat, rest: Bits)
    requires v < Pow2(n)
    ensures ReadU(Fixed(v, n) + rest, n) == Got(v, rest)
  {
    ValueFixed(v, n);
    var bits := Fixed(v, n) + rest;
    assert bits[..n] == Fixed(v, n) && bits[n..] == rest;
  }

  lemma FixedOf(c: Bits, n: nat, v: nat, rest: Bits, bits: Bits)
    requires n == |c| && v == Value(c) && bits == c + rest
    ensures v < Pow2(n) && bits == Fixed(v, n) + rest
  {
    FixedValue(c);
  }

  lemma UReadsOnlyCodes(bits: Bits, n: nat)
    requires ReadU(bits, n).Got?
    ensures var r := ReadU(bits, n); r.value < Pow2(n) && bits == Fixed(r.value, n) + r.rest
  {
    TakeDrop(bits, n);
    FixedOf(bits[..n], n, ReadU(bits, n).value, bits[n..], bits);
  }

  lemma AfterOne(n: nat, tail: Bits)
    ensures (Zeros(n) + ([true] + tail))[n + 1..] == tail
  {
  }

  lemma Concat4(a: Bits, b: Bits, c: Bits, rest: Bits)
    ensures (a + (b + c)) + rest == a + (b + (c + rest))
  {
  }

  lemma LengthIff(v: nat)
    ensures Log2(v + 1) <= 31 <==> v <= MAX_UE
  {
    Log2Bounds(v + 1);
    assert Pow2(32) == 0x1_0000_0000 by {
      assert Pow2(8) == 256;
      assert Pow2(16) == 0x1_0000;
      assert Pow2(24) == 0x100_0000;
    }
    if Log2(v + 1) <= 31 {
      Pow2Monotone(Log2(v + 1), 31);
    } else {
      Pow2Monotone(32, Log2(v + 1));
    }
  }

  /**
    Reading undoes writing for exactly the values up to 2^32 - 2, whatever follows, and consumes
    exactly the code word; the code word of a larger value is refused.
   */
  lemma UeRoundTripIff(v: nat, rest: Bits)
    ensures ReadUe(UeCode(v) + rest) == if v <= MAX_UE then Got(v, rest) else Fail
  {
    var n := Log2(v + 1);
    UeShape(v);
    var low := v + 1 - Pow2(n);
    var c := Fixed(low, n);
    Concat4(Zeros(n), [true], c, rest);
    LengthIff(v);
    ReadShape(n, low, rest, UeCode(v) + rest);
  }

  /** Reading zeros, a one and as many bits: the code length decides alone whether it is refused. */
  lemma ReadShape(n: nat, low: nat, rest: Bits, bits: Bits)
    requires low < Pow2(n) && bits == Zeros(n) + ([true] + (Fixed(low, n) + rest))
    ensures ReadUe(bits) == if n <= 31 then Got(Pow2(n) - 1 + low, rest) else Fail
  {
    var tail := Fixed(low, n) + rest;
    ZerosLead(n, tail);
    AfterOne(n, tail);
    URoundTrip(low, n, rest);
  }

  lemma SplitAtOne(bits: Bits, z: nat)
    requires z < |bits| && bits[z] && forall i :: 0 <= i < z ==> !bits[i]
    ensures bits == Zeros(z) + ([true] + bits[z + 1..])
  {
    var zeros, tail := Zeros(z), bits[z + 1..];
    assert |zeros + ([true] + tail)| == |bits|;
    forall i | 0 <= i < |bits|
      ensures bits[i] == (zeros + ([true] + tail))[i]
    {
    }
  }

  /** A prefix of z zeros, a one and z bits is the code word of the value they are read as. */
  lemma CodeOf(z: nat, v: nat, low: nat, rest: Bits)
    requires low < Pow2(z) && v == Pow2(z) - 1 + low
    ensures Zeros(z) + ([true] + (Fixed(low, z) + rest)) == UeCode(v) + rest
    ensures z <= 31 <==> v <= MAX_UE
  {
    Log2Unique(v + 1, z);
    UeShape(v);
    LengthIff(v);
    Concat4(Zeros(z), [true], Fixed(low, z), rest);
  }

  /** Whatever is read was written: the bits consumed are the code word of the value. */
  lemma UeReadsOnlyCodes(bits: Bits)
    requires ReadUe(bits).Got?
    ensures var r := ReadUe(bits); r.value <= MAX_UE && bits == UeCode(r.value) + r.rest
  {
    var z := LeadingZeros(bits);
    LeadingZerosMeaning(bits);
    SplitAtOne(bits, z);
    var low := ReadU(bits[z + 1..], z);
    UReadsOnlyCodes(bits[z + 1..], z);
    CodeOf(z, ReadUe(bits).value, low.value, low.rest);
  }

  // ---------------------------------------------------------------- the bit reader

  function BitAt(data: Bytes, k: nat): bool
    requires k < 8 * |data|
  {
    data[k / 8] / Pow2(7 - k % 8) % 2 == 1
  }

  function BitsOf(data: Bytes): Bits {
    seq(8 * |data|, k requires 0 <= k < 8 * |data| => BitAt(data, k))
  }

  /** The writer's side: whole bytes, first bit on top. */
  function Pack(bits: Bits): Bytes
    requires |bits| % 8 == 0
  {
    if bits == [] then []
    else
      assert Pow2(8) == 256;
      [Value(bits[..8])] + Pack(bits[8..])
  }

  lemma HalveQuotient(v: nat, b: nat, p: nat)
    requires b < 2 && p > 0
    ensures (2 * v + b) / (2 * p) == v / p
  {
    var q, r := v / p, v % p;
    assert 2 * v + b == (2 * p) * q + (2 * r + b);
    assert 0 <= 2 * r + b < 2 * p;
    DivUnique(2 * v + b, 2 * p, q, 2 * r + b);
  }

  lemma DivUnique(a: nat, d: nat, q: nat, r: nat)
    requires d > 0 && a == d * q + r && r < d
    ensures a / d == q
  {
    var q' := a / d;
    assert a == d * q' + a % d;
    if q' < q {
      MulAtLeast(d, q - q');
    } else if q < q' {
      MulAtLeast(d, q' - q);
    }
  }

  lemma MulAtLeast(d: nat, k: nat)
    requires k >= 1
    ensures d * k >= d
  {
  }

  /** Bit k of a value is bit k of the string it was read from. */
  lemma {:induction false} BitOfValue(bits: Bits, k: nat)
    requires k < |bits|
    ensures Value(bits) / Pow2(|bits| - 1 - k) % 2 == (if bits[k] then 1 else 0)
    decreases |bits|
  {
    var front, last := bits[..|bits| - 1], bits[|bits| - 1];
    if k < |bits| - 1 {
      BitOfValue(front, k);
      BitOfLonger(Value(front), last, Pow2(|bits| - 2 - k), Value(bits), Pow2(|bits| - 1 - k));
    } else {
      LowBit(Value(front), last, Value(bits));
    }
  }

  lemma BitOfLonger(front: nat, last: bool, p: nat, all: nat, p2: nat)
    requires p > 0 && p2 == 2 * p && all == 2 * front + (if last then 1 else 0)
    ensures all / p2 == front / p
  {
    HalveQuotient(front, if last then 1 else 0, p);
  }

  lemma LowBit(front: nat, last: bool, all: nat)
    requires all == 2 * front + (if last then 1 else 0)
    ensures all / Pow2(0) % 2 == if last then 1 else 0
  {
  }

  lemma {:induction false} PackRoundTrip(bits: Bits)
    requires |bits| % 8 == 0
    ensures 8 * |Pack(bits)| == |bits| && BitsOf(Pack(bits)) == bits
    decreases |bits|
  {
    if bits != [] {
      var first, rest := bits[..8], bits[8..];
      PackRoundTrip(rest);
      var data := Pack(bits);
      assert data[1..] == Pack(rest);
      forall k | 0 <= k < |bits|
        ensures BitAt(data, k) == bits[k]
      {
        if k < 8 {
          BitOfValue(first, k);
        } else {
          assert BitAt(data, k) == BitAt(Pack(rest), k - 8) == BitsOf(Pack(rest))[k - 8];
        }
      }
    }
  }

  class BitReader {
    const data: Bytes
    var pos: nat

    ghost predicate Valid()
      reads this
    {
      pos <= 8 * |data|
    }

    /** The bits not read yet. */
    ghost function Remaining(): Bits
      requires Valid()
      reads this
    {
      BitsOf(data)[pos..]
    }

    constructor (data: Bytes)
      ensures Valid() && this.data == data && Remaining() == BitsOf(data)
    {
      this.data := data;
      pos := 0;
    }

    method Bit() returns (bit: nat, ok: bool)
      requires Valid()
      modifies this
      ensures Valid()
      ensures ok <==> old(Remaining()) != []
      ensures ok ==> Remaining() == old(Remaining())[1..] && bit == (if old(Remaining())[0] then 1 else 0)
      ensures !ok ==> Remaining() == []
    {
      if pos >= |data| * 8 {
        return 0, false;
      }
      var b := data[pos / 8];
      var shift := 7 - pos % 8;
      bit := b / Pow2(shift) % 2;
      pos := pos + 1;
      return bit, true;
    }

    /** n bits as one value; a read that runs out of bits fails. */
    method U(n: int) returns (value: nat, ok: bool)
      requires Valid()
      modifies this
      ensures Valid()
      ensures 0 <= n <= 32 ==>
        var r := ReadU(old(Remaining()), n);
        ok == r.Got? && (ok ==> value == r.value && Remaining() == r.rest)
      ensures !(0 <= n <= 32) ==> !ok && Remaining() == old(Remaining())
    {
      if n < 0 || n > 32 {
        return 0, false;
      }
      value := 0;
      ghost var start := Remaining();
      for i := 0 to n
        invariant Valid() && i <= |start| && Remaining() == start[i..]
        invariant value == Value(start[..i])
      {
        var bit, got := Bit();
        if !got {
          return 0, false;
        }
        value := value * 2 + bit;
        StepAt(start, i);
        ValueSnoc(start[..i], start[i]);
      }
      ok := true;
    }

    /** Reads up to and including the first one bit, giving up after 32 zeros. */
    method SkipZeros() returns (zeros: nat, ok: bool)
      requires Valid()
      modifies this
      ensures Valid()
      ensures var z := LeadingZeros(old(Remaining()));
        && (ok <==> z <= 31 && z < |old(Remaining())|)
        && (ok ==> zeros == z && Remaining() == old(Remaining())[z + 1..])
    {
      zeros, ok := 0, false;
      ghost var start := Remaining();
      while true
        invariant Valid() && zeros <= |start| && zeros <= 31 && Remaining() == start[zeros..]
        invariant LeadingZeros(start) == zeros + LeadingZeros(start[zeros..])
        decreases |start| - zeros
      {
        if zeros < |start| {
          StepAt(start, zeros);
        }
        var bit, got := Bit();
        if !got || bit == 1 {
          return zeros, got;
        }
        zeros := zeros + 1;
        if zeros > 31 {
          return zeros, false;
        }
      }
    }

    method Ue() returns (value: nat, ok: bool)
      requires Valid()
      modifies this
      ensures Valid()
      ensures var r := ReadUe(old(Remaining()));
        ok == r.Got? && (ok ==> value == r.value && Remaining() == r.rest)
    {
      var zeros;
      zeros, ok := SkipZeros();
      if !ok {
        return 0, false;
      }
      if zeros == 0 {
        return 0, true;
      }
      var rest;
      rest, ok := U(zeros);
      if !ok {
        return 0, false;
      }
      return Pow2(zeros) - 1 + rest, true;
    }
  }
}
