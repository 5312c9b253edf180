/**
  Emulation prevention (section 7.3.1 of ITU-T H.264): a byte 3 keeps two zero bytes from being
  followed by a byte below 4 inside a NAL unit.  The parser strips it before reading bits.
 */
module EmulationPrevention {
  import opened Rtp
  import opened Sequences

  /** Zero bytes seen in a row once b follows. */
  function ZerosAfter(zeros: nat, b: byte): nat {
    if b == 0 then zeros + 1 else 0
  }

  /** What the parser keeps of bytes that follow a run of zeros. */
  function StripFrom(bytes: Bytes, zeros: nat): Bytes {
    if bytes == [] then []
    else if zeros >= 2 && bytes[0] == 3 then StripFrom(bytes[1..], 0)
    else [bytes[0]] + StripFrom(bytes[1..], ZerosAfter(zeros, bytes[0]))
  }

  lemma StripStep(rbsp: Bytes, i: nat, zeros: nat, out: Bytes)
    requires i < |rbsp|
    ensures var b, rest := rbsp[i], rbsp[i + 1..];
      out + StripFrom(rbsp[i..], zeros) ==
        if zeros >= 2 && b == 3 then out + StripFrom(rest, 0)
        else (out + [b]) + StripFrom(rest, ZerosAfter(zeros, b))
  {
    assert rbsp[i..][1..] == rbsp[i + 1..];
  }

  method StripEmulationPrevention(rbsp: Bytes) returns (out: Bytes)
    ensures out == StripFrom(rbsp, 0)
  {
    out := [];
    var zeros := 0;
    for i := 0 to |rbsp|
      invariant StripFrom(rbsp, 0) == out + StripFrom(rbsp[i..], zeros)
    {
      var b := rbsp[i];
      StripStep(rbsp, i, zeros, out);
      if zeros >= 2 && b == 3 {
        zeros := 0;
        continue;
      }
      out := out + [b];
      if b == 0 {
        zeros := zeros + 1;
      } else {
        zeros := 0;
      }
    }
  }

  /** The encoder's side, after at most two zeros. */
  function InsertFrom(bytes: Bytes, zeros: nat): Bytes
    requires zeros <= 2
  {
    if bytes == [] then []
    else if zeros == 2 && bytes[0] <= 3 then [3, bytes[0]] + InsertFrom(bytes[1..], ZerosAfter(0, bytes[0]))
    else [bytes[0]] + InsertFrom(bytes[1..], ZerosAfter(zeros, bytes[0]))
  }

  /** Stripping undoes insertion for every byte string. */
  lemma {:induction false} StripUndoesInsert(bytes: Bytes, zeros: nat)
    requires zeros <= 2
    ensures StripFrom(InsertFrom(bytes, zeros), zeros) == bytes
    decreases |bytes|
  {
    if bytes != [] {
      var b, out := bytes[0], InsertFrom(bytes, zeros);
      if zeros == 2 && b <= 3 {
        StripUndoesInsert(bytes[1..], ZerosAfter(0, b));
        var tail := InsertFrom(bytes[1..], ZerosAfter(0, b));
        assert out[1..] == [b] + tail && ([b] + tail)[1..] == tail;
      } else {
        StripUndoesInsert(bytes[1..], ZerosAfter(zeros, b));
        assert out[1..] == InsertFrom(bytes[1..], ZerosAfter(zeros, b));
      }
    }
  }

  /** Byte k is an inserted one: a 3 right after two zero bytes. */
  predicate InsertedAt(bytes: Bytes, k: nat)
    requires k < |bytes|
  {
    k >= 2 && bytes[k] == 3 && bytes[k - 1] == 0 && bytes[k - 2] == 0
  }

  /** All bytes of a prefix but the inserted ones, in order. */
  function WithoutInserted(bytes: Bytes, n: nat): Bytes
    requires n <= |bytes|
  {
    if n == 0 then []
    else WithoutInserted(bytes, n - 1) + (if InsertedAt(bytes, n - 1) then [] else [bytes[n - 1]])
  }

  /** The zero bytes right before byte k, as far as they matter. */
  predicate ZerosBefore(bytes: Bytes, k: nat, zeros: nat)
    requires k <= |bytes|
  {
    && (zeros >= 1 <==> k >= 1 && bytes[k - 1] == 0)
    && (zeros >= 2 <==> k >= 2 && bytes[k - 1] == 0 && bytes[k - 2] == 0)
  }

  lemma {:induction false} StripRest(bytes: Bytes, k: nat, zeros: nat)
    requires k <= |bytes| && ZerosBefore(bytes, k, zeros)
    ensures WithoutInserted(bytes, k) + StripFrom(bytes[k..], zeros) == WithoutInserted(bytes, |bytes|)
    decreases |bytes| - k
  {
    if k < |bytes| {
      var kept, rest := WithoutInserted(bytes, k), bytes[k + 1..];
      assert bytes[k..][0] == bytes[k] && bytes[k..][1..] == rest;
      if InsertedAt(bytes, k) {
        StripRest(bytes, k + 1, 0);
      } else {
        StripRest(bytes, k + 1, ZerosAfter(zeros, bytes[k]));
        ConcatAssoc(kept, [bytes[k]], StripFrom(rest, ZerosAfter(zeros, bytes[k])));
      }
    }
  }

  /** Stripping takes out exactly the threes that follow two zero bytes, from any byte string. */
  lemma StripExact(bytes: Bytes)
    ensures StripFrom(bytes, 0) == WithoutInserted(bytes, |bytes|)
  {
    StripRest(bytes, 0, 0);
    assert bytes[0..] == bytes && [] + StripFrom(bytes, 0) == StripFrom(bytes, 0);
  }

  /** No zero pair is followed by a byte below 3: the encoded unit cannot contain a start code. */
  predicate NoStartCode(bytes: Bytes, zeros: nat) {
    bytes == [] || ((zeros >= 2 ==> bytes[0] >= 3) && NoStartCode(bytes[1..], ZerosAfter(zeros, bytes[0])))
  }

  lemma {:induction false} NoStartCodeMeaning(bytes: Bytes, zeros: nat, i: nat)
    requires NoStartCode(bytes, zeros) && i + 2 < |bytes| && bytes[i] == 0 && bytes[i + 1] == 0
    ensures bytes[i + 2] >= 3
    decreases i
  {
    var rest := bytes[1..];
    if i == 0 {
      assert NoStartCode(rest, zeros + 1) && NoStartCode(rest[1..], zeros + 2);
      assert rest[1..][0] == bytes[2];
    } else {
      NoStartCodeMeaning(rest, ZerosAfter(zeros, bytes[0]), i - 1);
    }
  }

  lemma {:induction false} InsertedHasNoStartCode(bytes: Bytes, zeros: nat)
    requires zeros <= 2
    ensures NoStartCode(InsertFrom(bytes, zeros), zeros)
    decreases |bytes|
  {
    if bytes != [] {
      var b, out := bytes[0], InsertFrom(bytes, zeros);
      if zeros == 2 && b <= 3 {
        InsertedHasNoStartCode(bytes[1..], ZerosAfter(0, b));
        var tail := InsertFrom(bytes[1..], ZerosAfter(0, b));
        assert out[1..] == [b] + tail && ([b] + tail)[1..] == tail;
      } else {
        InsertedHasNoStartCode(bytes[1..], ZerosAfter(zeros, b));
        assert out[1..] == InsertFrom(bytes[1..], ZerosAfter(zeros, b));
      }
    }
  }

  lemma {:induction false} InsertNoShorter(bytes: Bytes, zeros: nat)
    requires zeros <= 2
    ensures |InsertFrom(bytes, zeros)| >= |bytes|
    decreases |bytes|
  {
    if bytes != [] {
      InsertNoShorter(bytes[1..], ZerosAfter(if zeros == 2 && bytes[0] <= 3 then 0 else zeros, bytes[0]));
    }
  }
}
