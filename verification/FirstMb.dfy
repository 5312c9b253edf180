/**
  The address of the first macroblock of an access unit's first slice (first_mb_in_slice, section
  7.3.3 of ITU-T H.264), wherever the slice starts: a packet of its own, an FU-A, or a STAP-A, which
  is walked here for the fourth time.
 */
module FirstMb {
  import opened Rtp
  import opened ExpGolomb
  import opened EmulationPrevention
  import StapA

  predicate SliceType(t: byte) {
    t == 1 || t == 5
  }

  /** The bytes after the header or headers of a slice start, or nothing. */
  function SliceBody(payload: Bytes): Parsed<Bytes> {
    if |payload| < 2 then Fail
    else if SliceType(NalType(payload[0])) then Got(payload[1..], [])
    else if NalType(payload[0]) == FU_A && |payload| >= 3 && StartBit(payload[1]) && SliceType(NalType(payload[1]))
      then Got(payload[2..], [])
    else Fail
  }

  /** The first Exp-Golomb value of the slice header. */
  function InSlice(payload: Bytes): Parsed<nat> {
    match SliceBody(payload)
    case Fail => Fail
    case Got(body, _) => ReadUe(BitsOf(StripFrom(body, 0)))
  }

  /** The payloads looked at for one packet. */
  function Candidates(payload: Bytes): seq<Bytes> {
    if payload == [] then []
    else if SliceType(NalType(payload[0])) || NalType(payload[0]) == FU_A then [payload]
    else if NalType(payload[0]) == STAP_A then StapA.Units(payload)
    else []
  }

  function AllCandidates(packets: seq<Packet>): seq<Bytes> {
    if packets == [] then [] else Candidates(packets[0].payload) + AllCandidates(packets[1..])
  }

  /** The first value found, or -1. */
  function FirstOf(candidates: seq<Bytes>): int {
    if candidates == [] then -1
    else
      match InSlice(candidates[0])
      case Got(v, _) => v
      case Fail => FirstOf(candidates[1..])
  }

  function OfAccessUnit(packets: seq<Packet>): int {
    FirstOf(AllCandidates(packets))
  }

  // ---------------------------------------------------------------- the two loops

  method H264FirstMbInSlice(payload: Bytes) returns (mb: nat, ok: bool)
    ensures var r := InSlice(payload); ok == r.Got? && (ok ==> mb == r.value)
  {
    if |payload| < 2 {
      return 0, false;
    }
    var body: Bytes;
    if SliceType(NalType(payload[0])) {
      body := payload[1..];
    } else if NalType(payload[0]) == FU_A {
      if |payload| < 3 || !StartBit(payload[1]) {
        return 0, false;
      }
      if !SliceType(NalType(payload[1])) {
        return 0, false;
      }
      body := payload[2..];
    } else {
      return 0, false;
    }
    var rbsp := StripEmulationPrevention(body);
    var r := new BitReader(rbsp);
    mb, ok := r.Ue();
  }

  lemma {:induction false} FirstOfAppend(a: seq<Bytes>, b: seq<Bytes>)
    ensures FirstOf(a + b) == if FirstOf(a) >= 0 then FirstOf(a) else FirstOf(b)
  {
    if a == [] {
      assert a + b == b;
    } else {
      FirstOfAppend(a[1..], b);
      assert (a + b)[1..] == a[1..] + b;
    }
  }

  lemma FirstOfOne(payload: Bytes)
    ensures FirstOf([payload]) == if InSlice(payload).Got? then InSlice(payload).value else -1
  {
    assert [payload][1..] == [];
  }

  /** What the walk from offset on still finds. */
  function FirstFrom(p: Bytes, offset: nat): int
    requires offset <= |p|
  {
    FirstOf(StapA.WalkFrom(p, offset).nals)
  }

  lemma FirstOfStep(p: Bytes, offset: nat, next: nat, unit: Bytes)
    requires StapA.UnitLies(p, offset) && next == offset + 2 + StapA.SizeAt(p, offset)
    requires unit == p[offset + 2..next]
    ensures FirstFrom(p, offset) == if InSlice(unit).Got? then InSlice(unit).value else FirstFrom(p, next)
  {
    StapA.WalkStep(p, offset);
    FirstOfOne(unit);
    FirstOfAppend([unit], StapA.WalkFrom(p, next).nals);
  }

  lemma FirstOfStop(p: Bytes, offset: nat)
    requires offset <= |p| && !StapA.UnitLies(p, offset)
    ensures FirstFrom(p, offset) == -1
  {
  }

  /** The walk of a STAP-A, up to the first slice start that reads. */
  method FirstInStapA(payload: Bytes) returns (mb: int)
    requires payload != []
    ensures mb == FirstOf(StapA.Units(payload))
  {
    var offset := 1;
    while offset + 2 <= |payload|
      invariant 1 <= offset <= |payload|
      invariant FirstOf(StapA.Units(payload)) == FirstFrom(payload, offset)
    {
      var size := StapA.SizeAt(payload, offset);
      if size == 0 || offset + 2 + size > |payload| {
        break;
      }
      var next := offset + 2 + size;
      var unit := payload[offset + 2..next];
      FirstOfStep(payload, offset, next, unit);
      offset := next;
      var found, ok := H264FirstMbInSlice(unit);
      if ok {
        return found;
      }
    }
    FirstOfStop(payload, offset);
    return -1;
  }

  lemma CandidatesStep(packets: seq<Packet>, i: nat)
    requires i < |packets|
    ensures OfAccessUnit(packets[i..]) ==
      var here := FirstOf(Candidates(packets[i].payload));
      if here >= 0 then here else OfAccessUnit(packets[i + 1..])
  {
    assert packets[i..][1..] == packets[i + 1..];
    FirstOfAppend(Candidates(packets[i].payload), AllCandidates(packets[i + 1..]));
  }

  method H264AccessUnitFirstMb(packets: seq<Packet>) returns (mb: int)
    ensures mb == OfAccessUnit(packets)
  {
    assert packets[0..] == packets;
    for i := 0 to |packets|
      invariant OfAccessUnit(packets) == OfAccessUnit(packets[i..])
    {
      CandidatesStep(packets, i);
      var payload := packets[i].payload;
      if |payload| == 0 {
        continue;
      }
      var t := NalType(payload[0]);
      if SliceType(t) || t == FU_A {
        FirstOfOne(payload);
        var found, ok := H264FirstMbInSlice(payload);
        if ok {
          return found;
        }
      } else if t == STAP_A {
        var found := FirstInStapA(payload);
        if found >= 0 {
          return found;
        }
      }
    }
    return -1;
  }

  // ---------------------------------------------------------------- what it finds

  lemma {:induction false} FirstOfRange(candidates: seq<Bytes>)
    ensures FirstOf(candidates) >= 0 <==> exists c :: c in candidates && InSlice(c).Got?
  {
    if candidates != [] {
      FirstOfRange(candidates[1..]);
    }
  }

  /** A slice body written with emulation prevention: the address, then the rest of the header and data. */
  function EncodeBody(v: nat, tail: Bits): Bytes
    requires |UeCode(v) + tail| % 8 == 0
  {
    InsertFrom(Pack(UeCode(v) + tail), 0)
  }

  lemma BodyReads(v: nat, tail: Bits)
    requires v <= MAX_UE && |UeCode(v) + tail| % 8 == 0
    ensures ReadUe(BitsOf(StripFrom(EncodeBody(v, tail), 0))) == Got(v, tail)
    ensures |EncodeBody(v, tail)| >= 1
  {
    var bits := UeCode(v) + tail;
    PackRoundTrip(bits);
    StripUndoesInsert(Pack(bits), 0);
    UeRoundTripIff(v, tail);
    InsertNoShorter(Pack(bits), 0);
  }

  /** A unit that is, or whose first fragment this is of, a slice. */
  predicate StartsSlice(unit: Bytes) {
    && unit != []
    && (|| NalType(unit[0]) == 1 || NalType(unit[0]) == 5
        || (NalType(unit[0]) == 28 && |unit| >= 2 && StartBit(unit[1])
            && (NalType(unit[1]) == 1 || NalType(unit[1]) == 5)))
  }

  /** A packet that holds such a unit, or carries one in an aggregate. */
  predicate HoldsSliceStart(payload: Bytes) {
    || StartsSlice(payload)
    || (payload != [] && NalType(payload[0]) == STAP_A && exists u :: u in StapA.Units(payload) && StartsSlice(u))
  }

  /** The first packet of the access unit that may hold a slice start, as one NAL unit, an FU-A or a STAP-A. */
  ghost predicate StartsWith(payload: Bytes, header: byte, body: Bytes) {
    || payload == [header] + body
    || (|payload| >= 2 && NalType(payload[0]) == FU_A && StartBit(payload[1]) && NalType(payload[1]) == NalType(header)
        && payload[2..] == body)
    || (exists before: seq<Bytes>, after: seq<Bytes> :: CarriesAfter(payload, before, [header] + body, after))
  }

  /** payload aggregates the units, and none before the slice is a slice itself. */
  predicate CarriesAfter(payload: Bytes, before: seq<Bytes>, slice: Bytes, after: seq<Bytes>) {
    && payload != [] && NalType(payload[0]) == STAP_A
    && StapA.Aggregable(before + [slice] + after) && payload[1..] == StapA.Aggregate(before + [slice] + after)
    && forall u <- before :: !StartsSlice(u)
  }

  lemma NoSliceStart(unit: Bytes)
    requires !StartsSlice(unit)
    ensures InSlice(unit) == Fail
  {
  }

  lemma {:induction false} NoneBefore(before: seq<Bytes>)
    requires forall u <- before :: !StartsSlice(u)
    ensures FirstOf(before) == -1
  {
    if before != [] {
      NoSliceStart(before[0]);
      NoneBefore(before[1..]);
    }
  }

  lemma SliceReads(header: byte, v: nat, tail: Bits)
    requires SliceType(NalType(header)) && v <= MAX_UE && |UeCode(v) + tail| % 8 == 0
    ensures InSlice([header] + EncodeBody(v, tail)) == Got(v, tail)
  {
    BodyReads(v, tail);
    assert ([header] + EncodeBody(v, tail))[1..] == EncodeBody(v, tail);
  }

  lemma StartFound(payload: Bytes, header: byte, v: nat, tail: Bits)
    requires SliceType(NalType(header)) && v <= MAX_UE && |UeCode(v) + tail| % 8 == 0
    requires StartsWith(payload, header, EncodeBody(v, tail))
    ensures FirstOf(Candidates(payload)) == v
  {
    var body := EncodeBody(v, tail);
    BodyReads(v, tail);
    SliceReads(header, v, tail);
    if payload == [header] + body || NalType(payload[0]) == FU_A {
      FirstOfOne(payload);
    } else {
      var before: seq<Bytes>, after: seq<Bytes> :| CarriesAfter(payload, before, [header] + body, after);
      AggregateFound(payload, before, [header] + body, after);
    }
  }

  lemma AggregateFound(payload: Bytes, before: seq<Bytes>, slice: Bytes, after: seq<Bytes>)
    requires CarriesAfter(payload, before, slice, after) && InSlice(slice).Got?
    ensures FirstOf(Candidates(payload)) == InSlice(slice).value
  {
    StapA.WalkAggregate(payload, 1, before + [slice] + after);
    NoneBefore(before);
    FirstOfOne(slice);
    FirstOfAppend(before, [slice]);
    FirstOfAppend(before + [slice], after);
  }

  lemma NothingFound(payload: Bytes)
    requires !HoldsSliceStart(payload)
    ensures FirstOf(Candidates(payload)) == -1
  {
    if payload != [] && NalType(payload[0]) == STAP_A {
      NoneBefore(StapA.Units(payload));
    } else {
      FirstOfOne(payload);
      NoSliceStart(payload);
    }
  }

  /**
    Whatever parameter sets or other units come first, the address found is the one the first slice was
    written with, in any of the three packetizations.
   */
  lemma FirstSliceFound(packets: seq<Packet>, i: nat, header: byte, v: nat, tail: Bits)
    requires i < |packets| && forall j :: 0 <= j < i ==> !HoldsSliceStart(packets[j].payload)
    requires (NalType(header) == 1 || NalType(header) == 5) && v <= MAX_UE && |UeCode(v) + tail| % 8 == 0
    requires StartsWith(packets[i].payload, header, EncodeBody(v, tail))
    ensures OfAccessUnit(packets) == v
  {
    StartFound(packets[i].payload, header, v, tail);
    forall j | 0 <= j < i ensures FirstOf(Candidates(packets[j].payload)) < 0 {
      NothingFound(packets[j].payload);
    }
    FoundAt(packets, 0, i);
    assert packets[0..] == packets;
  }

  /** An access unit in which no packet starts a slice has no address. */
  lemma {:induction false} NoSliceNoAddress(packets: seq<Packet>)
    requires forall p <- packets :: !HoldsSliceStart(p.payload)
    ensures OfAccessUnit(packets) == -1
  {
    if packets != [] {
      NothingFound(packets[0].payload);
      NoSliceNoAddress(packets[1..]);
      FirstOfAppend(Candidates(packets[0].payload), AllCandidates(packets[1..]));
    }
  }

  lemma {:induction false} FoundAt(packets: seq<Packet>, j: nat, i: nat)
    requires j <= i < |packets| && FirstOf(Candidates(packets[i].payload)) >= 0
    requires forall k :: j <= k < i ==> FirstOf(Candidates(packets[k].payload)) < 0
    ensures OfAccessUnit(packets[j..]) == FirstOf(Candidates(packets[i].payload))
    decreases i - j
  {
    CandidatesStep(packets, j);
    if j < i {
      FoundAt(packets, j + 1, i);
    }
  }
}
