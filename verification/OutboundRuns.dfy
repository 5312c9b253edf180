/**
  Whole runs of the outbound line: any mix of numbered access units, IDR replays and stream
  switches, from a new normalizer.
 */
module OutboundRuns {
  import opened Rtp
  import opened Outbound

  datatype Op =
    | Number(packets: seq<Packet>, source: u32, now: Time)
    | Replay(packets: seq<Packet>, now: Time)
    | Switch(reason: string)

  function After(l: Line, reuse: bool, op: Op): Line {
    match op
    case Number(packets, source, now) => NumberLine(l, reuse, packets, source, now)
    case Replay(packets, now) => ReplayLine(l, reuse, packets, now)
    case Switch(reason) => SwitchLine(l, reason)
  }

  function Emission(l: Line, reuse: bool, op: Op): seq<Packet> {
    match op
    case Number(packets, source, now) => NumberPackets(l, reuse, packets, source, now)
    case Replay(packets, now) => ReplayPackets(l, reuse, packets, now)
    case Switch(_) => []
  }

  function LineAfter(reuse: bool, ops: seq<Op>): Line {
    if ops == [] then NEW_LINE
    else After(LineAfter(reuse, ops[..|ops| - 1]), reuse, ops[|ops| - 1])
  }

  /** Every packet numbered during the run, in order. */
  function Sent(reuse: bool, ops: seq<Op>): seq<Packet> {
    if ops == [] then []
    else
      var front := ops[..|ops| - 1];
      Sent(reuse, front) + Emission(LineAfter(reuse, front), reuse, ops[|ops| - 1])
  }

  // ---------------------------------------------------------------- sequence numbers

  /** packets run up to, but not including, sequence number next. */
  predicate EndsBefore(packets: seq<Packet>, next: u16) {
    packets == [] || NextSeq(packets[|packets| - 1].seqNo) == next
  }

  lemma RenumberedConsecutive(packets: seq<Packet>, first: u16, ts: u32)
    ensures var out := Renumbered(packets, first, ts);
      && Consecutive(out)
      && (out != [] ==> out[0].seqNo == first)
      && EndsBefore(out, Add16(first, |packets|))
      && forall i :: 0 <= i < |out| ==> out[i].timestamp == ts
  {
    var out := Renumbered(packets, first, ts);
    forall i | 0 <= i < |out| - 1
      ensures out[i + 1].seqNo == NextSeq(out[i].seqNo)
    {
      Add16Next(first, i);
    }
    if packets != [] {
      Add16Next(first, |packets| - 1);
    }
  }

  /** What is sent from l in one go, at one timestamp, and the line l' left behind. */
  predicate Fits(l: Line, out: seq<Packet>, l': Line) {
    && Consecutive(out)
    && (out == [] ==> l'.haveOutput == l.haveOutput && l'.nextSeq == l.nextSeq && l'.outputTS == l.outputTS)
    && (out != [] ==> l'.haveOutput && EndsBefore(out, l'.nextSeq))
    && (out != [] && l.haveOutput ==> out[0].seqNo == l.nextSeq)
    && forall i :: 0 <= i < |out| ==> out[i].timestamp == l'.outputTS
  }

  /** Renumbering from a line that has output, or is about to. */
  lemma RenumberedFits(l: Line, packets: seq<Packet>, mapped: Line, out: seq<Packet>, l': Line)
    requires packets != [] && mapped.haveOutput && (l.haveOutput ==> mapped.nextSeq == l.nextSeq)
    requires out == Renumbered(packets, mapped.nextSeq, mapped.outputTS)
    requires l' == mapped.(nextSeq := Add16(mapped.nextSeq, |packets|))
    ensures Fits(l, out, l')
  {
    RenumberedConsecutive(packets, mapped.nextSeq, mapped.outputTS);
  }

  lemma MappedLine(l: Line, reuse: bool, source: u32, firstSeq: u16, now: Time)
    ensures var m := MapTimestamp(l, reuse, source, firstSeq, now);
      m.line.haveOutput && m.ts == m.line.outputTS && (l.haveOutput ==> m.line.nextSeq == l.nextSeq)
  {
  }

  /** One operation sends a run that starts where the line stood and leaves the line right after it. */
  lemma EmissionFits(l: Line, reuse: bool, op: Op)
    ensures Fits(l, Emission(l, reuse, op), After(l, reuse, op))
  {
    match op
    case Number(packets, source, now) =>
      if packets != [] {
        MappedLine(l, reuse, source, packets[0].seqNo, now);
        var m := MapTimestamp(l, reuse, source, packets[0].seqNo, now);
        RenumberedFits(l, packets, m.line, Emission(l, reuse, op), After(l, reuse, op));
      }
    case Replay(packets, now) =>
      if packets != [] {
        MappedLine(l, reuse, packets[0].timestamp, packets[0].seqNo, now);
        RenumberedFits(l, Copies(packets), ReplayedTo(l, reuse, packets, now), Emission(l, reuse, op),
                       After(l, reuse, op));
      }
    case Switch(_) =>
  }

  lemma ConsecutiveAppend(a: seq<Packet>, b: seq<Packet>)
    requires Consecutive(a) && Consecutive(b)
    requires b != [] ==> EndsBefore(a, b[0].seqNo)
    ensures Consecutive(a + b)
  {
    var out := a + b;
    forall i | 0 <= i < |out| - 1
      ensures out[i + 1].seqNo == NextSeq(out[i].seqNo)
    {
      if i + 1 < |a| {
        assert out[i] == a[i] && out[i + 1] == a[i + 1];
      } else if i >= |a| {
        assert out[i] == b[i - |a|] && out[i + 1] == b[i - |a| + 1];
      }
    }
  }

  /** The line always stands right after the last packet sent. */
  lemma {:induction false} LineFollowsSent(reuse: bool, ops: seq<Op>)
    ensures var l := LineAfter(reuse, ops); var sent := Sent(reuse, ops);
      && Consecutive(sent)
      && (l.haveOutput <==> sent != [])
      && EndsBefore(sent, l.nextSeq)
    decreases |ops|
  {
    if ops != [] {
      var front := ops[..|ops| - 1];
      var l := LineAfter(reuse, front);
      LineFollowsSent(reuse, front);
      EmissionFits(l, reuse, ops[|ops| - 1]);
      ConsecutiveAppend(Sent(reuse, front), Emission(l, reuse, ops[|ops| - 1]));
    }
  }

  /**
    Over any run, the packets numbered so far carry consecutive sequence numbers modulo 2^16,
    through switches, replays and wraparound.
   */
  lemma SentConsecutive(reuse: bool, ops: seq<Op>)
    ensures Consecutive(Sent(reuse, ops))
  {
    LineFollowsSent(reuse, ops);
  }

  // ---------------------------------------------------------------- timestamps

  /** The outbound timestamp unwrapped: the first one, then every advance added up. */
  function Timeline(reuse: bool, ops: seq<Op>): nat {
    if ops == [] then 0
    else
      var front := ops[..|ops| - 1];
      var l, l' := LineAfter(reuse, front), LineAfter(reuse, ops);
      if l.haveOutput then Timeline(reuse, front) + Advance(l, l') else l'.outputTS
  }

  lemma ModAdd(t: nat, a: u32, b: u32)
    requires t % 0x1_0000_0000 == a
    ensures (t + Sub32(b, a)) % 0x1_0000_0000 == b
  {
  }

  /** The timeline is what the 32-bit timestamps on the wire are the remainder of. */
  lemma {:induction false} TimelineUnwraps(reuse: bool, ops: seq<Op>)
    ensures LineAfter(reuse, ops).haveOutput ==>
      Timeline(reuse, ops) % 0x1_0000_0000 == LineAfter(reuse, ops).outputTS
    decreases |ops|
  {
    if ops != [] {
      var front := ops[..|ops| - 1];
      TimelineUnwraps(reuse, front);
      if LineAfter(reuse, front).haveOutput {
        ModAdd(Timeline(reuse, front), LineAfter(reuse, front).outputTS, LineAfter(reuse, ops).outputTS);
      }
    }
  }

  /** The operations that leave the timestamp alone. */
  predicate StandsStill(l: Line, reuse: bool, op: Op) {
    match op
    case Number(packets, source, _) => packets == [] || Reuses(l, reuse, source)
    case Replay(packets, _) => packets == []
    case Switch(_) => true
  }

  lemma OpAdvances(l: Line, reuse: bool, op: Op)
    requires l.haveOutput
    ensures After(l, reuse, op).haveOutput
    ensures Advance(l, After(l, reuse, op)) <= MAX_STEP
    ensures Advance(l, After(l, reuse, op)) == 0 <==> StandsStill(l, reuse, op)
  {
    match op
    case Number(packets, source, now) =>
      if packets != [] {
        NumberAdvances(l, reuse, packets, source, now);
        MapAdvances(l, reuse, source, packets[0].seqNo, now);
      }
    case Replay(packets, now) =>
      if packets != [] {
        ReplayAdvances(l, reuse, packets, now);
      }
    case Switch(_) =>
  }

  /**
    The unwrapped timeline never goes backwards.  Each operation advances it by at most 2^31 - 1,
    and by nothing only if it numbers nothing or repeats the previous source timestamp under reuse;
    all packets an operation sends carry the timeline's value.
   */
  lemma TimelineStep(reuse: bool, ops: seq<Op>, op: Op)
    requires LineAfter(reuse, ops).haveOutput
    ensures var now, next := Timeline(reuse, ops), Timeline(reuse, ops + [op]);
      && now <= next <= now + MAX_STEP
      && (now == next <==> StandsStill(LineAfter(reuse, ops), reuse, op))
      && forall p :: p in Emission(LineAfter(reuse, ops), reuse, op) ==> p.timestamp == next % 0x1_0000_0000
  {
    var l := LineAfter(reuse, ops);
    assert (ops + [op])[..|ops|] == ops;
    OpAdvances(l, reuse, op);
    EmissionFits(l, reuse, op);
    TimelineUnwraps(reuse, ops + [op]);
  }

  lemma TimelineNext(reuse: bool, ops: seq<Op>, op: Op, longer: seq<Op>)
    requires longer == ops + [op] && LineAfter(reuse, ops).haveOutput
    ensures LineAfter(reuse, longer).haveOutput && Timeline(reuse, ops) <= Timeline(reuse, longer)
  {
    TimelineStep(reuse, ops, op);
    OpAdvances(LineAfter(reuse, ops), reuse, op);
    assert longer[..|ops|] == ops;
  }

  lemma {:induction false} TimelineMonotone(reuse: bool, ops: seq<Op>, i: nat, j: nat)
    requires i <= j <= |ops| && LineAfter(reuse, ops[..i]).haveOutput
    ensures LineAfter(reuse, ops[..j]).haveOutput
    ensures Timeline(reuse, ops[..i]) <= Timeline(reuse, ops[..j])
    decreases j
  {
    if i < j {
      TimelineMonotone(reuse, ops, i, j - 1);
      assert ops[..j] == ops[..j - 1] + [ops[j - 1]];
      TimelineNext(reuse, ops[..j - 1], ops[j - 1], ops[..j]);
    }
  }

  /** Timestamps on the wire step forward by less than half the 32-bit circle, or not at all. */
  predicate StampsAdvance(packets: seq<Packet>) {
    forall i :: 0 <= i < |packets| - 1 ==> Sub32(packets[i + 1].timestamp, packets[i].timestamp) <= MAX_STEP
  }

  lemma StampsAppend(a: seq<Packet>, b: seq<Packet>, ts: u32)
    requires StampsAdvance(a) && forall i :: 0 <= i < |b| ==> b[i].timestamp == ts
    requires a != [] && b != [] ==> Sub32(ts, a[|a| - 1].timestamp) <= MAX_STEP
    ensures StampsAdvance(a + b)
  {
    var out := a + b;
    forall i | 0 <= i < |out| - 1
      ensures Sub32(out[i + 1].timestamp, out[i].timestamp) <= MAX_STEP
    {
      if i + 1 < |a| {
        assert out[i] == a[i] && out[i + 1] == a[i + 1];
      }
    }
  }

  /**
    Over any run, from one packet sent to the next the 32-bit timestamp moves forward by at most
    2^31 - 1, so a receiver that takes differences as signed never sees it go back; the line holds
    the timestamp of the last packet sent.
   */
  lemma {:induction false} SentStampsAdvance(reuse: bool, ops: seq<Op>)
    ensures var sent := Sent(reuse, ops);
      StampsAdvance(sent) && (sent != [] ==> sent[|sent| - 1].timestamp == LineAfter(reuse, ops).outputTS)
  {
    if ops != [] {
      var front, op := ops[..|ops| - 1], ops[|ops| - 1];
      var l := LineAfter(reuse, front);
      SentStampsAdvance(reuse, front);
      LineFollowsSent(reuse, front);
      EmissionFits(l, reuse, op);
      if l.haveOutput {
        OpAdvances(l, reuse, op);
      }
      StampsAppend(Sent(reuse, front), Emission(l, reuse, op), After(l, reuse, op).outputTS);
    }
  }

  lemma LastStep(reuse: bool, ops: seq<Op>, j: nat)
    requires 0 < j <= |ops|
    ensures LineAfter(reuse, ops[..j]) == After(LineAfter(reuse, ops[..j - 1]), reuse, ops[j - 1])
  {
    assert ops[..j][..j - 1] == ops[..j - 1];
  }

  predicate NumbersContinuously(l: Line, reuse: bool, op: Op) {
    op.Number? && op.packets != [] && Continuous(l, reuse, op.source)
  }

  /** Operations i..j number only access units that continue the source's own timeline. */
  predicate Unbroken(reuse: bool, ops: seq<Op>, i: nat, j: nat)
    requires i <= j <= |ops|
  {
    forall k :: i <= k < j ==> NumbersContinuously(LineAfter(reuse, ops[..k]), reuse, ops[k])
  }

  lemma OffsetStep(out: u32, out': u32, source: u32, source': u32)
    requires Sub32(out', out) == Sub32(source', source)
    ensures Sub32(out', source') == Sub32(out, source)
  {
    var d := Sub32(out', out);
    assert out' == out + d || out' == out + d - 0x1_0000_0000;
    assert source' == source + d || source' == source + d - 0x1_0000_0000;
  }

  function Offset(l: Line): u32 {
    Sub32(l.outputTS, l.lastSourceTS)
  }

  lemma ContinuousKeepsOffset(l: Line, reuse: bool, op: Op)
    requires NumbersContinuously(l, reuse, op)
    ensures Offset(After(l, reuse, op)) == Offset(l)
  {
    NumberAdvances(l, reuse, op.packets, op.source, op.now);
    var l' := After(l, reuse, op);
    OffsetStep(l.outputTS, l'.outputTS, l.lastSourceTS, l'.lastSourceTS);
  }

  lemma UnbrokenLast(reuse: bool, ops: seq<Op>, i: nat, j: nat)
    requires i < j <= |ops| && Unbroken(reuse, ops, i, j)
    ensures Unbroken(reuse, ops, i, j - 1)
    ensures NumbersContinuously(LineAfter(reuse, ops[..j - 1]), reuse, ops[j - 1])
  {
  }

  /** On an unbroken run the outbound timestamp keeps a constant offset to the source timestamp. */
  lemma {:induction false} UnbrokenKeepsOffset(reuse: bool, ops: seq<Op>, i: nat, j: nat)
    requires i <= j <= |ops| && Unbroken(reuse, ops, i, j)
    ensures Offset(LineAfter(reuse, ops[..j])) == Offset(LineAfter(reuse, ops[..i]))
    decreases j
  {
    if i < j {
      UnbrokenLast(reuse, ops, i, j);
      UnbrokenKeepsOffset(reuse, ops, i, j - 1);
      LastStep(reuse, ops, j);
      ContinuousKeepsOffset(LineAfter(reuse, ops[..j - 1]), reuse, ops[j - 1]);
    }
  }
}
