/**
  Single-NAL-unit mode (section 6.2 of RFC 6184): FU-A fragments (section 5.8) are rebuilt into
  one NAL unit per packet before they are forwarded.  The reassembler keeps one open unit and
  drops it on the first sign of loss.
 */
module Mode0 {
  import opened Rtp

  /** The largest UDP payload over IPv4, less the fixed RTP header. */
  const MAX_NAL_PAYLOAD: nat := 65507 - 12

  datatype DropReason = Empty | DiscontinuousFua | ShortNal | UnsupportedNal | OversizedFua(nalBytes: nat)

  datatype Decision =
    | Passthrough(packet: Packet)
    | Buffered
    | Reassembled(packet: Packet)
    | Dropped(reason: DropReason)

  /** An inactive reassembler holds no bytes; its other fields keep stale values. */
  datatype State = State(active: bool, ssrc: u32, timestamp: u32, nextSeq: u16, payloadType: byte, nal: Bytes)

  function Reset(s: State): State {
    s.(active := false, nal := [])
  }

  /** The NAL unit header carried by a fragment: reference bits of the indicator, type of the FU header. */
  function RebuiltHeader(payload: Bytes): byte
    requires |payload| >= 2
  {
    RefBits(payload[0]) + NalType(payload[1])
  }

  function StepOther(s: State, p: Packet): (State, Decision)
    requires p.payload != [] && NalType(p.payload[0]) != FU_A
  {
    var t := NalType(p.payload[0]);
    (Reset(s),
     if t >= 24 && t != STAP_A then Dropped(if s.active then DiscontinuousFua else UnsupportedNal)
     else if |p.payload| > MAX_NAL_PAYLOAD then Dropped(OversizedFua(|p.payload|))
     else Passthrough(p))
  }

  function StepShort(s: State, p: Packet): (State, Decision)
    requires 0 < |p.payload| < 3
  {
    (Reset(s),
     if |p.payload| == 2 && StartBit(p.payload[1]) && EndBit(p.payload[1])
     then Reassembled(p.(payload := [RebuiltHeader(p.payload)]))
     else Dropped(if s.active then DiscontinuousFua else ShortNal))
  }

  /** The open unit after a fragment, before the size check; inactive when the fragment does not fit. */
  function Extend(s: State, p: Packet): State
    requires |p.payload| >= 3
  {
    if StartBit(p.payload[1]) then
      State(true, p.ssrc, p.timestamp, NextSeq(p.seqNo), p.payloadType, [RebuiltHeader(p.payload)] + p.payload[2..])
    else if s.active && p.ssrc == s.ssrc && p.timestamp == s.timestamp && p.seqNo == s.nextSeq then
      s.(nextSeq := NextSeq(s.nextSeq), nal := s.nal + p.payload[2..])
    else Reset(s)
  }

  function StepFragment(s: State, p: Packet): (State, Decision)
    requires |p.payload| >= 3
  {
    var e := Extend(s, p);
    if !e.active then (e, Dropped(DiscontinuousFua))
    else if |e.nal| > MAX_NAL_PAYLOAD then (Reset(e), Dropped(OversizedFua(|e.nal|)))
    else if !EndBit(p.payload[1]) then (e, Buffered)
    else (Reset(e), Reassembled(p.(payload := e.nal, payloadType := e.payloadType)))
  }

  function Step(s: State, p: Packet): (State, Decision) {
    if p.payload == [] then (s, Dropped(Empty))
    else if NalType(p.payload[0]) != FU_A then StepOther(s, p)
    else if |p.payload| < 3 then StepShort(s, p)
    else StepFragment(s, p)
  }

  class Reassembler {
    var active: bool
    var ssrc: u32
    var timestamp: u32
    var nextSeq: u16
    var payloadType: byte
    var nal: Bytes

    ghost function View(): State
      reads this
    {
      State(active, ssrc, timestamp, nextSeq, payloadType, nal)
    }

    constructor ()
      ensures !active && nal == []
    {
      active, ssrc, timestamp, nextSeq, payloadType, nal := false, 0, 0, 0, 0, [];
    }

    method ResetUnit()
      modifies this
      ensures View() == Reset(old(View()))
    {
      active := false;
      nal := [];
    }

    method PushShortFua(packet: Packet) returns (decision: Decision, done: bool)
      requires packet.payload != []
      modifies this
      ensures done <==> |packet.payload| < 3
      ensures done ==> (View(), decision) == StepShort(old(View()), packet)
      ensures !done ==> View() == old(View())
    {
      if |packet.payload| >= 3 {
        return Dropped(ShortNal), false;
      }
      var wasActive := active;
      if |packet.payload| == 2 && StartBit(packet.payload[1]) && EndBit(packet.payload[1]) {
        var out := packet.(payload := [RefBits(packet.payload[0]) + NalType(packet.payload[1])]);
        ResetUnit();
        return Reassembled(out), true;
      }
      ResetUnit();
      if wasActive {
        return Dropped(DiscontinuousFua), true;
      }
      return Dropped(ShortNal), true;
    }

    method Push(packet: Packet) returns (decision: Decision)
      modifies this
      ensures (View(), decision) == Step(old(View()), packet)
    {
      if |packet.payload| == 0 {
        return Dropped(Empty);
      }
      var nalType := NalType(packet.payload[0]);
      if nalType != FU_A {
        var wasActive := active;
        ResetUnit();
        if nalType >= 24 && nalType != STAP_A {
          return Dropped(if wasActive then DiscontinuousFua else UnsupportedNal);
        }
        if |packet.payload| > MAX_NAL_PAYLOAD {
          return Dropped(OversizedFua(|packet.payload|));
        }
        return Passthrough(packet);
      }
      var done;
      decision, done := PushShortFua(packet);
      if done {
        return;
      }
      var fuIndicator, fuHeader := packet.payload[0], packet.payload[1];
      nalType := NalType(fuHeader);
      if StartBit(fuHeader) {
        ResetUnit();
        active := true;
        ssrc, timestamp := packet.ssrc, packet.timestamp;
        nextSeq := NextSeq(packet.seqNo);
        payloadType := packet.payloadType;
        nal := [RefBits(fuIndicator) + nalType];
        nal := nal + packet.payload[2..];
      } else {
        if !active || packet.ssrc != ssrc || packet.timestamp != timestamp || packet.seqNo != nextSeq {
          ResetUnit();
          return Dropped(DiscontinuousFua);
        }
        nextSeq := NextSeq(nextSeq);
        nal := nal + packet.payload[2..];
      }
      if |nal| > MAX_NAL_PAYLOAD {
        var nalBytes := |nal|;
        ResetUnit();
        return Dropped(OversizedFua(nalBytes));
      }
      if !EndBit(fuHeader) {
        return Buffered;
      }
      var out := packet.(payload := nal, payloadType := payloadType);
      ResetUnit();
      return Reassembled(out);
    }
  }

  // ---------------------------------------------------------------- one push, from any state

  /**
    A packet is passed on as it came if and only if it is not empty, no fragment, of a type up to 24, and
    no larger than fits one UDP payload.
   */
  lemma PassedOnIff(s: State, p: Packet)
    ensures Step(s, p).1 == Passthrough(p) <==>
      p.payload != [] && NalType(p.payload[0]) <= 24 && |p.payload| <= 65495
    ensures Step(s, p).1.Passthrough? ==> Step(s, p).1 == Passthrough(p)
  {
  }

  /** Every other packet that is no fragment is dropped, for the first reason that applies, and closes the open unit. */
  lemma OtherDropped(s: State, p: Packet)
    requires p.payload == [] || NalType(p.payload[0]) != 28
    ensures p.payload == [] ==> Step(s, p) == (s, Dropped(Empty))
    ensures p.payload != [] ==> Step(s, p).0 == s.(active := false, nal := [])
    ensures p.payload != [] && NalType(p.payload[0]) > 24 ==>
      Step(s, p).1 == Dropped(if s.active then DiscontinuousFua else UnsupportedNal)
    ensures p.payload != [] && NalType(p.payload[0]) <= 24 && |p.payload| > 65495 ==>
      Step(s, p).1 == Dropped(OversizedFua(|p.payload|))
  {
  }

  /** A fragment too short to carry anything is dropped, unless it is a whole unit of one byte. */
  lemma ShortFragment(s: State, p: Packet)
    requires 0 < |p.payload| < 3 && NalType(p.payload[0]) == 28
    ensures Step(s, p).0 == s.(active := false, nal := [])
    ensures var whole := |p.payload| == 2 && p.payload[1] >= 192;
      if whole then Step(s, p).1.Reassembled?
      else Step(s, p).1 == Dropped(if s.active then DiscontinuousFua else ShortNal)
  {
  }

  /** A continuation goes on with the open unit only from its source, at its timestamp, and next in sequence. */
  predicate GoesOn(s: State, p: Packet) {
    s.active && p.ssrc == s.ssrc && p.timestamp == s.timestamp && p.seqNo == s.nextSeq
  }

  /** A full fragment is dropped as out of order, or as too large with the size reached, and is never passed on. */
  lemma FragmentDropped(s: State, p: Packet)
    requires |p.payload| >= 3 && NalType(p.payload[0]) == 28
    ensures var fits := StartBit(p.payload[1]) || GoesOn(s, p);
      var size := |p.payload| - 2 + (if StartBit(p.payload[1]) then 1 else |s.nal|);
      var d := Step(s, p).1;
      && (!fits ==> d == Dropped(DiscontinuousFua))
      && (fits && size > 65495 ==> d == Dropped(OversizedFua(size)))
      && (fits && size <= 65495 ==> if EndBit(p.payload[1]) then d.Reassembled? else d == Buffered)
      && (d.Dropped? || d.Reassembled? ==> !Step(s, p).0.active && Step(s, p).0.nal == [])
  {
  }

  // ---------------------------------------------------------------- runs of pushes

  function StateAfter(s: State, ps: seq<Packet>): State {
    if ps == [] then s
    else Step(StateAfter(s, ps[..|ps| - 1]), ps[|ps| - 1]).0
  }

  /** The answer to the last packet of a run. */
  function LastDecision(s: State, ps: seq<Packet>): Decision
    requires ps != []
  {
    Step(StateAfter(s, ps[..|ps| - 1]), ps[|ps| - 1]).1
  }

  predicate BufferBounded(s: State) {
    |s.nal| <= MAX_NAL_PAYLOAD && (!s.active ==> s.nal == [])
  }

  /** From any state at all, a push bounds what is retained, unless its packet is empty and changes nothing. */
  lemma PushBoundsBuffer(s: State, p: Packet)
    ensures var s' := Step(s, p).0; if p.payload == [] then s' == s else BufferBounded(s')
  {
  }

  /** After every push of every run, what is retained is bounded, and nothing when inactive. */
  lemma {:induction false} RunBoundsBuffer(s0: State, ps: seq<Packet>)
    requires BufferBounded(s0)
    ensures BufferBounded(StateAfter(s0, ps))
  {
    if ps != [] {
      RunBoundsBuffer(s0, ps[..|ps| - 1]);
      PushBoundsBuffer(StateAfter(s0, ps[..|ps| - 1]), ps[|ps| - 1]);
    }
  }

  // ---------------------------------------------------------------- fragment runs

  predicate IsFragment(p: Packet) {
    |p.payload| >= 2 && NalType(p.payload[0]) == FU_A
  }

  predicate Follows(p: Packet, q: Packet) {
    q.ssrc == p.ssrc && q.timestamp == p.timestamp && q.seqNo == NextSeq(p.seqNo)
  }

  /** Fragments of one unit in sequence: only the first has the start bit, and only the last may end. */
  predicate FragmentRun(block: seq<Packet>) {
    && block != []
    && (forall i :: 0 <= i < |block| ==> IsFragment(block[i]) && (StartBit(block[i].payload[1]) <==> i == 0))
    && (forall i :: 0 <= i < |block| - 1 ==> !EndBit(block[i].payload[1]) && Follows(block[i], block[i + 1]))
    && (|block| > 1 || !EndBit(block[0].payload[1]) ==> forall i :: 0 <= i < |block| ==> |block[i].payload| >= 3)
  }

  predicate Closed(block: seq<Packet>) {
    FragmentRun(block) && EndBit(block[|block| - 1].payload[1])
  }

  predicate Open(block: seq<Packet>) {
    FragmentRun(block) && !EndBit(block[|block| - 1].payload[1])
  }

  function Bodies(block: seq<Packet>): seq<Bytes>
    requires forall i :: 0 <= i < |block| ==> |block[i].payload| >= 2
  {
    seq(|block|, i requires 0 <= i < |block| => block[i].payload[2..])
  }

  /** The rebuilt unit: the header of the first fragment, then every fragment's bytes in order. */
  function Rebuilt(block: seq<Packet>): Bytes
    requires FragmentRun(block)
  {
    [RebuiltHeader(block[0].payload)] + Flatten(Bodies(block))
  }

  lemma OpenPrefix(block: seq<Packet>, j: nat)
    requires FragmentRun(block) && 0 < j < |block|
    ensures Open(block[..j])
  {
  }

  lemma RebuiltSnoc(block: seq<Packet>)
    requires FragmentRun(block) && |block| > 1
    ensures Open(block[..|block| - 1])
    ensures Rebuilt(block) == Rebuilt(block[..|block| - 1]) + block[|block| - 1].payload[2..]
  {
    var front := block[..|block| - 1];
    var body := block[|block| - 1].payload[2..];
    OpenPrefix(block, |block| - 1);
    assert Bodies(block) == Bodies(front) + [body];
    FlattenSnoc(Bodies(front), body);
  }

  lemma RebuiltOne(block: seq<Packet>)
    requires FragmentRun(block) && |block| == 1
    ensures Rebuilt(block) == [RebuiltHeader(block[0].payload)] + block[0].payload[2..]
  {
    assert Bodies(block) == [block[0].payload[2..]];
    FlattenSnoc([], block[0].payload[2..]);
    assert [] + [block[0].payload[2..]] == [block[0].payload[2..]];
  }

  // ---------------------------------------------------------------- soundness

  /** The state holds exactly the unit opened by block. */
  predicate Tracks(s: State, block: seq<Packet>) {
    && Open(block)
    && s.active && s.nal == Rebuilt(block)
    && s.payloadType == block[0].payloadType
    && var last := block[|block| - 1];
       s.ssrc == last.ssrc && s.timestamp == last.timestamp && s.nextSeq == NextSeq(last.seqNo)
  }

  /** A reassembled packet: last fragment's RTP header, first fragment's payload type, rebuilt unit. */
  predicate Yields(block: seq<Packet>, out: Packet) {
    Closed(block) &&
    out == block[|block| - 1].(payload := Rebuilt(block), payloadType := block[0].payloadType)
  }

  /** One push from an inactive state, or with a start bit: only this packet matters. */
  lemma StepAlone(s: State, p: Packet)
    requires p.payload != [] && (!s.active || (|p.payload| >= 2 && StartBit(p.payload[1])))
    ensures var (s', d) := Step(s, p);
      && (s'.active ==> Tracks(s', [p]))
      && (d.Reassembled? ==> Yields([p], d.packet))
  {
    if IsFragment(p) && StartBit(p.payload[1]) && (|p.payload| > 2 || EndBit(p.payload[1])) {
      RebuiltOne([p]);
    }
  }

  /** A continuation that fits an open unit. */
  predicate FitsAfter(block: seq<Packet>, p: Packet) {
    block != [] && IsFragment(p) && |p.payload| >= 3 && !StartBit(p.payload[1]) && Follows(block[|block| - 1], p)
  }

  lemma LongerRun(block: seq<Packet>, p: Packet, longer: seq<Packet>)
    requires Open(block) && FitsAfter(block, p) && longer == block + [p]
    ensures FragmentRun(longer) && Rebuilt(longer) == Rebuilt(block) + p.payload[2..]
  {
    forall i | 0 <= i < |longer|
      ensures IsFragment(longer[i]) && (StartBit(longer[i].payload[1]) <==> i == 0) && |longer[i].payload| >= 3
      ensures i < |longer| - 1 ==> !EndBit(longer[i].payload[1]) && Follows(longer[i], longer[i + 1])
    {
      if i < |block| {
        assert longer[i] == block[i];
      }
    }
    assert longer[..|longer| - 1] == block;
    RebuiltSnoc(longer);
  }

  /** The state machine on a continuation: it goes on exactly when the packet fits. */
  lemma ContinuationStep(s: State, block: seq<Packet>, p: Packet)
    requires Tracks(s, block)
    requires p.payload != [] && !(|p.payload| >= 2 && StartBit(p.payload[1]))
    ensures var (s', d) := Step(s, p);
      if FitsAfter(block, p) then
        var nal := s.nal + p.payload[2..];
        if |nal| > MAX_NAL_PAYLOAD then !s'.active && d.Dropped?
        else if EndBit(p.payload[1]) then
          !s'.active && d == Reassembled(p.(payload := nal, payloadType := s.payloadType))
        else s' == s.(nextSeq := NextSeq(p.seqNo), nal := nal) && d == Buffered
      else !s'.active && !d.Reassembled?
  {
  }

  /** One push of a continuation while a unit is open. */
  lemma StepOnward(s: State, block: seq<Packet>, p: Packet, longer: seq<Packet>)
    requires Tracks(s, block) && longer == block + [p]
    requires p.payload != [] && !(|p.payload| >= 2 && StartBit(p.payload[1]))
    ensures var (s', d) := Step(s, p);
      && (s'.active ==> Tracks(s', longer) && d == Buffered)
      && (d.Reassembled? ==> Yields(longer, d.packet))
  {
    ContinuationStep(s, block, p);
    if FitsAfter(block, p) {
      LongerRun(block, p, longer);
    }
  }

  /** One push of the next fragment of a run: held, delivered, or dropped, by its end bit and the size so far. */
  lemma NextOfRun(s: State, block: seq<Packet>, p: Packet, longer: seq<Packet>)
    requires Tracks(s, block) && FitsAfter(block, p) && longer == block + [p]
    ensures FragmentRun(longer)
    ensures var (s', d) := Step(s, p);
      if |Rebuilt(longer)| > MAX_NAL_PAYLOAD then !s'.active && d.Dropped?
      else if EndBit(p.payload[1]) then d.Reassembled? && Yields(longer, d.packet)
      else Tracks(s', longer) && d == Buffered
  {
    ContinuationStep(s, block, p);
    LongerRun(block, p, longer);
  }

  /** A continuation of a unit that was dropped is dropped too. */
  lemma NextOfNothing(s: State, p: Packet)
    requires !s.active && |p.payload| >= 3 && IsFragment(p) && !StartBit(p.payload[1])
    ensures !Step(s, p).0.active && Step(s, p).1.Dropped?
  {
  }

  lemma RunFits(block: seq<Packet>, j: nat)
    requires FragmentRun(block) && 0 < j < |block|
    ensures FitsAfter(block[..j], block[j]) && block[..j + 1] == block[..j] + [block[j]]
  {
    assert Follows(block[j - 1], block[j]);
  }

  function NonEmpty(ps: seq<Packet>): seq<Packet> {
    if ps == [] then []
    else NonEmpty(ps[..|ps| - 1]) + (if ps[|ps| - 1].payload == [] then [] else [ps[|ps| - 1]])
  }

  function Suffix(ps: seq<Packet>, k: nat): seq<Packet>
    requires k <= |ps|
  {
    ps[|ps| - k..]
  }

  lemma SuffixSnoc(ps: seq<Packet>, p: Packet, k: nat)
    requires k <= |ps|
    ensures Suffix(ps + [p], k + 1) == Suffix(ps, k) + [p]
    ensures Suffix(ps + [p], 1) == [p]
  {
  }

  /** An open unit is always the tail of the packets pushed so far. */
  lemma {:induction false} OpenUnitIsRecent(s0: State, ps: seq<Packet>)
    requires !s0.active
    ensures var s := StateAfter(s0, ps);
      s.active ==> exists k :: 0 < k <= |NonEmpty(ps)| && Tracks(s, Suffix(NonEmpty(ps), k))
    decreases |ps|
  {
    if ps != [] {
      var front, p := ps[..|ps| - 1], ps[|ps| - 1];
      OpenUnitIsRecent(s0, front);
      LastPush(s0, ps);
    }
  }

  /** The effect of the last push, given the tail of the run before it. */
  lemma LastPush(s0: State, ps: seq<Packet>)
    requires ps != []
    requires var s := StateAfter(s0, ps[..|ps| - 1]); var before := NonEmpty(ps[..|ps| - 1]);
      s.active ==> exists k :: 0 < k <= |before| && Tracks(s, Suffix(before, k))
    ensures var s := StateAfter(s0, ps); var d := LastDecision(s0, ps);
      && (s.active ==> exists k :: 0 < k <= |NonEmpty(ps)| && Tracks(s, Suffix(NonEmpty(ps), k)))
      && (d.Reassembled? ==> exists k :: 0 < k <= |NonEmpty(ps)| && Yields(Suffix(NonEmpty(ps), k), d.packet))
  {
    var front, p := ps[..|ps| - 1], ps[|ps| - 1];
    var s, before := StateAfter(s0, front), NonEmpty(front);
    if p.payload != [] {
      assert NonEmpty(ps) == before + [p];
      if !s.active || (|p.payload| >= 2 && StartBit(p.payload[1])) {
        StepAlone(s, p);
        SuffixSnoc(before, p, 0);
        assert Suffix(NonEmpty(ps), 1) == [p];
      } else {
        var k :| 0 < k <= |before| && Tracks(s, Suffix(before, k));
        SuffixSnoc(before, p, k);
        StepOnward(s, Suffix(before, k), p, Suffix(before, k) + [p]);
        assert Suffix(NonEmpty(ps), k + 1) == Suffix(before, k) + [p];
      }
    } else {
      assert NonEmpty(ps) == before;
    }
  }

  /**
    Whenever a push reassembles, the packets pushed most recently are one start-to-end fragment
    run of a single source and timestamp with consecutive sequence numbers, and the forwarded
    payload is the rebuilt header followed by exactly their fragment bytes.
   */
  lemma ReassembledIsRecentRun(s0: State, ps: seq<Packet>)
    requires !s0.active && ps != [] && LastDecision(s0, ps).Reassembled?
    ensures exists k :: 0 < k <= |NonEmpty(ps)| && Yields(Suffix(NonEmpty(ps), k), LastDecision(s0, ps).packet)
  {
    OpenUnitIsRecent(s0, ps[..|ps| - 1]);
    LastPush(s0, ps);
  }

  // ---------------------------------------------------------------- delivery

  lemma RunSnoc(s0: State, front: seq<Packet>, p: Packet, all: seq<Packet>)
    requires all == front + [p]
    ensures StateAfter(s0, all) == Step(StateAfter(s0, front), p).0
    ensures LastDecision(s0, all) == Step(StateAfter(s0, front), p).1
  {
    assert all[..|all| - 1] == front;
  }

  lemma FirstOfRun(s0: State, p: Packet)
    requires FragmentRun([p])
    ensures var (s', d) := (StateAfter(s0, [p]), LastDecision(s0, [p]));
      if |Rebuilt([p])| > MAX_NAL_PAYLOAD then !s'.active && d.Dropped?
      else if EndBit(p.payload[1]) then d.Reassembled? && Yields([p], d.packet)
      else Tracks(s', [p]) && d == Buffered
  {
    RunSnoc(s0, [], p, [p]);
    RebuiltOne([p]);
    StepAlone(StateAfter(s0, []), p);
  }

  lemma OpenPartShrinks(block: seq<Packet>, j: nat)
    requires FragmentRun(block) && 0 < j < |block|
    ensures Open(block[..j]) && FragmentRun(block[..j + 1])
    ensures |Rebuilt(block[..j])| <= |Rebuilt(block[..j + 1])|
  {
    OpenPrefix(block, j);
    if j + 1 < |block| {
      OpenPrefix(block, j + 1);
    } else {
      assert block[..j + 1] == block;
    }
    RebuiltSnoc(block[..j + 1]);
    assert block[..j + 1][..j] == block[..j];
  }

  /**
    From any state, after part of a run: the unit held, delivered, or dropped once it outgrew the limit.
   */
  lemma {:induction false} AfterPart(s0: State, block: seq<Packet>, j: nat)
    requires FragmentRun(block) && 0 < j <= |block|
    ensures FragmentRun(block[..j])
    ensures var part := block[..j];
      var (s, d) := (StateAfter(s0, part), LastDecision(s0, part));
      if |Rebuilt(part)| > MAX_NAL_PAYLOAD then !s.active && d.Dropped?
      else if EndBit(part[j - 1].payload[1]) then d.Reassembled? && Yields(part, d.packet)
      else Tracks(s, part) && d == Buffered
    decreases j
  {
    var p := block[j - 1];
    if j == 1 {
      FirstAlone(block);
      FirstOfRun(s0, p);
    } else {
      var front, part := block[..j - 1], block[..j];
      AfterPart(s0, block, j - 1);
      OpenPartShrinks(block, j - 1);
      RunFits(block, j - 1);
      RunSnoc(s0, front, p, part);
      if Tracks(StateAfter(s0, front), front) {
        NextOfRun(StateAfter(s0, front), front, p, part);
      } else {
        NextOfNothing(StateAfter(s0, front), p);
      }
    }
  }

  lemma FirstAlone(block: seq<Packet>)
    requires FragmentRun(block)
    ensures block[..1] == [block[0]] && FragmentRun([block[0]])
  {
  }

  /**
    From any state, a start-to-end run is buffered fragment by fragment and then delivered whole,
    if and only if the rebuilt unit is within the limit.
   */
  lemma RunDeliveredIffWithinLimit(s0: State, block: seq<Packet>)
    requires Closed(block)
    ensures LastDecision(s0, block).Reassembled? <==> |Rebuilt(block)| <= MAX_NAL_PAYLOAD
    ensures |Rebuilt(block)| <= MAX_NAL_PAYLOAD ==>
      && Yields(block, LastDecision(s0, block).packet)
      && forall j :: 0 < j < |block| ==> LastDecision(s0, block[..j]) == Buffered
  {
    assert block[..|block|] == block;
    AfterPart(s0, block, |block|);
    if |Rebuilt(block)| <= MAX_NAL_PAYLOAD {
      forall j | 0 < j < |block|
        ensures LastDecision(s0, block[..j]) == Buffered
      {
        AfterPart(s0, block, j);
        PartsNoLonger(block, j);
        assert block[..j][j - 1] == block[j - 1] && !EndBit(block[j - 1].payload[1]);
      }
    }
  }

  lemma {:induction false} PartsNoLonger(block: seq<Packet>, j: nat)
    requires FragmentRun(block) && 0 < j < |block|
    ensures FragmentRun(block[..j]) && |Rebuilt(block[..j])| <= |Rebuilt(block)|
    decreases |block|
  {
    RebuiltSnoc(block);
    OpenPrefix(block, j);
    if j < |block| - 1 {
      var front := block[..|block| - 1];
      assert front[..j] == block[..j];
      PartsNoLonger(front, j);
    }
  }

  // ---------------------------------------------------------------- the sender's side

  /** The FU header of fragment i out of n. */
  function FuHeader(nalType: byte, i: nat, n: nat): byte
    requires nalType < 32 && i < n
  {
    nalType + (if i == 0 then 128 else 0) + (if i == n - 1 then 64 else 0)
  }

  /** block carries nal cut into the given parts, one fragment each (section 5.8 of RFC 6184). */
  predicate Fragments(block: seq<Packet>, nal: Bytes, parts: seq<Bytes>) {
    && nal != [] && block != [] && |parts| == |block| && Flatten(parts) == nal[1..]
    && (|parts| > 1 ==> forall i :: 0 <= i < |parts| ==> parts[i] != [])
    && (forall i :: 0 <= i < |block| ==>
          block[i].payload == [RefBits(nal[0]) + FU_A, FuHeader(NalType(nal[0]), i, |block|)] + parts[i])
    && (forall i :: 0 <= i < |block| - 1 ==> Follows(block[i], block[i + 1]))
  }

  lemma FragmentBits(header: byte, i: nat, n: nat)
    requires i < n
    ensures NalType(RefBits(header) + FU_A) == FU_A && RefBits(RefBits(header) + FU_A) == RefBits(header)
    ensures var fu := FuHeader(NalType(header), i, n);
      NalType(fu) == NalType(header) && (StartBit(fu) <==> i == 0) && (EndBit(fu) <==> i == n - 1)
  {
  }

  lemma FragmentShape(p: Packet, nal: Bytes, part: Bytes, i: nat, n: nat)
    requires nal != [] && i < n
    requires p.payload == [RefBits(nal[0]) + FU_A, FuHeader(NalType(nal[0]), i, n)] + part
    ensures IsFragment(p) && (StartBit(p.payload[1]) <==> i == 0) && (EndBit(p.payload[1]) <==> i == n - 1)
    ensures p.payload[2..] == part && RebuiltHeader(p.payload) == nal[0]
  {
    FragmentBits(nal[0], i, n);
  }

  lemma FragmentsRebuild(block: seq<Packet>, nal: Bytes, parts: seq<Bytes>)
    requires Fragments(block, nal, parts)
    ensures Closed(block) && Rebuilt(block) == nal
  {
    FragmentsClosed(block, nal, parts);
    assert RebuiltHeader(block[0].payload) == nal[0] by {
      FragmentShape(block[0], nal, parts[0], 0, |block|);
    }
    assert Bodies(block) == parts;
    assert [nal[0]] + nal[1..] == nal;
  }

  lemma FragmentsClosed(block: seq<Packet>, nal: Bytes, parts: seq<Bytes>)
    requires Fragments(block, nal, parts)
    ensures Closed(block) && forall i :: 0 <= i < |block| ==> block[i].payload[2..] == parts[i]
  {
    forall i | 0 <= i < |block|
      ensures IsFragment(block[i]) && (StartBit(block[i].payload[1]) <==> i == 0)
      ensures EndBit(block[i].payload[1]) <==> i == |block| - 1
      ensures block[i].payload[2..] == parts[i]
    {
      FragmentShape(block[i], nal, parts[i], i, |block|);
    }
  }

  /**
    Round trip and self-healing: whatever the reassembler was doing, the fragments of a NAL unit,
    however it was cut, are all buffered but the last, and then exactly that unit is forwarded,
    provided it fits the limit; a larger unit is never forwarded.
   */
  lemma FragmentedUnitDelivered(s0: State, block: seq<Packet>, nal: Bytes, parts: seq<Bytes>)
    requires Fragments(block, nal, parts)
    ensures LastDecision(s0, block).Reassembled? <==> |nal| <= MAX_NAL_PAYLOAD
    ensures |nal| <= MAX_NAL_PAYLOAD ==>
      && LastDecision(s0, block).packet.payload == nal
      && LastDecision(s0, block).packet.timestamp == block[0].timestamp
      && forall j :: 0 < j < |block| ==> LastDecision(s0, block[..j]) == Buffered
  {
    FragmentsRebuild(block, nal, parts);
    RunDeliveredIffWithinLimit(s0, block);
    OneTimestamp(block, |block| - 1);
  }

  lemma {:induction false} OneTimestamp(block: seq<Packet>, i: nat)
    requires FragmentRun(block) && i < |block|
    ensures block[i].timestamp == block[0].timestamp && block[i].ssrc == block[0].ssrc
    ensures block[i].seqNo == Add16(block[0].seqNo, i)
  {
    if i > 0 {
      OneTimestamp(block, i - 1);
      assert Follows(block[i - 1], block[i]);
      Add16Next(block[0].seqNo, i - 1);
    }
  }
}
