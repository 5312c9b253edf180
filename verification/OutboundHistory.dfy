/**
  What is put on the wire, told from the operations alone: when something was last sent, which source
  timestamp came last, and whether a switch or a replay has happened since an access unit was numbered.
 */
module OutboundHistory {
  import opened Rtp
  import opened Outbound
  import opened OutboundRuns
  import Injection

  // ---------------------------------------------------------------- the history of a run

  predicate Numbers(op: Op) {
    op.Number? && op.packets != []
  }

  predicate Replays(op: Op) {
    op.Replay? && op.packets != []
  }

  predicate Sends(op: Op) {
    Numbers(op) || Replays(op)
  }

  predicate SomethingSent(ops: seq<Op>) {
    exists i :: 0 <= i < |ops| && Sends(ops[i])
  }

  /** Operation i is the last that sent anything. */
  predicate LastSend(ops: seq<Op>, i: nat) {
    i < |ops| && Sends(ops[i]) && forall k :: i < k < |ops| ==> !Sends(ops[k])
  }

  /** Operation i follows the source: an access unit, or the replay a run starts with. */
  predicate FollowsSource(ops: seq<Op>, i: nat) {
    i < |ops| && (Numbers(ops[i]) || (Replays(ops[i]) && !SomethingSent(ops[..i])))
  }

  predicate LastSource(ops: seq<Op>, i: nat) {
    FollowsSource(ops, i) && forall k :: i < k < |ops| ==> !FollowsSource(ops, k)
  }

  function SourceOf(op: Op): u32
    requires Sends(op)
  {
    if op.Number? then op.source else op.packets[0].timestamp
  }

  /** Operation i is the latest switch, something was sent before it, and no access unit was numbered since. */
  predicate SwitchedAt(ops: seq<Op>, i: nat) {
    && i < |ops| && ops[i].Switch? && SomethingSent(ops[..i])
    && forall k :: i < k < |ops| ==> !Numbers(ops[k]) && !ops[k].Switch?
  }

  predicate Switched(ops: seq<Op>) {
    exists i: nat :: i < |ops| && SwitchedAt(ops, i)
  }

  function ReasonOf(op: Op): string
    requires op.Switch?
  {
    if op.reason == "" then "switch" else op.reason
  }

  /** A replay was sent since an access unit last was. */
  predicate Replayed(ops: seq<Op>) {
    exists i :: 0 <= i < |ops| && Replays(ops[i]) && forall k :: i < k < |ops| ==> !Numbers(ops[k])
  }

  // ---------------------------------------------------------------- one more operation

  lemma SentSnoc(front: seq<Op>, op: Op, ops: seq<Op>)
    requires ops == front + [op]
    ensures SomethingSent(ops) <==> SomethingSent(front) || Sends(op)
  {
    if SomethingSent(front) {
      var i :| 0 <= i < |front| && Sends(front[i]);
      assert Sends(ops[i]);
    }
    if Sends(op) {
      assert Sends(ops[|front|]);
    }
  }

  lemma LastSendSnoc(front: seq<Op>, op: Op, ops: seq<Op>, i: nat)
    requires ops == front + [op]
    ensures LastSend(ops, i) <==> if Sends(op) then i == |front| else LastSend(front, i)
  {
    assert ops[|front|] == op && forall k :: 0 <= k < |front| ==> ops[k] == front[k];
  }

  lemma FollowsSnoc(front: seq<Op>, op: Op, ops: seq<Op>, i: nat)
    requires ops == front + [op]
    ensures FollowsSource(ops, i) <==>
      if i < |front| then FollowsSource(front, i)
      else i == |front| && (Numbers(op) || (Replays(op) && !SomethingSent(front)))
  {
    if i <= |front| {
      assert ops[..i] == front[..i];
      assert front[..|front|] == front;
    }
  }

  lemma LastSourceSnoc(front: seq<Op>, op: Op, ops: seq<Op>, i: nat)
    requires ops == front + [op]
    ensures LastSource(ops, i) <==>
      if Numbers(op) || (Replays(op) && !SomethingSent(front)) then i == |front| else LastSource(front, i)
  {
    FollowsSnoc(front, op, ops, |front|);
    FollowsSnoc(front, op, ops, i);
    forall k: nat | k < |front|
      ensures FollowsSource(ops, k) <==> FollowsSource(front, k)
    {
      FollowsSnoc(front, op, ops, k);
    }
  }

  lemma SwitchedAtSnoc(front: seq<Op>, op: Op, ops: seq<Op>, i: nat)
    requires ops == front + [op]
    ensures SwitchedAt(ops, i) <==>
      if op.Switch? then i == |front| && SomethingSent(front) else !Numbers(op) && SwitchedAt(front, i)
  {
    assert ops[|front|] == op && forall k :: 0 <= k < |front| ==> ops[k] == front[k];
    if i <= |front| {
      assert ops[..i] == front[..i];
      assert front[..|front|] == front;
    }
  }

  lemma SwitchedSnoc(front: seq<Op>, op: Op, ops: seq<Op>)
    requires ops == front + [op]
    ensures Switched(ops) <==> if op.Switch? then SomethingSent(front) else !Numbers(op) && Switched(front)
  {
    SwitchedAtSnoc(front, op, ops, |front|);
    if Switched(front) {
      var i: nat :| i < |front| && SwitchedAt(front, i);
      SwitchedAtSnoc(front, op, ops, i);
    }
    if Switched(ops) {
      var i: nat :| i < |ops| && SwitchedAt(ops, i);
      SwitchedAtSnoc(front, op, ops, i);
    }
  }

  lemma ReplayedSnoc(front: seq<Op>, op: Op, ops: seq<Op>)
    requires ops == front + [op]
    ensures Replayed(ops) <==> Replays(op) || (!Numbers(op) && Replayed(front))
  {
    assert ops[|front|] == op && forall k :: 0 <= k < |front| ==> ops[k] == front[k];
    if Replays(op) {
      assert Replays(ops[|front|]);
    } else if Replayed(front) && !Numbers(op) {
      var i :| 0 <= i < |front| && Replays(front[i]) && forall k :: i < k < |front| ==> !Numbers(front[k]);
      assert Replays(ops[i]);
    }
  }

  // ---------------------------------------------------------------- the line remembers exactly that

  lemma NumberRemembers(l: Line, reuse: bool, op: Op)
    requires Numbers(op)
    ensures var l' := After(l, reuse, op);
      && l'.haveOutput && l'.lastOutputAt == op.now && l'.lastSourceTS == op.source
      && !l'.stepAfterSwitch && !l'.replayAfterOutput
  {
  }

  lemma ReplayRemembers(l: Line, reuse: bool, op: Op)
    requires Replays(op)
    ensures var l' := After(l, reuse, op);
      && l'.haveOutput && l'.lastOutputAt == op.now && l'.replayAfterOutput
      && l'.lastSourceTS == (if l.haveOutput then l.lastSourceTS else op.packets[0].timestamp)
      && (l.haveOutput ==> l'.stepAfterSwitch == l.stepAfterSwitch && l'.pendingReason == l.pendingReason)
      && (!l.haveOutput ==> !l'.stepAfterSwitch)
  {
  }

  lemma SilentRemembers(l: Line, reuse: bool, op: Op)
    requires !Sends(op)
    ensures After(l, reuse, op) ==
      if op.Switch? then l.(stepAfterSwitch := true, pendingReason := ReasonOf(op)) else l
  {
  }

  lemma {:induction false} RemembersOutput(reuse: bool, ops: seq<Op>)
    ensures LineAfter(reuse, ops).haveOutput <==> SomethingSent(ops)
    decreases |ops|
  {
    if ops != [] {
      var front, op := ops[..|ops| - 1], ops[|ops| - 1];
      RemembersOutput(reuse, front);
      SentSnoc(front, op, ops);
      OpRemembers(LineAfter(reuse, front), reuse, op);
    }
  }

  /** One operation, whatever it is. */
  lemma OpRemembers(l: Line, reuse: bool, op: Op)
    ensures var l' := After(l, reuse, op);
      && l'.haveOutput == (l.haveOutput || Sends(op))
      && l'.lastOutputAt == (if Sends(op) then op.now else l.lastOutputAt)
      && l'.lastSourceTS == (if Numbers(op) || (Replays(op) && !l.haveOutput) then SourceOf(op) else l.lastSourceTS)
      && (l'.haveOutput ==>
            && l'.stepAfterSwitch == (if op.Switch? then true else !Numbers(op) && l.haveOutput && l.stepAfterSwitch)
            && l'.replayAfterOutput == (Replays(op) || (!Numbers(op) && l.replayAfterOutput)))
      && (op.Switch? ==> l'.pendingReason == ReasonOf(op))
      && (!op.Switch? && l'.haveOutput && l'.stepAfterSwitch ==> l'.pendingReason == l.pendingReason)
  {
    if Numbers(op) {
      NumberRemembers(l, reuse, op);
    } else if Replays(op) {
      ReplayRemembers(l, reuse, op);
    } else {
      SilentRemembers(l, reuse, op);
    }
  }

  /** The line holds the time of the last operation that sent anything. */
  lemma {:induction false} RemembersTime(reuse: bool, ops: seq<Op>, i: nat)
    requires LastSend(ops, i)
    ensures LineAfter(reuse, ops).lastOutputAt == ops[i].now
    decreases |ops|
  {
    var front, op := ops[..|ops| - 1], ops[|ops| - 1];
    assert ops == front + [op];
    LastSendSnoc(front, op, ops, i);
    OpRemembers(LineAfter(reuse, front), reuse, op);
    if !Sends(op) {
      RemembersTime(reuse, front, i);
    }
  }

  /** The line holds the source timestamp of the last access unit, or of the replay the run started with. */
  lemma {:induction false} RemembersSource(reuse: bool, ops: seq<Op>, i: nat)
    requires LastSource(ops, i)
    ensures LineAfter(reuse, ops).lastSourceTS == SourceOf(ops[i])
    decreases |ops|
  {
    var front, op := ops[..|ops| - 1], ops[|ops| - 1];
    assert ops == front + [op];
    LastSourceSnoc(front, op, ops, i);
    RemembersOutput(reuse, front);
    OpRemembers(LineAfter(reuse, front), reuse, op);
    if !(Numbers(op) || (Replays(op) && !SomethingSent(front))) {
      RemembersSource(reuse, front, i);
    }
  }

  lemma {:induction false} RemembersSwitch(reuse: bool, ops: seq<Op>)
    requires SomethingSent(ops)
    ensures LineAfter(reuse, ops).stepAfterSwitch <==> Switched(ops)
    ensures LineAfter(reuse, ops).replayAfterOutput <==> Replayed(ops)
    decreases |ops|
  {
    var front, op := ops[..|ops| - 1], ops[|ops| - 1];
    assert ops == front + [op];
    SwitchedSnoc(front, op, ops);
    ReplayedSnoc(front, op, ops);
    SentSnoc(front, op, ops);
    RemembersOutput(reuse, front);
    OpRemembers(LineAfter(reuse, front), reuse, op);
    if SomethingSent(front) {
      RemembersSwitch(reuse, front);
    } else {
      NothingPending(front);
    }
  }

  lemma NothingPending(ops: seq<Op>)
    requires !SomethingSent(ops)
    ensures !Switched(ops) && !Replayed(ops)
  {
    forall i: nat
      ensures i < |ops| ==> !Sends(ops[i]) && !SomethingSent(ops[..i])
    {
    }
  }

  lemma {:induction false} RemembersReason(reuse: bool, ops: seq<Op>, i: nat)
    requires SwitchedAt(ops, i)
    ensures LineAfter(reuse, ops).pendingReason == ReasonOf(ops[i])
    decreases |ops|
  {
    var front, op := ops[..|ops| - 1], ops[|ops| - 1];
    assert ops == front + [op];
    SwitchedAtSnoc(front, op, ops, i);
    OpRemembers(LineAfter(reuse, front), reuse, op);
    if !op.Switch? {
      RemembersReason(reuse, front, i);
      PendingSent(ops, i);
      RemembersOutput(reuse, ops);
      RemembersSwitch(reuse, ops);
    }
  }

  lemma PendingSent(ops: seq<Op>, i: nat)
    requires SwitchedAt(ops, i)
    ensures SomethingSent(ops) && Switched(ops)
  {
    var k :| 0 <= k < |ops[..i]| && Sends(ops[..i][k]);
    assert Sends(ops[k]);
  }

  // ---------------------------------------------------------------- what an access unit is sent as

  /** The timestamp of the last packet sent. */
  function LastStamp(reuse: bool, ops: seq<Op>): u32
    requires Sent(reuse, ops) != []
  {
    Sent(reuse, ops)[|Sent(reuse, ops)| - 1].timestamp
  }

  predicate AllStamped(packets: seq<Packet>, ts: u32) {
    forall i :: 0 <= i < |packets| ==> packets[i].timestamp == ts
  }

  /** What numbering an access unit after ops reports: the discontinuity, and whether the timestamp was kept. */
  function Reported(reuse: bool, ops: seq<Op>, op: Op): (Option<Discontinuity>, bool)
    requires Numbers(op)
  {
    var m := MapTimestamp(LineAfter(reuse, ops), reuse, op.source, op.packets[0].seqNo, op.now);
    (m.disc, m.reused)
  }

  function Suffixed(reason: string, broken: bool): string {
    if broken then reason + "+source-gap" else reason
  }

  lemma LineStamp(reuse: bool, ops: seq<Op>)
    requires SomethingSent(ops)
    ensures Sent(reuse, ops) != [] && LineAfter(reuse, ops).haveOutput
    ensures LastStamp(reuse, ops) == LineAfter(reuse, ops).outputTS
  {
    RemembersOutput(reuse, ops);
    LineFollowsSent(reuse, ops);
    SentStampsAdvance(reuse, ops);
  }

  lemma StampedAs(l: Line, reuse: bool, op: Op)
    requires Numbers(op)
    ensures AllStamped(Emission(l, reuse, op), MapTimestamp(l, reuse, op.source, op.packets[0].seqNo, op.now).ts)
  {
    var m := MapTimestamp(l, reuse, op.source, op.packets[0].seqNo, op.now);
    RenumberedConsecutive(op.packets, m.line.nextSeq, m.ts);
  }

  /** The source went on from its last timestamp by at most ten seconds. */
  predicate Plausible(last: u32, source: u32) {
    0 < Sub32(source, last) <= 10 * CLOCK_RATE
  }

  /** Without a switch, a plausible source step is the step on the wire. */
  lemma FrameFollowsSource(reuse: bool, ops: seq<Op>, op: Op, k: nat)
    requires Numbers(op) && LastSource(ops, k) && !Switched(ops) && Plausible(SourceOf(ops[k]), op.source)
    ensures Sent(reuse, ops) != [] && Reported(reuse, ops, op) == (None, false)
    ensures AllStamped(Emission(LineAfter(reuse, ops), reuse, op),
                       Add32(LastStamp(reuse, ops), Sub32(op.source, SourceOf(ops[k]))))
  {
    assert Sends(ops[k]);
    LineStamp(reuse, ops);
    RemembersSource(reuse, ops, k);
    RemembersSwitch(reuse, ops);
    StampedAs(LineAfter(reuse, ops), reuse, op);
  }

  /** Without a switch or a replay, a repeated source timestamp is sent at the same timestamp when reuse is on. */
  lemma FrameReuses(reuse: bool, ops: seq<Op>, op: Op, k: nat)
    requires Numbers(op) && LastSource(ops, k) && !Switched(ops) && !Replayed(ops)
    requires reuse && op.source == SourceOf(ops[k])
    ensures Sent(reuse, ops) != [] && Reported(reuse, ops, op) == (None, true)
    ensures AllStamped(Emission(LineAfter(reuse, ops), reuse, op), LastStamp(reuse, ops))
  {
    assert Sends(ops[k]);
    LineStamp(reuse, ops);
    RemembersSource(reuse, ops, k);
    RemembersSwitch(reuse, ops);
    StampedAs(LineAfter(reuse, ops), reuse, op);
  }

  /** Why an access unit leaves the source's own timeline. */
  predicate LeavesSource(reuse: bool, ops: seq<Op>, source: u32, last: u32) {
    || Switched(ops)
    || (!Plausible(last, source) && !(reuse && source == last && !Replayed(ops)))
  }

  lemma StepsByClock(l: Line, reuse: bool, op: Op, broken: bool, reason: string)
    requires Numbers(op) && l.haveOutput
    requires broken == !Plausible(l.lastSourceTS, op.source)
    requires l.stepAfterSwitch || (broken && !(reuse && op.source == l.lastSourceTS && !l.replayAfterOutput))
    requires l.stepAfterSwitch ==> reason == l.pendingReason != ""
    ensures var (step, wall) := WallStep(l.lastOutputAt, op.now);
      var m := MapTimestamp(l, reuse, op.source, op.packets[0].seqNo, op.now);
      && m.ts == Add32(l.outputTS, step) && !m.reused
      && m.disc == Some(Discontinuity(
           if l.stepAfterSwitch then Suffixed(reason, broken) else "source-gap",
           op.source, l.lastSourceTS, m.ts, l.outputTS, wall))
  {
  }

  /** Every other access unit steps by the time since something was last sent, and the step is reported. */
  lemma FrameStepsByClock(reuse: bool, ops: seq<Op>, op: Op, i: nat, k: nat)
    requires Numbers(op) && LastSend(ops, i) && LastSource(ops, k)
    requires LeavesSource(reuse, ops, op.source, SourceOf(ops[k]))
    ensures Sent(reuse, ops) != []
    ensures var last, (step, wall) := SourceOf(ops[k]), WallStep(ops[i].now, op.now);
      var ts := Add32(LastStamp(reuse, ops), step);
      var (disc, reused) := Reported(reuse, ops, op);
      && AllStamped(Emission(LineAfter(reuse, ops), reuse, op), ts) && !reused
      && disc.Some?
      && disc.value == Discontinuity(disc.value.reason, op.source, last, ts, LastStamp(reuse, ops), wall)
      && (!Switched(ops) ==> disc.value.reason == "source-gap")
      && (forall j: nat :: j < |ops| && SwitchedAt(ops, j) ==>
            disc.value.reason == Suffixed(ReasonOf(ops[j]), !Plausible(last, op.source)))
  {
    var l := LineAfter(reuse, ops);
    assert Sends(ops[i]);
    LineStamp(reuse, ops);
    RemembersTime(reuse, ops, i);
    RemembersSource(reuse, ops, k);
    RemembersSwitch(reuse, ops);
    StampedAs(l, reuse, op);
    forall j: nat | j < |ops| && SwitchedAt(ops, j)
      ensures l.pendingReason == ReasonOf(ops[j])
    {
      RemembersReason(reuse, ops, j);
    }
    StepsByClock(l, reuse, op, !Plausible(l.lastSourceTS, op.source), l.pendingReason);
  }

  /** A stretch of the run in which no access unit is numbered and no stream switched: replays at most. */
  predicate OnlyReplays(ops: seq<Op>) {
    forall i :: 0 <= i < |ops| ==> !Numbers(ops[i]) && !ops[i].Switch?
  }

  lemma SwitchIsPending(before: seq<Op>, reason: string, between: seq<Op>, ops: seq<Op>)
    requires SomethingSent(before) && OnlyReplays(between) && ops == before + [Switch(reason)] + between
    ensures |before| < |ops| && ops[|before|] == Switch(reason) && SwitchedAt(ops, |before|) && Switched(ops)
  {
    assert ops[..|before|] == before;
    assert forall k :: |before| < k < |ops| ==> ops[k] == between[k - |before| - 1];
  }

  /**
    The first access unit after a switch, whatever replays come between and whatever its source
    timestamp, steps by the time since something was last sent; it is never reused or taken for the
    old stream going on, and it reports the switch's reason, with "+source-gap" exactly when the
    source timestamp does not go on plausibly from the old stream's.
   */
  lemma SwitchedFrameSteps(reuse: bool, before: seq<Op>, reason: string, between: seq<Op>, op: Op, ops: seq<Op>,
                           i: nat, k: nat)
    requires SomethingSent(before) && OnlyReplays(between) && ops == before + [Switch(reason)] + between
    requires Numbers(op) && LastSend(ops, i) && LastSource(ops, k)
    ensures Sent(reuse, ops) != []
    ensures var last, (step, wall) := SourceOf(ops[k]), WallStep(ops[i].now, op.now);
      var ts := Add32(LastStamp(reuse, ops), step);
      && AllStamped(Emission(LineAfter(reuse, ops), reuse, op), ts)
      && Reported(reuse, ops, op) == (Some(Discontinuity(
           Suffixed(if reason == "" then "switch" else reason, !Plausible(last, op.source)),
           op.source, last, ts, LastStamp(reuse, ops), wall)), false)
  {
    SwitchIsPending(before, reason, between, ops);
    FrameStepsByClock(reuse, ops, op, i, k);
  }

  /** The three cases are all there are, and exclude each other. */
  lemma FrameCases(reuse: bool, ops: seq<Op>, op: Op, i: nat, k: nat)
    requires Numbers(op) && LastSend(ops, i) && LastSource(ops, k)
    ensures var (disc, reused) := Reported(reuse, ops, op);
      var last := SourceOf(ops[k]);
      && (disc.Some? <==> LeavesSource(reuse, ops, op.source, last))
      && (reused <==> reuse && op.source == last && !Switched(ops) && !Replayed(ops))
  {
    var last := SourceOf(ops[k]);
    if LeavesSource(reuse, ops, op.source, last) {
      FrameStepsByClock(reuse, ops, op, i, k);
    } else if Plausible(last, op.source) {
      FrameFollowsSource(reuse, ops, op, k);
    } else {
      FrameReuses(reuse, ops, op, k);
    }
  }

  // ---------------------------------------------------------------- the start of a run, replays, and copies

  /** Everything about a packet but its place on the line and its marker. */
  predicate SameMedia(p: Packet, q: Packet) {
    p == q.(seqNo := p.seqNo, timestamp := p.timestamp, marker := p.marker)
  }

  lemma RenumberedAs(packets: seq<Packet>, first: u16, ts: u32)
    requires packets != []
    ensures var out := Renumbered(packets, first, ts);
      |out| == |packets| && out[0].seqNo == first && AllStamped(out, ts)
  {
  }

  /** What is first sent keeps the source's own sequence numbers and timestamp. */
  lemma FirstSent(reuse: bool, ops: seq<Op>, op: Op)
    requires !SomethingSent(ops) && Sends(op)
    ensures var out := Emission(LineAfter(reuse, ops), reuse, op);
      && |out| == |op.packets| && out[0].seqNo == op.packets[0].seqNo && AllStamped(out, SourceOf(op))
    ensures Numbers(op) ==> Reported(reuse, ops, op) == (None, false)
  {
    RemembersOutput(reuse, ops);
    FirstNumbered(LineAfter(reuse, ops), reuse, op);
  }

  lemma FirstNumbered(l: Line, reuse: bool, op: Op)
    requires !l.haveOutput && Sends(op)
    ensures var out := Emission(l, reuse, op);
      && |out| == |op.packets| && out[0].seqNo == op.packets[0].seqNo && AllStamped(out, SourceOf(op))
  {
    if op.Number? {
      RenumberedAs(op.packets, op.packets[0].seqNo, op.source);
    } else {
      RenumberedAs(Copies(op.packets), op.packets[0].seqNo, op.packets[0].timestamp);
    }
  }

  /** An access unit goes out packet by packet, with nothing but sequence numbers and timestamp changed. */
  lemma NumberCopies(l: Line, reuse: bool, op: Op)
    requires op.Number?
    ensures var out := Emission(l, reuse, op);
      |out| == |op.packets| && forall i :: 0 <= i < |out| ==>
        SameMedia(out[i], op.packets[i]) && out[i].marker == op.packets[i].marker
  {
  }

  /** So does a replay, with the marker on its last packet and on no other. */
  lemma ReplayCopies(l: Line, reuse: bool, op: Op)
    requires Replays(op)
    ensures var out := Emission(l, reuse, op);
      && |out| == |op.packets| && Injection.MarkedLast(out)
      && forall i :: 0 <= i < |out| ==> SameMedia(out[i], op.packets[i])
  {
  }

  lemma ReplayStamped(l: Line, reuse: bool, op: Op)
    requires Replays(op) && l.haveOutput
    ensures AllStamped(Emission(l, reuse, op), Add32(l.outputTS, CLOCK_RATE / 30))
  {
    RenumberedAs(Copies(op.packets), l.nextSeq, Add32(l.outputTS, CLOCK_RATE / 30));
  }

  /** After any output a replay is sent at one timestamp, one default frame step after the last packet sent. */
  lemma ReplaySteps(reuse: bool, ops: seq<Op>, op: Op)
    requires Replays(op) && SomethingSent(ops)
    ensures Sent(reuse, ops) != []
    ensures AllStamped(Emission(LineAfter(reuse, ops), reuse, op), Add32(LastStamp(reuse, ops), CLOCK_RATE / 30))
  {
    LineStamp(reuse, ops);
    ReplayStamped(LineAfter(reuse, ops), reuse, op);
  }
}
