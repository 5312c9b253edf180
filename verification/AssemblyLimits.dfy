/**
  What the limits of the assembly mean over whole runs: how long an access unit may take, what the default
  bounds come to, and under which count a frame that is not emitted is dropped.
 */
module AssemblyLimits {
  import opened Rtp
  import opened AccessUnits
  import opened Outbound
  import opened Normalizer
  import opened AssemblyRuns

  // ---------------------------------------------------------------- age

  /** When the packets of Recent(es) were pushed. */
  function RecentTimes(es: seq<Event>): (times: seq<Time>)
    ensures |times| == |Recent(es)|
  {
    if es == [] then []
    else
      var front := RecentTimes(es[..|es| - 1]);
      match es[|es| - 1]
      case Push(p, now) => if p.payload == [] then front else front + [now]
      case Drain => []
      case ResetSource => []
      case ResetForStreamSwitch(_, _) => []
      case _ => front
  }

  function LastTimes(times: seq<Time>, k: nat): seq<Time>
    requires k <= |times|
  {
    times[|times| - k..]
  }

  /** The packets of the open access unit were pushed at the last of the times, the first when it started. */
  predicate InTime(c: Config, a: Assembly, times: seq<Time>) {
    a.haveAU && !a.invalid ==>
      && |a.packets| <= |times|
      && var late := LastTimes(times, |a.packets|);
         && (a.packets != [] ==> late[0] == a.startedAt)
         && forall i :: 0 <= i < |late| ==> late[i] - a.startedAt <= c.maxAge
  }

  lemma LastTimesSnoc(times: seq<Time>, now: Time, k: nat)
    requires k <= |times|
    ensures LastTimes(times + [now], k + 1) == LastTimes(times, k) + [now]
  {
  }

  lemma OpenInTime(c: Config, a: Assembly, times: seq<Time>, p: Packet, now: Time, o: Assembly)
    requires InTime(c, a, times) && (a.haveAU && !a.invalid ==> a.packets != []) && c.maxAge >= 0
    requires o == OpenFor(c, a, p, now)
    ensures InTime(c, o, times) && o.haveAU && now - o.startedAt <= c.maxAge
    ensures !o.invalid && o.packets == [] ==> o.startedAt == now
  {
  }

  lemma AddedInTime(c: Config, o: Assembly, times: seq<Time>, now: Time, b: Assembly, p: Packet)
    requires InTime(c, o, times) && o.haveAU && !o.invalid && now - o.startedAt <= c.maxAge
    requires o.packets == [] ==> o.startedAt == now
    requires b.packets == o.packets + [p] && b.startedAt == o.startedAt
    ensures InTime(c, b, times + [now])
  {
    LastTimesSnoc(times, now, |o.packets|);
  }

  lemma AbsorbAdds(c: Config, o: Assembly, p: Packet)
    ensures var b := Absorb(c, o, p);
      !b.invalid ==> !o.invalid && b.packets == o.packets + [p] && b.startedAt == o.startedAt
  {
  }

  lemma AbsorbInTime(c: Config, a: Assembly, times: seq<Time>, p: Packet, now: Time)
    requires InTime(c, a, times) && (a.haveAU && !a.invalid ==> a.packets != []) && c.maxAge >= 0
    ensures InTime(c, Assembled(c, a, p, now), times + [now])
  {
    var o, b := OpenFor(c, a, p, now), Assembled(c, a, p, now);
    OpenInTime(c, a, times, p, now, o);
    AbsorbAdds(c, o, p);
    if !b.invalid {
      AddedInTime(c, o, times, now, b, p);
    }
  }

  lemma {:induction false} RunInTime(c: Config, es: seq<Event>)
    requires c.maxAge >= 0
    ensures InTime(c, StateAfter(c, es).asm, RecentTimes(es))
    decreases |es|
  {
    if es != [] {
      var front, s, e := es[..|es| - 1], StateBefore(c, es), es[|es| - 1];
      RunInTime(c, front);
      AssemblyTracks(c, front);
      EventOnAssembly(c, s, e);
      if e.Push? && e.packet.payload != [] {
        AbsorbInTime(c, s.asm, RecentTimes(front), e.packet, e.now);
      }
    }
  }

  lemma CompletedInTime(c: Config, a: Assembly, times: seq<Time>, p: Packet, now: Time, raw: seq<Packet>)
    requires InTime(c, a, times) && (a.haveAU && !a.invalid ==> a.packets != []) && c.maxAge >= 0
    requires Completes(c, a, p, now) && raw == Assembled(c, a, p, now).packets
    ensures raw != [] && |raw| <= |times + [now]|
    ensures var late := LastTimes(times + [now], |raw|);
      late[|late| - 1] == now && forall i :: 0 <= i < |late| ==> late[i] - late[0] <= c.maxAge
  {
    AbsorbInTime(c, a, times, p, now);
  }

  /** An access unit is emitted only if every packet of it came within the maximum age of its first. */
  lemma EmittedInTime(c: Config, es: seq<Event>)
    requires c.maxAge >= 0 && es != [] && Emits(c, StateBefore(c, es), es[|es| - 1]).Some?
    ensures var e := es[|es| - 1];
      var raw := Assembled(c, StateBefore(c, es).asm, e.packet, e.now).packets;
      && raw != [] && |raw| <= |RecentTimes(es)| && raw == Tail(Recent(es), |raw|)
      && var late := LastTimes(RecentTimes(es), |raw|);
         late[|late| - 1] == e.now && forall i :: 0 <= i < |late| ==> late[i] - late[0] <= c.maxAge
  {
    var front, a, e := es[..|es| - 1], StateBefore(c, es).asm, es[|es| - 1];
    EmittedIsRecentBlock(c, es);
    RunInTime(c, front);
    AssemblyTracks(c, front);
    assert RecentTimes(es) == RecentTimes(front) + [e.now];
    CompletedInTime(c, a, RecentTimes(front), e.packet, e.now, Assembled(c, a, e.packet, e.now).packets);
  }

  // ---------------------------------------------------------------- the default bounds

  /** A normalizer asked for no particular bounds keeps 2048 packets and 4 MiB at most, and waits half a second. */
  lemma DefaultBounds(requested: Config, es: seq<Event>)
    requires requested.maxPackets <= 0 && requested.maxBytes <= 0 && requested.maxAge <= 0
    ensures var c := Effective(requested); var a := StateAfter(c, es).asm;
      |a.packets| <= 2048 && TotalSize(a.packets) <= 4_194_304 && c.maxAge == 500_000_000
      && c.reuseSameTimestamp == requested.reuseSameTimestamp
  {
    RetentionBounded(Effective(requested), es);
  }

  // ---------------------------------------------------------------- how a frame that is not emitted counts

  /** The counts after the first j packets of a frame. */
  function CountAll(c: Config, a: Assembly, n: Counts, raw: seq<Packet>, times: seq<Time>, j: nat): Counts
    requires j <= |raw| == |times|
  {
    if j == 0 then n
    else PushCounts(c, PushAll(c, a, raw, times, j - 1), CountAll(c, a, n, raw, times, j - 1), raw[j - 1], times[j - 1])
  }

  /** Nothing but its limits speaks against the part of a frame seen so far. */
  predicate Complete(part: seq<Packet>) {
    Consecutive(part) && Scan(part).Continue?
  }

  /** Overflow is flagged only beyond a limit, and then always if nothing else is wrong. */
  predicate FlagsOverflow(c: Config, a: Assembly, part: seq<Packet>) {
    && |a.packets| <= |part|
    && (a.overflow ==> !WithinLimits(c, part))
    && (Complete(part) && !WithinLimits(c, part) ==> a.overflow)
  }

  lemma CompleteSnoc(part: seq<Packet>, p: Packet, longer: seq<Packet>)
    requires part != [] && longer == part + [p] && Complete(longer)
    ensures Complete(part) && p.seqNo == NextSeq(part[|part| - 1].seqNo)
  {
    assert longer[..|longer| - 1] == part;
    forall i | 0 <= i < |part| - 1
      ensures part[i + 1].seqNo == NextSeq(part[i].seqNo)
    {
      assert longer[i + 1].seqNo == NextSeq(longer[i].seqNo);
    }
    assert longer[|part| - 1 + 1] == p;
  }

  lemma LimitsSnoc(c: Config, part: seq<Packet>, p: Packet, longer: seq<Packet>)
    requires longer == part + [p]
    ensures TotalSize(longer) == TotalSize(part) + MarshalSize(p)
    ensures WithinLimits(c, longer) <==>
      WithinLimits(c, part) && |part| < c.maxPackets && TotalSize(part) + MarshalSize(p) <= c.maxBytes
  {
    assert longer[..|longer| - 1] == part;
  }

  lemma FlagsNext(c: Config, a: Assembly, part: seq<Packet>, first: Time, p: Packet, now: Time, longer: seq<Packet>)
    requires part != [] && Holds(c, a, part, first) && FlagsOverflow(c, a, part) && longer == part + [p]
    requires p.timestamp == part[0].timestamp && now - first <= c.maxAge
    ensures FlagsOverflow(c, Assembled(c, a, p, now), longer) && !Stale(c, a, p, now)
  {
    LimitsSnoc(c, part, p, longer);
    if Complete(longer) {
      CompleteSnoc(part, p, longer);
    }
  }

  lemma FlagsFirst(c: Config, a: Assembly, p: Packet, now: Time)
    requires (!a.haveAU || Stale(c, a, p, now)) && c.maxPackets > 0
    ensures FlagsOverflow(c, Assembled(c, a, p, now), [p])
  {
    GoodOne(c, p);
  }

  lemma {:induction false} FrameFlags(c: Config, a: Assembly, raw: seq<Packet>, times: seq<Time>, j: nat)
    requires Frame(c, raw, times) && j < |raw| && c.maxPackets > 0
    requires !a.haveAU || Stale(c, a, raw[0], times[0])
    ensures FlagsOverflow(c, HeldAt(c, a, raw, times, j), raw[..j + 1])
    ensures j > 0 ==> !Stale(c, PushAll(c, a, raw, times, j), raw[j], times[j])
  {
    FrameAt(c, raw, times, j);
    if j == 0 {
      FlagsFirst(c, a, raw[0], times[0]);
    } else {
      FrameFlags(c, a, raw, times, j - 1);
      FrameHeld(c, a, raw, times, j - 1);
      PushAllOpen(c, a, raw, times, j - 1);
      FlagsNext(c, PushAll(c, a, raw, times, j), raw[..j], times[0], raw[j], times[j], raw[..j + 1]);
    }
  }

  lemma CountStep(c: Config, a: Assembly, n: Counts, raw: seq<Packet>, times: seq<Time>, j: nat)
    requires 0 < j <= |raw| == |times|
    ensures CountAll(c, a, n, raw, times, j) ==
      PushCounts(c, PushAll(c, a, raw, times, j - 1), CountAll(c, a, n, raw, times, j - 1), raw[j - 1], times[j - 1])
  {
  }

  lemma CountedOpen(c: Config, a: Assembly, n: Counts, p: Packet, now: Time)
    requires p.payload != [] && !p.marker
    ensures PushCounts(c, a, n, p, now) == if Stale(c, a, p, now) then CountDrop(n, true, false) else n
  {
  }

  lemma OpenPacket(c: Config, raw: seq<Packet>, times: seq<Time>, j: nat)
    requires Frame(c, raw, times) && j < |raw| - 1
    ensures raw[j].payload != [] && !raw[j].marker
  {
  }

  /** Before its marker, all a frame counts is the unit its first packet replaces. */
  lemma {:induction false} FrameCounted(c: Config, a: Assembly, n: Counts, raw: seq<Packet>, times: seq<Time>, j: nat)
    requires Frame(c, raw, times) && j < |raw| && c.maxPackets > 0
    requires !a.haveAU || Stale(c, a, raw[0], times[0])
    ensures CountAll(c, a, n, raw, times, j) == if j > 0 && a.haveAU then CountDrop(n, true, false) else n
  {
    if j > 0 {
      var held, m := PushAll(c, a, raw, times, j - 1), CountAll(c, a, n, raw, times, j - 1);
      CountStep(c, a, n, raw, times, j);
      OpenPacket(c, raw, times, j - 1);
      CountedOpen(c, held, m, raw[j - 1], times[j - 1]);
      if j > 1 {
        FrameCounted(c, a, n, raw, times, j - 1);
        FrameFlags(c, a, raw, times, j - 1);
      }
    }
  }

  /** What the marker packet counts. */
  lemma CountedMarked(c: Config, a: Assembly, n: Counts, p: Packet, now: Time, b: Assembly)
    requires p.payload != [] && p.marker && b == Assembled(c, a, p, now)
    ensures var m := if Stale(c, a, p, now) then CountDrop(n, true, false) else n;
      PushCounts(c, a, n, p, now) == (if Completes(c, a, p, now) then m else CountDrop(m, true, b.overflow))
  {
  }

  lemma MarkedPacket(c: Config, raw: seq<Packet>, times: seq<Time>)
    requires Frame(c, raw, times)
    ensures raw[|raw| - 1].payload != [] && raw[|raw| - 1].marker
  {
  }

  /** What a frame has counted when its marker is looked at: the unit it replaced, if any. */
  lemma CountedBefore(c: Config, a: Assembly, n: Counts, raw: seq<Packet>, times: seq<Time>, j: nat, m: Counts)
    requires Frame(c, raw, times) && j == |raw| - 1 && c.maxPackets > 0
    requires !a.haveAU || Stale(c, a, raw[0], times[0])
    requires m == CountAll(c, a, n, raw, times, j)
    ensures (if Stale(c, PushAll(c, a, raw, times, j), raw[j], times[j]) then CountDrop(m, true, false) else m) ==
      if a.haveAU then n.(droppedIncomplete := n.droppedIncomplete + 1) else n
  {
    FrameCounted(c, a, n, raw, times, j);
    if j > 0 {
      FrameFlags(c, a, raw, times, j);
    }
  }

  /** The count a frame is dropped under, by what is wrong with it. */
  predicate DroppedUnder(c: Config, raw: seq<Packet>, before: Counts, after: Counts) {
    var complete := Consecutive(raw) && AllForwardable(raw, |raw|);
    && (complete && WithinLimits(c, raw) ==> after == before)
    && (!complete && WithinLimits(c, raw) ==> after == before.(droppedIncomplete := before.droppedIncomplete + 1))
    && (complete && !WithinLimits(c, raw) ==> after == before.(droppedOverflow := before.droppedOverflow + 1))
  }

  lemma CountedLast(c: Config, raw: seq<Packet>, b: Assembly, before: Counts, emitted: bool, after: Counts)
    requires FlagsOverflow(c, b, raw)
    requires emitted <==> Consecutive(raw) && AllForwardable(raw, |raw|) && WithinLimits(c, raw)
    requires after == if emitted then before else CountDrop(before, true, b.overflow)
    ensures DroppedUnder(c, raw, before, after)
  {
    ScanAcceptsIffForwardable(raw);
  }

  /**
    A frame that opens a fresh access unit: emitted, it counts nothing; too large but otherwise complete, it
    counts once as overflow; incomplete but within the limits, once as incomplete.  A unit it cuts short counts
    once as incomplete besides.
   */
  lemma FrameDropCounted(c: Config, a: Assembly, n: Counts, raw: seq<Packet>, times: seq<Time>)
    requires Frame(c, raw, times) && c.maxPackets > 0
    requires !a.haveAU || Stale(c, a, raw[0], times[0])
    ensures DroppedUnder(c, raw, if a.haveAU then n.(droppedIncomplete := n.droppedIncomplete + 1) else n,
                         CountAll(c, a, n, raw, times, |raw|))
  {
    var j := |raw| - 1;
    var before := if a.haveAU then n.(droppedIncomplete := n.droppedIncomplete + 1) else n;
    FrameFlagged(c, a, raw, times);
    FrameEmittedIff(c, a, raw, times);
    FrameCountedWhole(c, a, n, raw, times, j, before);
    CountedLast(c, raw, HeldAt(c, a, raw, times, j), before,
                Completes(c, PushAll(c, a, raw, times, j), raw[j], times[j]), CountAll(c, a, n, raw, times, |raw|));
  }

  lemma FrameFlagged(c: Config, a: Assembly, raw: seq<Packet>, times: seq<Time>)
    requires Frame(c, raw, times) && c.maxPackets > 0
    requires !a.haveAU || Stale(c, a, raw[0], times[0])
    ensures FlagsOverflow(c, HeldAt(c, a, raw, times, |raw| - 1), raw)
  {
    FrameFlags(c, a, raw, times, |raw| - 1);
    assert raw[..|raw|] == raw;
  }

  lemma FrameCountedWhole(c: Config, a: Assembly, n: Counts, raw: seq<Packet>, times: seq<Time>, j: nat, before: Counts)
    requires Frame(c, raw, times) && j == |raw| - 1 && c.maxPackets > 0
    requires !a.haveAU || Stale(c, a, raw[0], times[0])
    requires before == if a.haveAU then n.(droppedIncomplete := n.droppedIncomplete + 1) else n
    ensures CountAll(c, a, n, raw, times, |raw|) ==
      if Completes(c, PushAll(c, a, raw, times, j), raw[j], times[j]) then before
      else CountDrop(before, true, HeldAt(c, a, raw, times, j).overflow)
  {
    var m := CountAll(c, a, n, raw, times, j);
    CountStep(c, a, n, raw, times, |raw|);
    MarkedPacket(c, raw, times);
    CountedMarked(c, PushAll(c, a, raw, times, j), m, raw[j], times[j], HeldAt(c, a, raw, times, j));
    CountedBefore(c, a, n, raw, times, j, m);
  }
}
