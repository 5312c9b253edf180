/**
  The outbound RTP timeline of the normalizer: one sequence-number and timestamp line towards the
  decoder, whatever happens to the source.  Continuous frames keep the source's timestamp step;
  after a switch or a broken source step the line advances by the wall clock instead.
 */
module Outbound {
  import opened Rtp

  /** Nanoseconds since the zero time; 0 is a time that was never set. */
  type Time = int

  const MAX_SOURCE_GAP := 900000            // 10 s at 90 kHz
  const MAX_STEP := 0x7fff_ffff             // keeps a step positive as a signed 32-bit delta
  const REPLAY_STEP := 3000
  const CLOCK_RATE := 90000
  const NANOS_PER_SECOND := 1_000_000_000
  const TWO_63 := 0x8000_0000_0000_0000

  function Add32(a: u32, n: nat): u32 {
    (a + n) % 0x1_0000_0000
  }

  function Sub32(a: u32, b: u32): u32 {
    (a - b) % 0x1_0000_0000
  }

  // ---------------------------------------------------------------- the wall-clock step

  /** Two's complement of 64 bits. */
  function Wrap64(x: int): int {
    (x + TWO_63) % (2 * TWO_63) - TWO_63
  }

  /** Signed division truncates towards zero. */
  function TruncDiv(a: int, b: nat): int
    requires b > 0
  {
    if a >= 0 then a / b else -((-a) / b)
  }

  /** Durations are signed 64-bit nanoseconds; a longer difference saturates. */
  function Elapsed(last: Time, now: Time): int
    requires last < now
  {
    if now - last < TWO_63 then now - last else TWO_63 - 1
  }

  function Clamp(ticks: int): u32 {
    if ticks < 1 then 1 else if ticks > MAX_STEP then MAX_STEP else ticks
  }

  /** The 90 kHz step for the time since last, and that time; the product may wrap. */
  function WallStep(last: Time, now: Time): (u32, int) {
    if last == 0 || now <= last then (1, 0)
    else
      var elapsed := Elapsed(last, now);
      (Clamp(TruncDiv(Wrap64(elapsed * CLOCK_RATE), NANOS_PER_SECOND)), elapsed)
  }

  method WallClockH264TimestampStep(last: Time, now: Time) returns (step: u32, wall: int)
    ensures (step, wall) == WallStep(last, now)
  {
    if last == 0 || now <= last {
      return 1, 0;
    }
    var elapsed := if now - last < TWO_63 then now - last else TWO_63 - 1;
    var product := (elapsed * CLOCK_RATE + TWO_63) % (2 * TWO_63) - TWO_63;
    var ticks := if product >= 0 then product / NANOS_PER_SECOND else -((-product) / NANOS_PER_SECOND);
    if ticks < 1 {
      return 1, elapsed;
    }
    if ticks > MAX_STEP {
      return MAX_STEP, elapsed;
    }
    return ticks, elapsed;
  }

  /** The step over unbounded integers. */
  function ExactStep(last: Time, now: Time): u32
    requires last < now
  {
    Clamp((now - last) * CLOCK_RATE / NANOS_PER_SECOND)
  }

  /**
    The step is the exact one as long as the 64-bit product does not wrap (about 28 hours), and
    beyond that only when the wrapped product still lands above the clamp.
   */
  lemma WallStepExactIff(last: Time, now: Time)
    requires last != 0 && last < now
    ensures var product := Elapsed(last, now) * CLOCK_RATE;
      WallStep(last, now).0 == ExactStep(last, now) <==>
        product < TWO_63 || Wrap64(product) >= MAX_STEP * NANOS_PER_SECOND
  {
    var product := Elapsed(last, now) * CLOCK_RATE;
    if product < TWO_63 {
      assert Wrap64(product) == product;
    } else {
      assert (now - last) * CLOCK_RATE >= TWO_63;
      assert (now - last) * CLOCK_RATE / NANOS_PER_SECOND > MAX_STEP;
    }
  }

  /**
    What the step means: with no earlier time, or a clock that stands or runs back, one tick; otherwise, as
    long as the product fits, the ticks of 90 kHz that fit into the time elapsed, between 1 and 2^31 - 1.
   */
  lemma WallStepMeaning(last: Time, now: Time)
    ensures last == 0 || now <= last ==> WallStep(last, now) == (1, 0)
    ensures last != 0 && last < now && (now - last) * 90_000 < 0x8000_0000_0000_0000 ==>
      var (step, wall) := WallStep(last, now);
      && wall == now - last
      && (step * 1_000_000_000 <= wall * 90_000 || step == 1)
      && (wall * 90_000 < (step + 1) * 1_000_000_000 || step == 0x7fff_ffff)
  {
    if last != 0 && last < now && (now - last) * 90_000 < 0x8000_0000_0000_0000 {
      assert Wrap64((now - last) * CLOCK_RATE) == (now - last) * CLOCK_RATE;
    }
  }

  /** A gap just past 28 hours, where the product wraps and the line advances by a single tick. */
  lemma WallStepWraps()
    ensures WallStep(1, 102_481_911_520_610).0 == 1
    ensures ExactStep(1, 102_481_911_520_610) == MAX_STEP
  {
  }

  // ---------------------------------------------------------------- mapping a source timestamp

  datatype Option<T> = None | Some(value: T)

  datatype Discontinuity = Discontinuity(
    reason: string,
    incoming: u32,
    previousIncoming: u32,
    outgoing: u32,
    previousOutgoing: u32,
    wall: int)

  datatype Line = Line(
    haveOutput: bool,
    nextSeq: u16,
    outputTS: u32,
    lastSourceTS: u32,
    lastOutputAt: Time,
    stepAfterSwitch: bool,
    pendingReason: string,
    replayAfterOutput: bool)

  const NEW_LINE := Line(false, 0, 0, 0, 0, false, "", false)

  datatype Mapping = Mapping(line: Line, ts: u32, disc: Option<Discontinuity>, reused: bool)

  predicate SourceBroken(delta: u32) {
    delta == 0 || delta >= 0x8000_0000 || delta > MAX_SOURCE_GAP
  }

  function Reason(l: Line, broken: bool): string {
    var switched := if l.pendingReason == "" then "switch" else l.pendingReason;
    if !l.stepAfterSwitch then "source-gap"
    else if broken then switched + "+source-gap"
    else switched
  }

  function MapTimestamp(l: Line, reuse: bool, source: u32, firstSeq: u16, now: Time): Mapping {
    if !l.haveOutput then
      Mapping(Line(true, firstSeq, source, source, now, false, "", false), source, None, false)
    else
      var delta := Sub32(source, l.lastSourceTS);
      if delta == 0 && !l.stepAfterSwitch && !l.replayAfterOutput && reuse then
        Mapping(l.(lastOutputAt := now), l.outputTS, None, true)
      else if !l.stepAfterSwitch && !SourceBroken(delta) then
        var ts := Add32(l.outputTS, delta);
        Mapping(l.(replayAfterOutput := false, outputTS := ts, lastSourceTS := source, lastOutputAt := now),
                ts, None, false)
      else
        var (step, wall) := WallStep(l.lastOutputAt, now);
        var ts := Add32(l.outputTS, step);
        Mapping(
          l.(replayAfterOutput := false, outputTS := ts, lastSourceTS := source, lastOutputAt := now,
             stepAfterSwitch := false, pendingReason := ""),
          ts,
          Some(Discontinuity(Reason(l, SourceBroken(delta)), source, l.lastSourceTS, ts, l.outputTS, wall)),
          false)
  }

  /** Packets renumbered from a first sequence number, all at one timestamp. */
  function Renumbered(packets: seq<Packet>, first: u16, ts: u32): seq<Packet> {
    seq(|packets|, i requires 0 <= i < |packets| => packets[i].(seqNo := Add16(first, i), timestamp := ts))
  }

  lemma RenumberedIs(packets: seq<Packet>, first: u16, ts: u32, out: seq<Packet>)
    requires |out| == |packets|
    requires forall i :: 0 <= i < |out| ==> out[i] == packets[i].(seqNo := Add16(first, i), timestamp := ts)
    ensures out == Renumbered(packets, first, ts)
  {
  }

  /** The line after numbering an access unit; an empty one is not numbered at all. */
  function NumberLine(l: Line, reuse: bool, packets: seq<Packet>, source: u32, now: Time): Line {
    if packets == [] then l
    else
      var l' := MapTimestamp(l, reuse, source, packets[0].seqNo, now).line;
      l'.(nextSeq := Add16(l'.nextSeq, |packets|))
  }

  function NumberPackets(l: Line, reuse: bool, packets: seq<Packet>, source: u32, now: Time): seq<Packet> {
    if packets == [] then []
    else
      var m := MapTimestamp(l, reuse, source, packets[0].seqNo, now);
      Renumbered(packets, m.line.nextSeq, m.ts)
  }

  /** The line moved for an IDR replay, before its packets are numbered. */
  function ReplayedTo(l: Line, reuse: bool, packets: seq<Packet>, now: Time): Line
    requires packets != []
  {
    (if l.haveOutput then l.(outputTS := Add32(l.outputTS, REPLAY_STEP), lastOutputAt := now)
     else MapTimestamp(l, reuse, packets[0].timestamp, packets[0].seqNo, now).line).(replayAfterOutput := true)
  }

  function ReplayLine(l: Line, reuse: bool, packets: seq<Packet>, now: Time): Line {
    if packets == [] then l
    else
      var l' := ReplayedTo(l, reuse, packets, now);
      l'.(nextSeq := Add16(l'.nextSeq, |packets|))
  }

  /** A replay's packets are copies with the marker on the last only. */
  function Copies(packets: seq<Packet>): seq<Packet> {
    seq(|packets|, i requires 0 <= i < |packets| => packets[i].(marker := i == |packets| - 1))
  }

  function ReplayPackets(l: Line, reuse: bool, packets: seq<Packet>, now: Time): seq<Packet> {
    if packets == [] then []
    else
      var l' := ReplayedTo(l, reuse, packets, now);
      Renumbered(Copies(packets), l'.nextSeq, l'.outputTS)
  }

  function SwitchLine(l: Line, reason: string): Line {
    l.(stepAfterSwitch := true, pendingReason := if reason == "" then "switch" else reason)
  }

  // ---------------------------------------------------------------- one operation on the line

  /** How far the outbound timestamp moved, as an unsigned 32-bit difference. */
  function Advance(l: Line, l': Line): u32 {
    Sub32(l'.outputTS, l.outputTS)
  }

  /** The condition under which an access unit keeps its outbound timestamp. */
  predicate Reuses(l: Line, reuse: bool, source: u32) {
    reuse && l.haveOutput && source == l.lastSourceTS && !l.stepAfterSwitch && !l.replayAfterOutput
  }

  /** The frame continues the source's own timeline. */
  predicate Continuous(l: Line, reuse: bool, source: u32) {
    Reuses(l, reuse, source) ||
    (l.haveOutput && !l.stepAfterSwitch && 0 < Sub32(source, l.lastSourceTS) <= MAX_SOURCE_GAP)
  }

  lemma SubAdd(a: u32, n: u32)
    ensures Sub32(Add32(a, n), a) == n
  {
  }

  lemma WallStepPositive(last: Time, now: Time)
    ensures 1 <= WallStep(last, now).0 <= MAX_STEP
  {
  }

  /** A repeated source timestamp under reuse keeps the outbound one. */
  lemma MapReuses(l: Line, reuse: bool, source: u32, firstSeq: u16, now: Time, m: Mapping)
    requires Reuses(l, reuse, source) && m == MapTimestamp(l, reuse, source, firstSeq, now)
    ensures m == Mapping(l.(lastOutputAt := now), l.outputTS, None, true)
  {
  }

  lemma MapFollows(l: Line, reuse: bool, source: u32, firstSeq: u16, now: Time, m: Mapping)
    requires Continuous(l, reuse, source) && !Reuses(l, reuse, source)
    requires m == MapTimestamp(l, reuse, source, firstSeq, now)
    ensures m.ts == m.line.outputTS == Add32(l.outputTS, Sub32(source, l.lastSourceTS))
    ensures m.line.lastSourceTS == source && m.disc.None? && !m.reused
    ensures m.line.haveOutput && m.line.nextSeq == l.nextSeq
  {
  }

  lemma MapSteps(l: Line, reuse: bool, source: u32, firstSeq: u16, now: Time, m: Mapping)
    requires l.haveOutput && !Continuous(l, reuse, source)
    requires m == MapTimestamp(l, reuse, source, firstSeq, now)
    ensures m.ts == m.line.outputTS == Add32(l.outputTS, WallStep(l.lastOutputAt, now).0)
    ensures m.line.lastSourceTS == source && m.disc.Some? && !m.reused
    ensures m.line.haveOutput && m.line.nextSeq == l.nextSeq
  {
  }

  /** The timestamp assigned is the previous one plus a step: the source's, the wall clock's, or none. */
  lemma MapAdvances(l: Line, reuse: bool, source: u32, firstSeq: u16, now: Time)
    requires l.haveOutput
    ensures var m := MapTimestamp(l, reuse, source, firstSeq, now);
      && m.ts == m.line.outputTS && m.line.haveOutput && m.line.nextSeq == l.nextSeq
      && m.reused == Reuses(l, reuse, source)
      && (m.disc.None? <==> Continuous(l, reuse, source))
      && Advance(l, m.line) ==
           (if Continuous(l, reuse, source) then Sub32(source, l.lastSourceTS) else WallStep(l.lastOutputAt, now).0)
      && m.line.lastSourceTS == source
  {
    var m := MapTimestamp(l, reuse, source, firstSeq, now);
    if Reuses(l, reuse, source) {
      MapReuses(l, reuse, source, firstSeq, now, m);
    } else if Continuous(l, reuse, source) {
      MapFollows(l, reuse, source, firstSeq, now, m);
      SubAdd(l.outputTS, Sub32(source, l.lastSourceTS));
    } else {
      MapSteps(l, reuse, source, firstSeq, now, m);
      SubAdd(l.outputTS, WallStep(l.lastOutputAt, now).0);
    }
  }

  /** Numbering steps the timeline forward; it stands still exactly on same-timestamp reuse. */
  lemma NumberAdvances(l: Line, reuse: bool, packets: seq<Packet>, source: u32, now: Time)
    requires l.haveOutput && packets != []
    ensures var l' := NumberLine(l, reuse, packets, source, now);
      && Advance(l, l') <= MAX_STEP
      && (Advance(l, l') == 0 <==> Reuses(l, reuse, source))
      && (Continuous(l, reuse, source) ==> Advance(l, l') == Sub32(source, l.lastSourceTS))
      && l'.lastSourceTS == source
  {
    MapAdvances(l, reuse, source, packets[0].seqNo, now);
    WallStepPositive(l.lastOutputAt, now);
    var l' := NumberLine(l, reuse, packets, source, now);
    assert Advance(l, l') == Advance(l, MapTimestamp(l, reuse, source, packets[0].seqNo, now).line);
  }

  lemma ReplayAdvances(l: Line, reuse: bool, packets: seq<Packet>, now: Time)
    requires l.haveOutput && packets != []
    ensures Advance(l, ReplayLine(l, reuse, packets, now)) == REPLAY_STEP
    ensures ReplayLine(l, reuse, packets, now).lastSourceTS == l.lastSourceTS
  {
    SubAdd(l.outputTS, REPLAY_STEP);
  }
}
