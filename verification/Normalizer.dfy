/**
  The H.264 access-unit normalizer.  Reordered RTP packets go in; complete access units come out,
  and the ones the caller forwards are then numbered on one continuous outbound line.  This file has
  the state machine as functions on values and the mutable normalizer that implements it.
 */
module Normalizer {
  import opened Rtp
  import opened AccessUnits
  import opened Outbound
  import PS = ParameterSets
  import FirstMb
  import Injection
  import StapA

  // ---------------------------------------------------------------- state

  datatype Config = Config(maxPackets: int, maxBytes: int, maxAge: int, reuseSameTimestamp: bool)

  const DEFAULT_MAX_PACKETS := 2048
  const DEFAULT_MAX_BYTES := 4 * 1024 * 1024
  const DEFAULT_MAX_AGE := 500_000_000

  /** Non-positive bounds fall back to the defaults. */
  function Effective(c: Config): Config {
    Config(
      if c.maxPackets <= 0 then DEFAULT_MAX_PACKETS else c.maxPackets,
      if c.maxBytes <= 0 then DEFAULT_MAX_BYTES else c.maxBytes,
      if c.maxAge <= 0 then DEFAULT_MAX_AGE else c.maxAge,
      c.reuseSameTimestamp)
  }

  /** The access unit being assembled. */
  datatype Assembly = Assembly(
    haveAU: bool,
    sourceTS: u32,
    startedAt: Time,
    packets: seq<Packet>,
    bytes: nat,
    invalid: bool,
    overflow: bool,
    haveLastSeq: bool,
    lastSeq: u16,
    fu: Fu)

  /** The cached parameter sets, and how many forced injections are still owed after a switch. */
  datatype Sets = Sets(sps: Bytes, pps: Bytes, generation: int, forceRemaining: int)

  datatype Counts = Counts(
    droppedIncomplete: nat,
    droppedOverflow: nat,
    emitted: nat,
    lastAUPackets: nat,
    sameTSSplits: nat)

  datatype State = State(asm: Assembly, sets: Sets, line: Line, counts: Counts)

  const INIT := State(
    Assembly(false, 0, 0, [], 0, false, false, false, 0, Shut),
    Sets([], [], 0, 0),
    NEW_LINE,
    Counts(0, 0, 0, 0, 0))

  /** A complete access unit, before it is numbered. */
  datatype Unit = Unit(
    packets: seq<Packet>,
    isIDR: bool,
    injected: bool,
    setsReady: bool,
    generation: int,
    sourceTimestamp: u32)

  // ---------------------------------------------------------------- assembling

  function Clear(a: Assembly): Assembly {
    a.(haveAU := false, packets := [], bytes := 0, invalid := false, overflow := false,
       haveLastSeq := false, fu := Shut)
  }

  function Start(a: Assembly, timestamp: u32, now: Time): Assembly {
    Assembly(true, timestamp, now, [], 0, false, false, false, a.lastSeq, Shut)
  }

  /** The open access unit cannot take this packet: another timestamp, or too old. */
  predicate Stale(c: Config, a: Assembly, p: Packet, now: Time) {
    a.haveAU && (p.timestamp != a.sourceTS || now - a.startedAt > c.maxAge)
  }

  function OpenFor(c: Config, a: Assembly, p: Packet, now: Time): Assembly {
    if a.haveAU && !Stale(c, a, p, now) then a else Start(a, p.timestamp, now)
  }

  predicate Overflows(c: Config, a: Assembly, p: Packet) {
    |a.packets| >= c.maxPackets || a.bytes + MarshalSize(p) > c.maxBytes
  }

  function Absorb(c: Config, a: Assembly, p: Packet): Assembly {
    var gap := a.haveLastSeq && p.seqNo != NextSeq(a.lastSeq);
    var b := a.(haveLastSeq := true, lastSeq := p.seqNo, bytes := a.bytes + MarshalSize(p));
    if Overflows(c, a, p) then b.(invalid := true, overflow := true, packets := [])
    else if a.invalid || gap then b.(invalid := true)
    else
      match Observe(a.fu, p.payload)
      case Reject => b.(invalid := true, packets := a.packets + [p])
      case Continue(fu) => b.(packets := a.packets + [p], fu := fu)
  }

  function Assembled(c: Config, a: Assembly, p: Packet, now: Time): Assembly {
    Absorb(c, OpenFor(c, a, p, now), p)
  }

  predicate Finishable(a: Assembly) {
    !a.invalid && a.fu.Shut? && a.packets != []
  }

  function PushAssembly(c: Config, a: Assembly, p: Packet, now: Time): Assembly {
    if p.payload == [] then a
    else
      var b := Assembled(c, a, p, now);
      if p.marker then Clear(b) else b
  }

  /** This packet completes an access unit. */
  predicate Completes(c: Config, a: Assembly, p: Packet, now: Time) {
    p.payload != [] && p.marker && Finishable(Assembled(c, a, p, now))
  }

  function CountDrop(n: Counts, dropped: bool, overflow: bool): Counts {
    if !dropped then n
    else if overflow then n.(droppedOverflow := n.droppedOverflow + 1)
    else n.(droppedIncomplete := n.droppedIncomplete + 1)
  }

  function PushCounts(c: Config, a: Assembly, n: Counts, p: Packet, now: Time): Counts {
    if p.payload == [] then n
    else
      var b := Assembled(c, a, p, now);
      CountDrop(CountDrop(n, Stale(c, a, p, now), false), p.marker && !Finishable(b), b.overflow)
  }

  // ---------------------------------------------------------------- finishing

  function FinishSets(s: Sets, raw: seq<Packet>): Sets {
    s.(sps := PS.Updated(s.sps, raw, PS.SPS), pps := PS.Updated(s.pps, raw, PS.PPS))
  }

  /** The finished access unit, given the sets as they are after caching what it carries. */
  function FinishUnit(s: Sets, raw: seq<Packet>, source: u32): Unit {
    var ready := s.sps != [] && s.pps != [];
    var hasSPS, hasPPS := AnyCarries(raw, PS.SPS), AnyCarries(raw, PS.PPS);
    var force := s.forceRemaining > 0 && ready && (!hasSPS || !hasPPS);
    var isIDR := AnyCarries(raw, 5);
    var (packets, injected) :=
      if isIDR then Injection.Injected(raw, s.sps, s.pps, hasSPS, hasPPS, force) else (raw, false);
    Unit(packets, isIDR, injected, ready, s.generation, source)
  }

  // ---------------------------------------------------------------- events

  datatype Event =
    | Push(packet: Packet, now: Time)
    | SetParameterSets(sps: Bytes, pps: Bytes)
    | Drain
    | ResetSource
    | ResetForStreamSwitch(generation: int, reason: string)
    | NumberAccessUnit(unit: Unit, now: Time)
    | RewriteForReplay(packets: seq<Packet>, now: Time)

  function Dropped(s: State): State {
    s.(asm := Clear(s.asm), counts := CountDrop(s.counts, s.asm.haveAU, false))
  }

  function DoPush(c: Config, s: State, p: Packet, now: Time): State {
    var b := Assembled(c, s.asm, p, now);
    s.(asm := PushAssembly(c, s.asm, p, now),
       counts := PushCounts(c, s.asm, s.counts, p, now),
       sets := if Completes(c, s.asm, p, now) then FinishSets(s.sets, b.packets) else s.sets)
  }

  function DoSwitch(s: State, generation: int, reason: string): State {
    Dropped(s).(sets := Sets([], [], generation, 1), line := SwitchLine(s.line, reason))
  }

  function DoNumber(c: Config, s: State, u: Unit, now: Time): State {
    if u.packets == [] then s
    else
      var reused := MapTimestamp(s.line, c.reuseSameTimestamp, u.sourceTimestamp, u.packets[0].seqNo, now).reused;
      s.(line := NumberLine(s.line, c.reuseSameTimestamp, u.packets, u.sourceTimestamp, now),
         counts := s.counts.(emitted := s.counts.emitted + 1, lastAUPackets := |u.packets|,
                             sameTSSplits := s.counts.sameTSSplits + (if reused then 1 else 0)),
         sets := if u.injected && s.sets.forceRemaining > 0
                 then s.sets.(forceRemaining := s.sets.forceRemaining - 1) else s.sets)
  }

  function SeedSets(s: Sets, sps: Bytes, pps: Bytes): Sets {
    s.(sps := if StapA.IsSingleNalType(sps, PS.SPS) then sps else s.sps,
       pps := if StapA.IsSingleNalType(pps, PS.PPS) then pps else s.pps)
  }

  function Do(c: Config, s: State, e: Event): State {
    match e
    case Push(p, now) => DoPush(c, s, p, now)
    case SetParameterSets(sps, pps) => s.(sets := SeedSets(s.sets, sps, pps))
    case Drain => Dropped(s)
    case ResetSource => Dropped(s)
    case ResetForStreamSwitch(generation, reason) => DoSwitch(s, generation, reason)
    case NumberAccessUnit(u, now) => DoNumber(c, s, u, now)
    case RewriteForReplay(packets, now) => s.(line := ReplayLine(s.line, c.reuseSameTimestamp, packets, now))
  }

  /** The access unit a completing packet finishes. */
  function Completed(c: Config, s: State, p: Packet, now: Time): Unit {
    var b := Assembled(c, s.asm, p, now);
    FinishUnit(FinishSets(s.sets, b.packets), b.packets, b.sourceTS)
  }

  /** The access unit an event emits, if any. */
  function Emits(c: Config, s: State, e: Event): Option<Unit> {
    if e.Push? && Completes(c, s.asm, e.packet, e.now) then Some(Completed(c, s, e.packet, e.now)) else None
  }

  // ---------------------------------------------------------------- the mutable normalizer

  function SaturatedDiff(now: Time, last: Time): int {
    if now - last >= TWO_63 then TWO_63 - 1 else if now - last < -TWO_63 then -TWO_63 else now - last
  }

  /** A repeated source timestamp whose outbound timestamp was kept. */
  datatype SameTimestampSplit = SameTimestampSplit(
    incoming: u32, outgoing: u32, count: nat, wall: int, firstMb: int, packets: nat, previousPackets: nat)

  class AccessUnit {
    const packets: array<Packet>
    const isIDR: bool
    const injected: bool
    const setsReady: bool
    const generation: int
    const sourceTimestamp: u32
    var discontinuity: Option<Discontinuity>
    var sameTimestampSplit: Option<SameTimestampSplit>

    ghost function View(): Unit
      reads this, packets
    {
      Unit(packets[..], isIDR, injected, setsReady, generation, sourceTimestamp)
    }

    constructor (contents: seq<Packet>, isIDR: bool, injected: bool, setsReady: bool, generation: int,
                 sourceTimestamp: u32)
      ensures fresh(packets)
      ensures View() == Unit(contents, isIDR, injected, setsReady, generation, sourceTimestamp)
      ensures discontinuity == None && sameTimestampSplit == None
    {
      packets := new Packet[|contents|](i requires 0 <= i < |contents| => contents[i]);
      this.isIDR, this.injected, this.setsReady := isIDR, injected, setsReady;
      this.generation, this.sourceTimestamp := generation, sourceTimestamp;
      discontinuity, sameTimestampSplit := None, None;
      new;
      assert packets[..] == contents;
    }
  }

  /** The normalizer's fields, grouped into the records above and updated in place. */
  class H264AccessUnitNormalizer {
    const config: Config
    var asm: Assembly
    var sets: Sets
    var line: Line
    var counts: Counts

    ghost function View(): State
      reads this
    {
      State(asm, sets, line, counts)
    }

    constructor (requested: Config)
      ensures config == Effective(requested) && View() == INIT
    {
      config := Config(
        if requested.maxPackets <= 0 then DEFAULT_MAX_PACKETS else requested.maxPackets,
        if requested.maxBytes <= 0 then DEFAULT_MAX_BYTES else requested.maxBytes,
        if requested.maxAge <= 0 then DEFAULT_MAX_AGE else requested.maxAge,
        requested.reuseSameTimestamp);
      asm := Assembly(false, 0, 0, [], 0, false, false, false, 0, Shut);
      sets := Sets([], [], 0, 0);
      line := NEW_LINE;
      counts := Counts(0, 0, 0, 0, 0);
    }

    method SetParameterSets(sps: Bytes, pps: Bytes)
      modifies this`sets
      ensures View() == Do(config, old(View()), Event.SetParameterSets(sps, pps))
    {
      if StapA.IsSingleNalType(sps, PS.SPS) {
        sets := sets.(sps := sps);
      }
      if StapA.IsSingleNalType(pps, PS.PPS) {
        sets := sets.(pps := pps);
      }
    }

    method ResetCurrent()
      modifies this`asm
      ensures asm == Clear(old(asm))
    {
      asm := asm.(haveAU := false, packets := [], bytes := 0, invalid := false, overflow := false,
                  haveLastSeq := false, fu := Shut);
    }

    method DropCurrent(overflow: bool)
      modifies this`asm, this`counts
      ensures asm == Clear(old(asm))
      ensures counts == CountDrop(old(counts), old(asm.haveAU), overflow)
    {
      if asm.haveAU {
        if overflow {
          counts := counts.(droppedOverflow := counts.droppedOverflow + 1);
        } else {
          counts := counts.(droppedIncomplete := counts.droppedIncomplete + 1);
        }
      }
      ResetCurrent();
    }

    method StartAccessUnit(timestamp: u32, now: Time)
      modifies this`asm
      ensures asm == Start(old(asm), timestamp, now)
    {
      asm := Assembly(true, timestamp, now, [], 0, false, false, false, asm.lastSeq, Shut);
    }

    /** Takes one packet into the open access unit. */
    method AbsorbPacket(packet: Packet)
      modifies this`asm
      ensures asm == Absorb(config, old(asm), packet)
    {
      if asm.haveLastSeq && packet.seqNo != NextSeq(asm.lastSeq) {
        asm := asm.(invalid := true);
      }
      asm := asm.(haveLastSeq := true, lastSeq := packet.seqNo);
      asm := asm.(bytes := asm.bytes + MarshalSize(packet));
      if |asm.packets| >= config.maxPackets || asm.bytes > config.maxBytes {
        asm := asm.(invalid := true, overflow := true, packets := []);
      }
      if !asm.invalid {
        var ok, fu := ObservePayload(packet.payload, asm.fu);
        asm := asm.(packets := asm.packets + [packet], fu := fu);
        if !ok {
          asm := asm.(invalid := true);
        }
      }
    }

    /** The part of Push before the marker is looked at. */
    method Admit(packet: Packet, now: Time)
      modifies this`asm, this`counts
      ensures asm == Assembled(config, old(asm), packet, now)
      ensures counts == CountDrop(old(counts), Stale(config, old(asm), packet, now), false)
    {
      if asm.haveAU && (packet.timestamp != asm.sourceTS || now - asm.startedAt > config.maxAge) {
        DropCurrent(false);
      }
      if !asm.haveAU {
        StartAccessUnit(packet.timestamp, now);
      }
      AbsorbPacket(packet);
    }

    method Push(packet: Packet, now: Time) returns (au: AccessUnit?)
      modifies this
      ensures View() == Do(config, old(View()), Event.Push(packet, now))
      ensures au == null <==> Emits(config, old(View()), Event.Push(packet, now)).None?
      ensures au != null ==> fresh(au) && fresh(au.packets)
      ensures au != null ==> Some(au.View()) == Emits(config, old(View()), Event.Push(packet, now))
    {
      au := null;
      if |packet.payload| == 0 {
        return;
      }
      Admit(packet, now);
      if !packet.marker {
        return;
      }
      if asm.invalid || asm.fu.Opened? || |asm.packets| == 0 {
        DropCurrent(asm.overflow);
        return;
      }
      au := Finish();
    }

    method Finish() returns (au: AccessUnit)
      modifies this`asm, this`sets
      ensures fresh(au) && fresh(au.packets)
      ensures asm == Clear(old(asm))
      ensures sets == FinishSets(old(sets), old(asm.packets))
      ensures au.View() == FinishUnit(sets, old(asm.packets), old(asm.sourceTS))
    {
      var packets := asm.packets;
      var sourceTimestamp := asm.sourceTS;
      var hasSPS, hasPPS, isIDR := InspectAccessUnit(packets);
      var sps := PS.UpdateCachedNal(sets.sps, packets, PS.SPS);
      var pps := PS.UpdateCachedNal(sets.pps, packets, PS.PPS);
      sets := sets.(sps := sps, pps := pps);
      var ready := |sets.sps| > 0 && |sets.pps| > 0;
      var injected := false;
      if isIDR {
        var missingSets := !hasSPS || !hasPPS;
        var forcePrefix := sets.forceRemaining > 0 && ready && missingSets;
        packets, injected := Injection.PrefixParameterSets(packets, sets.sps, sets.pps, hasSPS, hasPPS, forcePrefix);
      }
      ResetCurrent();
      au := new AccessUnit(packets, isIDR, injected, ready, sets.generation, sourceTimestamp);
    }

    method MapSourceTimestamp(source: u32, firstSeq: u16, now: Time)
      returns (ts: u32, disc: Option<Discontinuity>, reused: bool)
      modifies this`line
      ensures Mapping(line, ts, disc, reused)
        == MapTimestamp(old(line), config.reuseSameTimestamp, source, firstSeq, now)
    {
      if !line.haveOutput {
        line := Line(true, firstSeq, source, source, now, false, "", false);
        return line.outputTS, None, false;
      }
      var sourceDelta := Sub32(source, line.lastSourceTS);
      var switched := line.stepAfterSwitch;
      if sourceDelta == 0 && !switched && !line.replayAfterOutput && config.reuseSameTimestamp {
        line := line.(lastOutputAt := now);
        return line.outputTS, None, true;
      }
      line := line.(replayAfterOutput := false);
      var sourceBroken := sourceDelta == 0 || sourceDelta >= 0x8000_0000 || sourceDelta > MAX_SOURCE_GAP;
      if !switched && !sourceBroken {
        line := line.(outputTS := Add32(line.outputTS, sourceDelta), lastSourceTS := source, lastOutputAt := now);
        return line.outputTS, None, false;
      }
      var prevOut, prevIn := line.outputTS, line.lastSourceTS;
      var ticks, wall := WallClockH264TimestampStep(line.lastOutputAt, now);
      line := line.(outputTS := Add32(line.outputTS, ticks));
      var reason := "source-gap";
      if switched {
        reason := line.pendingReason;
        if reason == "" {
          reason := "switch";
        }
        if sourceBroken {
          reason := reason + "+source-gap";
        }
      }
      line := line.(stepAfterSwitch := false, pendingReason := "", lastSourceTS := source, lastOutputAt := now);
      return line.outputTS, Some(Discontinuity(reason, source, prevIn, line.outputTS, prevOut, wall)), false;
    }

    /** Rewrites the packet headers in place. */
    method ApplyOutboundRtp(out: array<Packet>, ts: u32)
      modifies this`line, out
      ensures line == old(line).(nextSeq := Add16(old(line.nextSeq), out.Length))
      ensures out[..] == Renumbered(old(out[..]), old(line.nextSeq), ts)
    {
      ghost var before, first := out[..], line.nextSeq;
      for i := 0 to out.Length
        invariant line == old(line).(nextSeq := Add16(first, i))
        invariant forall j :: 0 <= j < i ==> out[j] == before[j].(seqNo := Add16(first, j), timestamp := ts)
        invariant forall j :: i <= j < out.Length ==> out[j] == before[j]
      {
        Add16Next(first, i);
        out[i] := out[i].(seqNo := line.nextSeq, timestamp := ts);
        line := line.(nextSeq := NextSeq(line.nextSeq));
      }
      RenumberedIs(before, first, ts, out[..]);
    }

    method NumberAccessUnit(au: AccessUnit, now: Time)
      modifies this, au, au.packets
      ensures View() == Do(config, old(View()), Event.NumberAccessUnit(old(au.View()), now))
      ensures au.packets[..] ==
        NumberPackets(old(line), config.reuseSameTimestamp, old(au.packets[..]), au.sourceTimestamp, now)
      ensures au.packets.Length > 0 ==>
        var m := MapTimestamp(old(line), config.reuseSameTimestamp, au.sourceTimestamp, old(au.packets[0]).seqNo, now);
        && au.discontinuity == m.disc
        && au.sameTimestampSplit ==
             if m.reused then Some(SameTimestampSplit(
               au.sourceTimestamp, m.ts, old(counts.sameTSSplits) + 1, SaturatedDiff(now, old(line.lastOutputAt)),
               FirstMb.OfAccessUnit(old(au.packets[..])), au.packets.Length, old(counts.lastAUPackets)))
             else old(au.sameTimestampSplit)
    {
      if au.packets.Length == 0 {
        return;
      }
      var prevAt := line.lastOutputAt;
      var ts, disc, reused := MapSourceTimestamp(au.sourceTimestamp, au.packets[0].seqNo, now);
      if reused {
        counts := counts.(sameTSSplits := counts.sameTSSplits + 1);
        var firstMb := FirstMb.H264AccessUnitFirstMb(au.packets[..]);
        au.sameTimestampSplit := Some(SameTimestampSplit(
          au.sourceTimestamp, ts, counts.sameTSSplits, SaturatedDiff(now, prevAt),
          firstMb, au.packets.Length, counts.lastAUPackets));
      }
      counts := counts.(lastAUPackets := au.packets.Length);
      ApplyOutboundRtp(au.packets, ts);
      au.discontinuity := disc;
      if au.injected && sets.forceRemaining > 0 {
        sets := sets.(forceRemaining := sets.forceRemaining - 1);
      }
      counts := counts.(emitted := counts.emitted + 1);
    }

    method Drain()
      modifies this
      ensures View() == Do(config, old(View()), Event.Drain)
    {
      DropCurrent(false);
    }

    method ResetSource()
      modifies this
      ensures View() == Do(config, old(View()), Event.ResetSource)
    {
      DropCurrent(false);
    }

    method RewriteForReplay(cached: seq<Packet>, now: Time) returns (out: array?<Packet>)
      modifies this
      ensures View() == Do(config, old(View()), Event.RewriteForReplay(cached, now))
      ensures out == null <==> cached == []
      ensures out != null ==> fresh(out)
      ensures out != null ==> out[..] == ReplayPackets(old(line), config.reuseSameTimestamp, cached, now)
    {
      if |cached| == 0 {
        return null;
      }
      if !line.haveOutput {
        var ts, disc, reused := MapSourceTimestamp(cached[0].timestamp, cached[0].seqNo, now);
        line := line.(outputTS := ts);
      } else {
        line := line.(outputTS := Add32(line.outputTS, REPLAY_STEP));
        line := line.(lastOutputAt := now);
      }
      line := line.(replayAfterOutput := true);
      out := new Packet[|cached|](i requires 0 <= i < |cached| => cached[i].(marker := i == |cached| - 1));
      assert out[..] == Copies(cached);
      ApplyOutboundRtp(out, line.outputTS);
    }

    method ResetForStreamSwitch(generation: int, reason: string)
      modifies this
      ensures View() == Do(config, old(View()), Event.ResetForStreamSwitch(generation, reason))
    {
      DropCurrent(false);
      sets := Sets([], [], generation, 1);
      line := line.(stepAfterSwitch := true, pendingReason := if reason == "" then "switch" else reason);
    }
  }
}
