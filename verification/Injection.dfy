/**
  Injection of cached parameter sets in front of an IDR access unit.  A forced injection, used once
  after a camera switch, also removes the bare SPS and PPS packets it makes redundant.
 */
module Injection {
  import opened Rtp
  import opened Sequences
  import opened AccessUnits
  import opened ParameterSets
  import StapA

  predicate BareSet(p: Packet) {
    StapA.IsSingleNalType(p.payload, SPS) || StapA.IsSingleNalType(p.payload, PPS)
  }

  /** The packets that are not bare parameter sets. */
  function Stripped(packets: seq<Packet>): seq<Packet> {
    if packets == [] then []
    else Stripped(packets[..|packets| - 1]) +
         (if BareSet(packets[|packets| - 1]) then [] else [packets[|packets| - 1]])
  }

  function SetPacket(template: Packet, payload: Bytes): Packet {
    template.(marker := false, payload := payload)
  }

  function Needs(has: bool, cached: Bytes, force: bool): bool {
    (!has || force) && cached != []
  }

  function Prefix(template: Packet, sps: Bytes, pps: Bytes, needSPS: bool, needPPS: bool): seq<Packet> {
    (if needSPS then [SetPacket(template, sps)] else []) + (if needPPS then [SetPacket(template, pps)] else [])
  }

  /** What follows the prefix. */
  function Rest(packets: seq<Packet>, force: bool): seq<Packet> {
    if force && Stripped(packets) != [] then Stripped(packets) else packets
  }

  /** The access unit after injection, and whether anything was injected. */
  function Injected(packets: seq<Packet>, sps: Bytes, pps: Bytes, hasSPS: bool, hasPPS: bool, force: bool)
    : (seq<Packet>, bool)
  {
    var needSPS, needPPS := Needs(hasSPS, sps, force), Needs(hasPPS, pps, force);
    if packets == [] || (!needSPS && !needPPS) then (packets, false)
    else (Prefix(packets[0], sps, pps, needSPS, needPPS) + Rest(packets, force), true)
  }

  method StripSingleNalParameterSets(packets: seq<Packet>) returns (out: seq<Packet>)
    ensures out == Stripped(packets)
  {
    out := [];
    for i := 0 to |packets|
      invariant out == Stripped(packets[..i])
    {
      assert packets[..i + 1][..i] == packets[..i];
      if StapA.IsSingleNalType(packets[i].payload, SPS) || StapA.IsSingleNalType(packets[i].payload, PPS) {
        continue;
      }
      out := out + [packets[i]];
    }
    assert packets[..|packets|] == packets;
  }

  method PrefixParameterSets(packets: seq<Packet>, sps: Bytes, pps: Bytes, hasSPS: bool, hasPPS: bool,
                             forcePrefix: bool)
    returns (out: seq<Packet>, injected: bool)
    ensures (out, injected) == Injected(packets, sps, pps, hasSPS, hasPPS, forcePrefix)
  {
    if |packets| == 0 {
      return packets, false;
    }
    var needSPS := (!hasSPS || forcePrefix) && |sps| > 0;
    var needPPS := (!hasPPS || forcePrefix) && |pps| > 0;
    if !needSPS && !needPPS {
      return packets, false;
    }
    var template := packets[0];
    var prefix := [];
    if needSPS {
      prefix := prefix + [SetPacket(template, sps)];
    }
    if needPPS {
      prefix := prefix + [SetPacket(template, pps)];
    }
    assert prefix == Prefix(template, sps, pps, needSPS, needPPS);
    var rest := packets;
    if forcePrefix {
      var stripped := StripSingleNalParameterSets(packets);
      if |stripped| > 0 {
        rest := stripped;
      }
    }
    return prefix + rest, true;
  }

  // ---------------------------------------------------------------- what injection keeps

  lemma {:induction false} StrippedAppend(a: seq<Packet>, b: seq<Packet>)
    ensures Stripped(a + b) == Stripped(a) + Stripped(b)
  {
    if b == [] {
      assert a + b == a;
    } else {
      var front := b[..|b| - 1];
      StrippedAppend(a, front);
      TakeAppend(a, b);
      ConcatAssoc(Stripped(a), Stripped(front), [b[|b| - 1]]);
    }
  }

  lemma StrippedSnoc(front: seq<Packet>, last: Packet)
    ensures Stripped(front + [last]) == Stripped(front) + (if BareSet(last) then [] else [last])
  {
    assert (front + [last])[..|front|] == front;
  }

  lemma {:induction false} StrippedMembers(packets: seq<Packet>)
    ensures forall p :: p in Stripped(packets) <==> p in packets && !BareSet(p)
  {
    if packets != [] {
      var front, last := packets[..|packets| - 1], packets[|packets| - 1];
      StrippedMembers(front);
      assert packets == front + [last];
    }
  }

  lemma {:induction false} StrippedTwice(packets: seq<Packet>)
    ensures Stripped(Stripped(packets)) == Stripped(packets)
  {
    if packets != [] {
      var front, last := packets[..|packets| - 1], packets[|packets| - 1];
      StrippedTwice(front);
      StrippedSnoc(Stripped(front), last);
      assert BareSet(last) ==> Stripped(packets) == Stripped(front);
    }
  }

  lemma {:induction false} StrippedEmpty(packets: seq<Packet>)
    requires forall i :: 0 <= i < |packets| ==> BareSet(packets[i])
    ensures Stripped(packets) == []
  {
    if packets != [] {
      StrippedEmpty(packets[..|packets| - 1]);
    }
  }

  /** Packets other than bare parameter sets come out unchanged and in order. */
  lemma InjectionKeepsOthers(packets: seq<Packet>, sps: Bytes, pps: Bytes, hasSPS: bool, hasPPS: bool, force: bool)
    requires CachedOk(sps, SPS) && CachedOk(pps, PPS)
    ensures Stripped(Injected(packets, sps, pps, hasSPS, hasPPS, force).0) == Stripped(packets)
  {
    var needSPS, needPPS := Needs(hasSPS, sps, force), Needs(hasPPS, pps, force);
    if packets != [] && (needSPS || needPPS) {
      var prefix := Prefix(packets[0], sps, pps, needSPS, needPPS);
      StrippedEmpty(prefix);
      StrippedAppend(prefix, Rest(packets, force));
      StrippedTwice(packets);
    }
  }

  lemma CarriesAppend(a: seq<Packet>, b: seq<Packet>, t: byte)
    ensures AnyCarries(a + b, t) <==> AnyCarries(a, t) || AnyCarries(b, t)
  {
    if AnyCarries(a, t) {
      var i :| 0 <= i < |a| && Carries(a[i], t);
      assert (a + b)[i] == a[i];
    }
    if AnyCarries(b, t) {
      var i :| 0 <= i < |b| && Carries(b[i], t);
      assert (a + b)[|a| + i] == b[i];
    }
  }

  /** With both sets cached, the result carries both, however the access unit arrived. */
  lemma InjectionCompletesSets(packets: seq<Packet>, sps: Bytes, pps: Bytes, force: bool)
    requires packets != [] && sps != [] && pps != [] && CachedOk(sps, SPS) && CachedOk(pps, PPS)
    ensures var out := Injected(packets, sps, pps, AnyCarries(packets, SPS), AnyCarries(packets, PPS), force).0;
      AnyCarries(out, SPS) && AnyCarries(out, PPS)
  {
    var needSPS, needPPS := Needs(AnyCarries(packets, SPS), sps, force), Needs(AnyCarries(packets, PPS), pps, force);
    var prefix := Prefix(packets[0], sps, pps, needSPS, needPPS);
    var rest := Rest(packets, force);
    if needSPS {
      assert Carries(prefix[0], SPS);
    }
    if needPPS {
      assert Carries(prefix[|prefix| - 1], PPS);
    }
    CarriesAppend(prefix, rest, SPS);
    CarriesAppend(prefix, rest, PPS);
  }

  predicate MarkedLast(packets: seq<Packet>) {
    && packets != [] && packets[|packets| - 1].marker
    && forall i :: 0 <= i < |packets| - 1 ==> !packets[i].marker
  }

  lemma LastStripped(packets: seq<Packet>, front: seq<Packet>, last: Packet)
    requires packets == front + [last]
    ensures BareSet(last) ==> Stripped(packets) == Stripped(front)
    ensures !BareSet(last) ==> Stripped(packets) == Stripped(front) + [last]
  {
    StrippedSnoc(front, last);
  }

  /** Nothing before the last packet is marked, and stripping adds nothing. */
  lemma StrippedUnmarked(front: seq<Packet>)
    requires forall p <- front :: !p.marker
    ensures forall p <- Stripped(front) :: !p.marker
  {
    StrippedMembers(front);
  }

  lemma FrontUnmarked(packets: seq<Packet>, front: seq<Packet>, last: Packet)
    requires MarkedLast(packets) && packets == front + [last]
    ensures last.marker && forall p <- front :: !p.marker
  {
    forall i | 0 <= i < |front|
      ensures !front[i].marker
    {
      assert packets[i] == front[i];
    }
  }

  /** The cached sets that are put in front, SPS first. */
  function Wanted(sps: Bytes, pps: Bytes, hasSPS: bool, hasPPS: bool, force: bool): seq<Bytes> {
    (if (!hasSPS || force) && sps != [] then [sps] else []) +
    (if (!hasPPS || force) && pps != [] then [pps] else [])
  }

  /** A packet that carries payload as p's neighbour would: p's RTP header, but no marker. */
  predicate CarriesAs(out: Packet, p: Packet, payload: Bytes) {
    && out.payload == payload && !out.marker
    && out.ssrc == p.ssrc && out.seqNo == p.seqNo && out.timestamp == p.timestamp
    && out.payloadType == p.payloadType && out.headerSize == p.headerSize
  }

  lemma PrefixCarries(template: Packet, sps: Bytes, pps: Bytes, hasSPS: bool, hasPPS: bool, force: bool)
    ensures var wanted := Wanted(sps, pps, hasSPS, hasPPS, force);
      var prefix := Prefix(template, sps, pps, Needs(hasSPS, sps, force), Needs(hasPPS, pps, force));
      |prefix| == |wanted| && forall i :: 0 <= i < |wanted| ==> CarriesAs(prefix[i], template, wanted[i])
  {
  }

  lemma SplitConcat(a: seq<Packet>, b: seq<Packet>)
    ensures (a + b)[..|a|] == a && (a + b)[|a|..] == b
  {
  }

  lemma StrippedSomething(packets: seq<Packet>)
    ensures Stripped(packets) != [] <==> exists p :: p in packets && !BareSet(p)
  {
    StrippedMembers(packets);
    if Stripped(packets) != [] {
      assert Stripped(packets)[0] in Stripped(packets);
    }
  }

  /**
    What injection puts in front is exactly the cached sets that are missing, or all that are cached when it
    is forced: SPS first, one packet each, unmarked.  What follows is the access unit, less its bare sets
    when the injection is forced and leaves anything.
   */
  lemma InjectedExact(packets: seq<Packet>, sps: Bytes, pps: Bytes, hasSPS: bool, hasPPS: bool, force: bool)
    ensures var (out, injected) := Injected(packets, sps, pps, hasSPS, hasPPS, force);
      var wanted := Wanted(sps, pps, hasSPS, hasPPS, force);
      && (injected <==> packets != [] && wanted != [])
      && (!injected ==> out == packets)
      && (injected ==>
            && |out| >= |wanted|
            && (forall i :: 0 <= i < |wanted| ==> CarriesAs(out[i], packets[0], wanted[i]))
            && out[|wanted|..] ==
                 if force && exists p :: p in packets && !BareSet(p) then Stripped(packets) else packets)
  {
    if packets != [] {
      PrefixCarries(packets[0], sps, pps, hasSPS, hasPPS, force);
      var prefix := Prefix(packets[0], sps, pps, Needs(hasSPS, sps, force), Needs(hasPPS, pps, force));
      SplitConcat(prefix, Rest(packets, force));
      StrippedSomething(packets);
      assert forall i :: 0 <= i < |prefix| ==> (prefix + Rest(packets, force))[i] == prefix[i];
    }
  }

  predicate Unmarked(packets: seq<Packet>) {
    forall i :: 0 <= i < |packets| ==> !packets[i].marker
  }

  lemma MarkedAppend(a: seq<Packet>, b: seq<Packet>)
    requires Unmarked(a) && (MarkedLast(b) || Unmarked(b))
    ensures MarkedLast(b) ==> MarkedLast(a + b)
    ensures Unmarked(b) ==> Unmarked(a + b)
  {
  }

  lemma RestMarked(packets: seq<Packet>, force: bool, rest: seq<Packet>)
    requires MarkedLast(packets) && rest == Rest(packets, force)
    ensures var lost := force && Stripped(packets) != [] && BareSet(packets[|packets| - 1]);
      if lost then Unmarked(rest) else MarkedLast(rest)
  {
    if force && Stripped(packets) != [] {
      var front, last := packets[..|packets| - 1], packets[|packets| - 1];
      SplitLast(packets);
      FrontUnmarked(packets, front, last);
      LastStripped(packets, front, last);
      StrippedUnmarked(front);
      assert forall i :: 0 <= i < |Stripped(front)| ==> Stripped(front)[i] in Stripped(front);
    }
  }

  /**
    The marker stays on the last packet, and on no other, except in one case: a forced injection strips a
    trailing bare parameter set together with its marker, and no packet is marked.
   */
  lemma MarkerLostIff(packets: seq<Packet>, sps: Bytes, pps: Bytes, hasSPS: bool, hasPPS: bool, force: bool)
    requires MarkedLast(packets)
    ensures var (out, injected) := Injected(packets, sps, pps, hasSPS, hasPPS, force);
      var lost := injected && force && BareSet(packets[|packets| - 1]) && Stripped(packets) != [];
      out != [] && (if lost then Unmarked(out) else MarkedLast(out))
  {
    var rest := Rest(packets, force);
    RestMarked(packets, force, rest);
    if Injected(packets, sps, pps, hasSPS, hasPPS, force).1 {
      PrefixCarries(packets[0], sps, pps, hasSPS, hasPPS, force);
      var prefix := Prefix(packets[0], sps, pps, Needs(hasSPS, sps, force), Needs(hasPPS, pps, force));
      MarkedAppend(prefix, rest);
    }
  }
}
