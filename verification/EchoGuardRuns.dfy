/**
  The bounded echo guard against a memory that never forgets on its own: when each key was last
  relayed, with no expiry and no limit.
 */
module EchoGuardRuns {
  import opened ChatBody
  import opened EchoGuard
  import opened Text

  datatype Relay = Relay(at: int, gen: nat)

  type Relays = map<Key, Relay>

  /** log lists the key of every relay, so relay number gen is log[gen - 1]. */
  datatype History = History(relays: Relays, log: seq<Key>)

  function Relayed(h: History, k: Key, now: int): History {
    History(h.relays[k := Relay(now, |h.log| + 1)], h.log + [k])
  }

  function Dropped(h: History, k: Key, gen: nat): History {
    if gen != 0 && k in h.relays && h.relays[k].gen == gen then h.(relays := h.relays - {k}) else h
  }

  function Record(h: History, op: Op): History {
    if !Usable(op.key) then h
    else
      match op
      case Remember(k, now) => Relayed(h, k, now)
      case Forget(k, gen) => Dropped(h, k, gen)
      case Suppress(_, _) => h
  }

  function HistoryOf(run: seq<Op>): History {
    if run == [] then History(map[], []) else Record(HistoryOf(run[..|run| - 1]), run[|run| - 1])
  }

  ghost function After(run: seq<Op>, window: int, limit: nat): State {
    if run == [] then State(map[], 0) else Do(After(run[..|run| - 1], window, limit), run[|run| - 1], window, limit)
  }

  /** The clock never runs back: every reading up to the end of the run is at most now. */
  predicate Ordered(run: seq<Op>, now: int) {
    run != [] ==>
      var front, op := run[..|run| - 1], run[|run| - 1];
      if op.Forget? then Ordered(front, now) else op.now <= now && Ordered(front, op.now)
  }

  predicate Live(relays: Relays, k: Key, window: int, now: int) {
    k in relays && now < relays[k].at + window
  }

  /** The keys relayed after a key whose window is still open. */
  function NewerLive(relays: Relays, key: Key, window: int, now: int): set<Key>
    requires key in relays
  {
    set k | k in relays && relays[k].gen > relays[key].gen && now < relays[k].at + window
  }

  /** The keys for which some relay since their last one found limit newer keys live. */
  function CrowdedStep(before: set<Key>, relays: Relays, op: Op, window: int, limit: nat): set<Key> {
    if op.Remember? && Usable(op.key) then
      set j | j in relays && j != op.key && (j in before || |NewerLive(relays, j, window, op.now)| >= limit)
    else before * relays.Keys
  }

  function CrowdedOut(run: seq<Op>, window: int, limit: nat): set<Key> {
    if run == [] then {}
    else
      var front, op := run[..|run| - 1], run[|run| - 1];
      CrowdedStep(CrowdedOut(front, window, limit), HistoryOf(run).relays, op, window, limit)
  }

  // ---------------------------------------------------------------- the invariant

  /** Every entry is the latest relay of its key. */
  ghost predicate Mirrors(entries: Entries, relays: Relays, window: int) {
    forall k <- entries ::
      k in relays && entries[k] == Entry(relays[k].at + window, relays[k].gen, relays[k].gen)
  }

  ghost predicate Numbered(h: History) {
    forall k <- h.relays :: 1 <= h.relays[k].gen <= |h.log| && h.log[h.relays[k].gen - 1] == k
  }

  ghost predicate HoldsNewer(entries: Entries, relays: Relays, j: Key, window: int, now: int)
    requires j in relays
  {
    forall k :: Live(relays, k, window, now) && relays[k].gen > relays[j].gen ==> k in entries
  }

  /** What the guard holds, it holds with everything live that is newer. */
  ghost predicate NewerToo(entries: Entries, relays: Relays, window: int, now: int) {
    forall j <- entries :: j in relays && HoldsNewer(entries, relays, j, window, now)
  }

  /** A live key is held exactly when it has not been crowded out. */
  ghost predicate HoldsUncrowded(entries: Entries, relays: Relays, crowded: set<Key>, window: int, now: int) {
    forall k :: Live(relays, k, window, now) ==> (k in entries <==> k !in crowded)
  }

  ghost predicate TracksEntries(entries: Entries, h: History, window: int, limit: nat, now: int) {
    && Numbered(h) && |entries| <= limit
    && Mirrors(entries, h.relays, window)
    && NewerToo(entries, h.relays, window, now)
  }

  ghost predicate Tracks(s: State, h: History, crowded: set<Key>, window: int, limit: nat, now: int) {
    && s.last == |h.log|
    && TracksEntries(s.entries, h, window, limit, now)
    && HoldsUncrowded(s.entries, h.relays, crowded, window, now)
  }

  lemma TracksLater(s: State, h: History, crowded: set<Key>, window: int, limit: nat, now: int, later: int)
    requires Tracks(s, h, crowded, window, limit, now) && now <= later
    ensures Tracks(s, h, crowded, window, limit, later)
  {
    forall j <- s.entries
      ensures HoldsNewer(s.entries, h.relays, j, window, later)
    {
      assert HoldsNewer(s.entries, h.relays, j, window, now);
    }
    forall k | Live(h.relays, k, window, later)
      ensures k in s.entries <==> k !in crowded
    {
      assert Live(h.relays, k, window, now);
    }
  }

  // ---------------------------------------------------------------- eviction

  /** Entries that are all live and hold everything newer. */
  ghost predicate Settled(entries: Entries, h: History, window: int, now: int) {
    && Numbered(h) && Mirrors(entries, h.relays, window) && NewerToo(entries, h.relays, window, now)
    && (forall k <- entries :: now < entries[k].expires)
  }

  lemma NewerWithin(entries: Entries, h: History, k: Key, window: int, now: int)
    requires Settled(entries, h, window, now) && k in entries
    ensures NewerLive(h.relays, k, window, now) <= entries.Keys - {k}
  {
    assert HoldsNewer(entries, h.relays, k, window, now);
    forall j | j in NewerLive(h.relays, k, window, now)
      ensures j in entries.Keys - {k}
    {
      assert Live(h.relays, j, window, now);
    }
  }

  lemma OldestHasAllNewer(entries: Entries, h: History, o: Key, window: int, now: int)
    requires Settled(entries, h, window, now) && IsOldest(entries, o)
    ensures NewerLive(h.relays, o, window, now) == entries.Keys - {o}
  {
    NewerWithin(entries, h, o, window, now);
    forall j | j in entries.Keys - {o}
      ensures j in NewerLive(h.relays, o, window, now)
    {
      assert entries[o].order <= entries[j].order;
      assert h.log[entries[j].order - 1] == j && h.log[entries[o].order - 1] == o;
    }
  }

  lemma OldestNotNewer(entries: Entries, h: History, o: Key, k: Key, window: int, now: int)
    requires Settled(entries, h, window, now) && IsOldest(entries, o) && k in entries && k != o
    ensures NewerLive(h.relays, k, window, now) <= entries.Keys - {k} - {o}
  {
    NewerWithin(entries, h, k, window, now);
    assert entries[o].order <= entries[k].order;
  }

  lemma SubsetSize<T>(a: set<T>, b: set<T>)
    requires a <= b
    ensures |a| <= |b|
  {
    assert b == a + (b - a);
  }

  lemma EvictOne(entries: Entries, limit: nat)
    requires |entries| == limit + 1
    ensures Evict(entries, limit) == entries - {Oldest(entries)} && |Evict(entries, limit)| == limit
  {
    RemovedSize(entries, Oldest(entries));
  }

  /** Eviction from one over the limit drops exactly the key that limit newer live ones crowd out. */
  lemma EvictionLaw(entries: Entries, h: History, k: Key, window: int, now: int, limit: nat)
    requires Settled(entries, h, window, now) && |entries| <= limit + 1 && limit >= 1 && k in entries
    ensures k in Evict(entries, limit) <==> |NewerLive(h.relays, k, window, now)| < limit
  {
    if |entries| <= limit {
      NewerWithin(entries, h, k, window, now);
      SubsetSize(NewerLive(h.relays, k, window, now), entries.Keys - {k});
    } else {
      var o := Oldest(entries);
      EvictOne(entries, limit);
      if k == o {
        OldestHasAllNewer(entries, h, o, window, now);
      } else {
        OldestNotNewer(entries, h, o, k, window, now);
        SubsetSize(NewerLive(h.relays, k, window, now), entries.Keys - {k} - {o});
      }
    }
  }

  lemma EvictedKeeps(entries: Entries, h: History, window: int, now: int, limit: nat, kept: Entries)
    requires Settled(entries, h, window, now) && |entries| <= limit + 1 && limit >= 1
    requires kept == Evict(entries, limit)
    ensures TracksEntries(kept, h, window, limit, now) && kept.Keys <= entries.Keys
  {
    if |entries| == limit + 1 {
      EvictOne(entries, limit);
      var o := Oldest(entries);
      forall j <- kept
        ensures j in h.relays && HoldsNewer(kept, h.relays, j, window, now)
      {
        assert HoldsNewer(entries, h.relays, j, window, now);
        assert entries[o].order <= entries[j].order;
      }
    }
  }

  // ---------------------------------------------------------------- a relay

  lemma AddNewer(all: Entries, h: History, k: Key, window: int, now: int, e: Entries, next: History)
    requires Numbered(h) && Mirrors(all, h.relays, window) && NewerToo(all, h.relays, window, now)
    requires next == Relayed(h, k, now) && e == Added(State(all, |h.log|), k, now, window).entries
    ensures NewerToo(e, next.relays, window, now)
  {
    forall j <- e
      ensures j in next.relays && HoldsNewer(e, next.relays, j, window, now)
    {
      forall i | Live(next.relays, i, window, now) && next.relays[i].gen > next.relays[j].gen
        ensures i in e
      {
        if i != k {
          assert HoldsNewer(all, h.relays, j, window, now) && Live(h.relays, i, window, now);
        }
      }
    }
  }

  lemma AddNumbered(h: History, k: Key, now: int)
    requires Numbered(h)
    ensures Numbered(Relayed(h, k, now))
  {
    var next := Relayed(h, k, now);
    forall j <- next.relays
      ensures 1 <= next.relays[j].gen <= |next.log| && next.log[next.relays[j].gen - 1] == j
    {
      if j != k {
        assert h.log[h.relays[j].gen - 1] == j;
      }
    }
  }

  lemma AddMirrors(all: Entries, h: History, k: Key, window: int, now: int, e: Entries, next: History)
    requires Mirrors(all, h.relays, window) && window > 0
    requires next == Relayed(h, k, now) && e == Added(State(all, |h.log|), k, now, window).entries
    ensures Mirrors(e, next.relays, window) && forall j <- e :: now < e[j].expires
  {
    forall j <- e
      ensures now < e[j].expires && j in next.relays
      ensures e[j] == Entry(next.relays[j].at + window, next.relays[j].gen, next.relays[j].gen)
    {
      if j != k {
        assert j in all && e[j] == all[j];
      }
    }
  }

  lemma AddSize(all: Entries, k: Key, last: nat, window: int, now: int, e: Entries)
    requires e == Added(State(all, last), k, now, window).entries
    ensures |e| <= |all| + 1
  {
    SubsetSize(Expire(all, now).Keys, all.Keys);
    SubsetSize(e.Keys, Expire(all, now).Keys + {k});
  }

  /** A key other than the new one is in the settled map exactly when it was held. */
  lemma AddedHeld(all: Entries, h: History, crowded: set<Key>, k: Key, j: Key, window: int, now: int,
                  e: Entries, next: History)
    requires Mirrors(all, h.relays, window) && HoldsUncrowded(all, h.relays, crowded, window, now)
    requires next == Relayed(h, k, now) && e == Added(State(all, |h.log|), k, now, window).entries
    requires Live(next.relays, j, window, now)
    ensures j in e <==> j == k || j !in crowded
  {
    if j != k {
      assert Live(h.relays, j, window, now);
    }
  }

  lemma NothingNewer(h: History, k: Key, now: int, window: int)
    requires Numbered(h)
    ensures NewerLive(Relayed(h, k, now).relays, k, window, now) == {}
  {
  }

  /** After a relay of k, another live key is held exactly when it was, and fewer than limit newer keys are live. */
  lemma RelayedHeld(all: Entries, h: History, crowded: set<Key>, k: Key, j: Key, window: int, limit: nat, now: int,
                    e: Entries, next: History)
    requires Numbered(h) && Mirrors(all, h.relays, window) && HoldsUncrowded(all, h.relays, crowded, window, now)
    requires next == Relayed(h, k, now) && e == Added(State(all, |h.log|), k, now, window).entries
    requires Settled(e, next, window, now) && |e| <= limit + 1 && limit >= 1
    requires Live(next.relays, j, window, now)
    ensures j in e && |NewerLive(next.relays, j, window, now)| < limit <==>
      j == k || (j !in crowded && |NewerLive(next.relays, j, window, now)| < limit)
  {
    AddedHeld(all, h, crowded, k, j, window, now, e, next);
    if j == k {
      NothingNewer(h, k, now, window);
    }
  }

  lemma EvictedHeld(e: Entries, h: History, j: Key, window: int, limit: nat, now: int, kept: Entries)
    requires Settled(e, h, window, now) && |e| <= limit + 1 && limit >= 1 && j in h.relays
    requires kept == Evict(e, limit) && kept.Keys <= e.Keys
    ensures j in kept <==> j in e && |NewerLive(h.relays, j, window, now)| < limit
  {
    if j in e {
      EvictionLaw(e, h, j, window, now, limit);
    } else {
      assert j !in kept.Keys;
    }
  }

  lemma AddSettles(all: Entries, h: History, k: Key, window: int, limit: nat, now: int, e: Entries, next: History)
    requires TracksEntries(all, h, window, limit, now) && window > 0
    requires next == Relayed(h, k, now) && e == Added(State(all, |h.log|), k, now, window).entries
    ensures Settled(e, next, window, now) && |e| <= limit + 1
  {
    AddNewer(all, h, k, window, now, e, next);
    AddMirrors(all, h, k, window, now, e, next);
    AddNumbered(h, k, now);
    AddSize(all, k, |h.log|, window, now, e);
  }

  lemma RememberTracks(s: State, h: History, crowded: set<Key>, k: Key, window: int, limit: nat, now: int,
                       e: Entries, next: History, kept: Entries, crowded': set<Key>)
    requires Tracks(s, h, crowded, window, limit, now) && window > 0 && limit >= 1 && Usable(k)
    requires next == Relayed(h, k, now) && e == Added(s, k, now, window).entries && kept == Evict(e, limit)
    requires crowded' == CrowdedStep(crowded, next.relays, Remember(k, now), window, limit)
    ensures Tracks(State(kept, s.last + 1), next, crowded', window, limit, now)
  {
    AddSettles(s.entries, h, k, window, limit, now, e, next);
    EvictedKeeps(e, next, window, now, limit, kept);
    forall j | Live(next.relays, j, window, now)
      ensures j in kept <==> j !in crowded'
    {
      RelayedHeld(s.entries, h, crowded, k, j, window, limit, now, e, next);
      EvictedHeld(e, next, j, window, limit, now, kept);
    }
  }

  // ---------------------------------------------------------------- the other steps

  lemma CrowdedNarrows(entries: Entries, relays: Relays, crowded: set<Key>, window: int, now: int)
    requires HoldsUncrowded(entries, relays, crowded, window, now)
    ensures HoldsUncrowded(entries, relays, crowded * relays.Keys, window, now)
  {
  }

  lemma RemoveKey(entries: Entries, relays: Relays, crowded: set<Key>, k: Key, window: int, now: int,
                  e: Entries, next: Relays)
    requires e == entries - {k} && next == relays - {k}
    requires Mirrors(entries, relays, window) && NewerToo(entries, relays, window, now)
    requires HoldsUncrowded(entries, relays, crowded, window, now)
    ensures Mirrors(e, next, window) && NewerToo(e, next, window, now) && |e| <= |entries|
    ensures HoldsUncrowded(e, next, crowded, window, now)
  {
    SubsetSize(e.Keys, entries.Keys);
    forall j <- e
      ensures j in next && HoldsNewer(e, next, j, window, now)
    {
      assert HoldsNewer(entries, relays, j, window, now);
      assert forall i :: Live(next, i, window, now) ==> Live(relays, i, window, now) && i != k;
    }
    forall j | Live(next, j, window, now)
      ensures j in e <==> j !in crowded
    {
      assert Live(relays, j, window, now);
    }
  }

  /** Both sides drop a key together, whether or not the guard still holds it, or both keep everything. */
  lemma ForgetAlike(s: State, h: History, k: Key, gen: nat, window: int)
    requires Mirrors(s.entries, h.relays, window)
    ensures var hit := gen != 0 && k in h.relays && h.relays[k].gen == gen;
      && Forgotten(s, k, gen) == (if hit then State(s.entries - {k}, s.last) else s)
      && Dropped(h, k, gen) == (if hit then History(h.relays - {k}, h.log) else h)
  {
    if k !in s.entries {
      assert s.entries - {k} == s.entries;
    }
  }

  lemma NumberedWithout(h: History, k: Key)
    requires Numbered(h)
    ensures Numbered(History(h.relays - {k}, h.log))
  {
  }

  lemma ForgetTracks(s: State, h: History, crowded: set<Key>, k: Key, gen: nat, window: int, limit: nat, now: int)
    requires Tracks(s, h, crowded, window, limit, now)
    ensures var next := Dropped(h, k, gen);
      Tracks(Forgotten(s, k, gen), next, crowded * next.relays.Keys, window, limit, now)
  {
    ForgetAlike(s, h, k, gen, window);
    if gen != 0 && k in h.relays && h.relays[k].gen == gen {
      var e, next := s.entries - {k}, h.relays - {k};
      RemoveKey(s.entries, h.relays, crowded, k, window, now, e, next);
      NumberedWithout(h, k);
      CrowdedNarrows(e, next, crowded, window, now);
    } else {
      CrowdedNarrows(s.entries, h.relays, crowded, window, now);
    }
  }

  lemma ExpireTracks(s: State, h: History, crowded: set<Key>, window: int, limit: nat, now: int)
    requires Tracks(s, h, crowded, window, limit, now)
    ensures Tracks(s.(entries := Expire(s.entries, now)), h, crowded * h.relays.Keys, window, limit, now)
  {
    var e := Expire(s.entries, now);
    SubsetSize(e.Keys, s.entries.Keys);
    forall j <- e
      ensures j in h.relays && HoldsNewer(e, h.relays, j, window, now)
    {
      assert HoldsNewer(s.entries, h.relays, j, window, now);
      assert forall i :: Live(h.relays, i, window, now) && i in s.entries ==> i in e;
    }
    CrowdedNarrows(e, h.relays, crowded, window, now);
  }

  lemma StepTracks(s: State, h: History, crowded: set<Key>, op: Op, window: int, limit: nat, now: int)
    requires op.Forget? || op.now == now
    requires Tracks(s, h, crowded, window, limit, now) && window > 0 && limit >= 1
    ensures Tracks(Do(s, op, window, limit), Record(h, op),
                   CrowdedStep(crowded, Record(h, op).relays, op, window, limit), window, limit, now)
  {
    if !Usable(op.key) {
      CrowdedNarrows(s.entries, h.relays, crowded, window, now);
    } else {
      match op
      case Remember(k, _) =>
        var e, next := Added(s, k, now, window).entries, Relayed(h, k, now);
        RememberTracks(s, h, crowded, k, window, limit, now, e, next, Evict(e, limit),
                       CrowdedStep(crowded, next.relays, op, window, limit));
      case Forget(k, gen) => ForgetTracks(s, h, crowded, k, gen, window, limit, now);
      case Suppress(_, _) => ExpireTracks(s, h, crowded, window, limit, now);
    }
  }

  lemma {:induction false} RunTracks(run: seq<Op>, window: int, limit: nat, now: int)
    requires Ordered(run, now) && window > 0 && limit >= 1
    ensures Tracks(After(run, window, limit), HistoryOf(run), CrowdedOut(run, window, limit), window, limit, now)
  {
    if run != [] {
      var front, op := run[..|run| - 1], run[|run| - 1];
      var clock := if op.Forget? then now else op.now;
      RunTracks(front, window, limit, clock);
      StepTracks(After(front, window, limit), HistoryOf(front), CrowdedOut(front, window, limit),
                 op, window, limit, clock);
      TracksLater(After(run, window, limit), HistoryOf(run), CrowdedOut(run, window, limit), window, limit, clock, now);
    }
  }

  // ---------------------------------------------------------------- the main results

  /**
    For every run with a clock that never goes back: a copy is suppressed exactly when its normalised
    pair was relayed within the window, has not been forgotten by its latest generation, and at no
    relay since then were limit newer keys live.
   */
  lemma SuppressedExactIff(run: seq<Op>, window: int, limit: nat, k: Key, now: int)
    requires Ordered(run, now) && window > 0 && limit >= 1
    ensures Suppressed(After(run, window, limit), k, now) <==>
      Usable(k) && Live(HistoryOf(run).relays, k, window, now) && k !in CrowdedOut(run, window, limit)
  {
    RunTracks(run, window, limit, now);
  }

  lemma JustRemembered(run: seq<Op>, k: Key, at: int, longer: seq<Op>, window: int, limit: nat)
    requires longer == run + [Remember(k, at)] && Usable(k)
    ensures HistoryOf(longer) == Relayed(HistoryOf(run), k, at) && k !in CrowdedOut(longer, window, limit)
  {
    assert longer[..|longer| - 1] == run;
  }

  /** The window of a guard, in nanoseconds: two seconds unless it is given one. */
  function WindowOf(ttl: int): int {
    if ttl > 0 then ttl else 2_000_000_000
  }

  /**
    After any run: a copy of a message just relayed, with the same session but for surrounding space and the same
    text but for surrounding space and the way lines end, is suppressed exactly as long as the window lasts.
   */
  lemma CopySuppressed(run: seq<Op>, ttl: int, maxSize: int, session: string, session': string, body: string,
                       copy: string, before: string, after: string, at: int, now: int)
    requires Ordered(run, at) && at <= now
    requires TrimSpace(session) != "" && TrimSpace(session') == TrimSpace(session) && TrimSpace(ToLf(body)) != ""
    requires AllCut(before, GoSpace) && AllCut(after, GoSpace) && ToLf(copy) == before + (ToLf(body) + after)
    ensures var longer := run + [Remember(KeyOf(session, body), at)];
      Suppressed(After(longer, Window(ttl), Limit(maxSize)), KeyOf(session', copy), now) <==> now < at + WindowOf(ttl)
  {
    var k, longer := KeyOf(session, body), run + [Remember(KeyOf(session, body), at)];
    CopiesAgree(body, copy, before, after);
    NormalizeIsTrimmedLf(body);
    JustRemembered(run, k, at, longer, Window(ttl), Limit(maxSize));
    assert longer[..|longer| - 1] == run;
    SuppressedExactIff(longer, Window(ttl), Limit(maxSize), k, now);
  }

  /** A blank session or body is never suppressed, and relaying one leaves the guard as it was. */
  lemma BlankIgnored(run: seq<Op>, window: int, limit: nat, session: string, body: string, now: int)
    requires Ordered(run, now) && window > 0 && limit >= 1
    requires TrimSpace(session) == "" || TrimSpace(ToLf(body)) == ""
    ensures var k := KeyOf(session, body);
      && !Suppressed(After(run, window, limit), k, now)
      && After(run + [Remember(k, now)], window, limit) == After(run, window, limit)
  {
    NormalizeIsTrimmedLf(body);
    assert (run + [Remember(KeyOf(session, body), now)])[..|run|] == run;
  }

  /** A guard given no bounds holds 256 messages at most, and forgets none before 256 others came after it. */
  lemma DefaultGuard(run: seq<Op>, ttl: int, maxSize: int, k: Key, now: int)
    requires Ordered(run, now) && maxSize <= 0
    ensures |After(run, Window(ttl), Limit(maxSize)).entries| <= 256
    ensures Usable(k) && Live(HistoryOf(run).relays, k, Window(ttl), now) && |OthersSince(run, k)| < 256 ==>
      Suppressed(After(run, Window(ttl), Limit(maxSize)), k, now)
  {
    SizeBounded(run, Window(ttl), Limit(maxSize), now);
    if Usable(k) && Live(HistoryOf(run).relays, k, Window(ttl), now) && |OthersSince(run, k)| < 256 {
      FewOthersSuppressed(run, Window(ttl), Limit(maxSize), k, now);
    }
  }

  /** The map never outgrows its limit. */
  lemma SizeBounded(run: seq<Op>, window: int, limit: nat, now: int)
    requires Ordered(run, now) && window > 0 && limit >= 1
    ensures |After(run, window, limit).entries| <= limit
  {
    RunTracks(run, window, limit, now);
  }

  /** The keys relayed since a key last was. */
  function OthersSince(run: seq<Op>, key: Key): set<Key> {
    if run == [] then {}
    else
      var front, op := run[..|run| - 1], run[|run| - 1];
      if !op.Remember? || !Usable(op.key) then OthersSince(front, key)
      else if op.key == key then {}
      else OthersSince(front, key) + {op.key}
  }

  lemma {:induction false} GensBounded(run: seq<Op>, k: Key)
    requires k in HistoryOf(run).relays
    ensures HistoryOf(run).relays[k].gen <= |HistoryOf(run).log|
  {
    var front := run[..|run| - 1];
    if k in HistoryOf(front).relays {
      GensBounded(front, k);
    }
  }

  lemma {:induction false} NewerAreSince(run: seq<Op>, key: Key, k: Key)
    requires var r := HistoryOf(run).relays; key in r && k in r && r[k].gen > r[key].gen
    ensures k in OthersSince(run, key)
  {
    var front, op := run[..|run| - 1], run[|run| - 1];
    var r := HistoryOf(front).relays;
    if op.Remember? && Usable(key) && op.key == key {
      GensBounded(front, k);
    } else if !(op.Remember? && Usable(k) && op.key == k) {
      NewerAreSince(front, key, k);
    }
  }

  lemma NewerLiveSince(run: seq<Op>, key: Key, window: int, now: int)
    requires key in HistoryOf(run).relays
    ensures |NewerLive(HistoryOf(run).relays, key, window, now)| <= |OthersSince(run, key)|
  {
    var newer := NewerLive(HistoryOf(run).relays, key, window, now);
    forall k | k in newer
      ensures k in OthersSince(run, key)
    {
      NewerAreSince(run, key, k);
    }
    SubsetSize(newer, OthersSince(run, key));
  }

  /** Crowding a key out takes limit other keys relayed since. */
  lemma {:induction false} CrowdingTakesLimit(run: seq<Op>, key: Key, window: int, limit: nat)
    requires key in CrowdedOut(run, window, limit)
    ensures key in HistoryOf(run).relays && |OthersSince(run, key)| >= limit
  {
    if run != [] {
      var front, op := run[..|run| - 1], run[|run| - 1];
      if key in CrowdedOut(front, window, limit) {
        CrowdingTakesLimit(front, key, window, limit);
        SubsetSize(OthersSince(front, key), OthersSince(front, key) + {op.key});
      } else {
        NewerLiveSince(run, key, window, op.now);
      }
    }
  }

  /** A live relay with fewer than limit other keys relayed since is always suppressed. */
  lemma FewOthersSuppressed(run: seq<Op>, window: int, limit: nat, k: Key, now: int)
    requires Ordered(run, now) && window > 0 && limit >= 1 && Usable(k)
    requires Live(HistoryOf(run).relays, k, window, now) && |OthersSince(run, k)| < limit
    ensures Suppressed(After(run, window, limit), k, now)
  {
    SuppressedExactIff(run, window, limit, k, now);
    if k in CrowdedOut(run, window, limit) {
      CrowdingTakesLimit(run, k, window, limit);
    }
  }
}
