/**
  The echo guard: which chat bodies were just relayed to which session, in a map bounded in time and
  in size.
 */
module EchoGuard {
  import opened ChatBody

  const TTL: int := 2_000_000_000     // two seconds in nanoseconds
  const MAX_SIZE: int := 256

  datatype Key = Key(session: string, body: string)

  datatype Entry = Entry(expires: int, order: nat, gen: nat)

  type Entries = map<Key, Entry>

  datatype State = State(entries: Entries, last: nat)

  /** The operations on the keys their callers' strings normalise to. */
  datatype Op =
    | Remember(key: Key, now: int)
    | Forget(key: Key, gen: nat)
    | Suppress(key: Key, now: int)

  function KeyOf(session: string, body: string): Key {
    Key(TrimSpace(session), Normalize(body))
  }

  /** A blank session or body is never remembered. */
  predicate Usable(k: Key) {
    k.session != "" && k.body != ""
  }

  function Window(ttl: int): int {
    if ttl > 0 then ttl else TTL
  }

  function Limit(maxSize: int): nat {
    if maxSize > 0 then maxSize else MAX_SIZE
  }

  // ---------------------------------------------------------------- the steps

  function Expire(entries: Entries, now: int): Entries {
    map k | k in entries && now < entries[k].expires :: entries[k]
  }

  ghost predicate IsOldest(entries: Entries, k: Key) {
    k in entries && forall j <- entries :: entries[k].order <= entries[j].order
  }

  lemma {:induction false} OldestExists(entries: Entries, keys: set<Key>) returns (k: Key)
    requires keys != {} && keys <= entries.Keys
    ensures k in keys && forall j <- keys :: entries[k].order <= entries[j].order
    decreases |keys|
  {
    var first :| first in keys;
    var others := keys - {first};
    k := first;
    if others != {} {
      var o := OldestExists(entries, others);
      if entries[o].order < entries[first].order {
        k := o;
      }
      assert forall j <- keys :: j == first || j in others;
    }
  }

  ghost function Oldest(entries: Entries): (k: Key)
    requires |entries| > 0
    ensures IsOldest(entries, k)
  {
    assert exists k :: IsOldest(entries, k) by {
      assert entries.Keys != {};
      var k := OldestExists(entries, entries.Keys);
      assert IsOldest(entries, k);
    }
    var k :| IsOldest(entries, k);
    k
  }

  ghost function Evict(entries: Entries, limit: nat): Entries
    decreases |entries|
  {
    if |entries| <= limit then entries
    else
      RemovedSize(entries, Oldest(entries));
      Evict(entries - {Oldest(entries)}, limit)
  }

  lemma RemovedSize(entries: Entries, k: Key)
    requires k in entries
    ensures |entries - {k}| == |entries| - 1
  {
    assert (entries - {k}).Keys == entries.Keys - {k};
  }

  /** Drop what has expired and add the key with the next number. */
  function Added(s: State, k: Key, now: int, window: int): State {
    var n := s.last + 1;
    State(Expire(s.entries, now)[k := Entry(now + window, n, n)], n)
  }

  /** ... and keep to the limit. */
  ghost function Evicted(s: State, limit: nat): State {
    s.(entries := Evict(s.entries, limit))
  }

  function Forgotten(s: State, k: Key, gen: nat): State {
    if gen != 0 && k in s.entries && s.entries[k].gen == gen then s.(entries := s.entries - {k}) else s
  }

  ghost function Do(s: State, op: Op, window: int, limit: nat): State {
    if !Usable(op.key) then s
    else
      match op
      case Remember(k, now) => Evicted(Added(s, k, now, window), limit)
      case Forget(k, gen) => Forgotten(s, k, gen)
      case Suppress(_, now) => s.(entries := Expire(s.entries, now))
  }

  /** The answer of suppress. */
  predicate Suppressed(s: State, k: Key, now: int) {
    Usable(k) && k in s.entries && now < s.entries[k].expires
  }

  // ---------------------------------------------------------------- the guard

  predicate DistinctOrders(entries: Entries) {
    forall j, k :: j in entries && k in entries && entries[j].order == entries[k].order ==> j == k
  }

  ghost predicate ValidState(s: State) {
    DistinctOrders(s.entries) && forall k <- s.entries :: s.entries[k].order <= s.last
  }

  lemma NewestAdded(s: State, k: Key, expires: int, gen: nat)
    requires ValidState(s)
    ensures ValidState(State(s.entries[k := Entry(expires, s.last + 1, gen)], s.last + 1))
  {
  }

  lemma ExpireKeepsValid(s: State, now: int)
    requires ValidState(s)
    ensures ValidState(s.(entries := Expire(s.entries, now)))
  {
  }

  /** Expiry with some keys still to be looked at. */
  ghost function ExpireBut(all: Entries, keys: set<Key>, now: int): Entries {
    map k | k in all && (k in keys || now < all[k].expires) :: all[k]
  }

  lemma ExpireOne(all: Entries, keys: set<Key>, key: Key, now: int)
    requires keys <= all.Keys && key in keys
    ensures key in ExpireBut(all, keys, now) && ExpireBut(all, keys, now)[key] == all[key]
    ensures ExpireBut(all, keys - {key}, now) ==
      if now < all[key].expires then ExpireBut(all, keys, now) else ExpireBut(all, keys, now) - {key}
  {
  }

  class Guard {
    const ttl: int
    const maxSize: int
    var last: nat
    var entries: Entries

    ghost predicate Valid()
      reads this
    {
      ValidState(Value())
    }

    ghost function Value(): State
      reads this
    {
      State(entries, last)
    }

    constructor (ttl: int, maxSize: int)
      ensures this.ttl == ttl && this.maxSize == maxSize && Valid() && Value() == State(map[], 0)
    {
      this.ttl, this.maxSize := ttl, maxSize;
      last, entries := 0, map[];
    }

    method ExpireLocked(now: int)
      requires Valid()
      modifies this`entries
      ensures Valid() && entries == Expire(old(entries), now)
    {
      ghost var all := entries;
      var keys := entries.Keys;
      while keys != {}
        invariant keys <= all.Keys && entries == ExpireBut(all, keys, now)
        decreases |keys|
      {
        var key :| key in keys;
        ExpireOne(all, keys, key, now);
        keys := keys - {key};
        if !(now < entries[key].expires) {
          entries := entries - {key};
        }
      }
      assert entries == Expire(all, now);
      ExpireKeepsValid(old(Value()), now);
    }

    /** Drops the entries remembered longest ago until the limit holds. */
    method EvictLocked()
      requires Valid()
      modifies this`entries
      ensures Valid() && Value() == Evicted(old(Value()), Limit(maxSize))
    {
      var limit := Limit(maxSize);
      while |entries| > limit
        invariant Valid() && Evict(entries, limit) == Evict(old(entries), limit)
        decreases |entries|
      {
        var oldestKey := FindOldest();
        UniqueOldest(entries, oldestKey);
        RemovedSize(entries, oldestKey);
        entries := entries - {oldestKey};
      }
    }

    method FindOldest() returns (oldestKey: Key)
      requires |entries| > 0
      ensures IsOldest(entries, oldestKey)
    {
      var keys := entries.Keys;
      oldestKey :| oldestKey in keys;
      var oldest := entries[oldestKey].order;
      keys := keys - {oldestKey};
      while keys != {}
        invariant keys <= entries.Keys && oldestKey in entries && oldest == entries[oldestKey].order
        invariant forall k <- entries :: k in keys || oldest <= entries[k].order
        decreases |keys|
      {
        var key :| key in keys;
        keys := keys - {key};
        if entries[key].order < oldest {
          oldestKey, oldest := key, entries[key].order;
        }
      }
    }

    method Add(key: Key, now: int)
      requires Valid()
      modifies this
      ensures Valid()
      ensures Value() == Added(old(Value()), key, now, Window(ttl))
    {
      ExpireLocked(now);
      NewestAdded(Value(), key, now + Window(ttl), last + 1);
      last := last + 1;
      entries := entries[key := Entry(now + Window(ttl), last, last)];
    }

    /** Records a relayed body and returns its generation; the clock is read once the guard is held. */
    method RememberRelay(session: string, body: string, now: int) returns (gen: nat)
      requires Valid()
      modifies this
      ensures Valid()
      ensures Value() == Do(old(Value()), Remember(KeyOf(session, body), now), Window(ttl), Limit(maxSize))
      ensures gen == if Usable(KeyOf(session, body)) then old(last) + 1 else 0
    {
      var key := Key(TrimSpace(session), Normalize(body));
      if key.session == "" || key.body == "" {
        return 0;
      }
      Add(key, now);
      EvictLocked();
      return last;
    }

    method ForgetRelay(session: string, body: string, gen: nat)
      requires Valid()
      modifies this
      ensures Valid()
      ensures Value() == Do(old(Value()), Forget(KeyOf(session, body), gen), Window(ttl), Limit(maxSize))
    {
      var key := Key(TrimSpace(session), Normalize(body));
      if gen == 0 || key.session == "" || key.body == "" {
        return;
      }
      if |entries| == 0 {
        return;
      }
      if key !in entries || entries[key].gen != gen {
        return;
      }
      entries := entries - {key};
    }

    method SuppressCopy(session: string, body: string, now: int) returns (hit: bool)
      requires Valid()
      modifies this
      ensures Valid()
      ensures Value() == Do(old(Value()), Suppress(KeyOf(session, body), now), Window(ttl), Limit(maxSize))
      ensures hit == Suppressed(old(Value()), KeyOf(session, body), now)
    {
      var key := Key(TrimSpace(session), Normalize(body));
      if key.session == "" || key.body == "" {
        return false;
      }
      if |entries| == 0 {
        assert Expire(entries, now) == entries;
        return false;
      }
      ExpireLocked(now);
      return key in entries && now < entries[key].expires;
    }
  }

  lemma UniqueOldest(entries: Entries, k: Key)
    requires DistinctOrders(entries) && IsOldest(entries, k)
    ensures |entries| > 0 && k == Oldest(entries)
  {
    assert k in entries.Keys;
    var o := Oldest(entries);
    assert entries[o].order <= entries[k].order <= entries[o].order;
  }
}
