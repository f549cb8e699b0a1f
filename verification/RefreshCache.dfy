/** The bounded view caches: one background refresh per key, stale answers while it runs, oldest entries dropped. */
module RefreshCache {
  import opened Contracts

  datatype Entry<K, V> = Entry(key: K, stamp: int, value: V, failed: bool)

  /** What a read answers: a cached value, the future it may wait for, or the placeholder. */
  datatype Answer<V> = Served(value: V) | Wait(future: nat) | Pending

  // ---- the ordered dictionary ------------------------------------------------------------------------------------

  function Keys<K, V>(cache: seq<Entry<K, V>>): seq<K> {
    seq(|cache|, i requires 0 <= i < |cache| => cache[i].key)
  }

  lemma KeysOf<K, V>(first: Entry<K, V>, rest: seq<Entry<K, V>>)
    ensures Keys([first] + rest) == [first.key] + Keys(rest)
  {
  }

  ghost predicate Distinct<K, V>(cache: seq<Entry<K, V>>) {
    forall i, j :: 0 <= i < j < |cache| ==> cache[i].key != cache[j].key
  }

  function Find<K(==), V>(cache: seq<Entry<K, V>>, key: K): (r: Option<Entry<K, V>>)
    ensures r.Some? ==> r.value in cache && r.value.key == key
    ensures r.None? ==> forall i :: 0 <= i < |cache| ==> cache[i].key != key
  {
    if |cache| == 0 then None else if cache[0].key == key then Some(cache[0]) else Find(cache[1..], key)
  }

  /** Assigning to a key keeps the place it already has. */
  function Put<K(==), V>(cache: seq<Entry<K, V>>, entry: Entry<K, V>): seq<Entry<K, V>> {
    if |cache| == 0 then [entry]
    else if cache[0].key == entry.key then [entry] + cache[1..]
    else [cache[0]] + Put(cache[1..], entry)
  }

  /** After the assignment the key holds the entry and every other key holds what it did. */
  lemma {:induction false} PutFind<K, V>(cache: seq<Entry<K, V>>, entry: Entry<K, V>, key: K)
    ensures Find(Put(cache, entry), key) == if key == entry.key then Some(entry) else Find(cache, key)
  {
    if |cache| > 0 {
      var after := Put(cache, entry);
      if cache[0].key == entry.key {
        assert after[1..] == cache[1..];
      } else {
        PutFind(cache[1..], entry, key);
        assert after[1..] == Put(cache[1..], entry);
      }
    }
  }

  /** A known key keeps its place, a new one comes last. */
  lemma {:induction false} PutSize<K, V>(cache: seq<Entry<K, V>>, entry: Entry<K, V>)
    ensures Find(cache, entry.key).Some? ==> Keys(Put(cache, entry)) == Keys(cache)
    ensures |Put(cache, entry)| == |cache| + (if Find(cache, entry.key).Some? then 0 else 1)
    ensures Find(cache, entry.key).None? ==> Put(cache, entry) == cache + [entry]
  {
    if |cache| > 0 && cache[0].key != entry.key {
      PutSize(cache[1..], entry);
      assert cache == [cache[0]] + cache[1..];
      KeysOf(cache[0], cache[1..]);
      KeysOf(cache[0], Put(cache[1..], entry));
    }
  }

  lemma {:induction false} PutMembers<K, V>(cache: seq<Entry<K, V>>, entry: Entry<K, V>)
    ensures forall e :: e in Put(cache, entry) ==> e == entry || e in cache
  {
    if |cache| > 0 && cache[0].key != entry.key { PutMembers(cache[1..], entry); }
  }

  lemma {:induction false} PutDistinct<K, V>(cache: seq<Entry<K, V>>, entry: Entry<K, V>)
    requires Distinct(cache)
    ensures Distinct(Put(cache, entry))
  {
    if |cache| > 0 && cache[0].key != entry.key {
      var rest := Put(cache[1..], entry);
      PutDistinct(cache[1..], entry);
      PutMembers(cache[1..], entry);
      forall i | 0 <= i < |rest| ensures rest[i].key != cache[0].key {
        assert rest[i] in rest;
      }
    }
  }

  ghost predicate IsOldest<K, V>(cache: seq<Entry<K, V>>, at: nat) {
    at < |cache| && (forall i :: 0 <= i < |cache| ==> cache[at].stamp <= cache[i].stamp)
    && (forall i :: 0 <= i < at ==> cache[at].stamp < cache[i].stamp)
  }

  /** The first entry with the smallest stamp. */
  function First<K, V>(cache: seq<Entry<K, V>>): (at: nat)
    requires |cache| > 0
    ensures IsOldest(cache, at)
  {
    var n := |cache| - 1;
    if n == 0 then 0 else
      var at := First(cache[..n]);
      assert forall i :: 0 <= i < n ==> cache[..n][i] == cache[i];
      if cache[n].stamp < cache[at].stamp then n else at
  }

  method Oldest<K, V>(cache: seq<Entry<K, V>>) returns (at: nat)
    requires |cache| > 0
    ensures at == First(cache)
  {
    at := 0;
    for i := 1 to |cache|
      invariant at < i
      invariant forall j :: 0 <= j < i ==> cache[at].stamp <= cache[j].stamp
      invariant forall j :: 0 <= j < at ==> cache[at].stamp < cache[j].stamp
    {
      if cache[i].stamp < cache[at].stamp { at := i; }
    }
    assert IsOldest(cache, at) && IsOldest(cache, First(cache));
  }

  function Without<K, V>(cache: seq<Entry<K, V>>, at: nat): seq<Entry<K, V>>
    requires at < |cache|
  {
    cache[..at] + cache[at + 1..]
  }

  /** Dropping the oldest until the limit is met. */
  function Evict<K, V>(cache: seq<Entry<K, V>>, limit: nat): seq<Entry<K, V>> {
    if |cache| <= limit then cache else Evict(Without(cache, First(cache)), limit)
  }

  /** Nothing is added, exactly the excess goes, and whatever goes is no newer than anything that stays. */
  lemma {:induction false} EvictExact<K, V>(cache: seq<Entry<K, V>>, limit: nat)
    ensures |Evict(cache, limit)| == if |cache| <= limit then |cache| else limit
    ensures forall e :: e in Evict(cache, limit) ==> e in cache
    ensures forall d, e :: d in cache && d !in Evict(cache, limit) && e in Evict(cache, limit) ==> d.stamp <= e.stamp
  {
    if |cache| > limit {
      var at := First(cache);
      var rest := Without(cache, at);
      EvictExact(rest, limit);
      forall d | d in cache ensures d == cache[at] || d in rest { Remains(cache, at, d); }
      forall e | e in rest ensures e in cache && cache[at].stamp <= e.stamp {
      }
    }
  }

  lemma Remains<K, V>(cache: seq<Entry<K, V>>, at: nat, d: Entry<K, V>)
    requires at < |cache| && d in cache
    ensures d == cache[at] || d in Without(cache, at)
  {
    var i :| 0 <= i < |cache| && cache[i] == d;
    if i < at { assert Without(cache, at)[i] == d; }
    if i > at { assert Without(cache, at)[i - 1] == d; }
  }

  lemma {:induction false} EvictDistinct<K, V>(cache: seq<Entry<K, V>>, limit: nat)
    requires Distinct(cache)
    ensures Distinct(Evict(cache, limit))
  {
    if |cache| > limit { EvictDistinct(Without(cache, First(cache)), limit); }
  }

  /** In a dictionary the entry found is the only one under its key. */
  lemma OnlyEntry<K, V>(cache: seq<Entry<K, V>>, key: K)
    requires Distinct(cache)
    ensures forall e :: e in cache && e.key == key ==> Find(cache, key) == Some(e)
  {
    forall e | e in cache && e.key == key ensures Find(cache, key) == Some(e) { FindMember(cache, e); }
  }

  lemma {:induction false} FindMember<K, V>(cache: seq<Entry<K, V>>, e: Entry<K, V>)
    requires Distinct(cache) && e in cache
    ensures Find(cache, e.key) == Some(e)
  {
    if cache[0].key != e.key { FindMember(cache[1..], e); } else { assert cache[0] == e; }
  }

  /** One entry too many: the appended one is dropped exactly when every other is newer. */
  lemma AppendedDropped<K, V>(cache: seq<Entry<K, V>>, entry: Entry<K, V>)
    ensures First(cache + [entry]) == |cache| <==> forall e :: e in cache ==> entry.stamp < e.stamp
  {
    var stored := cache + [entry];
    var at := First(stored);
    assert stored[|cache|] == entry && forall i :: 0 <= i < |cache| ==> stored[i] == cache[i];
    if forall e :: e in cache ==> entry.stamp < e.stamp {
      assert forall i :: 0 <= i < |cache| ==> cache[i] in cache;
      assert at == |cache|;
    }
  }

  /** A result just stored is what its key answers with, exactly unless the cache was full, the key new to it, and every
      other entry newer - and then the cache is as it was. */
  lemma NewResultIsServed<K, V>(cache: seq<Entry<K, V>>, entry: Entry<K, V>, limit: nat)
    requires 1 <= limit && |cache| <= limit && Distinct(cache)
    ensures var after := Evict(Put(cache, entry), limit);
            var dropped := |cache| == limit && Find(cache, entry.key).None?
                           && forall e :: e in cache ==> entry.stamp < e.stamp;
            && (Find(after, entry.key) == Some(entry) <==> !dropped)
            && (dropped ==> after == cache)
  {
    PutFind(cache, entry, entry.key);
    PutSize(cache, entry);
    if |Put(cache, entry)| > limit {
      var stored := cache + [entry];
      var at := First(stored);
      AppendedDropped(cache, entry);
      assert |Without(stored, at)| == limit;
      if at == limit {
        assert Without(stored, at) == cache;
      } else {
        StoredWell(cache, entry, limit);
        Remains(stored, at, entry);
        assert stored[at] != entry by { assert stored[at] == cache[at]; }
        FindMember(Without(stored, at), entry);
      }
    }
  }

  /** A full preflight cache of results and one more key's failure: the failure is not served. */
  lemma FailureForgotten<V>(result: V, failure: V)
    ensures var cache := seq(32, i requires 0 <= i < 32 => Entry(i, 1, result, false));
            var entry := Entry(32, 0, failure, true);
            Find(Evict(Put(cache, entry), 32), 32) == None
  {
    var cache := seq(32, i requires 0 <= i < 32 => Entry(i, 1, result, false));
    var entry := Entry(32, 0, failure, true);
    assert Find(cache, 32).None?;
    NewResultIsServed(cache, entry, 32);
  }

  lemma StoredWell<K, V>(cache: seq<Entry<K, V>>, entry: Entry<K, V>, limit: nat)
    requires Distinct(cache)
    ensures var after := Evict(Put(cache, entry), limit);
            Distinct(after) && |after| <= limit && forall e :: e in after ==> e == entry || e in cache
  {
    PutDistinct(cache, entry);
    PutMembers(cache, entry);
    EvictDistinct(Put(cache, entry), limit);
    EvictExact(Put(cache, entry), limit);
  }

  // ---- the cache -------------------------------------------------------------------------------------------------

  class ViewCache<K(==), V> {
    const limit: nat
    const inflightLimit: nat
    const ttl: int
    const errorTtl: int
    const zeroOnFailure: bool
    const waitsWhenCold: bool
    var cache: seq<Entry<K, V>>
    var inflight: map<K, nat>
    var issued: nat
    /** The key each future was started for, the futures still running, and what the finished ones produced. */
    ghost var owner: map<nat, K>
    ghost var running: set<nat>
    ghost var produced: map<nat, V>

    /** Sixteen entries for 30 s (failures 2 s), eight refreshes. */
    constructor Operations()
      ensures Valid() && cache == [] && inflight == map[] && owner == map[]
      ensures limit == 16 && inflightLimit == 8 && ttl == 30 && errorTtl == 2 && !zeroOnFailure && waitsWhenCold
    {
      limit, inflightLimit, ttl, errorTtl, zeroOnFailure, waitsWhenCold := 16, 8, 30, 2, false, true;
      cache, inflight, issued, owner, running, produced := [], map[], 0, map[], {}, map[];
    }

    /** Sixteen entries for 10 s (failures 2 s), eight refreshes. */
    constructor Runtime()
      ensures Valid() && cache == [] && inflight == map[] && owner == map[]
      ensures limit == 16 && inflightLimit == 8 && ttl == 10 && errorTtl == 2 && !zeroOnFailure && waitsWhenCold
    {
      limit, inflightLimit, ttl, errorTtl, zeroOnFailure, waitsWhenCold := 16, 8, 10, 2, false, true;
      cache, inflight, issued, owner, running, produced := [], map[], 0, map[], {}, map[];
    }

    /** Thirty-two entries for 10 s, thirty-two refreshes; a failure is stamped zero and a cold read never waits. */
    constructor Preflight()
      ensures Valid() && cache == [] && inflight == map[] && owner == map[]
      ensures limit == 32 && inflightLimit == 32 && ttl == 10 && errorTtl == 10 && zeroOnFailure && !waitsWhenCold
    {
      limit, inflightLimit, ttl, errorTtl, zeroOnFailure, waitsWhenCold := 32, 32, 10, 10, true, false;
      cache, inflight, issued, owner, running, produced := [], map[], 0, map[], {}, map[];
    }

    /** Keys are distinct and few, running futures are exactly the registered ones, each under the key it was started
        for, and every cached value was produced by a future started for its key. */
    ghost predicate Valid()
      reads this
    {
      && Distinct(cache) && |cache| <= limit && |inflight| <= inflightLimit
      && (forall future :: future in owner ==> future < issued)
      && (forall future :: future in produced ==> future in owner && future !in running)
      && (forall key :: key in inflight ==> inflight[key] in running && inflight[key] in owner
                                            && owner[inflight[key]] == key)
      && (forall future :: future in running ==> future in owner && owner[future] in inflight
                                                 && inflight[owner[future]] == future)
      && (forall e :: e in cache ==> Traced(e.key, e.value))
    }

    /** A future started for `key` produced `value`. */
    ghost predicate Traced(key: K, value: V)
      reads this
    {
      exists future :: future in owner && future in produced && owner[future] == key && produced[future] == value
    }

    /** Failures are stamped zero and results later than zero. */
    ghost predicate StampsTell()
      reads this
    {
      forall e :: e in cache ==> if e.failed then e.stamp == 0 else e.stamp > 0
    }

    predicate Fresh(key: K, now: int)
      reads this
    {
      var cached := Find(cache, key);
      cached.Some? && now - cached.value.stamp <= (if cached.value.failed then errorTtl else ttl)
    }

    /** A read never touches the cache, never replaces a running refresh, and starts one exactly when nothing fresh is
        cached, none runs for the key, and there is room. */
    method Read(key: K, now: int) returns (answer: Answer<V>, started: Option<nat>)
      requires Valid()
      modifies this
      ensures Valid() && cache == old(cache) && produced == old(produced)
      ensures started.Some? <==>
                && key !in old(inflight) && old(|inflight|) < inflightLimit
                && forall e :: e in cache && e.key == key ==> now > e.stamp + (if e.failed then errorTtl else ttl)
      ensures started.Some? ==> started.value == old(issued) && started.value !in old(owner)
      ensures inflight == if started.Some? then old(inflight)[key := started.value] else old(inflight)
      ensures owner == if started.Some? then old(owner)[started.value := key] else old(owner)
      ensures running == if started.Some? then old(running) + {started.value} else old(running)
      ensures answer.Served? <==> Find(cache, key).Some?
      ensures answer.Served? ==> answer.value == Find(cache, key).value.value && Traced(key, answer.value)
      ensures answer.Wait? <==> Find(cache, key).None? && waitsWhenCold && key in inflight
      ensures answer.Wait? ==> answer.future == inflight[key]
    {
      var cached := Find(cache, key);
      OnlyEntry(cache, key);
      if Fresh(key, now) && key !in inflight {
        return Served(cached.value.value), None;
      }
      started := None;
      if key !in inflight && |inflight| < inflightLimit {
        var future := Start(key);
        started := Some(future);
      }
      if cached.Some? {
        answer := Served(cached.value.value);
      } else if waitsWhenCold && key in inflight {
        answer := Wait(inflight[key]);
      } else {
        answer := Pending;
      }
    }

    method Start(key: K) returns (future: nat)
      requires Valid() && key !in inflight && |inflight| < inflightLimit
      modifies this
      ensures Valid() && cache == old(cache) && produced == old(produced)
      ensures future == old(issued) && future !in old(owner)
      ensures inflight == old(inflight)[key := future] && owner == old(owner)[future := key]
      ensures running == old(running) + {future}
    {
      future := issued;
      inflight := inflight[key := future];
      owner := owner[future := key];
      running := running + {future};
      issued := issued + 1;
      forall e | e in cache ensures Traced(e.key, e.value) {
        var source :| source in old(owner) && source in produced && old(owner)[source] == e.key
                      && produced[source] == e.value;
        assert source in owner && owner[source] == e.key;
      }
    }

    /** The callback of a finished future. Unregistered, it changes nothing; registered, it stores its value under its
        own key, frees the slot, and drops the oldest entries beyond the limit and no others. */
    method Complete(key: K, future: nat, value: V, failed: bool, now: int)
      requires Valid()
      modifies this
      ensures Valid() && owner == old(owner) && issued == old(issued)
      ensures (key !in old(inflight) || old(inflight)[key] != future) ==>
                (cache == old(cache) && inflight == old(inflight) && running == old(running)
                 && produced == old(produced))
      ensures key in old(inflight) && old(inflight)[key] == future ==>
                (inflight == old(inflight) - {key} && running == old(running) - {future}
                 && produced == old(produced)[future := value]
                 && (var stamp := if zeroOnFailure && failed then 0 else now;
                     cache == Evict(Put(old(cache), Entry(key, stamp, value, failed)), limit)))
      ensures zeroOnFailure && now > 0 && old(StampsTell()) ==> StampsTell()
    {
      if key !in inflight || inflight[key] != future {
        return;
      }
      inflight := inflight - {key};
      running := running - {future};
      produced := produced[future := value];
      var entry := Entry(key, if failed && zeroOnFailure then 0 else now, value, failed);
      Store(entry);
      StoredWell(old(cache), entry, limit);
      assert zeroOnFailure && now > 0 && old(StampsTell()) ==> StampsTell();
      assert Traced(key, value) by { assert owner[future] == key && produced[future] == value; }
      forall e | e in old(cache) ensures Traced(e.key, e.value) {
        var source :| source in owner && source in old(produced) && owner[source] == e.key
                      && old(produced)[source] == e.value;
        assert source != future && produced[source] == e.value;
      }
    }

    method Store(entry: Entry<K, V>)
      modifies this`cache
      ensures cache == Evict(Put(old(cache), entry), limit)
    {
      cache := Put(cache, entry);
      while |cache| > limit
        invariant Evict(cache, limit) == Evict(Put(old(cache), entry), limit)
      {
        var at := Oldest(cache);
        cache := Without(cache, at);
      }
    }

    /** What `Complete` leaves of a failed preflight: it is remembered exactly unless the cache is full of results for
        other keys. */
    lemma FailureIsRemembered(key: K, value: V)
      requires Valid() && StampsTell() && zeroOnFailure && limit >= 1
      ensures var entry := Entry(key, 0, value, true);
              Find(Evict(Put(cache, entry), limit), key) == Some(entry)
              <==> |cache| < limit || Find(cache, key).Some? || exists e :: e in cache && e.failed
    {
      NewResultIsServed(cache, Entry(key, 0, value, true), limit);
    }

    /** At most one refresh runs for a key, and at most the limit overall. */
    lemma SingleFlight()
      requires Valid()
      ensures forall a, b :: a in running && b in running && owner[a] == owner[b] ==> a == b
      ensures |running| <= inflightLimit
    {
      InjectionBound(running, inflight.Keys, owner);
    }
  }

  lemma {:induction false} InjectionBound<K>(futures: set<nat>, keys: set<K>, owner: map<nat, K>)
    requires forall f :: f in futures ==> f in owner && owner[f] in keys
    requires forall f, g :: f in futures && g in futures && owner[f] == owner[g] ==> f == g
    ensures |futures| <= |keys|
    decreases |futures|
  {
    if futures != {} {
      var f :| f in futures;
      InjectionBound(futures - {f}, keys - {owner[f]}, owner);
    }
  }
}
