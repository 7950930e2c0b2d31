/**
 The sharded store of src/store/store.cpp.  Each operation reads the clock once: `now` is the
 monotonic time and `now + skew` the wall-clock time.  Every method is specified by the flat map
 with deadlines that the shards together form.
 */
module Store {
  import opened Common
  import opened Values
  import opened FlatMap
  import opened Shards
  import opened SortedKeys
  import opened Replay
  import Snapshot
  import Recovery

  const TICKS_PER_SECOND: int := 1000 * TICKS_PER_MS

  /** The answer of TTL: whole seconds left, -1 without a deadline, -2 for an absent key. */
  function TimeToLive(m: Flat, k: Key, t: int): int {
    if k !in Live(m, t) then -2
    else if m[k].deadline.None? then -1
    else (m[k].deadline.value - t) / TICKS_PER_SECOND
  }

  /**
   What TTL says of a key that nobody touches: it lives at least that many whole seconds and not a second
   longer, -1 is for ever, and -2 is not now.
   */
  lemma TimeToLiveMeans(m: Flat, k: Key, t: int, later: int)
    requires t <= later
    ensures var n := TimeToLive(m, k, t);
            && n >= -2 && (n == -2 <==> k !in Live(m, t))
            && (n == -1 ==> k in Live(m, later))
            && (n >= 0 && later < t + n * TICKS_PER_SECOND ==> k in Live(m, later))
            && (n >= 0 && later >= t + (n + 1) * TICKS_PER_SECOND ==> k !in Live(m, later))
  {
  }

  class Store {
    const index: Key -> nat
    const entrySize: nat
    const skew: int
    var shards: seq<Shard>
    var memory: nat
    var expiredKeys: nat

    ghost predicate EntryValid(k: Key, e: Entry) {
      e.storedBytes == Estimate(k, e.value, entrySize) && ClocksAgree(e, skew)
    }

    /** Keys lie in their shards, sizes are exact and the memory counter is their sum. */
    ghost predicate Valid()
      reads this
    {
      && (forall k :: index(k) < |shards|)
      && Placed(shards, index)
      && (forall i, k :: 0 <= i < |shards| && k in shards[i] ==> EntryValid(k, shards[i][k]))
      && memory == TotalBytes(shards)
    }

    ghost function Contents(): Flat
      reads this
    {
      View(shards)
    }

    constructor (shardCount: nat, hash: Key -> nat, entrySize: nat, skew: int)
      requires shardCount > 0
      ensures Valid() && Contents() == map[] && this.skew == skew && |shards| == shardCount
    {
      this.index := (k: Key) => hash(k) % shardCount;
      this.entrySize := entrySize;
      this.skew := skew;
      shards := seq(shardCount, _ => map[]);
      memory := 0;
      expiredKeys := 0;
      new;
      EmptyShards(shards);
    }

    /** Reads one key in its own shard. */
    lemma Lookup(k: Key)
      requires Valid()
      ensures index(k) < |shards|
      ensures k in Contents() <==> k in shards[index(k)]
      ensures k in Contents() ==> Contents()[k] == Flatten(shards[index(k)][k])
      ensures k in Contents() ==> EntryValid(k, shards[index(k)][k])
    {
      ViewAt(shards, index, k);
    }

    lemma OwnShard(i: nat, k: Key)
      requires Valid() && i < |shards| && k in shards[i]
      ensures index(k) == i
    {
    }

    lemma ExpiredIsDead(k: Key, now: int)
      requires Valid() && k in shards[index(k)]
      ensures k in Contents() && (Expired(shards[index(k)][k], now) <==> Dead(Contents()[k], now + skew))
    {
      Lookup(k);
    }

    lemma WholeShards()
      requires Valid()
      ensures Placed(shards, index) && forall k :: index(k) < |shards|
      ensures forall i, k :: 0 <= i < |shards| && k in shards[i] ==> ClocksAgree(shards[i][k], skew)
    {
    }

    // ----- Private steps under the lock of one shard -----

    /** Removes an entry and its bytes from the counter, which cannot fall below zero. */
    method Erase(k: Key)
      requires Valid() && k in shards[index(k)]
      modifies `shards, `memory
      ensures Valid() && Contents() == old(Contents()) - {k}
      ensures shards == old(shards)[index(k) := old(shards)[index(k)] - {k}]
      ensures k in old(Contents()) && |Contents()| + 1 == |old(Contents())|
    {
      hide View, ShardBytes, TotalBytes;
      var i := index(k);
      Lookup(k);
      OneLess(Contents(), k);
      ViewErase(shards, index, k);
      ShardBytesErase(shards[i], k);
      TotalBytesUpdate(shards, i, shards[i] - {k});
      memory := memory - shards[i][k].storedBytes;
      shards := shards[i := shards[i] - {k}];
    }

    /** `erase_expired_locked`. */
    method EraseExpired(k: Key, now: int) returns (erased: bool)
      requires Valid() && k in shards[index(k)]
      modifies `shards, `memory, `expiredKeys
      ensures k in old(Contents())
      ensures Valid() && erased == Dead(old(Contents())[k], now + skew)
      ensures Contents() == if erased then old(Contents()) - {k} else old(Contents())
      ensures shards == if erased then old(shards)[index(k) := old(shards)[index(k)] - {k}] else old(shards)
      ensures expiredKeys == old(expiredKeys) + if erased then 1 else 0
      ensures |Contents()| + expiredKeys == old(|Contents()| + expiredKeys)
    {
      ExpiredIsDead(k, now);
      erased := Expired(shards[index(k)][k], now);
      if erased {
        Erase(k);
        expiredKeys := expiredKeys + 1;
      }
    }

    method EstimateBytes(k: Key, v: Value) returns (total: nat)
      ensures total == Estimate(k, v, entrySize)
    {
      total := |k| + entrySize;
      match v {
        case Str(text) =>
          total := total + |text|;
        case Int(_) =>
          total := total + 8;
        case List(items) =>
          for i := 0 to |items|
            invariant total == |k| + entrySize + ItemBytes(items[..i])
          {
            assert items[..i + 1][..i] == items[..i];
            total := total + |items[i]|;
          }
          assert items[..|items|] == items;
        case Set(members) =>
          var pending := members;
          while pending != {}
            invariant total + TextBytes(pending) == |k| + entrySize + TextBytes(members)
            decreases |pending|
          {
            var x :| x in pending;
            TextBytesRemove(pending, x);
            total := total + |x|;
            pending := pending - {x};
          }
      }
    }

    // ----- Operations -----

    /** SET, with the deadline that recovery passes in; a deadline already due deletes the key. */
    method Set(k: Key, v: Value, expiry: Option<Instant>, now: int)
      requires Valid()
      modifies this
      ensures Valid() && Contents() == Put(old(Contents()), k, v, expiry, now + skew)
      ensures var t := now + skew;
              expiredKeys == old(expiredKeys) +
              if k in old(Contents()) && (DueAt(expiry, t) || Dead(old(Contents())[k], t)) then 1 else 0
    {
      hide View, ShardBytes, TotalBytes, Estimate;
      var bytes := EstimateBytes(k, v);
      var i, wallNow := index(k), now + skew;
      Lookup(k);
      var expiresAt: Option<int> := None;
      if expiry.Some? {
        if expiry.value <= wallNow {
          if k in shards[i] {
            Erase(k);
            expiredKeys := expiredKeys + 1;
          }
          return;
        }
        expiresAt := Some(now + (expiry.value - wallNow));
      }
      if k in shards[i] {
        ExpiredIsDead(k, now);
        if Expired(shards[i][k], now) {
          expiredKeys := expiredKeys + 1;
        }
      }
      Place(k, Entry(v, expiresAt, expiry, bytes));
    }

    /** The end of SET: the entry replaces what the key had, and its bytes replace the old ones in the counter. */
    method Place(k: Key, e: Entry)
      requires Valid() && EntryValid(k, e)
      modifies `shards, `memory
      ensures Valid() && Contents() == old(Contents())[k := Flatten(e)]
    {
      hide View, ShardBytes, TotalBytes, Estimate;
      var i := index(k);
      Lookup(k);
      if k in shards[i] {
        ShardBytesErase(shards[i], k);
      }
      ViewStore(shards, index, k, e);
      ShardBytesStore(shards[i], k, e);
      TotalBytesUpdate(shards, i, shards[i][k := e]);
      memory := memory - (if k in shards[i] then shards[i][k].storedBytes else 0) + e.storedBytes;
      shards := shards[i := shards[i][k := e]];
    }

    /** GET: a shared look, then an exclusive one that also removes a dead entry. */
    method Get(k: Key, now: int) returns (r: Option<Value>)
      requires Valid()
      modifies this
      ensures Valid() && r == FlatMap.Get(old(Contents()), k, now + skew)
      ensures |Contents()| + expiredKeys == old(|Contents()| + expiredKeys)
      ensures Live(Contents(), now + skew) == Live(old(Contents()), now + skew)
    {
      hide View;
      var i := index(k);
      Lookup(k);
      if k !in shards[i] {
        return None;
      }
      ExpiredIsDead(k, now);
      if !Expired(shards[i][k], now) {
        return Some(shards[i][k].value);
      }
      var erased := EraseExpired(k, now);
      r := None;
    }

    /** DEL of one key. */
    method Del(k: Key, now: int) returns (removed: bool)
      requires Valid()
      modifies this
      ensures Valid() && Contents() == old(Contents()) - {k}
      ensures removed == (k in Live(old(Contents()), now + skew))
      ensures |Contents()| + expiredKeys + (if removed then 1 else 0) == old(|Contents()| + expiredKeys)
    {
      hide View;
      Lookup(k);
      if k !in shards[index(k)] {
        return false;
      }
      var expired := EraseExpired(k, now);
      if expired {
        return false;
      }
      Lookup(k);
      Erase(k);
      removed := true;
    }

    /** EXISTS of one key, looked at as GET does. */
    method Exists(k: Key, now: int) returns (r: bool)
      requires Valid()
      modifies this
      ensures Valid() && r == (k in Live(old(Contents()), now + skew))
      ensures |Contents()| + expiredKeys == old(|Contents()| + expiredKeys)
      ensures Live(Contents(), now + skew) == Live(old(Contents()), now + skew)
    {
      hide View;
      var i := index(k);
      Lookup(k);
      if k !in shards[i] {
        return false;
      }
      ExpiredIsDead(k, now);
      if !Expired(shards[i][k], now) {
        return true;
      }
      var erased := EraseExpired(k, now);
      r := !erased;
    }

    /** DEL of several keys: each live key counts once. */
    method DelMany(keys: seq<Key>, now: int) returns (removed: nat)
      requires Valid()
      modifies this
      ensures Valid() && Contents() == Remove(old(Contents()), keys)
      ensures removed == RemoveCount(old(Contents()), keys, now + skew)
      ensures |Contents()| + expiredKeys + removed == old(|Contents()| + expiredKeys)
    {
      hide View, Valid, Remove, RemoveCount, Dead, EntryValid;
      removed := 0;
      ghost var m := Contents();
      RemoveNothing(m, keys[..0], now + skew);
      for n := 0 to |keys|
        invariant Valid() && Contents() == Remove(m, keys[..n])
        invariant removed == RemoveCount(m, keys[..n], now + skew)
        invariant |Contents()| + expiredKeys + removed == old(|Contents()| + expiredKeys)
      {
        var k := keys[n];
        RemoveOneMore(m, keys, n, now + skew);
        Lookup(k);
        if k in shards[index(k)] {
          var expired := EraseExpired(k, now);
          if !expired {
            Lookup(k);
            Erase(k);
            removed := removed + 1;
          }
        } else {
          assert Contents() - {k} == Contents();
        }
      }
      assert keys[..|keys|] == keys;
    }

    /** EXISTS of several keys: repeats count, dead entries met on the way are removed. */
    method ExistsMany(keys: seq<Key>, now: int) returns (count: nat)
      requires Valid()
      modifies this
      ensures Valid() && count == ExistsCount(old(Contents()), keys, now + skew)
      ensures |Contents()| + expiredKeys == old(|Contents()| + expiredKeys)
      ensures Live(Contents(), now + skew) == Live(old(Contents()), now + skew)
    {
      hide View, Valid, Dead, EntryValid;
      count := 0;
      ghost var m := Contents();
      for n := 0 to |keys|
        invariant Valid() && Live(Contents(), now + skew) == Live(m, now + skew)
        invariant count == ExistsCount(m, keys[..n], now + skew)
        invariant |Contents()| + expiredKeys == old(|Contents()| + expiredKeys)
      {
        var k := keys[n];
        assert keys[..n + 1][..n] == keys[..n];
        Lookup(k);
        assert k in Live(Contents(), now + skew) <==> k in Live(m, now + skew);
        if k in shards[index(k)] {
          ghost var before := Contents();
          var expired := EraseExpired(k, now);
          if !expired {
            count := count + 1;
          } else {
            assert Live(before - {k}, now + skew) == Live(before, now + skew);
          }
        }
      }
      assert keys[..|keys|] == keys;
    }

    /** EXPIRE at an absolute time; a missing or past time deletes the key. */
    method ExpireAt(k: Key, expiry: Option<Instant>, now: int) returns (changed: bool)
      requires Valid()
      modifies this
      ensures Valid() && Contents() == SetDeadline(old(Contents()), k, expiry, now + skew)
      ensures changed == (k in Live(old(Contents()), now + skew))
      ensures |Contents()| + expiredKeys + (if changed && Removes(expiry, now + skew) then 1 else 0) ==
              old(|Contents()| + expiredKeys)
    {
      hide View, Valid, Dead, Estimate;
      var i := index(k);
      Lookup(k);
      if k !in shards[i] {
        return false;
      }
      var expired := EraseExpired(k, now);
      if expired {
        return false;
      }
      Lookup(k);
      if expiry.None? || expiry.value <= now + skew {
        Erase(k);
        return true;
      }
      var e := shards[i][k].(wall := expiry, expiresAt := Some(now + (expiry.value - (now + skew))));
      SameSize(Contents(), k, Flatten(e));
      Redate(k, e);
      changed := true;
    }

    /** The end of EXPIRE: an entry of the same size takes its key's place. */
    method Redate(k: Key, e: Entry)
      requires Valid() && EntryValid(k, e) && k in shards[index(k)] && e.value == shards[index(k)][k].value
      modifies `shards
      ensures Valid() && Contents() == old(Contents())[k := Flatten(e)]
    {
      hide View, ShardBytes, TotalBytes, Estimate;
      var i := index(k);
      ViewStore(shards, index, k, e);
      ShardBytesErase(shards[i], k);
      ShardBytesStore(shards[i], k, e);
      TotalBytesUpdate(shards, i, shards[i][k := e]);
      shards := shards[i := shards[i][k := e]];
    }

    method Ttl(k: Key, now: int) returns (r: int)
      requires Valid()
      modifies this
      ensures Valid() && r == TimeToLive(old(Contents()), k, now + skew)
      ensures |Contents()| + expiredKeys == old(|Contents()| + expiredKeys)
      ensures Live(Contents(), now + skew) == Live(old(Contents()), now + skew)
    {
      hide View;
      var i := index(k);
      Lookup(k);
      if k !in shards[i] {
        return -2;
      }
      ExpiredIsDead(k, now);
      var e := shards[i][k];
      if e.expiresAt.None? {
        return -1;
      }
      if e.expiresAt.value > now {
        return (e.expiresAt.value - now) / TICKS_PER_SECOND;
      }
      var erased := EraseExpired(k, now);
      r := -2;
    }

    /** One shard of KEYS or of a snapshot: dead entries go, the others are listed. */
    method SweepShard(i: nat, now: int) returns (entries: seq<Snapshot.Entry>)
      requires Valid() && i < |shards|
      modifies this
      ensures Valid() && shards == old(shards)[i := Kept(old(shards)[i], now)]
      ensures ListsShard(entries, Kept(old(shards)[i], now))
      ensures |Contents()| + expiredKeys == old(|Contents()| + expiredKeys)
    {
      hide View, Estimate, TotalBytes, Swept, Kept, ListsShard;
      entries := [];
      ghost var whole := shards[i];
      var pending := shards[i].Keys;
      SweepStart(whole, now);
      while pending != {}
        invariant Valid() && |shards| == |old(shards)| && pending <= whole.Keys
        invariant shards == old(shards)[i := Swept(whole, pending, now)]
        invariant ListsShard(entries, Kept(whole - pending, now))
        invariant |Contents()| + expiredKeys == old(|Contents()| + expiredKeys)
        decreases |pending|
      {
        var k :| k in pending;
        SweptPending(whole, pending, now, k);
        assert index(k) == i;
        var e := shards[i][k];
        SweptStep(whole, pending, now, k);
        ListShardStep(entries, whole, pending, now, k);
        if Expired(e, now) {
          Erase(k);
          expiredKeys := expiredKeys + 1;
        } else {
          entries := entries + [Snapshot.Entry(k, e.value, e.wall)];
        }
        pending := pending - {k};
      }
      SweepEnd(whole, now);
    }

    /** KEYS: only `*` is supported; the answer is sorted and lists every live key once. */
    method Keys(pattern: Bytes, now: int) returns (r: Option<seq<Key>>)
      requires Valid()
      modifies this
      ensures Valid() && (r.Some? <==> pattern == [42])
      ensures r.None? ==> Contents() == old(Contents())
      ensures r.Some? ==> Contents() == Live(old(Contents()), now + skew)
      ensures r.Some? ==> Sorted(r.value) && Lists(r.value, Live(old(Contents()), now + skew).Keys)
      ensures |Contents()| + expiredKeys == old(|Contents()| + expiredKeys)
    {
      if pattern != [42] {
        return None;
      }
      var entries := ExportSnapshotEntries(now);
      var keys: seq<Key> := seq(|entries|, n requires 0 <= n < |entries| => entries[n].key);
      ListedKeys(entries, Contents(), keys);
      SortLists(keys, Contents().Keys);
      r := Some(Sort(keys));
    }

    /** The entries of a snapshot: exactly the live ones, each once. */
    method ExportSnapshotEntries(now: int) returns (entries: seq<Snapshot.Entry>)
      requires Valid()
      modifies this
      ensures Valid() && Contents() == Live(old(Contents()), now + skew)
      ensures Recovery.DistinctKeys(entries) && Recovery.AsMap(entries) == Contents()
      ensures |Contents()| + expiredKeys == old(|Contents()| + expiredKeys)
    {
      hide View, Valid, Recovery.AsMap, Kept, ListsBelow, ListsShard;
      entries := [];
      ghost var before := shards;
      WholeShards();
      NothingListed(shards, index);
      for i := 0 to |shards|
        invariant Valid() && |shards| == |before|
        invariant forall j :: 0 <= j < |shards| ==> shards[j] == if j < i then Kept(before[j], now) else before[j]
        invariant ListsBelow(entries, shards, index, i)
        invariant |Contents()| + expiredKeys == old(|Contents()| + expiredKeys)
      {
        ghost var earlier := shards;
        var some := SweepShard(i, now);
        ListKept(entries, earlier, shards, index, i);
        WholeShards();
        ListMoreShards(entries, some, shards, index, i);
        entries := entries + some;
      }
      assert shards == KeptAll(before, now);
      KeptView(before, index, now, skew);
      WholeShards();
      ListedAll(entries, shards, index);
    }

    /**
     Sampled expiry, with the keys drawn from each shard: as many draws as the shard had entries, up to the
     limit; the drawn entries that were dead are gone and all others are there.
     */
    method ActiveExpireCycle(samplesPerShard: nat, now: int) returns (expired: nat, ghost draws: seq<seq<Key>>)
      requires Valid()
      modifies this
      ensures Valid() && Within(Contents(), old(Contents()))
      ensures Live(Contents(), now + skew) == Live(old(Contents()), now + skew)
      ensures |Contents()| + expired == |old(Contents())| && expiredKeys == old(expiredKeys) + expired
      ensures |draws| == |shards| == |old(shards)|
      ensures forall i :: 0 <= i < |shards| ==>
                Sampled(old(shards)[i], shards[i], draws[i], Min(samplesPerShard, |old(shards)[i]|), now)
      ensures (forall k :: k in old(Contents()) ==> Dead(old(Contents())[k], now + skew)) &&
              (forall i :: 0 <= i < |shards| ==> |old(shards)[i]| <= samplesPerShard) ==>
                Contents() == map[] && expired == |old(Contents())|
    {
      hide View, Valid, Sampled;
      ghost var whole, contents := shards, Contents();
      AllDeadShards(now);
      ThinNothing(Contents(), now + skew);
      expired, draws := 0, [];
      for i := 0 to |shards|
        invariant Valid() && |shards| == |old(shards)| && |draws| == i
        invariant Thinned(Contents(), old(Contents()), now + skew, expired)
        invariant expiredKeys == old(expiredKeys) + expired
        invariant forall j :: 0 <= j < |shards| ==>
                    if j < i then
                      Sampled(old(shards)[j], shards[j], draws[j], Min(samplesPerShard, |old(shards)[j]|), now)
                    else shards[j] == old(shards)[j]
      {
        ghost var drawn;
        expired, drawn := SampleShard(i, samplesPerShard, now, expired, old(Contents()));
        draws := draws + [drawn];
      }
      if (forall k :: k in contents ==> Dead(contents[k], now + skew)) &&
         (forall i :: 0 <= i < |shards| ==> |whole[i]| <= samplesPerShard) {
        forall i | 0 <= i < |shards|
          ensures shards[i] == map[]
        {
          EnoughDrawsEmptyShard(whole[i], shards[i], draws[i], samplesPerShard, now);
        }
        EmptyShards(shards);
        assert Contents() == map[] by { EmptyView(shards); }
      }
    }

    /** If all entries of the store are dead, so are those of every shard. */
    lemma AllDeadShards(now: int)
      requires Valid()
      ensures (forall k :: k in Contents() ==> Dead(Contents()[k], now + skew)) ==>
                forall i, k :: 0 <= i < |shards| && k in shards[i] ==> Expired(shards[i][k], now)
    {
      hide View, Valid, Dead, Expired;
      if forall k :: k in Contents() ==> Dead(Contents()[k], now + skew) {
        forall i, k | 0 <= i < |shards| && k in shards[i]
          ensures Expired(shards[i][k], now)
        {
          OwnShard(i, k);
          ExpiredIsDead(k, now);
        }
      }
    }

    /** Draws at most as many entries as the shard had, so it never draws from an empty shard. */
    method SampleShard(i: nat, samplesPerShard: nat, now: int, before: nat, ghost m: Flat)
      returns (expired: nat, ghost draws: seq<Key>)
      requires Valid() && i < |shards| && Thinned(Contents(), m, now + skew, before)
      modifies this
      ensures Valid() && Thinned(Contents(), m, now + skew, expired)
      ensures |shards| == |old(shards)| && shards == old(shards)[i := shards[i]]
      ensures Sampled(old(shards)[i], shards[i], draws, Min(samplesPerShard, |old(shards)[i]|), now)
      ensures expired >= before && expiredKeys == old(expiredKeys) + (expired - before)
    {
      hide View, Valid, Thinned, Sampled;
      expired, draws := before, [];
      ghost var whole := shards[i];
      var size := |shards[i]|;
      var samples := Min(samplesPerShard, size);
      SampledNothing(whole, now);
      for attempt := 0 to samples
        invariant Valid() && |shards| == |old(shards)| && Thinned(Contents(), m, now + skew, expired)
        invariant shards == old(shards)[i := shards[i]]
        invariant |shards[i]| + attempt >= size
        invariant Sampled(whole, shards[i], draws, attempt, now)
        invariant expired >= before && expiredKeys == old(expiredKeys) + (expired - before)
      {
        ghost var shard := shards[i];
        ghost var drawn;
        expired, drawn := DrawOne(i, now, expired, m);
        SampledMore(whole, shard, draws, attempt, now, drawn);
        draws := draws + [drawn];
      }
    }

    /** One draw: the entry goes if it is dead, and is counted then. */
    method DrawOne(i: nat, now: int, before: nat, ghost m: Flat) returns (expired: nat, ghost drawn: Key)
      requires Valid() && i < |shards| && |shards[i]| > 0 && Thinned(Contents(), m, now + skew, before)
      modifies this
      ensures Valid() && Thinned(Contents(), m, now + skew, expired)
      ensures drawn in old(shards)[i] && drawn in old(Contents())
      ensures expired == before + (if Dead(old(Contents())[drawn], now + skew) then 1 else 0)
      ensures drawn in Contents() <==> !Dead(old(Contents())[drawn], now + skew)
      ensures shards == old(shards)[i := if Expired(old(shards)[i][drawn], now) then old(shards)[i] - {drawn}
                                         else old(shards)[i]]
      ensures |shards| == |old(shards)| && |shards[i]| + 1 >= |old(shards)[i]|
      ensures expiredKeys == old(expiredKeys) + (expired - before)
    {
      hide View, Valid, Thinned, Dead;
      expired := before;
      assert shards[i].Keys != {};
      var k :| k in shards[i];
      drawn := k;
      OwnShard(i, k);
      ExpiredIsDead(k, now);
      ghost var contents, shard := Contents(), shards[i];
      var erased := EraseExpired(k, now);
      if erased {
        ThinOne(contents, m, now + skew, before, k);
        assert shard.Keys == (shard - {k}).Keys + {k};
        expired := expired + 1;
      }
    }

    method Clear()
      requires Valid()
      modifies this
      ensures Valid() && Contents() == map[]
    {
      shards := seq(|shards|, _ => map[]);
      memory := 0;
      EmptyShards(shards);
    }
  }

  /** The constructor with its exception: no store without shards. */
  method MakeStore(shardCount: nat, hash: Key -> nat, entrySize: nat, skew: int) returns (store: Store?)
    ensures store == null <==> shardCount == 0
    ensures store != null ==>
              && fresh(store) && store.Valid() && store.Contents() == map[]
              && store.skew == skew && |store.shards| == shardCount
  {
    if shardCount == 0 {
      return null;
    }
    store := new Store(shardCount, hash, entrySize, skew);
  }

  lemma {:induction false} EmptyShards(shards: seq<Shard>)
    requires forall i :: 0 <= i < |shards| ==> shards[i] == map[]
    ensures Merge(shards) == map[] && TotalBytes(shards) == 0
    decreases |shards|
  {
    if shards != [] {
      EmptyShards(shards[..|shards| - 1]);
    }
  }

  lemma CountOneMore(before: set<Key>, live: set<Key>, k: Key)
    ensures |(before + {k}) * live| == |before * live| + if k in live && k !in before then 1 else 0
  {
    if k in live && k !in before {
      assert (before + {k}) * live == before * live + {k};
    } else {
      assert (before + {k}) * live == before * live;
    }
  }

  lemma RemoveNothing(m: Flat, keys: seq<Key>, t: int)
    requires keys == []
    ensures Remove(m, keys) == m && RemoveCount(m, keys, t) == 0
  {
    assert KeySet(keys) == {};
  }

  lemma KeySetMore(keys: seq<Key>, n: nat)
    requires n < |keys|
    ensures KeySet(keys[..n + 1]) == KeySet(keys[..n]) + {keys[n]}
  {
    assert keys[..n + 1] == keys[..n] + [keys[n]];
  }

  lemma RemoveOneMore(m: Flat, keys: seq<Key>, n: nat, t: int)
    requires n < |keys|
    ensures Remove(m, keys[..n + 1]) == Remove(m, keys[..n]) - {keys[n]}
    ensures RemoveCount(m, keys[..n + 1], t) ==
            RemoveCount(m, keys[..n], t) + if keys[n] in Live(Remove(m, keys[..n]), t) then 1 else 0
  {
    hide KeySet;
    var k, before := keys[n], KeySet(keys[..n]);
    KeySetMore(keys, n);
    assert m - (before + {k}) == m - before - {k};
    CountOneMore(before, Live(m, t).Keys, k);
    assert k in Live(Remove(m, keys[..n]), t) <==> k in Live(m, t) && k !in before;
  }

  /** `n` draws, each from the entries there were, took the dead ones among them and nothing else. */
  ghost predicate Sampled(before: Shard, after: Shard, draws: seq<Key>, n: nat, now: int) {
    && |draws| == n && (forall k :: k in draws ==> k in before)
    && after == (map k | k in before && !(k in draws && Expired(before[k], now)) :: before[k])
    && ((forall k :: k in before ==> Expired(before[k], now)) ==> |after| + n == |before|)
  }

  lemma SampledNothing(m: Shard, now: int)
    ensures Sampled(m, m, [], 0, now)
  {
  }

  lemma SampledMore(before: Shard, mid: Shard, draws: seq<Key>, n: nat, now: int, k: Key)
    requires Sampled(before, mid, draws, n, now) && k in mid
    ensures var after := if Expired(mid[k], now) then mid - {k} else mid;
            Sampled(before, after, draws + [k], n + 1, now)
  {
    var after := if Expired(mid[k], now) then mid - {k} else mid;
    assert mid.Keys == (mid - {k}).Keys + {k};
    assert forall x :: x in draws + [k] <==> x in draws || x == k;
    assert after == (map x | x in before && !(x in draws + [k] && Expired(before[x], now)) :: before[x]);
  }

  /** A cycle that may draw every entry of a store whose entries are all dead leaves it empty. */
  lemma EnoughDrawsEmptyShard(before: Shard, after: Shard, draws: seq<Key>, samples: nat, now: int)
    requires Sampled(before, after, draws, Min(samples, |before|), now)
    requires |before| <= samples && forall k :: k in before ==> Expired(before[k], now)
    ensures after == map[]
  {
  }

  lemma EmptyView(shards: seq<Shard>)
    requires Merge(shards) == map[]
    ensures View(shards) == map[]
  {
  }

  /** A deadline that is already due. */
  predicate DueAt(expiry: Option<Instant>, t: int) {
    expiry.Some? && expiry.value <= t
  }

  predicate Removes(expiry: Option<Instant>, t: int) {
    expiry.None? || expiry.value <= t
  }

  lemma SameSize(m: Flat, k: Key, e: FlatEntry)
    requires k in m
    ensures |m[k := e]| == |m|
  {
    assert m[k := e].Keys == m.Keys;
  }

  lemma OneLess(m: Flat, k: Key)
    requires k in m
    ensures |m - {k}| + 1 == |m|
  {
    assert m.Keys == (m - {k}).Keys + {k};
  }


  /** Some dead entries, `n` of them, have been removed from `m`. */
  ghost predicate Thinned(thin: Flat, m: Flat, t: int, n: nat) {
    Within(thin, m) && Live(thin, t) == Live(m, t) && |thin| + n == |m|
  }

  lemma ThinNothing(m: Flat, t: int)
    ensures Thinned(m, m, t, 0)
  {
  }

  lemma ThinOne(thin: Flat, m: Flat, t: int, n: nat, k: Key)
    requires Thinned(thin, m, t, n) && k in thin && Dead(thin[k], t)
    ensures Thinned(thin - {k}, m, t, n + 1)
  {
    hide Live;
    assert thin.Keys == (thin - {k}).Keys + {k};
    LiveWithoutDead(thin, t, k);
  }

  lemma LiveWithoutDead(m: Flat, t: int, k: Key)
    requires k in m && Dead(m[k], t)
    ensures Live(m - {k}, t) == Live(m, t)
  {
  }

  // ----- Listings of shards -----

  /** The entries list a shard, each key once. */
  ghost predicate ListsShard(entries: seq<Snapshot.Entry>, m: Shard) {
    && Recovery.DistinctKeys(entries)
    && (forall n :: 0 <= n < |entries| ==>
          entries[n].key in m && Describes(entries[n], m[entries[n].key]))
    && (forall k :: k in m ==> exists n :: 0 <= n < |entries| && entries[n].key == k)
  }

  predicate Describes(p: Snapshot.Entry, e: Entry) {
    p.value == e.value && p.expiry == e.wall
  }

  /** A shard in the middle of a sweep: the keys still pending are untouched. */
  function Swept(whole: Shard, pending: set<Key>, now: int): Shard {
    map k | k in whole && (k in pending || !Expired(whole[k], now)) :: whole[k]
  }

  lemma SweepStart(whole: Shard, now: int)
    ensures Swept(whole, whole.Keys, now) == whole && ListsShard([], Kept(whole - whole.Keys, now))
  {
  }

  lemma SweepEnd(whole: Shard, now: int)
    ensures Swept(whole, {}, now) == Kept(whole, now) && whole - {} == whole
  {
  }

  lemma SweptPending(whole: Shard, pending: set<Key>, now: int, k: Key)
    requires k in pending && k in whole
    ensures k in Swept(whole, pending, now) && Swept(whole, pending, now)[k] == whole[k]
  {
  }

  lemma SweptStep(whole: Shard, pending: set<Key>, now: int, k: Key)
    requires k in pending && pending <= whole.Keys
    ensures Expired(whole[k], now) ==> Swept(whole, pending - {k}, now) == Swept(whole, pending, now) - {k}
    ensures !Expired(whole[k], now) ==> Swept(whole, pending - {k}, now) == Swept(whole, pending, now)
  {
  }

  lemma ListShardStep(entries: seq<Snapshot.Entry>, whole: Shard, pending: set<Key>, now: int, k: Key)
    requires k in pending && pending <= whole.Keys && ListsShard(entries, Kept(whole - pending, now))
    ensures Expired(whole[k], now) ==> ListsShard(entries, Kept(whole - (pending - {k}), now))
    ensures !Expired(whole[k], now) ==>
              ListsShard(entries + [Snapshot.Entry(k, whole[k].value, whole[k].wall)],
                         Kept(whole - (pending - {k}), now))
  {
    var m, m' := Kept(whole - pending, now), Kept(whole - (pending - {k}), now);
    if Expired(whole[k], now) {
      assert m' == m;
    } else {
      assert m' == m[k := whole[k]] && k !in m;
      ListOne(entries, m, k, whole[k]);
    }
  }

  lemma ListOne(entries: seq<Snapshot.Entry>, m: Shard, k: Key, e: Entry)
    requires ListsShard(entries, m) && k !in m
    ensures ListsShard(entries + [Snapshot.Entry(k, e.value, e.wall)], m[k := e])
  {
    var entries', m' := entries + [Snapshot.Entry(k, e.value, e.wall)], m[k := e];
    forall x | x in m'
      ensures exists n :: 0 <= n < |entries'| && entries'[n].key == x
    {
      if x == k {
        assert entries'[|entries|].key == x;
      } else {
        var n :| 0 <= n < |entries| && entries[n].key == x;
        assert entries'[n].key == x;
      }
    }
  }

  /** The entries list the first `i` shards. */
  ghost predicate ListsBelow(entries: seq<Snapshot.Entry>, shards: seq<Shard>, index: Key -> nat, i: nat)
    requires i <= |shards|
  {
    && Recovery.DistinctKeys(entries)
    && (forall n :: 0 <= n < |entries| ==>
          && index(entries[n].key) < i && entries[n].key in shards[index(entries[n].key)]
          && Describes(entries[n], shards[index(entries[n].key)][entries[n].key]))
    && (forall j, k :: 0 <= j < i && k in shards[j] ==> exists n :: 0 <= n < |entries| && entries[n].key == k)
  }

  lemma NothingListed(shards: seq<Shard>, index: Key -> nat)
    ensures ListsBelow([], shards, index, 0)
  {
  }

  lemma ListKept(entries: seq<Snapshot.Entry>, shards: seq<Shard>, shards': seq<Shard>, index: Key -> nat, i: nat)
    requires i <= |shards| == |shards'| && shards[..i] == shards'[..i] && ListsBelow(entries, shards, index, i)
    ensures ListsBelow(entries, shards', index, i)
  {
    forall j | 0 <= j < i
      ensures shards[j] == shards'[j]
    {
      assert shards[..i][j] == shards'[..i][j];
    }
  }

  lemma ListMoreShards(entries: seq<Snapshot.Entry>, some: seq<Snapshot.Entry>, shards: seq<Shard>,
                       index: Key -> nat, i: nat)
    requires i < |shards| && Placed(shards, index)
    requires ListsBelow(entries, shards, index, i) && ListsShard(some, shards[i])
    ensures ListsBelow(entries + some, shards, index, i + 1)
  {
    var all := entries + some;
    forall a, b | 0 <= a < b < |all|
      ensures all[a].key != all[b].key
    {
      if a < |entries| <= b {
        assert index(entries[a].key) < i && index(some[b - |entries|].key) == i;
      }
    }
    forall j, k | 0 <= j < i + 1 && k in shards[j]
      ensures exists n :: 0 <= n < |all| && all[n].key == k
    {
      if j < i {
        var n :| 0 <= n < |entries| && entries[n].key == k;
        assert all[n].key == k;
      } else {
        var n :| 0 <= n < |some| && some[n].key == k;
        assert all[|entries| + n].key == k;
      }
    }
  }

  lemma {:induction false} AsMapAt(entries: seq<Snapshot.Entry>, n: nat)
    requires Recovery.DistinctKeys(entries) && n < |entries|
    ensures var e := entries[n];
            e.key in Recovery.AsMap(entries) && Recovery.AsMap(entries)[e.key] == FlatEntry(e.value, e.expiry)
    decreases |entries|
  {
    var last := |entries| - 1;
    if n < last {
      AsMapAt(entries[..last], n);
      assert entries[..last][n] == entries[n];
    }
  }

  lemma ListedAll(entries: seq<Snapshot.Entry>, shards: seq<Shard>, index: Key -> nat)
    requires Placed(shards, index) && forall k :: index(k) < |shards|
    requires ListsBelow(entries, shards, index, |shards|)
    ensures Recovery.DistinctKeys(entries) && Recovery.AsMap(entries) == View(shards)
  {
    hide View, Recovery.AsMap;
    var m := Recovery.AsMap(entries);
    Recovery.AsMapKeys(entries);
    forall k
      ensures k in m <==> k in shards[index(k)]
      ensures k in m ==> m[k] == Flatten(shards[index(k)][k])
    {
      if k in m {
        var n :| 0 <= n < |entries| && entries[n].key == k;
        AsMapAt(entries, n);
      }
    }
    ViewEquals(shards, index, m);
  }

  lemma ListedKeys(entries: seq<Snapshot.Entry>, m: Flat, keys: seq<Key>)
    requires Recovery.DistinctKeys(entries) && Recovery.AsMap(entries) == m
    requires |keys| == |entries| && forall n :: 0 <= n < |keys| ==> keys[n] == entries[n].key
    ensures Lists(keys, m.Keys)
  {
    Recovery.AsMapKeys(entries);
    forall k
      ensures k in keys <==> k in m.Keys
    {
      if k in keys {
        var n :| 0 <= n < |keys| && keys[n] == k;
        assert entries[n].key == k;
      }
      if k in m {
        var n :| 0 <= n < |entries| && entries[n].key == k;
        assert keys[n] == k;
      }
    }
  }
}
