/** What sets, gets and deletes answer and leave, in terms of the entries before them alone. */
module CacheLaws {
  import opened Wrappers
  import opened Collections
  import opened Bytes
  import opened SlotLists
  import opened CacheModel
  import opened CacheSlots
  import opened CacheTheorems
  import CacheSteps

  /** The key is in the cache, and a look-up does not find it expired. */
  predicate Alive(c: Config, m: Model, k: Key, now: nat) {
    k in m.entries && !(c.lazyExpire && 0 < m.entries[k].expires <= now)
  }

  predicate Sized(c: Config, k: Key, v: seq<byte>) {
    0 < |k| <= c.keysize && 0 < |v| <= if c.bitmap then c.blocks * c.blocksize else c.blocksize
  }

  lemma SizedIsAcceptable(c: Config, k: Key, v: seq<byte>)
    ensures Sized(c, k, v) <==> Acceptable(c, k, v)
  {
    OffsetIsProduct(c.blocks, c.blocksize);
  }

  /** The order without k, which is listed once. */
  ghost predicate Drops(s: seq<Key>, s': seq<Key>, k: Key) {
    exists j :: 0 <= j < |s| && s[j] == k && s' == Cut(s, j)
  }

  lemma KeepDrops(m: Model, k: Key)
    requires Listed(m) && k in m.entries
    ensures Drops(m.recency, Keep(m.recency, m.entries.Keys - {k}), k)
  {
    hide Keep, Cut;
    assert k in m.recency;
    var j :| 0 <= j < |m.recency| && m.recency[j] == k;
    forall i | 0 <= i < |m.recency|
      ensures m.recency[i] in m.entries.Keys - {k} <==> i != j
    {
      assert m.recency[i] in m.recency;
    }
    KeepIsCut(m.recency, j, m.entries.Keys - {k});
  }

  /** What the tables of a cache represent: fewer entries than slots, and with LRU on an order that lists each key. */
  lemma TablesRepresent(c: Config, s: CacheSteps.Slots, g: CacheSteps.Shape, data: seq<byte>, bits: seq<bool>, ns: nat)
    requires CacheSteps.Inv(c, s, g, data, bits)
    ensures var m := CacheSteps.Abstract(c, s, g, ns);
            |m.entries| < c.maxItems && if c.purgeLru then Listed(m) else m.recency == []
  {
    hide Buckets, FreeStack, BitsMatch, Queue, Contents, LruMembers, Keyed;
    if c.purgeLru {
      OrderIsListed(c, s.recs, data, g.entries, g.lru);
    }
  }

  lemma OrderIsListed(c: Config, recs: seq<Record>, data: seq<byte>, entries: map<Key, Entry>, lru: seq<nat>)
    requires Contents(c, recs, data, entries) && LruMembers(recs, lru)
    ensures Distinct(Recency(recs, lru)) && forall k :: k in Recency(recs, lru) <==> k in entries
  {
    hide Space, DataSize, EntryOf;
    RecencyIsDistinct(c, recs, lru);
    forall k
      ensures k in Recency(recs, lru) <==> k in entries
    {
      if k in entries {
        assert HasSlot(recs, k);
        var i :| 0 < i < |recs| && Live(recs[i]) && recs[i].key == k;
        var j := LruPosition(recs, lru, i);
        assert Recency(recs, lru)[j] == k;
      }
    }
  }

  // ---------------------------------------------------------------- get

  /** A get gives an entry exactly if it is in the cache, may be read and is not found expired. */
  lemma GetGivesIff(c: Config, m: Model, k: Key, now: nat, e: Entry)
    ensures Get(c, m, k, now).1 == Some(e) <==>
            && k in m.entries && m.entries[k] == e && !e.flags.ungettable
            && !(c.lazyExpire && 0 < e.expires <= now)
  {
    hide Keep;
  }

  /** A get deletes at most the entry it finds expired, and touches exactly what it gives. */
  lemma GetLeaves(c: Config, m: Model, k: Key, now: nat)
    requires if c.purgeLru then Listed(m) else m.recency == []
    ensures var (m', found) := Get(c, m, k, now);
            && m'.entries == (if Alive(c, m, k, now) then m.entries else m.entries - {k}) && m'.nextScan == m.nextScan
            && (k !in m.entries || (Alive(c, m, k, now) && found.None?) ==> m' == m)
            && (c.purgeLru && k in m.entries && !Alive(c, m, k, now) ==> Drops(m.recency, m'.recency, k))
            && (c.purgeLru && found.Some? ==>
                |m'.recency| > 0 && m'.recency[|m'.recency| - 1] == k &&
                Drops(m.recency, m'.recency[..|m'.recency| - 1], k))
  {
    hide Keep, Drops;
    if k !in m.entries {
      assert m.entries - {k} == m.entries;
    } else if c.purgeLru {
      KeepDrops(m, k);
      assert (m.entries - {k}).Keys == m.entries.Keys - {k};
    }
  }

  // ---------------------------------------------------------------- delete

  /** A delete succeeds exactly if the key was there and not found expired; it is gone in any case. */
  lemma DelLaw(c: Config, m: Model, k: Key, now: nat)
    requires if c.purgeLru then Listed(m) else m.recency == []
    ensures var (m', ok) := Del(c, m, k, now);
            && (ok <==> Alive(c, m, k, now)) && m'.entries == m.entries - {k} && m'.nextScan == m.nextScan
            && (k !in m.entries ==> m' == m)
            && (c.purgeLru && k in m.entries ==> Drops(m.recency, m'.recency, k))
  {
    hide Keep, Drops;
    if k !in m.entries {
      assert m.entries - {k} == m.entries;
    } else if c.purgeLru {
      KeepDrops(m, k);
      assert (m.entries - {k}).Keys == m.entries.Keys - {k};
    }
  }

  // ---------------------------------------------------------------- making room

  predicate Purged(c: Config, m: Model, k: Key) {
    c.purgeLru && m.recency != [] && k == m.recency[0]
  }

  predicate SweptAway(c: Config, m: Model, k: Key, now: nat) {
    c.sweepOnFull > 0 && m.nextScan <= now && k in m.entries && 0 < m.entries[k].expires <= now
  }

  /** The cache is cleared if the sweep has found nothing, the purged entry aside. */
  ghost predicate ClearedAway(c: Config, m: Model, now: nat) {
    c.clearOnFull && forall k :: k in m.entries && !Purged(c, m, k) ==> !SweptAway(c, m, k, now)
  }

  /** Exactly what stays when room is made. */
  lemma RoomLeaves(c: Config, m: Model, now: nat)
    requires c.purgeLru ==> Listed(m)
    ensures RoomPromise(c, m, now, MakeRoom(c, m, now))
  {
    hide Keep, Listed, PurgeOldest, Purged, SweptAway;
    var m1 := PurgeOldest(c, m);
    PurgeLeaves(c, m);
    var left := if SweepDue(c, m1, now) then Unexpired(m1, now) else m1.entries;
    SweepLeaves(c, m, m1, left, now);
    LeftIsAll(m1.entries, left);
    NothingSweptIff(c, m, m1.entries, left, now);
  }

  lemma PurgeLeaves(c: Config, m: Model)
    requires c.purgeLru ==> Listed(m)
    ensures var m1 := PurgeOldest(c, m);
            && (forall k :: k in m1.entries <==> k in m.entries && !Purged(c, m, k))
            && (forall k :: k in m1.entries ==> m1.entries[k] == m.entries[k]) && m1.nextScan == m.nextScan
  {
    hide Keep, Listed;
  }

  lemma SweepLeaves(c: Config, m: Model, m1: Model, left: map<Key, Entry>, now: nat)
    requires forall k :: k in m1.entries ==> k in m.entries && m1.entries[k] == m.entries[k]
    requires m1.nextScan == m.nextScan
    requires left == if SweepDue(c, m1, now) then Unexpired(m1, now) else m1.entries
    ensures Submap(left, m1.entries) && forall k :: k in left <==> k in m1.entries && !SweptAway(c, m, k, now)
  {}

  lemma NothingSweptIff(c: Config, m: Model, all: map<Key, Entry>, left: map<Key, Entry>, now: nat)
    requires Submap(left, all) && forall k :: k in left <==> k in all && !SweptAway(c, m, k, now)
    requires forall k :: k in all <==> k in m.entries && !Purged(c, m, k)
    ensures left == all <==> forall k :: k in m.entries && !Purged(c, m, k) ==> !SweptAway(c, m, k, now)
  {
    hide Purged, SweptAway;
    if forall k :: k in m.entries && !Purged(c, m, k) ==> !SweptAway(c, m, k, now) {
      assert forall k :: k in all ==> k in left;
      assert left == all;
    }
    if left == all {
      assert forall k :: k in m.entries && !Purged(c, m, k) ==> k in left;
    }
  }

  /** What a cache that makes room promises: what stays, untouched, and when the next scan is. */
  ghost predicate RoomPromise(c: Config, m: Model, now: nat, m': Model) {
    && (forall k :: k in m'.entries <==>
          k in m.entries && !Purged(c, m, k) && !SweptAway(c, m, k, now) && !ClearedAway(c, m, now))
    && (forall k :: k in m'.entries ==> m'.entries[k] == m.entries[k])
    && m'.nextScan == if c.sweepOnFull > 0 && m.nextScan <= now then now + c.sweepOnFull else m.nextScan
  }

  // ---------------------------------------------------------------- set

  /** A set that is not an update leaves a live key alone, and an ill-sized one leaves everything alone. */
  lemma SetRefuses(c: Config, m: Model, k: Key, v: seq<byte>, expires: nat, flags: Flags, now: nat, placed: bool)
    requires !Sized(c, k, v) || (Alive(c, m, k, now) && !flags.update)
    ensures Set(c, m, k, v, expires, flags, now, placed) == (m, false)
  {
    SizedIsAcceptable(c, k, v);
  }

  lemma LazyLeaves(c: Config, m: Model, k: Key, now: nat)
    ensures Alive(c, m, k, now) ==> k in m.entries && Lazy(c, m, k, now) == m
    ensures !Alive(c, m, k, now) ==> Lazy(c, m, k, now).entries == m.entries - {k}
    ensures Lazy(c, m, k, now).nextScan == m.nextScan && (k !in m.entries ==> Lazy(c, m, k, now) == m)
    ensures k in m.entries && !Alive(c, m, k, now) ==> Lazy(c, m, k, now) == Delete(m, k)
  {
    hide Keep;
    if k !in m.entries {
      assert m.entries - {k} == m.entries;
    }
  }

  /** There is a free slot for a new key, or one can be made. */
  predicate HasRoom(c: Config, m: Model, k: Key, now: nat) {
    |m.entries - {k}| + 1 < c.maxItems || !NoRoomToMake(c, m.entries - {k}, m.nextScan, now)
  }

  /** Exactly when a set succeeds. */
  lemma SetSucceedsIff(c: Config, m: Model, k: Key, v: seq<byte>, expires: nat, flags: Flags, now: nat, placed: bool)
    requires |m.entries| < c.maxItems && (c.purgeLru ==> Listed(m))
    ensures Set(c, m, k, v, expires, flags, now, placed).1 <==>
            && Sized(c, k, v) && placed && if Alive(c, m, k, now) then flags.update else HasRoom(c, m, k, now)
  {
    hide Keep, NoRoomToMake, Listed, Insert, Update, Lazy, Acceptable, Sized, Alive;
    SizedIsAcceptable(c, k, v);
    var m0 := Lazy(c, m, k, now);
    LazyLeaves(c, m, k, now);
    LazyKeepsListed(c, m, k, now);
    if Alive(c, m, k, now) {
      UpdateFailsUnplaced(c, m, k, v, expires, flags, now, placed);
    } else {
      SmallerMap(m0.entries, m.entries);
      InsertSucceedsIff(c, m0, k, v, expires, flags, now, placed);
    }
  }

  lemma InsertSucceedsIff(c: Config, m: Model, k: Key, v: seq<byte>, expires: nat, flags: Flags, now: nat, placed: bool)
    requires |m.entries| < c.maxItems && (c.purgeLru ==> Listed(m))
    ensures Insert(c, m, k, v, expires, flags, now, placed).1 <==>
            placed && (|m.entries| + 1 < c.maxItems || !NoRoomToMake(c, m.entries, m.nextScan, now))
  {
    hide Keep, NoRoomToMake, Listed, MakeRoom, Touch, ExpiryOf, ScanAfter;
    MakeRoomIdleIff(c, m, now);
    MakeRoomShrinks(c, m, now);
    LeftIsAll(m.entries, MakeRoom(c, m, now).entries);
    SmallerMap(MakeRoom(c, m, now).entries, m.entries);
  }

  /** What a successful set stores. An update keeps the flags of the entry, and with a fixed expiry its expiry. */
  lemma SetStores(c: Config, m: Model, k: Key, v: seq<byte>, expires: nat, flags: Flags, now: nat, placed: bool)
    requires Set(c, m, k, v, expires, flags, now, placed).1
    ensures var m' := Set(c, m, k, v, expires, flags, now, placed).0;
            var stamp := if !c.purgeLru && expires > 0 && !flags.absExpire then expires + now else expires;
            && k in m'.entries
            && m'.entries[k] ==
               if !Alive(c, m, k, now) then Entry(v, stamp, flags)
               else Entry(v, if flags.fixExpire then m.entries[k].expires else stamp, m.entries[k].flags)
  {
    hide Keep, MakeRoom, Insert, Update, Lazy, Alive, Acceptable;
    LazyLeaves(c, m, k, now);
    if Alive(c, m, k, now) {
      UpdateSpares(c, m, k, v, expires, flags, now, placed);
    } else {
      InsertSpares(c, Lazy(c, m, k, now), k, v, expires, flags, now, placed);
    }
  }

  /** What a successful set does to the other entries: nothing, unless a full cache makes room for a new key. */
  lemma SetSpares(c: Config, m: Model, k: Key, v: seq<byte>, expires: nat, flags: Flags, now: nat, placed: bool)
    requires Set(c, m, k, v, expires, flags, now, placed).1
    ensures var m' := Set(c, m, k, v, expires, flags, now, placed).0;
            var m0 := Lazy(c, m, k, now);
            var full := !Alive(c, m, k, now) && |m.entries - {k}| + 1 >= c.maxItems;
            m'.entries - {k} == if full then MakeRoom(c, m0, now).entries - {k} else m.entries - {k}
  {
    hide Keep, MakeRoom, Insert, Update, Lazy, Alive, Acceptable;
    LazyLeaves(c, m, k, now);
    if Alive(c, m, k, now) {
      UpdateSpares(c, m, k, v, expires, flags, now, placed);
    } else {
      assert (m.entries - {k}) - {k} == m.entries - {k};
      InsertSpares(c, Lazy(c, m, k, now), k, v, expires, flags, now, placed);
    }
  }

  /** The next scan after a successful set that made no room: the least of what it was and the new expiry. */
  lemma SetSchedules(c: Config, m: Model, k: Key, v: seq<byte>, expires: nat, flags: Flags, now: nat, placed: bool)
    requires Set(c, m, k, v, expires, flags, now, placed).1
    requires Alive(c, m, k, now) || |m.entries - {k}| + 1 < c.maxItems
    ensures var m' := Set(c, m, k, v, expires, flags, now, placed).0;
            var counts := !c.purgeLru && expires > 0 && !flags.absExpire && !(Alive(c, m, k, now) && flags.fixExpire);
            m'.nextScan == if counts && !(0 < m.nextScan <= expires + now) then expires + now else m.nextScan
  {
    hide Keep, MakeRoom, Insert, Update, Lazy, Alive, Acceptable;
    LazyLeaves(c, m, k, now);
    if Alive(c, m, k, now) {
      UpdateSpares(c, m, k, v, expires, flags, now, placed);
    } else {
      InsertSpares(c, Lazy(c, m, k, now), k, v, expires, flags, now, placed);
    }
  }

  lemma InsertSpares(c: Config, m: Model, k: Key, v: seq<byte>, expires: nat, flags: Flags, now: nat, placed: bool)
    requires k !in m.entries && Insert(c, m, k, v, expires, flags, now, placed).1
    ensures var m' := Insert(c, m, k, v, expires, flags, now, placed).0;
            && m'.entries - {k} == (if |m.entries| + 1 >= c.maxItems then MakeRoom(c, m, now) else m).entries - {k}
            && (|m.entries| + 1 < c.maxItems ==> m'.nextScan == ScanAfter(c, m.nextScan, expires, flags, now))
            && k in m'.entries && m'.entries[k] == Entry(v, ExpiryOf(c, expires, flags, now), flags)
  {
    hide Keep, MakeRoom, ExpiryOf, ScanAfter;
  }

  lemma UpdateSpares(c: Config, m: Model, k: Key, v: seq<byte>, expires: nat, flags: Flags, now: nat, placed: bool)
    requires k in m.entries && Update(c, m, k, v, expires, flags, now, placed).1
    ensures var m' := Update(c, m, k, v, expires, flags, now, placed).0;
            && m'.entries - {k} == m.entries - {k}
            && m'.nextScan == (if flags.fixExpire then m.nextScan else ScanAfter(c, m.nextScan, expires, flags, now))
            && k in m'.entries && m'.entries[k].value == v && m'.entries[k].flags == m.entries[k].flags
            && m'.entries[k].expires ==
               if flags.fixExpire then m.entries[k].expires else ExpiryOf(c, expires, flags, now)
  {
    hide Keep, MakeRoom, ExpiryOf, ScanAfter;
  }

  /** The order after a successful set that made no room: the key comes last, unless an update left its expiry. */
  lemma SetTouches(c: Config, m: Model, k: Key, v: seq<byte>, expires: nat, flags: Flags, now: nat, placed: bool)
    requires c.purgeLru && Listed(m) && Set(c, m, k, v, expires, flags, now, placed).1
    requires Alive(c, m, k, now) || |m.entries - {k}| + 1 < c.maxItems
    ensures var s, s' := m.recency, Set(c, m, k, v, expires, flags, now, placed).0.recency;
            if Alive(c, m, k, now) && flags.fixExpire then s' == s
            else if k in m.entries then |s'| > 0 && s'[|s'| - 1] == k && Drops(s, s'[..|s'| - 1], k)
            else s' == s + [k]
  {
    hide Keep, MakeRoom, Drops, ExpiryOf, ScanAfter, Insert, Update, Lazy, Alive, Acceptable;
    LazyLeaves(c, m, k, now);
    InsertNeedsBlocks(c, Lazy(c, m, k, now), k, v, expires, flags, now, placed);
    if Alive(c, m, k, now) {
      UpdateFailsUnplaced(c, m, k, v, expires, flags, now, placed);
      UpdateTouches(c, m, k, v, expires, flags, now, placed);
    } else {
      InsertTouches(c, m, Lazy(c, m, k, now), k, v, expires, flags, now, placed);
    }
  }

  lemma InsertNeedsBlocks(c: Config, m: Model, k: Key, v: seq<byte>, expires: nat, flags: Flags, now: nat, placed: bool)
    ensures Insert(c, m, k, v, expires, flags, now, placed).1 ==> placed
  {
    hide Keep, MakeRoom;
  }

  lemma UpdateTouches(c: Config, m: Model, k: Key, v: seq<byte>, expires: nat, flags: Flags, now: nat, placed: bool)
    requires c.purgeLru && Listed(m) && k in m.entries && placed
    ensures var s, s' := m.recency, Update(c, m, k, v, expires, flags, now, placed).0.recency;
            if flags.fixExpire then s' == s
            else |s'| > 0 && s'[|s'| - 1] == k && Drops(s, s'[..|s'| - 1], k)
  {
    hide Keep, MakeRoom, Drops, ExpiryOf, ScanAfter, Listed;
    KeepDrops(m, k);
    SameKeys(c, m, k, v, ExpiryOf(c, expires, flags, now), flags);
  }

  lemma InsertTouches(c: Config, m: Model, m0: Model, k: Key, v: seq<byte>, expires: nat, flags: Flags, now: nat,
                      placed: bool)
    requires c.purgeLru && Listed(m) && placed && |m0.entries| + 1 < c.maxItems && m0.entries == m.entries - {k}
    requires if k in m.entries then m0 == Delete(m, k) else m0 == m
    ensures var s, s' := m.recency, Insert(c, m0, k, v, expires, flags, now, placed).0.recency;
            if k in m.entries then |s'| > 0 && s'[|s'| - 1] == k && Drops(s, s'[..|s'| - 1], k) else s' == s + [k]
  {
    hide Keep, MakeRoom, Drops, ExpiryOf, ScanAfter;
    if k in m.entries {
      KeepDrops(m, k);
      SameKeys(c, m, k, v, ExpiryOf(c, expires, flags, now), flags);
      LazyIsDropped(m, k);
    } else {
      assert forall i :: 0 <= i < |m.recency| ==> m.recency[i] in m.recency;
      KeepAll(m.recency, m.entries[k := Entry(v, ExpiryOf(c, expires, flags, now), flags)].Keys - {k});
    }
  }

  lemma SameKeys(c: Config, m: Model, k: Key, v: seq<byte>, e: nat, flags: Flags)
    requires k in m.entries
    ensures m.entries[k := m.entries[k].(expires := e)].Keys == m.entries.Keys
    ensures (m.entries - {k})[k := Entry(v, e, flags)].Keys == m.entries.Keys
  {}

  /** Taking out the key twice is taking it out once. */
  lemma LazyIsDropped(m: Model, k: Key)
    requires k in m.entries
    ensures Keep(Keep(m.recency, (m.entries - {k}).Keys), m.entries.Keys - {k}) == Keep(m.recency, m.entries.Keys - {k})
  {
    assert (m.entries - {k}).Keys == m.entries.Keys - {k};
    KeepTwice(m.recency, m.entries.Keys - {k}, m.entries.Keys - {k});
  }

  // ---------------------------------------------------------------- what callers are promised

  /** The answer of a get, and what it leaves. */
  ghost predicate GetPromise(c: Config, m: Model, k: Key, now: nat, m': Model, found: Option<Entry>) {
    && (forall e :: found == Some(e) <==>
          k in m.entries && m.entries[k] == e && !e.flags.ungettable && !(c.lazyExpire && 0 < e.expires <= now))
    && m'.entries == (if Alive(c, m, k, now) then m.entries else m.entries - {k}) && m'.nextScan == m.nextScan
    && (k !in m.entries || (Alive(c, m, k, now) && found.None?) ==> m' == m)
    && (c.purgeLru && found.Some? ==>
        |m'.recency| > 0 && m'.recency[|m'.recency| - 1] == k &&
        Drops(m.recency, m'.recency[..|m'.recency| - 1], k))
  }

  lemma GetKeepsPromise(c: Config, m: Model, k: Key, now: nat)
    requires if c.purgeLru then Listed(m) else m.recency == []
    ensures GetPromise(c, m, k, now, Get(c, m, k, now).0, Get(c, m, k, now).1)
  {
    hide Get, Drops, Alive;
    GetLeaves(c, m, k, now);
    forall e {
      GetGivesIff(c, m, k, now, e);
    }
  }

  /** The answer of a delete, and what it leaves. */
  ghost predicate DelPromise(c: Config, m: Model, k: Key, now: nat, m': Model, ok: bool) {
    && (ok <==> k in m.entries && !(c.lazyExpire && 0 < m.entries[k].expires <= now))
    && m'.entries == m.entries - {k} && m'.nextScan == m.nextScan
    && (c.purgeLru && k in m.entries ==> Drops(m.recency, m'.recency, k))
  }

  lemma DelKeepsPromise(c: Config, m: Model, k: Key, now: nat)
    requires if c.purgeLru then Listed(m) else m.recency == []
    ensures DelPromise(c, m, k, now, Del(c, m, k, now).0, Del(c, m, k, now).1)
  {
    hide Del, Drops;
    DelLaw(c, m, k, now);
  }

  /** The answer of a set, what it stores, and what becomes of the other entries. */
  ghost predicate SetPromise(c: Config, m: Model, k: Key, v: seq<byte>, expires: nat, flags: Flags, now: nat,
                             placed: bool, m': Model, ok: bool)
  {
    var stamp := if !c.purgeLru && expires > 0 && !flags.absExpire then expires + now else expires;
    && (ok <==> Sized(c, k, v) && placed && if Alive(c, m, k, now) then flags.update else HasRoom(c, m, k, now))
    && (!Sized(c, k, v) || (Alive(c, m, k, now) && !flags.update) ==> m' == m)
    && (ok ==> k in m'.entries)
    && (ok && !Alive(c, m, k, now) ==> m'.entries[k] == Entry(v, stamp, flags))
    && (ok && Alive(c, m, k, now) ==>
        m'.entries[k] == Entry(v, if flags.fixExpire then m.entries[k].expires else stamp, m.entries[k].flags))
    && (ok && (Alive(c, m, k, now) || |m.entries - {k}| + 1 < c.maxItems) ==> m'.entries - {k} == m.entries - {k})
    && (forall k' :: k' in m'.entries && k' != k ==> k' in m.entries && m'.entries[k'] == m.entries[k'])
  }

  lemma SetKeepsPromise(c: Config, m: Model, k: Key, v: seq<byte>, expires: nat, flags: Flags, now: nat, placed: bool)
    requires |m.entries| < c.maxItems && (c.purgeLru ==> Listed(m))
    ensures var (m', ok) := Set(c, m, k, v, expires, flags, now, placed);
            SetPromise(c, m, k, v, expires, flags, now, placed, m', ok)
  {
    hide Set, Alive, Sized, HasRoom, Listed, Lazy, MakeRoom;
    var (m', ok) := Set(c, m, k, v, expires, flags, now, placed);
    SetSucceedsIff(c, m, k, v, expires, flags, now, placed);
    if !Sized(c, k, v) || (Alive(c, m, k, now) && !flags.update) {
      SetRefuses(c, m, k, v, expires, flags, now, placed);
    }
    if ok {
      SetStores(c, m, k, v, expires, flags, now, placed);
      SetSpares(c, m, k, v, expires, flags, now, placed);
    }
    forall k' | k' in m'.entries && k' != k
      ensures k' in m.entries && m'.entries[k'] == m.entries[k']
    {
      SetIsLocal(c, m, k, v, expires, flags, now, placed, k');
    }
  }

  lemma AnySetKeepsPromise(c: Config, m: Model, k: Key, v: seq<byte>, expires: nat, flags: Flags, now: nat)
    requires |m.entries| < c.maxItems && (c.purgeLru ==> Listed(m))
    ensures forall p ::
              var (m', ok) := Set(c, m, k, v, expires, flags, now, p);
              SetPromise(c, m, k, v, expires, flags, now, p, m', ok)
    ensures k in m.entries && !(c.lazyExpire && 0 < m.entries[k].expires <= now) && !flags.update ==>
              forall p :: Set(c, m, k, v, expires, flags, now, p) == (m, false)
  {
    hide Set, SetPromise;
    forall p
      ensures var (m', ok) := Set(c, m, k, v, expires, flags, now, p);
              SetPromise(c, m, k, v, expires, flags, now, p, m', ok)
    {
      SetKeepsPromise(c, m, k, v, expires, flags, now, p);
    }
    if Alive(c, m, k, now) && !flags.update {
      forall p
        ensures Set(c, m, k, v, expires, flags, now, p) == (m, false)
      {
        SetRefuses(c, m, k, v, expires, flags, now, p);
      }
    }
  }

  // ---------------------------------------------------------------- whole runs

  /** Operation i of the run has stored v under k, and nothing after it has stored or deleted k successfully. */
  ghost predicate LastStored(ops: seq<Op>, outs: seq<Out>, k: Key, v: seq<byte>, i: nat)
    requires |ops| == |outs|
  {
    && i < |ops| && ops[i].OpSet? && ops[i].key == k && ops[i].value == v && outs[i] == Stored(true)
    && (forall j :: i < j < |ops| && ops[j].key == k ==>
          !(ops[j].OpSet? && outs[j] == Stored(true)) && !(ops[j].OpDel? && outs[j] == Deleted(true)))
  }

  /** After every run, what the cache has under a key is what was stored there last. */
  lemma {:induction false} ValueWasStored(c: Config, ops: seq<Op>, placed: seq<bool>, k: Key) returns (i: nat)
    requires |placed| == |ops| && k in Run(c, EMPTY_MODEL, ops, placed).0.entries
    ensures var (m, outs) := Run(c, EMPTY_MODEL, ops, placed); LastStored(ops, outs, k, m.entries[k].value, i)
  {
    hide Step;
    i := 0;
    if ops != [] {
      var n := |ops| - 1;
      var (m, outs) := Run(c, EMPTY_MODEL, ops[..n], placed[..n]);
      StepValue(c, m, ops[n], placed[n], k);
      if ops[n].OpSet? && ops[n].key == k && Step(c, m, ops[n], placed[n]).1 == Stored(true) {
        i := n;
      } else {
        i := ValueWasStored(c, ops[..n], placed[..n], k);
      }
    }
  }

  /** One step changes the value of a key only by storing it, and a deleted key is gone. */
  lemma StepValue(c: Config, m: Model, op: Op, placed: bool, k: Key)
    requires k in Step(c, m, op, placed).0.entries
    ensures var (m', out) := Step(c, m, op, placed);
            if op.OpSet? && op.key == k && out == Stored(true) then m'.entries[k].value == op.value
            else && k in m.entries && m'.entries[k].value == m.entries[k].value
                 && !(op.OpDel? && op.key == k && out == Deleted(true))
  {
    hide Keep, MakeRoom, ExpiryOf, ScanAfter;
    match op {
      case OpSet(k0, v, e, f, now) =>
        if k0 != k {
          hide Set;
          SetIsLocal(c, m, k0, v, e, f, now, placed, k);
        } else {
          SetValue(c, m, k, v, e, f, now, placed);
        }
      case OpGet(_, _) =>
      case OpDel(_, _) =>
    }
  }

  lemma SetValue(c: Config, m: Model, k: Key, v: seq<byte>, e: nat, f: Flags, now: nat, placed: bool)
    requires k in Set(c, m, k, v, e, f, now, placed).0.entries
    ensures var (m', ok) := Set(c, m, k, v, e, f, now, placed);
            if ok then m'.entries[k].value == v else k in m.entries && m'.entries[k].value == m.entries[k].value
  {
    hide Keep, MakeRoom, ExpiryOf, ScanAfter;
    var m0 := Lazy(c, m, k, now);
    var m1 := if IsFull(c, m0) then MakeRoom(c, m0, now) else m0;
    MakeRoomShrinks(c, m0, now);
    MakeRoomShrinks(c, m1, now);
    if k in m0.entries {
      MakeRoomShrinks(c, if f.fixExpire then m0 else Refreshed(c, m0, k, e, f, now), now);
    }
  }
}
