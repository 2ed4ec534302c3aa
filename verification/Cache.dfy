/** The shared-memory cache of core/cache.c: index, allocator and eviction policy over a fixed pool of slots.
    The records of struct uwsgi_cache_item are spread over three parallel tables: the payload, the bucket
    links and the LRU links. Each method is one critical section of the cache lock. */
module Cache {
  import opened Collections
  import opened Wrappers
  import opened Bytes
  import opened SlotLists
  import opened CacheModel
  import opened CacheSlots
  import opened CacheSteps
  import opened CacheBlocks
  import opened CacheLaws
  import CacheTheorems
  import Bitmap

  class Store {
    const c: Config
    const bitmap: array<bv8>
    const data: array<byte>
    var recs: seq<Record>
    var chainLinks: seq<Links>
    var lruLinks: seq<Links>
    var hashtable: seq<nat>
    var stack: seq<nat>
    var sp: nat
    var lruHead: nat
    var lruTail: nat
    var nItems: nat
    var nextScan: nat
    var bitmapPos: nat
    ghost var g: Shape

    ghost function S(): Slots
      reads this
    {
      Slots(recs, chainLinks, lruLinks, hashtable, stack, sp, lruHead, lruTail, nItems)
    }

    ghost predicate Valid()
      reads this, bitmap, data
    {
      && 8 * bitmap.Length < c.blocks + 8 && bitmap as object != data
      && (bitmapPos == 0 || bitmapPos < c.blocks)
      && Inv(c, S(), g, data[..], Bitmap.Bits(bitmap[..]))
    }

    /** The abstract value of the cache. */
    ghost function M(): Model
      reads this
    {
      Abstract(c, S(), g, nextScan)
    }

    /** Where the values are, in bitmap mode. */
    ghost function B(): Blocks
      reads this
    {
      Blocks(PlaceOf(recs), bitmapPos)
    }

    /** uwsgi_cache_init without a store: all slots free, all blocks free but the padding of the last byte. */
    constructor (c: Config)
      requires c.Ok()
      ensures this.c == c && Valid() && fresh(bitmap) && fresh(data)
      ensures M() == Model(map[], [], 0) && B() == Blocks(map[], 0)
    {
      this.c := c;
      data := new byte[Offset(c.blocks, c.blocksize)](_ => 0);
      var m := c.blocks % 8;
      var size := if !c.bitmap then 0 else if m > 0 then c.blocks / 8 + 1 else c.blocks / 8;
      var map0 := new bv8[size](_ => 0);
      if c.bitmap && m > 0 {
        map0[size - 1] := 0xff >> m;
      }
      bitmap := map0;
      recs := seq(c.maxItems, _ => EMPTY);
      chainLinks := seq(c.maxItems, _ => Links(0, 0));
      lruLinks := seq(c.maxItems, _ => Links(0, 0));
      hashtable := seq(c.hashsize, _ => 0);
      var st: seq<nat>, p := seq(c.maxItems, _ => 0), 0;
      for i := 1 to c.maxItems
        invariant p == i - 1 && |st| == c.maxItems && forall j :: 0 < j < i ==> st[j] == j
      {
        p := p + 1;
        st := st[p := i];
      }
      stack, sp := st, p;
      lruHead, lruTail, nItems, nextScan, bitmapPos := 0, 0, 0, 0, 0;
      g := Shape(seq(c.hashsize, _ => []), [], map[]);
      new;
      if c.bitmap {
        InitialBits(bitmap[..], c.blocks);
      }
      InitialInv(c, S(), g, data[..], Bitmap.Bits(bitmap[..]));
    }

    // -------------------------------------------------------------- the LRU list

    /** lru_remove_item */
    method LruRemoveItem(i: nat)
      requires LruBound(S(), i)
      modifies this`lruHead, this`lruTail, this`lruLinks
      ensures S() == LruRemove(old(S()), i)
    {
      var Links(prev, next) := lruLinks[i];
      if next != 0 {
        lruLinks := lruLinks[next := lruLinks[next].(prev := prev)];
      } else {
        lruTail := prev;
      }
      if prev != 0 {
        lruLinks := lruLinks[prev := lruLinks[prev].(next := next)];
      } else {
        lruHead := next;
      }
    }

    /** lru_add_item */
    method LruAddItem(i: nat)
      requires i < |lruLinks| && lruTail < |lruLinks|
      modifies this`lruHead, this`lruTail, this`lruLinks
      ensures S() == LruAdd(old(S()), i)
    {
      if lruTail != 0 {
        lruLinks := lruLinks[lruTail := lruLinks[lruTail].(next := i)];
      } else {
        lruHead := i;
      }
      lruLinks := lruLinks[i := Links(lruTail, 0)];
      lruTail := i;
    }

    // -------------------------------------------------------------- deletion

    /** The bucket part of del2: join the neighbours, and give the table entry a new first slot if need be. */
    method BucketRemove(i: nat)
      requires i < |chainLinks| && chainLinks[i].prev < |chainLinks| && chainLinks[i].next < |chainLinks|
      requires i < |recs| && |hashtable| > 0
      modifies this`chainLinks, this`hashtable
      ensures S() == UnlinkSlot(old(S()), i)
    {
      var Links(prev, next) := chainLinks[i];
      BucketOfIsRemainder(recs[i].hash, |hashtable|);
      var h := recs[i].hash % |hashtable|;
      if prev != 0 {
        chainLinks := chainLinks[prev := chainLinks[prev].(next := next)];
      } else {
        hashtable := hashtable[h := next];
      }
      if next != 0 {
        chainLinks := chainLinks[next := chainLinks[next].(prev := prev)];
      }
      if prev == 0 && next == 0 {
        hashtable := hashtable[h := 0];
      }
      chainLinks := chainLinks[i := Links(0, 0)];
    }

    /** cache_unmark_blocks on the blocks of slot i */
    method ReleaseBlocks(i: nat)
      requires Valid() && 0 < i < |recs| && Live(recs[i])
      modifies bitmap
      ensures c.bitmap ==> BitsMatch(c, recs[i := Freed(recs[i])], Bitmap.Bits(bitmap[..]))
    {
      hide BitsMatch, Bitmap.Bits, Bitmap.PaintedBits, Buckets, FreeStack, LruMembers, Queue, Contents, Space;
      ContentsSpace(c, recs, data[..], g.entries);
      ContentsKey(c, recs, data[..], g.entries, i);
      if c.bitmap {
        BitsLength(c, recs, bitmap[..]);
        ghost var before := bitmap[..];
        Bitmap.UnmarkBlocks(bitmap, recs[i].firstBlock, recs[i].valsize, c.blocksize);
        Bitmap.PaintedMap(before, bitmap[..], recs[i].firstBlock, Extent(c, recs[i]), false);
        BitsAfterFree(c, recs, Bitmap.Bits(before), Bitmap.Bits(bitmap[..]), i);
      }
    }

    /** What del2 does to the tables for a live slot. */
    method ClearSlot(i: nat)
      requires Bound(c, S(), i)
      modifies this`recs, this`stack, this`sp, this`nItems, this`chainLinks, this`hashtable,
               this`lruHead, this`lruTail, this`lruLinks
      ensures S() == FreeSlot(c, old(S()), i)
    {
      hide WithNext, WithPrev, BucketOf;
      sp := sp + 1;
      stack := stack[sp := i];
      BucketRemove(i);
      if c.purgeLru {
        LruRemoveItem(i);
      }
      nItems := nItems - 1;
      recs := recs[i := recs[i].(key := [], hash := 0, valsize := 0, expires := 0)];
    }

    /** del2 with a slot number. A slot that is already free is left as it is. */
    method DelSlot(i: nat)
      requires Valid() && 0 < i < |recs|
      modifies this, bitmap
      ensures Valid() && bitmapPos == old(bitmapPos)
      ensures M() == if old(Live(recs[i])) then Delete(old(M()), old(recs[i].key)) else old(M())
      ensures recs == old(recs)[i := Freed(old(recs[i]))]
    {
      hide Inv, Delete, Recency, Bitmap.Bits, UnlinkSlot, LruRemove;
      if |recs[i].key| > 0 {
        ghost var before := bitmap[..];
        ReleaseBlocks(i);
        ghost var g' := FreeSlotKeeps(c, S(), g, data[..], Bitmap.Bits(before), Bitmap.Bits(bitmap[..]), i);
        ClearSlot(i);
        g := g';
      } else {
        InvFree(c, S(), g, data[..], Bitmap.Bits(bitmap[..]), i);
        recs := recs[i := recs[i].(key := [], hash := 0, valsize := 0, expires := 0)];
      }
    }

    // -------------------------------------------------------------- look-up

    /** The chain walk of uwsgi_cache_get_index: the slot of the key, or 0. */
    method FindSlot(key: Key) returns (slot: nat)
      requires Valid()
      ensures slot == 0 <==> key !in g.entries
      ensures slot != 0 ==> slot < |recs| && Live(recs[slot]) && recs[slot].key == key
    {
      hide Inv, Bitmap.Bits, BucketOf, Abstract, Recency;
      InvSizes(c, S(), g, data[..], Bitmap.Bits(bitmap[..]));
      InvChains(c, S(), g, data[..], Bitmap.Bits(bitmap[..]));
      var hash := c.hash(key);
      var hashKey := hash % |hashtable|;
      BucketOfIsRemainder(hash, |hashtable|);
      ChainFacts(c, S(), g, data[..], Bitmap.Bits(bitmap[..]), hashKey);
      ghost var ch, j := g.chains[hashKey], 0;
      slot := hashtable[hashKey];
      assert |ch| > 0 ==> Node(S(), ch, 0, hashKey);
      if slot == 0 {
        NotOnChain(c, S(), g, data[..], Bitmap.Bits(bitmap[..]), key);
        return;
      }
      BucketOfIsRemainder(recs[slot].hash, |hashtable|);
      if recs[slot].hash % |hashtable| != hashKey {
        assert false;
      }
      var rounds := 0;
      while !(recs[slot].hash == hash && |recs[slot].key| == |key| && recs[slot].key == key)
        invariant 0 <= j < |ch| && slot == ch[j] && rounds == j && Node(S(), ch, j, hashKey)
        invariant forall k :: 0 <= k < j ==> ch[k] < |recs| && recs[ch[k]].key != key
        decreases |ch| - j
      {
        LiveFacts(c, S(), g, data[..], Bitmap.Bits(bitmap[..]), slot);
        if chainLinks[slot].next == 0 {
          assert j + 1 < |ch| ==> Node(S(), ch, j + 1, hashKey);
          NotOnChain(c, S(), g, data[..], Bitmap.Bits(bitmap[..]), key);
          slot := 0;
          return;
        }
        slot, j := chainLinks[slot].next, j + 1;
        assert Node(S(), ch, j, hashKey);
        rounds := rounds + 1;
        // the "cache-loop" alarm
        if rounds > c.maxItems {
          assert false;
        }
      }
      LiveFacts(c, S(), g, data[..], Bitmap.Bits(bitmap[..]), slot);
    }

    /** uwsgi_cache_get_index: the chain walk and check_lazy. */
    method GetIndex(key: Key, now: nat) returns (slot: nat)
      requires Valid()
      modifies this, bitmap
      ensures Valid() && M() == Lazy(c, old(M()), key, now)
      ensures slot == 0 <==> key !in g.entries
      ensures slot != 0 ==> slot < |recs| && Live(recs[slot]) && recs[slot].key == key
      ensures old(M()) == M() ==> bitmap[..] == old(bitmap[..]) && bitmapPos == old(bitmapPos) && sp == old(sp)
      ensures OnlyFreed(old(recs), recs) && bitmapPos == old(bitmapPos) && nextScan == old(nextScan)
    {
      hide Inv, Bitmap.Bits, Recency, Keep;
      slot := FindSlot(key);
      if slot != 0 {
        LiveFacts(c, S(), g, data[..], Bitmap.Bits(bitmap[..]), slot);
        if recs[slot].expires == 0 || !c.lazyExpire {
          return;
        }
        if recs[slot].expires <= now {
          DelSlot(slot);
          slot := 0;
        }
      }
    }

    /** del2 with a key. */
    method Del2(key: Key, now: nat) returns (ok: bool)
      requires Valid()
      modifies this, bitmap
      ensures Valid() && (M(), ok) == Del(c, old(M()), key, now)
      ensures ok <==> key in old(M()).entries && !(c.lazyExpire && 0 < old(M()).entries[key].expires <= now)
      ensures M().entries == old(M()).entries - {key}
      ensures DelPromise(c, old(M()), key, now, M(), ok)
      ensures OnlyFreed(old(recs), recs) && bitmapPos == old(bitmapPos)
    {
      hide Inv, Recency, Keep, Delete, Drops, CacheTheorems.Listed;
      TablesRepresent(c, S(), g, data[..], Bitmap.Bits(bitmap[..]), nextScan);
      DelKeepsPromise(c, M(), key, now);
      var index := GetIndex(key, now);
      ok := index != 0;
      if ok {
        DelSlot(index);
      }
    }

    /** get2 and get3: the value bytes, the expiry and the flags, and a touch. */
    method Get2(key: Key, now: nat) returns (found: Option<Entry>)
      requires Valid()
      modifies this, bitmap
      ensures Valid() && (M(), found) == Get(c, old(M()), key, now)
      ensures GetPromise(c, old(M()), key, now, M(), found)
      ensures OnlyFreed(old(recs), recs) && bitmapPos == old(bitmapPos)
    {
      hide Inv, Recency, Keep, LruRemove, LruAdd, GetPromise, CacheTheorems.Listed;
      TablesRepresent(c, S(), g, data[..], Bitmap.Bits(bitmap[..]), nextScan);
      GetKeepsPromise(c, M(), key, now);
      var index := GetIndex(key, now);
      found := None;
      if index != 0 {
        LiveFacts(c, S(), g, data[..], Bitmap.Bits(bitmap[..]), index);
        if recs[index].flags.ungettable {
          return;
        }
        ghost var g' := TouchSlotKeeps(c, S(), g, data[..], Bitmap.Bits(bitmap[..]), index);
        if c.purgeLru {
          LruRemoveItem(index);
          LruAddItem(index);
        }
        g := g';
        InData(c, S(), g, data[..], Bitmap.Bits(bitmap[..]), index);
        LiveFacts(c, S(), g, data[..], Bitmap.Bits(bitmap[..]), index);
        var at := Offset(recs[index].firstBlock, c.blocksize);
        found := Some(Entry(data[at..at + recs[index].valsize], recs[index].expires, recs[index].flags));
      }
    }

    // -------------------------------------------------------------- making room

    /** One slot of the sweep_on_full pass. */
    method SweepOne(i: nat, now: nat, ghost m0: Model) returns (freed: bool)
      requires Valid() && 0 < i < |recs| && Between(m0, g.entries, now) && M() == Shrink(m0, g.entries)
      modifies this, bitmap
      ensures Valid() && bitmapPos == old(bitmapPos) && Between(m0, g.entries, now) && M() == Shrink(m0, g.entries)
      ensures |g.entries| == |old(g.entries)| - if freed then 1 else 0
      ensures recs == if freed then old(recs)[i := Freed(old(recs[i]))] else old(recs)
      ensures freed <==> 0 < old(recs[i].expires) <= now
    {
      hide Inv, Recency, Keep, Bitmap.Bits;
      LiveFacts(c, S(), g, data[..], Bitmap.Bits(bitmap[..]), i);
      freed := recs[i].expires > 0 && recs[i].expires <= now;
      if freed {
        ghost var e := g.entries;
        OneLess(e, recs[i].key);
        ShrinkTwice(m0, e, e - {recs[i].key});
        DelSlot(i);
      }
    }

    /** The sweep_on_full pass of cache_full: every expired slot is deleted. */
    method SweepExpired(now: nat) returns (removed: nat)
      requires Valid()
      modifies this, bitmap
      ensures Valid() && M() == Shrink(old(M()), Unexpired(old(M()), now))
      ensures removed == |old(M()).entries| - |M().entries|
      ensures OnlyFreed(old(recs), recs) && bitmapPos == old(bitmapPos)
    {
      hide Inv, Recency, Keep, Bitmap.Bits;
      removed := 0;
      ghost var m0 := M();
      KeepsEverything(c, S(), g, data[..], Bitmap.Bits(bitmap[..]), nextScan);
      InvSizes(c, S(), g, data[..], Bitmap.Bits(bitmap[..]));
      for i := 1 to c.maxItems
        invariant Valid() && |recs| == c.maxItems && nextScan == m0.nextScan && OnlyFreed(old(recs), recs) &&
                  bitmapPos == old(bitmapPos)
        invariant M() == Shrink(m0, g.entries) && removed == |m0.entries| - |g.entries|
        invariant Between(m0, g.entries, now)
        invariant forall q :: 0 < q < i ==> !(0 < recs[q].expires <= now)
      {
        var freed := SweepOne(i, now, m0);
        if freed {
          removed := removed + 1;
        }
      }
      NothingExpired(c, S(), g, data[..], Bitmap.Bits(bitmap[..]), m0, now);
    }

    /** The clear_on_full pass of cache_full: every slot is deleted. */
    method ClearAll()
      requires Valid()
      modifies this, bitmap
      ensures Valid() && M() == Shrink(old(M()), map[])
      ensures OnlyFreed(old(recs), recs) && bitmapPos == old(bitmapPos)
    {
      hide Inv, Recency, Keep, Bitmap.Bits;
      ghost var m0 := M();
      KeepsEverything(c, S(), g, data[..], Bitmap.Bits(bitmap[..]), nextScan);
      InvSizes(c, S(), g, data[..], Bitmap.Bits(bitmap[..]));
      for i := 1 to c.maxItems
        invariant Valid() && |recs| == c.maxItems && nextScan == m0.nextScan && OnlyFreed(old(recs), recs) &&
                  bitmapPos == old(bitmapPos)
        invariant M() == Shrink(m0, g.entries) && g.entries.Keys <= m0.entries.Keys
        invariant forall q :: 0 < q < i ==> !Live(recs[q])
      {
        ShrinkTwice(m0, g.entries, g.entries - {recs[i].key});
        DelSlot(i);
      }
      if k :| k in g.entries {
        var q := KeyHasSlot(c, S(), g, data[..], Bitmap.Bits(bitmap[..]), k);
        assert false;
      }
    }

    /** The purge_lru part of cache_full: the head of the LRU list is deleted. */
    method PurgeHead()
      requires Valid() && c.purgeLru
      modifies this, bitmap
      ensures Valid() && M() == PurgeOldest(c, old(M())) && nextScan == old(nextScan)
      ensures OnlyFreed(old(recs), recs) && bitmapPos == old(bitmapPos)
    {
      hide Inv, Recency, Keep, Bitmap.Bits;
      HeadIsOldest(c, S(), g, data[..], Bitmap.Bits(bitmap[..]));
      if lruHead != 0 {
        DelSlot(lruHead);
      }
    }

    /** The sweep_on_full part of cache_full. */
    method SweepIfDue(now: nat) returns (removed: nat)
      requires Valid() && c.sweepOnFull > 0
      modifies this, bitmap
      ensures Valid()
      ensures M() == if SweepDue(c, old(M()), now)
                     then Shrink(old(M()), Unexpired(old(M()), now)).(nextScan := now + c.sweepOnFull) else old(M())
      ensures removed == |old(M()).entries| - |M().entries|
      ensures OnlyFreed(old(recs), recs) && bitmapPos == old(bitmapPos)
    {
      hide Inv, Recency, Keep, Bitmap.Bits;
      removed := 0;
      if nextScan <= now {
        nextScan := now + c.sweepOnFull;
        removed := SweepExpired(now);
      }
    }

    /** cache_full */
    method CacheFull(now: nat)
      requires Valid()
      modifies this, bitmap
      ensures Valid() && M() == MakeRoom(c, old(M()), now)
      ensures RoomPromise(c, old(M()), now, M())
      ensures M().entries.Keys <= old(M()).entries.Keys
      ensures OnlyFreed(old(recs), recs) && bitmapPos == old(bitmapPos) &&
                (c.sweepOnFull == 0 ==> nextScan == old(nextScan))
    {
      hide Inv, Recency, Keep, Bitmap.Bits, RoomPromise, CacheTheorems.Listed;
      TablesRepresent(c, S(), g, data[..], Bitmap.Bits(bitmap[..]), nextScan);
      RoomLeaves(c, M(), now);
      var clearCache := c.clearOnFull;
      if c.purgeLru {
        PurgeHead();
      }
      assert M() == PurgeOldest(c, old(M()));
      if c.sweepOnFull > 0 {
        var removed := SweepIfDue(now);
        if removed > 0 {
          clearCache := false;
        }
      }
      if clearCache {
        ClearAll();
      }
    }

    // -------------------------------------------------------------- set2

    /** memcpy(uc->data + at, val, |val|) */
    method Memcpy(at: nat, val: seq<byte>)
      requires at + |val| <= data.Length
      modifies data
      ensures data[..] == Written(old(data[..]), at, val)
    {
      for i := 0 to |val|
        invariant forall k :: 0 <= k < data.Length ==> data[k] == if at <= k < at + i then val[k - at] else old(data[k])
      {
        data[at + i] := val[i];
      }
    }

    /** Find and mark blocks for a value of len bytes, and move the search hint behind them. */
    method Claim(len: nat) returns (fb: nat)
      requires 0 < len && c.blocks + 8 < Bitmap.NO_BLOCK && c.blocks <= 8 * bitmap.Length < c.blocks + 8
      requires bitmapPos == 0 || bitmapPos < c.blocks
      modifies bitmap, this`bitmapPos
      ensures bitmapPos == 0 || bitmapPos < c.blocks
      ensures fb != Bitmap.NO_BLOCK ==>
                var end := fb + Bitmap.NeededBlocks(len, c.blocksize); bitmapPos == if end >= c.blocks then 0 else end
      ensures var n, bits := Bitmap.NeededBlocks(len, c.blocksize), Bitmap.Bits(old(bitmap[..]));
              && (fb == Bitmap.NO_BLOCK <==> Bitmap.Search(bits, old(bitmapPos), n) == None)
              && (fb == Bitmap.NO_BLOCK ==> bitmap[..] == old(bitmap[..]) && bitmapPos == old(bitmapPos))
              && (fb != Bitmap.NO_BLOCK ==>
                  Bitmap.Search(bits, old(bitmapPos), n) == Some(fb) && Bitmap.ClearRun(bits, fb, n)
                                            && Bitmap.PaintedBits(bits, Bitmap.Bits(bitmap[..]), fb, n, true))
    {
      hide Bitmap.Bits, Bitmap.PaintedBits, Bitmap.Search, Bitmap.ClearRun, Bitmap.NeededBlocks;
      ghost var n, before := Bitmap.NeededBlocks(len, c.blocksize), bitmap[..];
      Bitmap.SearchSucceedsIff(Bitmap.Bits(before), bitmapPos, n);
      Bitmap.SearchInside(Bitmap.Bits(before), bitmapPos, n);
      fb := Bitmap.FindFreeBlocks(bitmap, bitmapPos, len, c.blocksize);
      if fb != Bitmap.NO_BLOCK {
        Bitmap.ClearRunInside(Bitmap.Bits(before), fb, n);
        var needed := Bitmap.MarkBlocks(bitmap, fb, len, c.blocksize);
        Bitmap.PaintedMap(before, bitmap[..], fb, n, true);
        bitmapPos := if fb + needed >= c.blocks then 0 else fb + needed;
      }
    }

    /** The end of a bucket chain, found by walking it. */
    method ChainEnd(h: nat, ghost s0: Slots, ghost d0: seq<byte>, ghost b0: seq<bool>) returns (last: nat)
      requires Inv(c, s0, g, d0, b0) && chainLinks == s0.chain && hashtable == s0.table && h < |hashtable|
      ensures |g.chains| == |hashtable| && last == Last(g.chains[h])
    {
      hide Inv, BucketOf;
      ChainFacts(c, s0, g, d0, b0, h);
      ghost var ch, j := g.chains[h], 0;
      last := hashtable[h];
      assert |ch| > 0 ==> Node(s0, ch, 0, h);
      if last != 0 {
        while chainLinks[last].next != 0
          invariant 0 <= j < |ch| && last == ch[j] && Node(s0, ch, j, h)
          invariant j + 1 < |ch| ==> Node(s0, ch, j + 1, h)
          decreases |ch| - j
        {
          last, j := chainLinks[last].next, j + 1;
        }
      }
    }

    /** What set2 does to the tables for a new key, once slot `index` has been popped. */
    method FillSlot(index: nat, r: Record, last: nat, ghost s0: Slots)
      requires CanStore(c, s0, last) && S() == s0.(sp := s0.sp - 1) && index == s0.stack[s0.sp]
      modifies this`recs, this`nItems, this`chainLinks, this`hashtable, this`lruHead, this`lruTail, this`lruLinks
      ensures S() == StoreNew(c, s0, r, last) && recs == s0.recs[index := r]
    {
      if c.purgeLru {
        LruAddItem(index);
      }
      recs := recs[index := r];
      BucketOfIsRemainder(r.hash, |hashtable|);
      var slot := r.hash % |hashtable|;
      chainLinks := WithNext(chainLinks, last, index)[index := Links(last, 0)];
      if hashtable[slot] == 0 {
        hashtable := hashtable[slot := index];
      }
      nItems := nItems + 1;
    }

    /** The expiry that set2 stores; a relative one is counted from now and may pull the next scan forward. */
    method StampExpiry(expires: nat, flags: Flags, now: nat) returns (expiry: nat)
      modifies this`nextScan
      ensures expiry == ExpiryOf(c, expires, flags, now)
      ensures nextScan == ScanAfter(c, old(nextScan), expires, flags, now)
    {
      expiry := expires;
      if !c.purgeLru && expires > 0 && !flags.absExpire {
        expiry := expires + now;
        if nextScan == 0 || nextScan > expiry {
          nextScan := expiry;
        }
      }
    }

    /** set2 on a new key, once slot `index` has been popped and the blocks have been found and marked. */
    method StoreAt(index: nat, fb: nat, key: Key, val: seq<byte>, expires: nat, flags: Flags, now: nat,
                   ghost s0: Slots, ghost bits0: seq<bool>)
      requires bitmap as object != data && Inv(c, s0, g, data[..], bits0)
      requires 0 < s0.sp && S() == s0.(sp := s0.sp - 1) && index == s0.stack[s0.sp]
      requires key !in g.entries && Acceptable(c, key, val)
      requires !c.bitmap ==> fb == index
      requires c.bitmap ==> var n := Bitmap.NeededBlocks(|val|, c.blocksize);
                            Bitmap.ClearRun(bits0, fb, n) &&
                                Bitmap.PaintedBits(bits0, Bitmap.Bits(bitmap[..]), fb, n, true)
      modifies this, data
      ensures Inv(c, S(), g, data[..], Bitmap.Bits(bitmap[..])) && bitmapPos == old(bitmapPos)
      ensures (M(), true) == Insert(c, Abstract(c, s0, old(g), old(nextScan)), key, val, expires, flags, now, true)
      ensures PlaceOf(recs) == PlaceOf(s0.recs)[key := fb]
      ensures Punctual(c, expires, flags) ==>
                forall n :: Scheduled(s0.recs, n, old(nextScan)) ==> Scheduled(recs, n, nextScan)
    {
      hide Inv, Recency, Keep, Bitmap.Bits, Bitmap.ClearRun, Bitmap.PaintedBits, BitsMatch, Written, StoreNew, Fits,
           Apart, BucketOf, Offset, PlaceOf, ExpiryOf, ScanAfter, Scheduled, Touch, MakeRoom;
      ghost var d0 := data[..];
      FreeTop(c, s0, g, d0, bits0);
      InvSizes(c, s0, g, d0, bits0);
      InvData(c, s0, g, d0, bits0);
      var expiry := StampExpiry(expires, flags, now);
      var r := Record(key, c.hash(key), |val|, fb, expiry, flags);
      NewRecord(c, s0, g, d0, bits0, Bitmap.Bits(bitmap[..]), index, r, val);
      ghost var g', last' := StoreNewKeeps(c, s0, g, d0, bits0, Bitmap.Bits(bitmap[..]), r, val);
      BucketOfIsRemainder(r.hash, |hashtable|);
      Memcpy(Offset(fb, c.blocksize), val);
      var last := ChainEnd(r.hash % |hashtable|, s0, d0, bits0);
      FillSlot(index, r, last, s0);
      g := g';
      StoredBlocks(c, s0, old(g), d0, bits0, S(), g, data[..], Bitmap.Bits(bitmap[..]), index, r);
      ScheduledAfterStamp(c, s0.recs, recs, index, old(nextScan), expires, flags, now);
    }

    /** The new-key branch of set2 when no run of blocks is found: the slot stays free, and the cache makes room
        for the next attempt. */
    method NoBlocks(index: nat, now: nat)
      requires Valid() && 0 < index < |recs| && !Live(recs[index])
      modifies this, bitmap
      ensures Valid() && M() == MakeRoom(c, old(M()), now)
      ensures B() == Only(old(B()), M().entries)
      ensures c.sweepOnFull == 0 ==> forall n :: Scheduled(old(recs), n, old(nextScan)) ==> Scheduled(recs, n, nextScan)
    {
      hide Inv, Recency, Keep, Bitmap.Bits, MakeRoom, PlaceOf, Only;
      ghost var s0, g0, bits0 := S(), g, Bitmap.Bits(bitmap[..]);
      FreeSlotBlock(c, S(), g, data[..], Bitmap.Bits(bitmap[..]), index, Bitmap.NO_BLOCK);
      recs := recs[index := recs[index].(firstBlock := Bitmap.NO_BLOCK)];
      SameBlocks(c, s0, g0, data[..], bits0, S(), g, data[..], bits0, index, recs[index]);
      ghost var s1 := S();
      CacheFull(now);
      FreedBlocks(c, s1, g0, data[..], bits0, S(), g, data[..], Bitmap.Bits(bitmap[..]), bitmapPos);
    }

    /** set2 on a new key when there is a free slot. */
    method InsertInto(key: Key, val: seq<byte>, expires: nat, flags: Flags, now: nat)
      returns (ok: bool, ghost placed: bool)
      requires Valid() && 0 < sp && key !in g.entries && Acceptable(c, key, val)
      modifies this, bitmap, data
      ensures Valid() && (M(), ok) == Insert(c, old(M()), key, val, expires, flags, now, placed)
      ensures placed <==> !c.bitmap || Bitmap.Search(Bitmap.Bits(old(bitmap[..])), old(bitmapPos),
                                                      Bitmap.NeededBlocks(|val|, c.blocksize)).Some?
      ensures c.bitmap ==> (placed, B()) == InsertBlocks(c, old(M()), old(B()), key, val, now)
      ensures Punctual(c, expires, flags) ==>
                forall n :: Scheduled(old(recs), n, old(nextScan)) ==> Scheduled(recs, n, nextScan)
    {
      hide Inv, Recency, Keep, Bitmap.Bits, Bitmap.Search, Bitmap.ClearRun, Bitmap.PaintedBits, MakeRoom, Touch,
           ExpiryOf, ScanAfter, Scheduled, Offset, Insert, PlaceOf, InsertBlocks, Probe, Only;
      ghost var s0, bits0 := S(), Bitmap.Bits(bitmap[..]);
      FreeTop(c, s0, g, data[..], bits0);
      InvSizes(c, s0, g, data[..], bits0);
      InsertFails(c, M(), key, val, expires, flags, now);
      if c.bitmap {
        OnlyAll(c, s0, g, data[..], bits0, bitmapPos);
        InvBits(c, s0, g, data[..], bits0);
        ProbeIs(c, s0, g, data[..], bits0, bitmapPos, val, bitmap.Length);
        InsertBlocksIs(c, M(), B(), key, val, now);
      }
      var index := stack[sp];
      sp := sp - 1;
      var fb := index;
      if c.bitmap {
        InvBits(c, s0, g, data[..], bits0);
        fb := Claim(|val|);
        if fb == Bitmap.NO_BLOCK {
          sp := sp + 1;
          NoBlocks(index, now);
          return false, false;
        }
      }
      StoreAt(index, fb, key, val, expires, flags, now, s0, bits0);
      return true, true;
    }

    /** set2 on a new key. */
    method InsertNew(key: Key, val: seq<byte>, expires: nat, flags: Flags, now: nat)
      returns (ok: bool, ghost placed: bool)
      requires Valid() && key !in g.entries && Acceptable(c, key, val)
      modifies this, bitmap, data
      ensures Valid() && (M(), ok) == Insert(c, old(M()), key, val, expires, flags, now, placed)
      ensures !c.bitmap ==> placed
      ensures !placed ==> Bitmap.Search(Bitmap.Bits(old(bitmap[..])), old(bitmapPos),
                Bitmap.NeededBlocks(|val|, c.blocksize)).None?
      ensures c.bitmap && old(sp) > 0 ==>
                (placed <==> Bitmap.Search(Bitmap.Bits(old(bitmap[..])), old(bitmapPos),
                                           Bitmap.NeededBlocks(|val|, c.blocksize)).Some?)
      ensures c.bitmap ==> (placed, B()) == InsertBlocks(c, old(M()), old(B()), key, val, now)
      ensures Punctual(c, expires, flags) ==>
                forall n :: Scheduled(old(recs), n, old(nextScan)) ==> Scheduled(recs, n, nextScan)
    {
      hide Inv, Recency, Keep, Bitmap.Bits, Bitmap.Search, Touch, MakeRoom, ExpiryOf, ScanAfter, PlaceOf,
          InsertBlocks, Only;
      InvSizes(c, S(), g, data[..], Bitmap.Bits(bitmap[..]));
      if sp == 0 {
        ghost var s0, g0, bits0 := S(), g, Bitmap.Bits(bitmap[..]);
        if c.bitmap {
          InsertBlocksAfterRoom(c, M(), B(), key, val, now);
        }
        CacheFull(now);
        if c.bitmap {
          FreedBlocks(c, s0, g0, data[..], bits0, S(), g, data[..], Bitmap.Bits(bitmap[..]), bitmapPos);
          RoomIsSeen(c, s0, g0, data[..], bits0, S(), g, data[..], Bitmap.Bits(bitmap[..]), bitmapPos,
                     Bitmap.NeededBlocks(|val|, c.blocksize));
        }
        InvSizes(c, S(), g, data[..], Bitmap.Bits(bitmap[..]));
        if sp == 0 {
          return false, true;
        }
      }
      ok, placed := InsertInto(key, val, expires, flags, now);
    }

    /** The expiry and LRU part of an update. */
    method Refresh(index: nat, expires: nat, flags: Flags, now: nat)
      requires Valid() && 0 < index < |recs| && Live(recs[index])
      modifies this
      ensures Valid() && bitmapPos == old(bitmapPos) && |recs| == old(|recs|)
      ensures recs == old(recs)[index := old(recs[index]).(expires := ExpiryOf(c, expires, flags, now))]
      ensures var k, m := old(recs[index].key), old(M());
              k in m.entries && M() == Refreshed(c, m, k, expires, flags, now)
    {
      hide Inv, Recency, Keep, Bitmap.Bits, LruRemove, LruAdd, ExpiryOf, ScanAfter;
      ghost var bits, k := Bitmap.Bits(bitmap[..]), recs[index].key;
      ghost var g1 := TouchSlotKeeps(c, S(), g, data[..], bits, index);
      if c.purgeLru {
        LruRemoveItem(index);
        LruAddItem(index);
      }
      var expiry := StampExpiry(expires, flags, now);
      ghost var g2 := ExpiryKeeps(c, S(), g1, data[..], bits, index, expiry);
      recs := recs[index := recs[index].(expires := expiry)];
      g := g2;
      assert g.entries.Keys == g1.entries.Keys;
    }

    /** The value part of an update: in bitmap mode the value moves to new blocks, which are marked before the
        old ones are unmarked. */
    method Rewrite(index: nat, val: seq<byte>) returns (placed: bool)
      requires Valid() && 0 < index < |recs| && Live(recs[index]) && 0 < |val| <= c.MaxItemSize()
      modifies this, bitmap, data
      ensures Valid() && old(recs[index].key) in old(M()).entries
      ensures var k, m := old(recs[index].key), old(M());
              M() == if placed then m.(entries := m.entries[k := m.entries[k].(value := val)]) else m
      ensures Thinned(old(recs), recs)
      ensures c.bitmap ==> B() == match Bitmap.Search(Bitmap.Bits(old(bitmap[..])), old(bitmapPos),
                                                      Bitmap.NeededBlocks(|val|, c.blocksize))
                                  case Some(p) => Put(c, old(B()), old(recs[index].key), val, p)
                                  case None => old(B())
      ensures placed <==> !c.bitmap || Bitmap.Search(Bitmap.Bits(old(bitmap[..])), old(bitmapPos),
                                                      Bitmap.NeededBlocks(|val|, c.blocksize)).Some?
    {
      hide Inv, Recency, Bitmap.Bits, Bitmap.Search, Bitmap.ClearRun, Bitmap.PaintedBits, Written, Apart, BitsMatch,
          Fits, Offset, PlaceOf;
      ghost var s0, bits0, d0 := S(), Bitmap.Bits(bitmap[..]), data[..];
      LiveFacts(c, s0, g, d0, bits0, index);
      InvData(c, s0, g, d0, bits0);
      var fb := recs[index].firstBlock;
      placed := true;
      if c.bitmap {
        InvBits(c, s0, g, d0, bits0);
        fb := Claim(|val|);
        if fb == Bitmap.NO_BLOCK {
          return false;
        }
        ghost var marked := bitmap[..];
        FitsInside(c, recs[index]);
        Bitmap.UnmarkBlocks(bitmap, recs[index].firstBlock, recs[index].valsize, c.blocksize);
        Bitmap.PaintedMap(marked, bitmap[..], recs[index].firstBlock, Extent(c, recs[index]), false);
        BitsAfterMove(c, recs, bits0, Bitmap.Bits(marked), Bitmap.Bits(bitmap[..]), index,
                      recs[index].(firstBlock := fb, valsize := |val|));
      } else {
        OwnRecord(c, s0, g, d0, bits0, index);
        OwnBlock(c, s0, g, d0, bits0, index, recs[index].(firstBlock := fb, valsize := |val|));
      }
      ghost var g' := RewriteKeeps(c, s0, g, d0, bits0, Bitmap.Bits(bitmap[..]), index,
                                   recs[index].(firstBlock := fb, valsize := |val|), val);
      Memcpy(Offset(fb, c.blocksize), val);
      recs := recs[index := recs[index].(firstBlock := fb, valsize := |val|)];
      g := g';
      if c.bitmap {
        StoredBlocks(c, s0, old(g), d0, bits0, S(), g, data[..], Bitmap.Bits(bitmap[..]), index, recs[index]);
      }
    }

    /** set2 on a key that is there, with the update flag. */
    method UpdateSlot(index: nat, val: seq<byte>, expires: nat, flags: Flags, now: nat) returns (ok: bool)
      requires Valid() && 0 < index < |recs| && Live(recs[index]) && 0 < |val| <= c.MaxItemSize()
      modifies this, bitmap, data
      ensures Valid() && old(recs[index].key) in old(M()).entries
      ensures (M(), ok) == Update(c, old(M()), old(recs[index].key), val, expires, flags, now, ok)
      ensures ok <==> !c.bitmap || Bitmap.Search(Bitmap.Bits(old(bitmap[..])), old(bitmapPos),
                                                  Bitmap.NeededBlocks(|val|, c.blocksize)).Some?
      ensures c.bitmap ==>
                (ok, B()) == UpdateBlocks(c, old(M()), old(B()), old(recs[index].key), val, expires, flags, now)
      ensures Punctual(c, expires, flags) ==>
                forall n :: Scheduled(old(recs), n, old(nextScan)) ==> Scheduled(recs, n, nextScan)
    {
      hide Inv, Recency, Bitmap.Bits, Bitmap.Search, Keep, MakeRoom, ExpiryOf, ScanAfter, PlaceOf, Only, Probe, Put;
      ghost var s0, g0, bits0 := S(), g, Bitmap.Bits(bitmap[..]);
      if c.bitmap {
        InvBits(c, s0, g, data[..], bits0);
        ProbeIs(c, s0, g, data[..], bits0, bitmapPos, val, bitmap.Length);
      }
      LiveFacts(c, S(), g, data[..], Bitmap.Bits(bitmap[..]), index);
      if !flags.fixExpire {
        Refresh(index, expires, flags, now);
        SameBlocks(c, s0, g0, data[..], bits0, S(), g, data[..], bits0, index, recs[index]);
        ScheduledAfterStamp(c, old(recs), recs, index, old(nextScan), expires, flags, now);
      }
      ok := Rewrite(index, val);
      if !ok {
        ghost var s1, g1, bits1 := S(), g, Bitmap.Bits(bitmap[..]);
        CacheFull(now);
        FreedBlocks(c, s1, g1, data[..], bits1, S(), g, data[..], Bitmap.Bits(bitmap[..]), bitmapPos);
      }
    }

    /** set2 from the look-up on. */
    method SetSized(key: Key, val: seq<byte>, expires: nat, flags: Flags, now: nat)
      returns (ok: bool, ghost placed: bool)
      requires Valid() && Acceptable(c, key, val)
      modifies this, bitmap, data
      ensures Valid() && (M(), ok) == Set(c, old(M()), key, val, expires, flags, now, placed)
      ensures !c.bitmap ==> placed
      ensures !placed ==> Bitmap.Search(Bitmap.Bits(old(bitmap[..])), old(bitmapPos),
                                        Bitmap.NeededBlocks(|val|, c.blocksize)).None?
      ensures c.bitmap && Lazy(c, old(M()), key, now) == old(M()) &&
              (if key in old(M()).entries then flags.update else old(sp) > 0) ==>
                (placed <==> Bitmap.Search(Bitmap.Bits(old(bitmap[..])), old(bitmapPos),
                                           Bitmap.NeededBlocks(|val|, c.blocksize)).Some?)
      ensures c.bitmap ==> (placed, B()) == SetBlocks(c, old(M()), old(B()), key, val, expires, flags, now)
      ensures Punctual(c, expires, flags) ==>
                forall n :: Scheduled(old(recs), n, old(nextScan)) ==> Scheduled(recs, n, nextScan)
    {
      hide Inv, Recency, Bitmap.Bits, Bitmap.Search, Insert, Update, Delete, PlaceOf, Only, InsertBlocks, UpdateBlocks;
      ghost var s0, g0, bits0 := S(), g, Bitmap.Bits(bitmap[..]);
      var index := GetIndex(key, now);
      if c.bitmap {
        FreedBlocks(c, s0, g0, data[..], bits0, S(), g, data[..], Bitmap.Bits(bitmap[..]), bitmapPos);
        RoomIsSeen(c, s0, g0, data[..], bits0, S(), g, data[..], Bitmap.Bits(bitmap[..]), bitmapPos,
                   Bitmap.NeededBlocks(|val|, c.blocksize));
      }
      if index == 0 {
        ok, placed := InsertNew(key, val, expires, flags, now);
      } else if flags.update {
        ok := UpdateSlot(index, val, expires, flags, now);
        placed := ok;
      } else {
        ok, placed := false, true;
      }
    }

    /** set2: the result is false for a refused, unplaceable or existing key. `placed` is false when the search for
        free blocks failed; it is the search on the current map unless a deletion had to come first, and a run found
        on the current map is enough in any case. */
    method Set2(key: Key, val: seq<byte>, expires: nat, flags: Flags, now: nat) returns (ok: bool, ghost placed: bool)
      requires Valid()
      modifies this, bitmap, data
      ensures Valid() && (M(), ok) == Set(c, old(M()), key, val, expires, flags, now, placed)
      ensures key in old(M()).entries && !(c.lazyExpire && 0 < old(M()).entries[key].expires <= now) &&
                !flags.update ==>
                !ok && M() == old(M())
      ensures SetPromise(c, old(M()), key, val, expires, flags, now, placed, M(), ok)
      ensures !c.bitmap ==> placed
      ensures !placed ==> Bitmap.Search(Bitmap.Bits(old(bitmap[..])), old(bitmapPos),
                                        Bitmap.NeededBlocks(|val|, c.blocksize)).None?
      ensures c.bitmap && Acceptable(c, key, val) && Lazy(c, old(M()), key, now) == old(M()) &&
              (if key in old(M()).entries then flags.update else old(sp) > 0) ==>
                (placed <==> Bitmap.Search(Bitmap.Bits(old(bitmap[..])), old(bitmapPos),
                                           Bitmap.NeededBlocks(|val|, c.blocksize)).Some?)
      ensures c.bitmap ==> (placed, B()) == SetBlocks(c, old(M()), old(B()), key, val, expires, flags, now)
      ensures Punctual(c, expires, flags) ==>
                forall n :: Scheduled(old(recs), n, old(nextScan)) ==> Scheduled(recs, n, nextScan)
    {
      hide Inv, Recency, Bitmap.Bits, Bitmap.Search, Insert, Update, Lazy, PlaceOf, InsertBlocks, UpdateBlocks,
          SetPromise,
           CacheTheorems.Listed, Scheduled;
      TablesRepresent(c, S(), g, data[..], Bitmap.Bits(bitmap[..]), nextScan);
      AnySetKeepsPromise(c, M(), key, val, expires, flags, now);
      if |key| == 0 || |val| == 0 {
        return false, true;
      }
      if |key| > c.keysize {
        return false, true;
      }
      if |val| > c.MaxItemSize() {
        return false, true;
      }
      ok, placed := SetSized(key, val, expires, flags, now);
    }

    // -------------------------------------------------------------- whole runs

    /** Any sequence of operations answers what the abstract map answers. */
    method Execute(ops: seq<Op>) returns (outs: seq<Out>, ghost placed: seq<bool>)
      requires Valid()
      modifies this, bitmap, data
      ensures Valid() && |placed| == |ops| && (M(), outs) == Run(c, old(M()), ops, placed)
      ensures !c.bitmap ==> forall i :: 0 <= i < |placed| ==> placed[i]
      ensures c.bitmap ==> (placed, B()) == RunBlocks(c, old(M()), old(B()), ops)
      ensures AllPunctual(c, ops) ==>
                forall n :: Scheduled(old(recs), n, old(nextScan)) ==> Scheduled(recs, n, nextScan)
    {
      hide Inv, Abstract, Step, Run, RunBlocks, Bitmap.Bits, PlaceOf, StepBlocks, Scheduled, OpPunctual;
      outs, placed := [], [];
      ghost var m0, b0 := M(), B();
      RunStarts(c, m0, b0, ops);
      for i := 0 to |ops|
        invariant Valid() && |placed| == i && (M(), outs) == Run(c, old(M()), ops[..i], placed)
        invariant !c.bitmap ==> forall i :: 0 <= i < |placed| ==> placed[i]
        invariant c.bitmap ==> (placed, B()) == RunBlocks(c, old(M()), old(B()), ops[..i])
        invariant AllPunctual(c, ops) ==>
                  forall n :: Scheduled(old(recs), n, old(nextScan)) ==> Scheduled(recs, n, nextScan)
      {
        var out, p := ExecuteOne(ops[i]);
        RunGoesOn(c, m0, ops, i, placed, p);
        RunBlocksGoesOn(c, m0, b0, ops, i);
        outs, placed := outs + [out], placed + [p];
      }
      assert ops[..|ops|] == ops;
    }

    method ExecuteOne(op: Op) returns (out: Out, ghost placed: bool)
      requires Valid()
      modifies this, bitmap, data
      ensures Valid() && (M(), out) == Step(c, old(M()), op, placed) && (!c.bitmap ==> placed)
      ensures c.bitmap ==> (placed, B()) == StepBlocks(c, old(M()), old(B()), op)
      ensures OpPunctual(c, op) ==> forall n :: Scheduled(old(recs), n, old(nextScan)) ==> Scheduled(recs, n, nextScan)
    {
      hide Inv, Recency, Set, Keep, Bitmap.Bits, PlaceOf, SetBlocks, Only;
      placed := true;
      ghost var s0, g0, bits0 := S(), g, Bitmap.Bits(bitmap[..]);
      match op {
        case OpSet(k, v, e, f, now) =>
          var ok;
          ok, placed := Set2(k, v, e, f, now);
          out := Stored(ok);
        case OpGet(k, now) =>
          var found := Get2(k, now);
          out := Read(found);
          FreedBlocks(c, s0, g0, data[..], bits0, S(), g, data[..], Bitmap.Bits(bitmap[..]), bitmapPos);
        case OpDel(k, now) =>
          var ok := Del2(k, now);
          out := Deleted(ok);
          FreedBlocks(c, s0, g0, data[..], bits0, S(), g, data[..], Bitmap.Bits(bitmap[..]), bitmapPos);
      }
    }

    // -------------------------------------------------------------- the sweeper

    /** One critical section of the sweeper: slot i. */
    method SweepSlot(i: nat, now: nat) returns (freed: bool)
      requires Valid() && 0 < i < |recs| && (i > 1 ==> Scheduled(recs, i, nextScan))
      modifies this, bitmap
      ensures Valid() && |recs| == old(|recs|) && Scheduled(recs, i + 1, nextScan)
      ensures freed <==> 0 < old(recs[i].expires) <= now
      ensures M().entries == if freed then old(M().entries) - {old(recs[i].key)} else old(M().entries)
      ensures freed ==> old(recs[i].key) in old(M()).entries && Expired(old(M()).entries[old(recs[i].key)], now)
      ensures recs == if freed then old(recs)[i := Freed(old(recs[i]))] else old(recs)
      ensures forall m :: Between(m, old(M().entries), now) ==> Between(m, M().entries, now)
    {
      hide Inv, Recency, Keep, Bitmap.Bits;
      if i == 1 {
        nextScan := 0;
      }
      freed := false;
      LiveFacts(c, S(), g, data[..], Bitmap.Bits(bitmap[..]), i);
      if recs[i].expires > 0 {
        if recs[i].expires <= now {
          DelSlot(i);
          freed := true;
        } else if nextScan == 0 || nextScan > recs[i].expires {
          nextScan := recs[i].expires;
        }
      }
    }

    /** What other processes do while the sweeper does not hold the lock. */
    method Meanwhile(ops: seq<Op>) returns (ghost placed: seq<bool>)
      requires Valid() && AllPunctual(c, ops)
      modifies this, bitmap, data
      ensures Valid() && |recs| == c.maxItems
      ensures |placed| == |ops| && M() == Run(c, old(M()), ops, placed).0
      ensures forall n :: Scheduled(old(recs), n, old(nextScan)) ==> Scheduled(recs, n, nextScan)
      ensures ops == [] ==> M() == old(M()) && recs == old(recs) && nextScan == old(nextScan)
    {
      hide Inv, Recency, Bitmap.Bits, AllPunctual, Scheduled, PlaceOf, Step;
      placed := [];
      if ops != [] {
        var outs;
        outs, placed := Execute(ops);
      }
      InvSizes(c, S(), g, data[..], Bitmap.Bits(bitmap[..]));
    }

    /** cache_sweeper_free_items. clock[0] is what the early exit reads, clock[i] what the section of slot i reads;
        between[i] is what other processes do after that. The log says what each section found and did: the sections
        and the operations between them are one run of the abstract cache, and freed counts its deletions. */
    method SweeperPass(clock: seq<nat>, between: seq<seq<Op>>)
      returns (freed: nat, ghost start: seq<bool>, ghost log: seq<Section>)
      requires Valid() && |clock| == |between| == c.maxItems && Scheduled(recs, |recs|, nextScan)
      requires forall i :: 0 <= i < |between| ==> AllPunctual(c, between[i])
      modifies this, bitmap, data
      ensures Valid() && Scheduled(recs, |recs|, nextScan)
      ensures SweeperIsOff(c) <==> c.noExpire || c.purgeLru || c.lazyExpire
      ensures SweeperIsOff(c) || !(0 < old(nextScan) <= clock[0]) ==> freed == 0 && log == [] && M() == old(M())
      ensures !SweeperIsOff(c) && 0 < old(nextScan) <= clock[0] ==>
                && |log| == c.maxItems - 1 && |start| == |between[0]|
                && Interleaved(c, old(M()), clock, between, start, log)
                && M() == ModelAt(c, old(M()), between, start, log, |log|) && freed == Deletions(log, clock)
      ensures Undisturbed(between) ==> freed == |old(M()).entries| - |M().entries|
      ensures Undisturbed(between) && !SweeperIsOff(c) && 0 < old(nextScan) <= clock[0] ==>
                Swept(old(recs), recs, |recs|, clock)
      ensures !SweeperIsOff(c) && !(0 < old(nextScan) <= clock[0]) ==> M().entries == Unexpired(old(M()), clock[0])
      ensures Undisturbed(between) && !SweeperIsOff(c) && Steady(clock) ==> M().entries == Unexpired(old(M()), clock[0])
    {
      hide Inv, Recency, Keep, Bitmap.Bits, AllPunctual, Between, Unexpired, Scheduled, PassSoFar, Interleaved, ModelAt,
           Deletions, Run, Swept, PlaceOf;
      freed, start, log := 0, [], [];
      ghost var m0 := M();
      InvSizes(c, S(), g, data[..], Bitmap.Bits(bitmap[..]));
      NothingMissing(m0, clock[0]);
      if c.noExpire || c.purgeLru || c.lazyExpire {
        return;
      }
      if nextScan == 0 || nextScan > clock[0] {
        EarlyOutIsSafe(recs, nextScan, clock[0]);
        NothingExpired(c, S(), g, data[..], Bitmap.Bits(bitmap[..]), m0, clock[0]);
        return;
      }
      start := Meanwhile(between[0]);
      PassStarts(c, m0, old(recs), clock, between, start, M(), recs);
      NoSlotYet(recs, nextScan);
      for i := 1 to c.maxItems
        invariant Valid() && |recs| == c.maxItems && Scheduled(recs, i, nextScan)
        invariant PassSoFar(c, m0, old(recs), clock, between, start, log, i, M(), recs, freed)
      {
        freed, log := SweepRound(i, clock, between, freed, m0, old(recs), start, log);
      }
      PassEnds(c, S(), g, data[..], Bitmap.Bits(bitmap[..]), M(), m0, old(recs), clock, between, start, log, freed);
    }

    /** One round of the sweeper's loop: the section of slot i, and what others do after it. */
    method SweepRound(i: nat, clock: seq<nat>, between: seq<seq<Op>>, freed0: nat, ghost m0: Model,
                      ghost before: seq<Record>, ghost start: seq<bool>, ghost log0: seq<Section>)
      returns (freed: nat, ghost log: seq<Section>)
      requires Valid() && 0 < i < |recs| == |clock| == |between| == c.maxItems && Scheduled(recs, i, nextScan)
      requires AllPunctual(c, between[i]) && PassSoFar(c, m0, before, clock, between, start, log0, i, M(), recs, freed0)
      requires !c.purgeLru
      modifies this, bitmap, data
      ensures Valid() && |recs| == c.maxItems && Scheduled(recs, i + 1, nextScan)
      ensures PassSoFar(c, m0, before, clock, between, start, log, i + 1, M(), recs, freed)
    {
      hide Inv, Recency, Keep, Bitmap.Bits, AllPunctual, Between, Scheduled, PassSoFar, Run, PlaceOf;
      freed := freed0;
      ghost var was, r0 := M(), recs;
      var f := SweepSlot(i, clock[i]);
      if f {
        freed := freed + 1;
      }
      ghost var after, mid := M(), recs;
      ghost var placed := Meanwhile(between[i]);
      ghost var s := Section(was, r0[i], after, placed);
      PassGoesOn(c, m0, before, clock, between, start, log0, i, was, r0, freed0, f, s, mid, M(), recs);
      log := log0 + [s];
    }

    // -------------------------------------------------------------- the key iterator

    /** uwsgi_cache_keys: the item after (pos, uci) in bucket order, or 0. */
    method Keys(pos: nat, uci: nat, ghost j: nat) returns (pos': nat, item: nat, ghost j': nat)
      requires Valid() && OnCursor(g.chains, pos, uci, j)
      ensures item == 0 ==> Remaining(g.chains, pos, uci, j) == [] && pos' >= |hashtable|
      ensures item != 0 ==> OnCursor(g.chains, pos', item, j') &&
                            Remaining(g.chains, pos, uci, j) == [item] + Remaining(g.chains, pos', item, j')
    {
      hide Inv, Bitmap.Bits, Remaining, Flatten;
      pos', item, j' := pos, 0, 0;
      InvChains(c, S(), g, data[..], Bitmap.Bits(bitmap[..]));
      if pos >= |hashtable| {
        PastTheEnd(g.chains, pos);
        return;
      }
      while pos' < |hashtable|
        invariant pos <= pos' <= |hashtable|
        invariant Remaining(g.chains, pos, uci, j) == Remaining(g.chains, pos', if pos' == pos then uci else 0, j)
      {
        ChainFacts(c, S(), g, data[..], Bitmap.Bits(bitmap[..]), pos');
        ghost var ch := g.chains[pos'];
        ghost var next := if pos' == pos && uci != 0 then j + 1 else 0;
        assert uci != 0 && pos' == pos ==> Node(S(), ch, j, pos');
        assert next < |ch| ==> Node(S(), ch, next, pos');
        var slot := hashtable[pos'];
        if pos' == pos && uci != 0 {
          slot := chainLinks[uci].next;
        }
        CursorHit(g.chains, pos', if pos' == pos then uci else 0, j);
        CursorMiss(g.chains, pos', if pos' == pos then uci else 0, j);
        if slot != 0 {
          item, j' := slot, next;
          return;
        }
        pos' := pos' + 1;
      }
      PastTheEnd(g.chains, pos');
      pos' := pos' + 1;
    }

    /** The callers' loop: call the iterator until it gives nothing. Every live slot is visited exactly once. */
    method VisitAll() returns (items: seq<nat>)
      requires Valid()
      ensures Distinct(items)
      ensures forall i :: i in items <==> 0 < i < |recs| && Live(recs[i])
    {
      hide Inv, Bitmap.Bits, Remaining, Flatten;
      var pos, uci := 0, 0;
      ghost var j := 0;
      items := [];
      ghost var all := Remaining(g.chains, 0, 0, 0);
      while true
        invariant OnCursor(g.chains, pos, uci, j)
        invariant all == items + Remaining(g.chains, pos, uci, j)
        decreases |Remaining(g.chains, pos, uci, j)|
      {
        var item;
        pos, item, j := Keys(pos, uci, j);
        if item == 0 {
          assert all == items;
          break;
        }
        assert items + ([item] + Remaining(g.chains, pos, item, j)) ==
            (items + [item]) + Remaining(g.chains, pos, item, j);
        items, uci := items + [item], item;
      }
      AllVisited(c, S(), g, data[..], Bitmap.Bits(bitmap[..]));
    }

    // -------------------------------------------------------------- recovery

    /** One slot of uwsgi_cache_fix. */
    method FixSlot(i: nat, restored0: nat, scan0: nat, ghost s0: Slots, ghost bits0: seq<bool>)
      returns (restored: nat, scan: nat)
      requires Inv(c, s0, g, data[..], bits0) && 0 < i < |recs|
      requires recs == s0.recs && chainLinks == s0.chain && lruLinks == s0.lruLinks
      requires FixedBelow(S(), g, c.purgeLru, scan0, i)
      modifies this`hashtable, this`stack, this`sp, this`lruHead, this`lruTail
      ensures FixedBelow(S(), g, c.purgeLru, scan, i + 1)
      ensures restored + sp == restored0 + old(sp) + 1
    {
      hide Inv, TableBelow, StackBelow, LeastExpiry, HeadBelow, TailBelow, BucketOf;
      restored, scan := restored0, scan0;
      TableNext(c, s0, g, data[..], bits0, hashtable, i);
      InvSizes(c, s0, g, data[..], bits0);
      StackNext(recs, stack, sp, i);
      LeastNext(recs, scan, i);
      LiveFacts(c, s0, g, data[..], bits0, i);
      if c.purgeLru {
        EndsNext(c, s0, g, data[..], bits0, i);
      }
      if |recs[i].key| > 0 {
        if chainLinks[i].prev == 0 {
          BucketOfIsRemainder(recs[i].hash, |hashtable|);
          hashtable := hashtable[recs[i].hash % |hashtable| := i];
        }
        if recs[i].expires > 0 && (scan == 0 || scan > recs[i].expires) {
          scan := recs[i].expires;
        }
        if lruHead == 0 && lruLinks[i].prev == 0 {
          lruHead := i;
        }
        if lruTail == 0 && lruLinks[i].next == 0 {
          lruTail := i;
        }
        restored := restored + 1;
      } else {
        StackRoom(recs, stack, sp, i);
        sp := sp + 1;
        stack := stack[sp := i];
      }
    }

    /** uwsgi_cache_fix: the hash table, the free stack, the LRU ends, the item count and the next scan are rebuilt
        from the item array of a cache s0 that was valid, with the bitmap bits0, when it was stored. The bitmap is
        not rebuilt: it is as uwsgi_cache_init leaves it, which is right exactly if nothing was stored. */
    method Fix(ghost s0: Slots, ghost bits0: seq<bool>)
      requires 8 * bitmap.Length < c.blocks + 8 && bitmap as object != data && bitmapPos == 0
      requires Inv(c, s0, g, data[..], bits0) && (c.bitmap ==> OnlyPadding(c, Bitmap.Bits(bitmap[..])))
      requires recs == s0.recs && chainLinks == s0.chain && lruLinks == s0.lruLinks
      requires |hashtable| == c.hashsize && (forall b :: 0 <= b < |hashtable| ==> hashtable[b] == 0)
      requires lruHead == lruTail == 0 && |stack| == c.maxItems
      modifies this
      ensures Inv(c, S(), g, data[..], bits0) && recs == old(recs) && LeastExpiry(recs, nextScan, |recs|)
      ensures Valid() <==> !c.bitmap || M().entries == map[]
      ensures M() == Abstract(c, s0, old(g), nextScan)
    {
      hide Inv, Recency, Bitmap.Bits, OnlyPadding, TableBelow, StackBelow, LeastExpiry, HeadBelow, TailBelow, BucketOf;
      var restored: nat, scan: nat := 0, 0;
      sp := 0;
      RecoveryStart(c, s0, g, data[..], bits0, hashtable, stack);
      for i := 1 to c.maxItems
        invariant recs == s0.recs && chainLinks == s0.chain && lruLinks == s0.lruLinks && |recs| == c.maxItems &&
                  g == old(g)
        invariant restored + sp + 1 == i && bitmapPos == 0
        invariant FixedBelow(S(), g, c.purgeLru, scan, i)
      {
        restored, scan := FixSlot(i, restored, scan, s0, bits0);
      }
      FixedFacts(S(), g, c.purgeLru, scan, c.maxItems);
      nextScan := scan;
      nItems := restored;
      RecoveredInv(c, s0, g, data[..], bits0, S());
      PaddingIsRightIff(c, S(), g, data[..], bits0, Bitmap.Bits(bitmap[..]));
    }
  }
}
