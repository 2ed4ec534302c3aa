/** The slot tables of a cache as one value, its invariant, and the steps that del2, set2 and get2 take on it.
    The methods of the cache are proved to take exactly these steps. */
module CacheSteps {
  import opened Collections
  import opened Wrappers
  import opened Bytes
  import opened SlotLists
  import opened CacheModel
  import opened CacheSlots
  import Bitmap

  /** The tables threaded through the slots. */
  datatype Slots = Slots(
    recs: seq<Record>, chain: seq<Links>, lruLinks: seq<Links>, table: seq<nat>, stack: seq<nat>,
    sp: nat, lruHead: nat, lruTail: nat, nItems: nat)

  /** What the tables represent: the bucket chains, the LRU list and the entries. */
  datatype Shape = Shape(chains: seq<seq<nat>>, lru: seq<nat>, entries: map<Key, Entry>)

  ghost predicate Inv(c: Config, s: Slots, g: Shape, data: seq<byte>, bits: seq<bool>) {
    && c.Ok() && |s.recs| == |s.lruLinks| == c.maxItems && |s.table| == c.hashsize
    && Buckets(s.recs, s.chain, s.table, g.chains)
    && FreeStack(s.recs, s.stack, s.sp)
    && (c.purgeLru ==> LruMembers(s.recs, g.lru) && Queue(s.lruLinks, g.lru, s.lruHead, s.lruTail))
    && Contents(c, s.recs, data, g.entries)
    && (c.bitmap ==> BitsMatch(c, s.recs, bits))
    && s.nItems == |g.entries| && s.nItems + s.sp + 1 == c.maxItems
  }

  ghost function Abstract(c: Config, s: Slots, g: Shape, nextScan: nat): Model {
    Model(g.entries, if c.purgeLru then Recency(s.recs, g.lru) else [], nextScan)
  }

  // ---------------------------------------------------------------- lru_remove_item and lru_add_item

  /** Slot i and its LRU neighbours are slot numbers. */
  predicate LruBound(s: Slots, i: nat) {
    i < |s.lruLinks| && s.lruLinks[i].prev < |s.lruLinks| && s.lruLinks[i].next < |s.lruLinks|
  }

  function LruRemove(s: Slots, i: nat): (t: Slots)
    requires LruBound(s, i)
    ensures |t.lruLinks| == |s.lruLinks|
  {
    var Links(p, n) := s.lruLinks[i];
    s.(lruLinks := WithNext(WithPrev(s.lruLinks, n, p), p, n),
       lruTail := if n != 0 then s.lruTail else p,
       lruHead := if p != 0 then s.lruHead else n)
  }

  function LruAdd(s: Slots, i: nat): Slots
    requires i < |s.lruLinks| && s.lruTail < |s.lruLinks|
  {
    s.(lruLinks := WithNext(s.lruLinks, s.lruTail, i)[i := Links(s.lruTail, 0)],
       lruHead := if s.lruTail != 0 then s.lruHead else i,
       lruTail := i)
  }

  lemma LruRemoveKeeps(s: Slots, lru: seq<nat>, j: nat)
    requires Queue(s.lruLinks, lru, s.lruHead, s.lruTail) && j < |lru|
    ensures LruBound(s, lru[j])
    ensures var t := LruRemove(s, lru[j]);
            Queue(t.lruLinks, Cut(lru, j), t.lruHead, t.lruTail) && |t.lruLinks| == |s.lruLinks|
  {
    LinksInside(s.lruLinks, lru, j);
    QueueAfterRemove(s.lruLinks, lru, s.lruHead, s.lruTail, j);
    hide Queue, WithPrev, WithNext, Linked, Cut;
    LinksCommute(s.lruLinks, s.lruLinks[lru[j]].prev, s.lruLinks[lru[j]].next);
  }

  lemma LruAddKeeps(s: Slots, lru: seq<nat>, i: nat)
    requires Queue(s.lruLinks, lru, s.lruHead, s.lruTail) && 0 < i < |s.lruLinks| && i !in lru
    ensures s.lruTail < |s.lruLinks|
    ensures var t := LruAdd(s, i);
            Queue(t.lruLinks, lru + [i], t.lruHead, t.lruTail) && |t.lruLinks| == |s.lruLinks|
  {
    QueueAfterAppend(s.lruLinks, lru, s.lruHead, s.lruTail, i);
  }

  // ---------------------------------------------------------------- del2 on a live slot

  /** Slot i and all its neighbours are slot numbers, and there is room on the stack. */
  predicate Bound(c: Config, s: Slots, i: nat) {
    && i < |s.recs| && |s.table| > 0 && s.sp + 1 < |s.stack| && s.nItems > 0
    && i < |s.chain| && s.chain[i].prev < |s.chain| && s.chain[i].next < |s.chain|
    && (c.purgeLru ==> LruBound(s, i))
  }

  function UnlinkSlot(s: Slots, i: nat): Slots
    requires i < |s.chain| && s.chain[i].prev < |s.chain| && s.chain[i].next < |s.chain|
    requires i < |s.recs| && |s.table| > 0
  {
    var Links(p, n) := s.chain[i];
    var b := BucketOf(s.recs[i].hash, |s.table|);
    s.(chain := WithPrev(WithNext(s.chain, p, n), n, p)[i := Links(0, 0)],
       table := if p == 0 then s.table[b := n] else s.table)
  }

  function FreeSlot(c: Config, s: Slots, i: nat): Slots
    requires Bound(c, s, i)
  {
    var t := UnlinkSlot(s, i);
    var u := if c.purgeLru then LruRemove(t, i) else t;
    u.(recs := s.recs[i := Freed(s.recs[i])], stack := s.stack[s.sp + 1 := i], sp := s.sp + 1, nItems := s.nItems - 1)
  }

  lemma UnlinkSlotKeeps(s: Slots, chains: seq<seq<nat>>, i: nat) returns (chains': seq<seq<nat>>)
    requires Buckets(s.recs, s.chain, s.table, chains) && 0 < i < |s.recs| && Live(s.recs[i])
    ensures i < |s.chain| && s.chain[i].prev < |s.chain| && s.chain[i].next < |s.chain| && |s.table| > 0
    ensures var t := UnlinkSlot(s, i);
            Buckets(s.recs[i := Freed(s.recs[i])], t.chain, t.table, chains') && |t.table| == |s.table|
  {
    hide Buckets, WithPrev, WithNext, BucketOf, Cut;
    var b, j := ChainPosition(s.recs, s.chain, s.table, chains, i);
    BucketsAfterRemove(s.recs, s.chain, s.table, chains, b, j);
    chains' := chains[b := Cut(chains[b], j)];
  }

  /** Freeing a live slot keeps the invariant and deletes one key from the abstract value. */
  lemma FreeSlotKeeps(c: Config, s: Slots, g: Shape, data: seq<byte>, bits: seq<bool>, bits': seq<bool>, i: nat)
    returns (g': Shape)
    requires Inv(c, s, g, data, bits) && 0 < i < |s.recs| && Live(s.recs[i])
    requires c.bitmap ==> BitsMatch(c, s.recs[i := Freed(s.recs[i])], bits')
    ensures Bound(c, s, i) && Inv(c, FreeSlot(c, s, i), g', data, bits')
    ensures forall ns :: Abstract(c, FreeSlot(c, s, i), g', ns) == Delete(Abstract(c, s, g, ns), s.recs[i].key)
  {
    hide Buckets, FreeStack, Contents, BitsMatch, LruMembers, Queue, Recency, Keep, UnlinkSlot, LruRemove, Cut;
    ContentsAfterFree(c, s.recs, data, g.entries, i);
    StackAfterPush(s.recs, s.stack, s.sp, i);
    var chains' := UnlinkSlotKeeps(s, g.chains, i);
    var lru' := g.lru;
    if c.purgeLru {
      var j := LruPosition(s.recs, g.lru, i);
      LruAfterCut(s.recs, g.lru, j);
      RecencyAfterFree(c, s.recs, data, g.entries, g.lru, j);
      UnlinkSlotFrame(s, i);
      LruRemoveKeeps(UnlinkSlot(s, i), g.lru, j);
      LruRemoveFrame(UnlinkSlot(s, i), i);
      lru' := Cut(g.lru, j);
    }
    UnlinkSlotFrame(s, i);
    g' := Shape(chains', lru', g.entries - {s.recs[i].key});
  }

  lemma UnlinkSlotFrame(s: Slots, i: nat)
    requires i < |s.chain| && s.chain[i].prev < |s.chain| && s.chain[i].next < |s.chain|
    requires i < |s.recs| && |s.table| > 0
    ensures var t := UnlinkSlot(s, i); t == s.(chain := t.chain, table := t.table)
  {}

  lemma LruRemoveFrame(s: Slots, i: nat)
    requires LruBound(s, i)
    ensures var t := LruRemove(s, i); t == s.(lruLinks := t.lruLinks, lruHead := t.lruHead, lruTail := t.lruTail)
  {}

  // ---------------------------------------------------------------- a touch

  function TouchSlot(c: Config, s: Slots, i: nat): Slots
    requires c.purgeLru ==> LruBound(s, i) && LruRemove(s, i).lruTail < |s.lruLinks|
  {
    if c.purgeLru then LruAdd(LruRemove(s, i), i) else s
  }

  /** Moving a live slot to the end of the LRU list makes its key the most recently touched one. */
  lemma TouchSlotKeeps(c: Config, s: Slots, g: Shape, data: seq<byte>, bits: seq<bool>, i: nat) returns (g': Shape)
    requires Inv(c, s, g, data, bits) && 0 < i < |s.recs| && Live(s.recs[i])
    ensures c.purgeLru ==> LruBound(s, i) && LruRemove(s, i).lruTail < |s.lruLinks|
    ensures Inv(c, TouchSlot(c, s, i), g', data, bits)
    ensures g'.entries == g.entries && s.recs[i].key in g.entries && TouchSlot(c, s, i).recs == s.recs
    ensures forall ns :: Abstract(c, TouchSlot(c, s, i), g', ns) == Touch(c, Abstract(c, s, g, ns), s.recs[i].key)
  {
    ContentsKey(c, s.recs, data, g.entries, i);
    hide Buckets, FreeStack, Contents, BitsMatch, LruMembers, Queue, Recency, Keep, LruAdd, LruRemove, Cut;
    g' := g;
    if c.purgeLru {
      var j := LruPosition(s.recs, g.lru, i);
      LruRemoveKeeps(s, g.lru, j);
      LruRemoveFrame(s, i);
      LruAfterTouch(s.recs, g.lru, j);
      LruAddKeeps(LruRemove(s, i), Cut(g.lru, j), i);
      LruAddFrame(LruRemove(s, i), i);
      RecencyAfterTouch(c, s.recs, data, g.entries, g.lru, j);
      g' := g.(lru := Cut(g.lru, j) + [i]);
    }
  }

  lemma LruAddFrame(s: Slots, i: nat)
    requires i < |s.lruLinks| && s.lruTail < |s.lruLinks|
    ensures var t := LruAdd(s, i); t == s.(lruLinks := t.lruLinks, lruHead := t.lruHead, lruTail := t.lruTail)
  {}

  // ---------------------------------------------------------------- set2 on a new key

  /** The slot on top of the stack receives record r, goes to the end of the LRU list and behind slot `last`,
      the end of its bucket chain. */
  predicate CanStore(c: Config, s: Slots, last: nat) {
    && 0 < s.sp < |s.stack| && s.stack[s.sp] < |s.recs| && |s.recs| == |s.chain| && last < |s.chain| && |s.table| > 0
    && (c.purgeLru ==> s.stack[s.sp] < |s.lruLinks| && s.lruTail < |s.lruLinks|)
  }

  function LinkSlot(s: Slots, i: nat, hash: nat, last: nat): Slots
    requires i < |s.chain| && last < |s.chain| && |s.table| > 0
  {
    var b := BucketOf(hash, |s.table|);
    s.(chain := WithNext(s.chain, last, i)[i := Links(last, 0)],
       table := if s.table[b] == 0 then s.table[b := i] else s.table)
  }

  function StoreNew(c: Config, s: Slots, r: Record, last: nat): Slots
    requires CanStore(c, s, last)
  {
    var i := s.stack[s.sp];
    var t := if c.purgeLru then LruAdd(s, i) else s;
    LinkSlot(t, i, r.hash, last).(recs := s.recs[i := r], sp := s.sp - 1, nItems := s.nItems + 1)
  }

  lemma LinkSlotKeeps(s: Slots, chains: seq<seq<nat>>, i: nat, r: Record) returns (chains': seq<seq<nat>>, last: nat)
    requires Buckets(s.recs, s.chain, s.table, chains) && 0 < i < |s.recs| && !Live(s.recs[i]) && Live(r)
    ensures |s.table| == |chains| > 0 && |s.chain| == |s.recs| &&
              last == Last(chains[BucketOf(r.hash, |s.table|)]) < |s.chain|
    ensures var t := LinkSlot(s, i, r.hash, last);
            Buckets(s.recs[i := r], t.chain, t.table, chains') && |t.table| == |s.table| && |t.chain| == |s.chain|
  {
    BucketsShape(s.recs, s.chain, s.table, chains);
    hide Buckets, WithNext, BucketOf;
    BucketsAfterAppend(s.recs, s.chain, s.table, chains, i, r);
    var b := BucketOf(r.hash, |s.table|);
    last := Last(chains[b]);
    chains' := chains[b := chains[b] + [i]];
  }

  lemma LinkSlotFrame(s: Slots, i: nat, hash: nat, last: nat)
    requires i < |s.chain| && last < |s.chain| && |s.table| > 0
    ensures var t := LinkSlot(s, i, hash, last); t == s.(chain := t.chain, table := t.table)
  {}

  /** r is a record for a new key that slot i can take over. */
  ghost predicate Fresh(c: Config, s: Slots, g: Shape, i: nat, r: Record, v: seq<byte>) {
    && Live(r) && r.key !in g.entries && Fits(c, r) && |v| == r.valsize && r.hash == c.hash(r.key) &&
        |r.key| <= c.keysize
    && (forall q :: 0 < q < |s.recs| && q != i && Live(s.recs[q]) ==> Apart(c, s.recs[q], r))
    && (!c.bitmap ==> r.firstBlock == i && r.valsize <= c.blocksize)
  }

  /** Storing a new key keeps the invariant and adds one entry to the abstract value. */
  lemma StoreNewKeeps(c: Config, s: Slots, g: Shape, data: seq<byte>, bits: seq<bool>, bits': seq<bool>,
                      r: Record, v: seq<byte>) returns (g': Shape, last: nat)
    requires Inv(c, s, g, data, bits) && 0 < s.sp && Fresh(c, s, g, s.stack[s.sp], r, v)
    requires c.bitmap ==> BitsMatch(c, s.recs[s.stack[s.sp] := r], bits')
    ensures Offset(r.firstBlock, c.blocksize) + |v| <= |data|
    ensures |g.chains| == |s.table| > 0 && last == Last(g.chains[BucketOf(r.hash, |s.table|)])
    ensures CanStore(c, s, last)
    ensures Inv(c, StoreNew(c, s, r, last), g', Written(data, Offset(r.firstBlock, c.blocksize), v), bits')
    ensures g'.entries == g.entries[r.key := Entry(v, r.expires, r.flags)]
    ensures forall ns :: Abstract(c, StoreNew(c, s, r, last), g', ns) ==
                         Touch(c, Abstract(c, s, g, ns).(entries := g'.entries), r.key)
  {
    hide Buckets, FreeStack, Contents, BitsMatch, LruMembers, Queue, Recency, Keep, LinkSlot, LruAdd, Apart, Fits,
        Written;
    StackTop(s.recs, s.stack, s.sp);
    var i := s.stack[s.sp];
    ContentsAfterStore(c, s.recs, data, g.entries, i, r, v);
    StackAfterPop(s.recs, s.stack, s.sp, r);
    OneMore(g.entries, r.key, Entry(v, r.expires, r.flags));
    var chains';
    chains', last := LinkSlotKeeps(s, g.chains, i, r);
    LinkSlotFrame(s, i, r.hash, last);
    var lru' := g.lru;
    if c.purgeLru {
      LruAfterAdd(s.recs, g.lru, i, r);
      LruAddKeeps(s, g.lru, i);
      LruAddFrame(s, i);
      LinkAfterLru(s, i, r.hash, last);
      RecencyAfterAdd(c, s.recs, data, g.entries, g.lru, i, r, v);
      lru' := g.lru + [i];
    }
    g' := Shape(chains', lru', g.entries[r.key := Entry(v, r.expires, r.flags)]);
  }

  lemma LinkAfterLru(s: Slots, i: nat, hash: nat, last: nat)
    requires i < |s.chain| && last < |s.chain| && |s.table| > 0
    requires i < |s.lruLinks| && s.lruTail < |s.lruLinks|
    ensures var t, u := LruAdd(s, i), LinkSlot(s, i, hash, last);
            LinkSlot(t, i, hash, last) == t.(chain := u.chain, table := u.table)
  {}

  lemma InsertFails(c: Config, m: Model, k: Key, v: seq<byte>, expires: nat, flags: Flags, now: nat)
    ensures !IsFull(c, m) ==> Insert(c, m, k, v, expires, flags, now, false) == (MakeRoom(c, m, now), false)
  {}

  // ---------------------------------------------------------------- set2 on a key that is there

  /** A new expiry for slot i. */
  lemma ExpiryKeeps(c: Config, s: Slots, g: Shape, data: seq<byte>, bits: seq<bool>, i: nat, e: nat) returns (g': Shape)
    requires Inv(c, s, g, data, bits) && 0 < i < |s.recs| && Live(s.recs[i])
    ensures s.recs[i].key in g.entries
    ensures Inv(c, s.(recs := s.recs[i := s.recs[i].(expires := e)]), g', data, bits)
    ensures g' == g.(entries := g.entries[s.recs[i].key := g.entries[s.recs[i].key].(expires := e)])
    ensures forall ns :: Abstract(c, s.(recs := s.recs[i := s.recs[i].(expires := e)]), g', ns) ==
                         Abstract(c, s, g, ns).(entries := g'.entries)
  {
    var r := s.recs[i].(expires := e);
    ContentsAfterExpiry(c, s.recs, data, g.entries, i, e);
    BucketsAfterRewrite(s.recs, s.chain, s.table, g.chains, i, r);
    StackAfterRewrite(s.recs, s.stack, s.sp, i, r);
    if c.bitmap {
      BitsAfterRewrite(c, s.recs, bits, i, r);
    }
    if c.purgeLru {
      LruAfterRewrite(s.recs, g.lru, i, r);
    }
    SameSize(g.entries, s.recs[i].key, g.entries[s.recs[i].key].(expires := e));
    hide Buckets, FreeStack, Contents, BitsMatch, LruMembers, Queue, Recency;
    g' := g.(entries := g.entries[s.recs[i].key := g.entries[s.recs[i].key].(expires := e)]);
  }

  /** New bytes for slot i, at new blocks in bitmap mode. */
  lemma RewriteKeeps(c: Config, s: Slots, g: Shape, data: seq<byte>, bits: seq<bool>, bits': seq<bool>,
                     i: nat, r: Record, v: seq<byte>) returns (g': Shape)
    requires Inv(c, s, g, data, bits) && 0 < i < |s.recs| && Live(s.recs[i])
    requires r == s.recs[i].(firstBlock := r.firstBlock, valsize := |v|) && Fits(c, r)
    requires forall q :: 0 < q < |s.recs| && q != i && Live(s.recs[q]) ==> Apart(c, s.recs[q], r)
    requires !c.bitmap ==> r.firstBlock == i && r.valsize <= c.blocksize
    requires c.bitmap ==> BitsMatch(c, s.recs[i := r], bits')
    ensures Offset(r.firstBlock, c.blocksize) + |v| <= |data|
    ensures s.recs[i].key in g.entries
    ensures Inv(c, s.(recs := s.recs[i := r]), g', Written(data, Offset(r.firstBlock, c.blocksize), v), bits')
    ensures g' == g.(entries := g.entries[r.key := g.entries[r.key].(value := v)])
    ensures forall ns :: Abstract(c, s.(recs := s.recs[i := r]), g', ns) ==
                         Abstract(c, s, g, ns).(entries := g'.entries)
  {
    hide Apart, Fits, Written, Buckets, FreeStack, Contents, BitsMatch, LruMembers, Queue, Recency;
    ContentsKey(c, s.recs, data, g.entries, i);
    ContentsAfterStore(c, s.recs, data, g.entries, i, r, v);
    BucketsAfterRewrite(s.recs, s.chain, s.table, g.chains, i, r);
    StackAfterRewrite(s.recs, s.stack, s.sp, i, r);
    if c.purgeLru {
      LruAfterRewrite(s.recs, g.lru, i, r);
    }
    SameSize(g.entries, r.key, g.entries[r.key].(value := v));
    g' := g.(entries := g.entries[r.key := g.entries[r.key].(value := v)]);
  }

  lemma InvFree(c: Config, s: Slots, g: Shape, data: seq<byte>, bits: seq<bool>, i: nat)
    requires Inv(c, s, g, data, bits) && 0 < i < |s.recs| && !Live(s.recs[i])
    ensures s.recs[i := Freed(s.recs[i])] == s.recs
  {
    FreeIsFreed(s.recs, s.stack, s.sp, i);
  }

  // ---------------------------------------------------------------- facts that the methods read off the invariant

  /** Chain b starts at its table entry, is linked, holds live slots, and is shorter than the pool. */
  lemma ChainFacts(c: Config, s: Slots, g: Shape, data: seq<byte>, bits: seq<bool>, b: nat)
    requires Inv(c, s, g, data, bits) && b < |s.table|
    ensures |g.chains| == |s.table| && |s.chain| == |s.recs|
    ensures s.table[b] == At(g.chains[b], 0) && |g.chains[b]| < c.maxItems
    ensures forall j :: 0 <= j < |g.chains[b]| ==> Node(s, g.chains[b], j, b)
  {
    hide FreeStack, Contents, BitsMatch, LruMembers, Queue, BucketOf;
    assert Linked(s.chain, g.chains[b]);
    DistinctIsShort(g.chains[b], c.maxItems);
    forall j | 0 <= j < |g.chains[b]|
      ensures Node(s, g.chains[b], j, b)
    {
      assert InBucket(s.recs, g.chains[b][j], b, |g.chains|);
    }
  }

  /** Position j of chain ch, the chain of bucket b. */
  ghost predicate Node(s: Slots, ch: seq<nat>, j: nat, b: nat)
    requires j < |ch|
  {
    && 0 < ch[j] < |s.recs| && ch[j] < |s.chain| && Live(s.recs[ch[j]]) && |s.table| > 0
    && s.chain[ch[j]].next == At(ch, j + 1) && BucketOf(s.recs[ch[j]].hash, |s.table|) == b
  }

  /** A key that no slot of its chain carries is not in the cache. */
  lemma NotOnChain(c: Config, s: Slots, g: Shape, data: seq<byte>, bits: seq<bool>, k: Key)
    requires Inv(c, s, g, data, bits) && |s.table| > 0 && |g.chains| == |s.table|
    requires forall j :: 0 <= j < |g.chains[BucketOf(c.hash(k), |s.table|)]| ==>
               var i := g.chains[BucketOf(c.hash(k), |s.table|)][j]; i < |s.recs| && s.recs[i].key != k
    ensures k !in g.entries
  {
    hide FreeStack, BitsMatch, LruMembers, Queue, BucketOf, EntryOf, Space, DataSize;
  }

  lemma LiveFacts(c: Config, s: Slots, g: Shape, data: seq<byte>, bits: seq<bool>, i: nat)
    requires Inv(c, s, g, data, bits) && 0 < i < |s.recs|
    ensures Live(s.recs[i]) ==> s.recs[i].key in g.entries && s.recs[i].hash == c.hash(s.recs[i].key)
    ensures Live(s.recs[i]) ==> g.entries[s.recs[i].key].expires == s.recs[i].expires
    ensures Live(s.recs[i]) ==> g.entries[s.recs[i].key].flags == s.recs[i].flags
    ensures Live(s.recs[i]) ==> Fits(c, s.recs[i]) && g.entries[s.recs[i].key].value == ValueOf(c, data, s.recs[i])
    ensures !Live(s.recs[i]) ==> s.recs[i].expires == 0
  {
    hide Buckets, BitsMatch, LruMembers, Queue;
    if Live(s.recs[i]) {
      ContentsKey(c, s.recs, data, g.entries, i);
    } else {
      assert s.recs[i] == Freed(s.recs[i]);
    }
  }

  lemma KeyHasSlot(c: Config, s: Slots, g: Shape, data: seq<byte>, bits: seq<bool>, k: Key) returns (i: nat)
    requires Inv(c, s, g, data, bits) && k in g.entries
    ensures 0 < i < |s.recs| && Live(s.recs[i]) && s.recs[i].key == k
  {
    hide Buckets, FreeStack, BitsMatch, LruMembers, Queue, Keyed, Space, EntryOf;
    assert HasSlot(s.recs, k);
    i :| 0 < i < |s.recs| && Live(s.recs[i]) && s.recs[i].key == k;
  }

  /** The head of the LRU list carries the least recently touched key. */
  lemma HeadIsOldest(c: Config, s: Slots, g: Shape, data: seq<byte>, bits: seq<bool>)
    requires Inv(c, s, g, data, bits) && c.purgeLru
    ensures s.lruHead == 0 <==> Recency(s.recs, g.lru) == []
    ensures s.lruHead != 0 ==> s.lruHead < |s.recs| && Live(s.recs[s.lruHead]) &&
                               s.recs[s.lruHead].key == Recency(s.recs, g.lru)[0]
  {
    hide Buckets, FreeStack, Contents, BitsMatch, Linked;
  }

  /** The block number of a free slot may change. */
  lemma FreeSlotBlock(c: Config, s: Slots, g: Shape, data: seq<byte>, bits: seq<bool>, i: nat, fb: nat)
    requires Inv(c, s, g, data, bits) && 0 < i < |s.recs| && !Live(s.recs[i])
    ensures Inv(c, s.(recs := s.recs[i := s.recs[i].(firstBlock := fb)]), g, data, bits)
    ensures forall ns :: Abstract(c, s.(recs := s.recs[i := s.recs[i].(firstBlock := fb)]), g, ns) ==
              Abstract(c, s, g, ns)
  {
    var r := s.recs[i].(firstBlock := fb);
    assert s.recs[i] == Freed(s.recs[i]);
    BucketsAfterRewrite(s.recs, s.chain, s.table, g.chains, i, r);
    StackAfterRewrite(s.recs, s.stack, s.sp, i, r);
    ContentsAfterIdle(c, s.recs, data, g.entries, i, r);
    if c.bitmap {
      BitsAfterIdle(c, s.recs, bits, i, r);
    }
    if c.purgeLru {
      LruAfterRewrite(s.recs, g.lru, i, r);
    }
    hide Buckets, FreeStack, Contents, BitsMatch, LruMembers, Queue, Recency;
  }

  /** Without a bitmap, block i is free for slot i. */
  lemma OwnBlock(c: Config, s: Slots, g: Shape, data: seq<byte>, bits: seq<bool>, i: nat, r: Record)
    requires Inv(c, s, g, data, bits) && !c.bitmap && 0 < i < |s.recs|
    requires r.firstBlock == i && 0 < r.valsize <= c.blocksize
    ensures Fits(c, r) && forall q :: 0 < q < |s.recs| && q != i && Live(s.recs[q]) ==> Apart(c, s.recs[q], r)
  {
    hide Buckets, FreeStack, BitsMatch, LruMembers, Queue, Keyed, Stores;
  }

  lemma FreeTop(c: Config, s: Slots, g: Shape, data: seq<byte>, bits: seq<bool>)
    requires Inv(c, s, g, data, bits) && 0 < s.sp
    ensures s.sp < |s.stack| && 0 < s.stack[s.sp] < |s.recs| && !Live(s.recs[s.stack[s.sp]])
  {
    StackTop(s.recs, s.stack, s.sp);
  }

  lemma InData(c: Config, s: Slots, g: Shape, data: seq<byte>, bits: seq<bool>, i: nat)
    requires Inv(c, s, g, data, bits) && 0 < i < |s.recs| && Live(s.recs[i])
    ensures var at := Offset(s.recs[i].firstBlock, c.blocksize);
            at + s.recs[i].valsize <= |data| && data[at..at + s.recs[i].valsize] == ValueOf(c, data, s.recs[i])
  {
    hide Buckets, FreeStack, BitsMatch, LruMembers, Queue, Contents, Fits;
    ContentsKey(c, s.recs, data, g.entries, i);
    ContentsSpace(c, s.recs, data, g.entries);
    ValueIsInside(c, s.recs[i]);
  }

  lemma InvSizes(c: Config, s: Slots, g: Shape, data: seq<byte>, bits: seq<bool>)
    requires Inv(c, s, g, data, bits)
    ensures |s.recs| == c.maxItems > 0 && s.nItems == |g.entries| && s.nItems + s.sp + 1 == c.maxItems
    ensures |s.table| == c.hashsize && |s.lruLinks| == c.maxItems
  {}

  /** The recency order holds no key that is not in the cache. */
  lemma KeepsEverything(c: Config, s: Slots, g: Shape, data: seq<byte>, bits: seq<bool>, ns: nat)
    requires Inv(c, s, g, data, bits)
    ensures Shrink(Abstract(c, s, g, ns), g.entries) == Abstract(c, s, g, ns)
  {
    hide Buckets, FreeStack, Contents, BitsMatch, Queue, Keep;
    var m := Abstract(c, s, g, ns);
    forall j | 0 <= j < |m.recency|
      ensures m.recency[j] in g.entries
    {
      ContentsKey(c, s.recs, data, g.entries, g.lru[j]);
    }
    KeepAll(m.recency, g.entries.Keys);
  }

  lemma ShrinkTwice(m: Model, a: map<Key, Entry>, b: map<Key, Entry>)
    requires b.Keys <= a.Keys
    ensures Shrink(Shrink(m, a), b) == Shrink(m, b)
  {
    KeepTwice(m.recency, a.Keys, b.Keys);
  }

  /** Some expired entries of m are gone, nothing else. */
  ghost predicate Between(m: Model, entries: map<Key, Entry>, now: nat) {
    && (forall k :: k in entries ==> k in m.entries && entries[k] == m.entries[k])
    && (forall k :: k in m.entries && !Expired(m.entries[k], now) ==> k in entries)
  }

  /** When no slot is expired, no entry is; what is left of m are its unexpired entries. */
  lemma NothingExpired(c: Config, s: Slots, g: Shape, data: seq<byte>, bits: seq<bool>, m: Model, now: nat)
    requires Inv(c, s, g, data, bits) && Between(m, g.entries, now)
    requires forall q :: 0 < q < |s.recs| ==> !(0 < s.recs[q].expires <= now)
    ensures g.entries == Unexpired(m, now)
  {
    hide Inv;
    forall k | k in g.entries
      ensures !Expired(g.entries[k], now)
    {
      var q := KeyHasSlot(c, s, g, data, bits, k);
      LiveFacts(c, s, g, data, bits, q);
    }
  }

  lemma InvBits(c: Config, s: Slots, g: Shape, data: seq<byte>, bits: seq<bool>)
    requires Inv(c, s, g, data, bits) && c.bitmap
    ensures BitsMatch(c, s.recs, bits) && c.blocks <= |bits| && c.blocks + 8 < Bitmap.NO_BLOCK && Space(c, s.recs)
  {
    hide Buckets, FreeStack, LruMembers, Queue;
  }

  lemma InvData(c: Config, s: Slots, g: Shape, data: seq<byte>, bits: seq<bool>)
    requires Inv(c, s, g, data, bits)
    ensures |data| == Offset(c.blocks, c.blocksize)
  {
    hide Buckets, FreeStack, LruMembers, Queue, BitsMatch;
  }

  /** A record for a new key: its own block without a bitmap, a free run that has just been marked with one. */
  lemma NewRecord(c: Config, s: Slots, g: Shape, data: seq<byte>, bits: seq<bool>, bits': seq<bool>,
                  i: nat, r: Record, v: seq<byte>)
    requires Inv(c, s, g, data, bits) && 0 < i < |s.recs| && !Live(s.recs[i])
    requires Acceptable(c, r.key, v) && r.key !in g.entries && r.hash == c.hash(r.key) && r.valsize == |v|
    requires !c.bitmap ==> r.firstBlock == i
    requires c.bitmap ==> Bitmap.ClearRun(bits, r.firstBlock, Extent(c, r)) &&
                          Bitmap.PaintedBits(bits, bits', r.firstBlock, Extent(c, r), true)
    ensures Fresh(c, s, g, i, r, v)
    ensures c.bitmap ==> BitsMatch(c, s.recs[i := r], bits')
  {
    hide Buckets, FreeStack, LruMembers, Queue, BitsMatch, Contents, Apart, Bitmap.ClearRun, Bitmap.PaintedBits;
    if c.bitmap {
      BitsAfterClaim(c, s.recs, bits, bits', i, r);
      forall q | 0 < q < |s.recs| && Live(s.recs[q])
        ensures Extent(c, s.recs[q]) > 0
      {
        ContentsKey(c, s.recs, data, g.entries, q);
      }
    } else {
      OwnBlock(c, s, g, data, bits, i, r);
    }
  }

  lemma FitsInside(c: Config, r: Record)
    requires Fits(c, r)
    ensures r.firstBlock + Extent(c, r) <= c.blocks && 0 < r.valsize
  {}

  lemma OwnRecord(c: Config, s: Slots, g: Shape, data: seq<byte>, bits: seq<bool>, i: nat)
    requires Inv(c, s, g, data, bits) && !c.bitmap && 0 < i < |s.recs| && Live(s.recs[i])
    ensures s.recs[i].firstBlock == i
  {
    hide Buckets, FreeStack, LruMembers, Queue, BitsMatch, Keyed, Stores;
  }

  // ---------------------------------------------------------------- the initial state

  const EMPTY := Record([], 0, 0, 0, 0, Flags(false, false, false, false))

  lemma InitialBits(bm: seq<bv8>, blocks: nat)
    requires 8 * (|bm| - 1) < blocks <= 8 * |bm|
    requires forall q :: 0 <= q < |bm| ==> bm[q] == if q == |bm| - 1 && blocks % 8 > 0 then 0xff >> (blocks % 8) else 0
    ensures forall k :: 0 <= k < 8 * |bm| ==> (Bitmap.Bits(bm)[k] <==> blocks <= k)
  {
    forall k | 0 <= k < 8 * |bm|
      ensures Bitmap.Bits(bm)[k] <==> blocks <= k
    {
      Bitmap.ByteOps(0, 0, k % 8);
      if k / 8 == |bm| - 1 && blocks % 8 > 0 {
        Bitmap.OnesShiftedRight(blocks % 8, k % 8);
      }
      assert Bitmap.Bits(bm)[k] == Bitmap.BitOf(bm[k / 8], k % 8);
    }
  }

  lemma InitialInv(c: Config, s: Slots, g: Shape, data: seq<byte>, bits: seq<bool>)
    requires c.Ok() && |data| == Offset(c.blocks, c.blocksize)
    requires |s.recs| == |s.chain| == |s.lruLinks| == |s.stack| == c.maxItems && |s.table| == |g.chains| == c.hashsize
    requires forall i :: 0 <= i < c.maxItems ==> s.recs[i] == EMPTY
    requires forall b :: 0 <= b < c.hashsize ==> s.table[b] == 0 && g.chains[b] == []
    requires s.sp == c.maxItems - 1 && forall j :: 0 < j < c.maxItems ==> s.stack[j] == j
    requires s.lruHead == s.lruTail == s.nItems == 0 && g.lru == [] && g.entries == map[]
    requires c.bitmap ==> c.blocks <= |bits| && forall k :: 0 <= k < |bits| ==> (bits[k] <==> c.blocks <= k)
    ensures Inv(c, s, g, data, bits)
  {
    hide FreeStack, Buckets, Extent, EntryOf;
    InitialStack(s.recs, s.stack, s.sp);
    InitialBuckets(s.recs, s.chain, s.table, g.chains);
  }

  lemma InitialStack(recs: seq<Record>, stack: seq<nat>, sp: nat)
    requires |recs| == |stack| == sp + 1 && (forall i :: 0 <= i < |recs| ==> recs[i] == EMPTY)
    requires forall j :: 0 < j <= sp ==> stack[j] == j
    ensures FreeStack(recs, stack, sp)
  {
    forall i | 0 < i < |recs|
      ensures OnStack(stack, sp, i)
    {
      assert stack[i] == i;
    }
  }

  lemma InitialBuckets(recs: seq<Record>, l: seq<Links>, table: seq<nat>, chains: seq<seq<nat>>)
    requires |l| == |recs| && (forall i :: 0 <= i < |recs| ==> recs[i] == EMPTY)
    requires |chains| == |table| > 0 && forall b :: 0 <= b < |table| ==> table[b] == 0 && chains[b] == []
    ensures Buckets(recs, l, table, chains)
  {
    hide BucketOf;
  }

  // ---------------------------------------------------------------- when the sweeper has to come back

  /** Slots have been freed, nothing else has happened to the expiries. */
  ghost predicate Thinned(before: seq<Record>, after: seq<Record>) {
    && |after| == |before|
    && forall q :: 0 <= q < |before| ==> after[q].expires == before[q].expires || after[q].expires == 0
  }

  /** Slots have been freed, nothing else has happened to the records. */
  ghost predicate OnlyFreed(before: seq<Record>, after: seq<Record>) {
    && |after| == |before|
    && forall q :: 0 <= q < |before| ==> after[q] == before[q] || after[q] == Freed(before[q])
  }

  /** Making room never hides a free run from the search. */
  lemma RoomIsSeen(c: Config, s0: Slots, g0: Shape, d0: seq<byte>, bits0: seq<bool>,
                   s1: Slots, g1: Shape, d1: seq<byte>, bits1: seq<bool>, hint: nat, n: nat)
    requires Inv(c, s0, g0, d0, bits0) && Inv(c, s1, g1, d1, bits1) && OnlyFreed(s0.recs, s1.recs)
    requires c.bitmap && |bits0| == |bits1| && n > 0
    ensures Bitmap.Search(bits0, hint, n).Some? ==> Bitmap.Search(bits1, hint, n).Some?
  {
    hide Buckets, FreeStack, LruMembers, Queue, Contents, BucketOf, Extent, Bitmap.Search, Bitmap.FirstRun;
    forall k: nat | k < |bits1| && bits1[k]
      ensures bits0[k]
    {
      if k < c.blocks {
        assert Taken(c, s1.recs, k);
        var q :| 0 < q < |s1.recs| && Covers(c, s1.recs[q], k);
        assert Covers(c, s0.recs[q], k);
      }
    }
    Bitmap.SearchSucceedsIff(bits0, hint, n);
    Bitmap.SearchSucceedsIff(bits1, hint, n);
    if Bitmap.Search(bits0, hint, n).Some? {
      var p: nat :| Bitmap.ClearRun(bits0, p, n) && (hint <= p || p + n <= Bitmap.RoundUp(hint));
      assert Bitmap.ClearRun(bits1, p, n);
    }
  }

  /** Slot i has expiry e, the others have kept theirs. */
  ghost predicate Stamped(before: seq<Record>, after: seq<Record>, i: nat, e: nat) {
    && |after| == |before| && i < |before| && after[i].expires == e
    && forall q :: 0 <= q < |before| && q != i ==> after[q].expires == before[q].expires
  }

  /** The next scan comes no later than the expiry of any slot below n. */
  ghost predicate Scheduled(recs: seq<Record>, n: int, nextScan: nat) {
    forall q :: 0 < q < n && q < |recs| && recs[q].expires > 0 ==> 0 < nextScan <= recs[q].expires
  }

  /** A set whose expiry the sweeper gets to know. */
  predicate Punctual(c: Config, expires: nat, flags: Flags) {
    !c.purgeLru && c.sweepOnFull == 0 && (flags.absExpire ==> expires == 0)
  }

  lemma ScheduledAfterStamp(c: Config, before: seq<Record>, after: seq<Record>, i: nat, nextScan: nat,
                            expires: nat, flags: Flags, now: nat)
    requires Stamped(before, after, i, ExpiryOf(c, expires, flags, now))
    ensures Punctual(c, expires, flags) ==>
              forall n :: Scheduled(before, n, nextScan) ==>
                  Scheduled(after, n, ScanAfter(c, nextScan, expires, flags, now))
  {}

  predicate OpPunctual(c: Config, op: Op) {
    !c.purgeLru && c.sweepOnFull == 0 && (op.OpSet? ==> Punctual(c, op.expires, op.flags))
  }

  predicate AllPunctual(c: Config, ops: seq<Op>) {
    forall i :: 0 <= i < |ops| ==> OpPunctual(c, ops[i])
  }

  /** Nobody uses the cache while the sweeper is at work. */
  predicate Undisturbed(between: seq<seq<Op>>) {
    forall i :: 0 <= i < |between| ==> between[i] == []
  }

  /** The sweeper does nothing at all. */
  predicate SweeperIsOff(c: Config) {
    c.noExpire || c.purgeLru || c.lazyExpire
  }

  /** Every section reads the same time as the early exit. */
  predicate Steady(clock: seq<nat>) {
    forall i :: 0 <= i < |clock| ==> clock[i] == clock[0]
  }

  /** The sections of the slots below n have freed exactly those that were expired when their turn came. */
  ghost predicate Swept(before: seq<Record>, after: seq<Record>, n: nat, clock: seq<nat>) {
    && |after| == |before| == |clock|
    && forall q :: 0 < q < |before| ==>
         after[q] == if q < n && 0 < before[q].expires <= clock[q] then Freed(before[q]) else before[q]
  }

  /** A critical section of the sweeper and what follows until the next one: the model before it, the record it finds,
      the model after it, and the placements of the operations that other processes then carry out. */
  datatype Section = Section(before: Model, found: Record, after: Model, placed: seq<bool>)

  /** A section deletes the entry whose record it finds, if that is expired at its reading, and nothing else. */
  ghost predicate SectionOk(s: Section, time: nat) {
    && (IsDue(s, time) ==> s.found.key in s.before.entries && Expired(s.before.entries[s.found.key], time))
    && s.after.entries == (if IsDue(s, time) then s.before.entries - {s.found.key} else s.before.entries)
    && s.after.recency == s.before.recency
  }

  predicate IsDue(s: Section, time: nat) {
    0 < s.found.expires <= time
  }

  /** How many sections have deleted an entry. */
  ghost function Deletions(log: seq<Section>, clock: seq<nat>): nat
    requires |log| < |clock|
  {
    if log == [] then 0
    else
      var n := |log| - 1;
      Deletions(log[..n], clock) + if IsDue(log[n], clock[n + 1]) then 1 else 0
  }

  /** The model when section j starts, or when the pass ends. */
  ghost function ModelAt(c: Config, m: Model, between: seq<seq<Op>>, start: seq<bool>, log: seq<Section>, j: nat): Model
    requires j <= |log| < |between| && |start| == |between[0]|
  {
    if j == 0 then Run(c, m, between[0], start).0
    else if |log[j - 1].placed| == |between[j]| then Run(c, log[j - 1].after, between[j], log[j - 1].placed).0
    else m
  }

  /** The sections in the log and the operations between them make one run from m. */
  ghost predicate Interleaved(c: Config, m: Model, clock: seq<nat>, between: seq<seq<Op>>, start: seq<bool>,
                              log: seq<Section>)
    requires |log| < |between| == |clock| && |start| == |between[0]|
  {
    forall j :: 0 <= j < |log| ==>
      && |log[j].placed| == |between[j + 1]| && SectionOk(log[j], clock[j + 1])
      && log[j].before == ModelAt(c, m, between, start, log, j)
  }

  lemma NoSlotYet(recs: seq<Record>, nextScan: nat)
    ensures Scheduled(recs, 1, nextScan)
  {}

  lemma LogStarts(c: Config, m: Model, clock: seq<nat>, between: seq<seq<Op>>, start: seq<bool>)
    requires 0 < |between| == |clock| && |start| == |between[0]|
    ensures Interleaved(c, m, clock, between, start, []) && Deletions([], clock) == 0
    ensures ModelAt(c, m, between, start, [], 0) == Run(c, m, between[0], start).0
  {}

  lemma InterleavedMore(c: Config, m: Model, clock: seq<nat>, between: seq<seq<Op>>, start: seq<bool>,
                        log: seq<Section>, s: Section)
    requires |log| + 1 < |between| == |clock| && |start| == |between[0]| &&
              Interleaved(c, m, clock, between, start, log)
    requires |s.placed| == |between[|log| + 1]| && SectionOk(s, clock[|log| + 1])
    requires s.before == ModelAt(c, m, between, start, log, |log|)
    ensures Interleaved(c, m, clock, between, start, log + [s])
    ensures ModelAt(c, m, between, start, log + [s], |log| + 1) == Run(c, s.after, between[|log| + 1], s.placed).0
    ensures Deletions(log + [s], clock) == Deletions(log, clock) + if IsDue(s, clock[|log| + 1]) then 1 else 0
  {
    hide SectionOk, IsDue, Run;
    var log' := log + [s];
    assert log'[..|log|] == log;
    forall j | 0 <= j < |log'|
      ensures |log'[j].placed| == |between[j + 1]| && SectionOk(log'[j], clock[j + 1])
      ensures log'[j].before == ModelAt(c, m, between, start, log', j)
    {
      assert j < |log| ==> log'[j] == log[j] && log[j].before == ModelAt(c, m, between, start, log, j);
      assert j > 0 ==> log'[j - 1] == log[j - 1];
    }
  }

  /** What an undisturbed pass has done when it comes to slot i. */
  ghost predicate SweepSoFar(m: Model, before: seq<Record>, clock: seq<nat>, i: nat,
                             entries: map<Key, Entry>, recs: seq<Record>, freed: nat)
  {
    && freed == |m.entries| - |entries| && Swept(before, recs, i, clock) && |clock| > 0
    && (Steady(clock) ==> Between(m, entries, clock[0]))
  }

  lemma SweepStarts(m: Model, recs: seq<Record>, clock: seq<nat>, between: seq<seq<Op>>)
    requires |clock| == |recs| > 0
    ensures SweepSoFar(m, recs, clock, 1, m.entries, recs, 0)
  {
    hide Between;
    NothingMissing(m, clock[0]);
  }

  lemma SweepGoesOn(m: Model, before: seq<Record>, clock: seq<nat>, i: nat,
                    entries: map<Key, Entry>, recs: seq<Record>, freed: nat, f: bool,
                    entries': map<Key, Entry>, recs': seq<Record>)
    requires 0 < i < |recs| == |clock| && (f <==> 0 < recs[i].expires <= clock[i]) && (f ==> recs[i].key in entries)
    requires entries' == if f then entries - {recs[i].key} else entries
    requires recs' == if f then recs[i := Freed(recs[i])] else recs
    requires forall m :: Between(m, entries, clock[i]) ==> Between(m, entries', clock[i])
    ensures SweepSoFar(m, before, clock, i, entries, recs, freed) ==>
            SweepSoFar(m, before, clock, i + 1, entries', recs', if f then freed + 1 else freed)
  {
    hide Between;
    if f {
      OneLess(entries, recs[i].key);
    }
  }

  /** What a pass has done when it comes to slot i. */
  ghost predicate PassSoFar(c: Config, m: Model, before: seq<Record>, clock: seq<nat>, between: seq<seq<Op>>,
                            start: seq<bool>, log: seq<Section>, i: nat, now: Model, recs: seq<Record>, freed: nat)
  {
    && 0 < i <= |clock| == |between| && |log| == i - 1 && |start| == |between[0]|
    && Interleaved(c, m, clock, between, start, log)
    && now == ModelAt(c, m, between, start, log, |log|) && freed == Deletions(log, clock)
    && (Undisturbed(between) ==> SweepSoFar(m, before, clock, i, now.entries, recs, freed))
  }

  lemma PassStarts(c: Config, m: Model, before: seq<Record>, clock: seq<nat>, between: seq<seq<Op>>, start: seq<bool>,
                   now: Model, recs: seq<Record>)
    requires 0 < |before| == |clock| == |between| && |start| == |between[0]| && now == Run(c, m, between[0], start).0
    requires between[0] == [] ==> now == m && recs == before
    ensures PassSoFar(c, m, before, clock, between, start, [], 1, now, recs, 0)
  {
    hide Interleaved, ModelAt, Deletions, SweepSoFar, Run;
    LogStarts(c, m, clock, between, start);
    SweepStarts(m, before, clock, between);
  }

  /** Section i finds record recs[i], and leads to the model after and the records mid; then come the operations of
      others, which lead to the model now and the records recs'. */
  lemma PassGoesOn(c: Config, m: Model, before: seq<Record>, clock: seq<nat>, between: seq<seq<Op>>, start: seq<bool>,
                   log: seq<Section>, i: nat, was: Model, recs: seq<Record>, freed: nat, f: bool,
                   s: Section, mid: seq<Record>, now: Model, recs': seq<Record>)
    requires PassSoFar(c, m, before, clock, between, start, log, i, was, recs, freed) && i < |recs| == |clock|
    requires s.before == was && s.found == recs[i] && SectionOk(s, clock[i]) && (f <==> IsDue(s, clock[i]))
    requires mid == if f then recs[i := Freed(recs[i])] else recs
    requires forall m :: Between(m, was.entries, clock[i]) ==> Between(m, s.after.entries, clock[i])
    requires |s.placed| == |between[i]| && now == Run(c, s.after, between[i], s.placed).0
    requires between[i] == [] ==> now == s.after && recs' == mid
    ensures PassSoFar(c, m, before, clock, between, start, log + [s], i + 1, now, recs', if f then freed + 1 else freed)
  {
    hide Interleaved, ModelAt, Deletions, SweepSoFar, Run, Between;
    InterleavedMore(c, m, clock, between, start, log, s);
    SweepGoesOn(m, before, clock, i, was.entries, recs, freed, f, s.after.entries, mid);
  }

  lemma SweepEnds(c: Config, s: Slots, g: Shape, data: seq<byte>, bits: seq<bool>, m: Model, before: seq<Record>,
                  clock: seq<nat>, freed: nat)
    requires Inv(c, s, g, data, bits) && SweepSoFar(m, before, clock, |s.recs|, g.entries, s.recs, freed)
    ensures freed == |m.entries| - |g.entries| && Swept(before, s.recs, |s.recs|, clock)
    ensures |clock| > 0 && (Steady(clock) ==> g.entries == Unexpired(m, clock[0]))
  {
    hide Inv, Unexpired, Between;
    if Steady(clock) {
      NothingExpired(c, s, g, data, bits, m, clock[0]);
    }
  }

  lemma PassEnds(c: Config, s: Slots, g: Shape, data: seq<byte>, bits: seq<bool>, now: Model, m: Model,
                 before: seq<Record>, clock: seq<nat>, between: seq<seq<Op>>, start: seq<bool>, log: seq<Section>,
                 freed: nat)
    requires Inv(c, s, g, data, bits) && now.entries == g.entries && |clock| == |s.recs|
    requires PassSoFar(c, m, before, clock, between, start, log, |s.recs|, now, s.recs, freed)
    ensures |log| == |s.recs| - 1 && |between| == |clock| > 0 && |start| == |between[0]|
    ensures Interleaved(c, m, clock, between, start, log)
    ensures now == ModelAt(c, m, between, start, log, |log|) && freed == Deletions(log, clock)
    ensures Undisturbed(between) ==>
              freed == |m.entries| - |g.entries| && Swept(before, s.recs, |s.recs|, clock) &&
              (Steady(clock) ==> g.entries == Unexpired(m, clock[0]))
  {
    hide Inv, Interleaved, ModelAt, Deletions, SweepSoFar, Unexpired, Swept;
    if Undisturbed(between) {
      SweepEnds(c, s, g, data, bits, m, before, clock, freed);
    }
  }

  lemma NothingMissing(m: Model, now: nat)
    ensures Between(m, m.entries, now)
  {}

  /** The test that lets a pass do nothing never skips an expired slot. */
  lemma EarlyOutIsSafe(recs: seq<Record>, nextScan: nat, now: nat)
    requires Scheduled(recs, |recs|, nextScan) && (nextScan == 0 || nextScan > now)
    ensures forall q :: 0 < q < |recs| ==> !(0 < recs[q].expires <= now)
  {}

  // ---------------------------------------------------------------- the order of the key iterator

  ghost function Flatten(chains: seq<seq<nat>>): seq<nat> {
    if chains == [] then [] else chains[0] + Flatten(chains[1..])
  }

  /** uci, if any, is position j of chain pos. */
  ghost predicate OnCursor(chains: seq<seq<nat>>, pos: nat, uci: nat, j: nat) {
    uci != 0 ==> pos < |chains| && j < |chains[pos]| && chains[pos][j] == uci
  }

  /** What is still to be visited. */
  ghost function Remaining(chains: seq<seq<nat>>, pos: nat, uci: nat, j: nat): seq<nat> {
    if pos >= |chains| then []
    else if uci == 0 then Flatten(chains[pos..])
    else if j < |chains[pos]| then chains[pos][j + 1..] + Flatten(chains[pos + 1..])
    else []
  }

  lemma PastTheEnd(chains: seq<seq<nat>>, pos: nat)
    requires pos >= |chains|
    ensures forall uci, j :: Remaining(chains, pos, uci, j) == []
  {}

  lemma CursorHit(chains: seq<seq<nat>>, pos: nat, uci: nat, j: nat)
    requires pos < |chains| && OnCursor(chains, pos, uci, j)
    ensures var next := if uci == 0 then 0 else j + 1;
            next < |chains[pos]| && chains[pos][next] != 0 ==>
              Remaining(chains, pos, uci, j) == [chains[pos][next]] + Remaining(chains, pos, chains[pos][next], next)
  {
    hide Remaining, Flatten;
    var ch, next := chains[pos], if uci == 0 then 0 else j + 1;
    if next < |ch| && ch[next] != 0 {
      RemainingIs(chains, pos, uci, j);
      RemainingIs(chains, pos, ch[next], next);
      FirstOfRest(ch, next, Flatten(chains[pos + 1..]));
    }
  }

  lemma FirstOfRest(ch: seq<nat>, next: nat, rest: seq<nat>)
    requires next < |ch|
    ensures ch[next..] + rest == [ch[next]] + (ch[next + 1..] + rest)
  {
    assert ch[next..] == [ch[next]] + ch[next + 1..];
  }

  lemma CursorMiss(chains: seq<seq<nat>>, pos: nat, uci: nat, j: nat)
    requires pos < |chains| && OnCursor(chains, pos, uci, j)
    ensures var next := if uci == 0 then 0 else j + 1;
            next >= |chains[pos]| ==> Remaining(chains, pos, uci, j) == Remaining(chains, pos + 1, 0, j)
  {
    RemainingIs(chains, pos, uci, j);
    if pos + 1 == |chains| {
      assert chains[pos + 1..] == [];
    }
  }

  lemma RemainingIs(chains: seq<seq<nat>>, pos: nat, uci: nat, j: nat)
    requires pos < |chains| && (uci != 0 ==> j < |chains[pos]|)
    ensures Remaining(chains, pos, uci, j) == chains[pos][if uci == 0 then 0 else j + 1..] + Flatten(chains[pos + 1..])
  {
    assert chains[pos..][1..] == chains[pos + 1..];
    assert chains[pos..][0] == chains[pos];
    assert chains[pos][0..] == chains[pos];
  }

  lemma InvChains(c: Config, s: Slots, g: Shape, data: seq<byte>, bits: seq<bool>)
    requires Inv(c, s, g, data, bits)
    ensures |g.chains| == |s.table| > 0
  {
    BucketsShape(s.recs, s.chain, s.table, g.chains);
  }

  lemma {:induction false} FlattenMembers(chains: seq<seq<nat>>, x: nat)
    ensures x in Flatten(chains) <==> exists b :: 0 <= b < |chains| && x in chains[b]
  {
    if chains != [] {
      var rest := chains[1..];
      FlattenMembers(rest, x);
      if b :| 0 <= b < |chains| && x in chains[b] {
        assert b > 0 ==> rest[b - 1] == chains[b];
      }
      if b :| 0 <= b < |rest| && x in rest[b] {
        assert chains[b + 1] == rest[b];
      }
    }
  }

  lemma {:induction false} FlattenDistinct(chains: seq<seq<nat>>)
    requires forall b :: 0 <= b < |chains| ==> Distinct(chains[b])
    requires forall b, d :: 0 <= b < |chains| && 0 <= d < |chains| && b != d ==> Disjoint(chains[b], chains[d])
    ensures Distinct(Flatten(chains))
  {
    if chains != [] {
      var rest := chains[1..];
      forall b, d | 0 <= b < |rest| && 0 <= d < |rest| && b != d
        ensures Disjoint(rest[b], rest[d])
      {
        assert Disjoint(chains[b + 1], chains[d + 1]);
      }
      FlattenDistinct(rest);
      forall j, k | 0 <= j < |chains[0]| && 0 <= k < |Flatten(rest)|
        ensures chains[0][j] != Flatten(rest)[k]
      {
        FlattenMembers(rest, Flatten(rest)[k]);
        var b :| 0 <= b < |rest| && Flatten(rest)[k] in rest[b];
        assert Disjoint(chains[0], chains[b + 1]);
      }
    }
  }

  /** The whole bucket order holds every live slot exactly once. */
  lemma AllVisited(c: Config, s: Slots, g: Shape, data: seq<byte>, bits: seq<bool>)
    requires Inv(c, s, g, data, bits)
    ensures Distinct(Remaining(g.chains, 0, 0, 0))
    ensures forall i :: i in Remaining(g.chains, 0, 0, 0) <==> 0 < i < |s.recs| && Live(s.recs[i])
  {
    hide FreeStack, Contents, BitsMatch, LruMembers, Queue, BucketOf;
    assert g.chains[0..] == g.chains;
    forall b | 0 <= b < |g.chains|
      ensures Distinct(g.chains[b])
    {
      assert Linked(s.chain, g.chains[b]);
    }
    FlattenDistinct(g.chains);
    forall i: nat
      ensures i in Flatten(g.chains) <==> 0 < i < |s.recs| && Live(s.recs[i])
    {
      FlattenMembers(g.chains, i);
      if b :| 0 <= b < |g.chains| && i in g.chains[b] {
        var j :| 0 <= j < |g.chains[b]| && g.chains[b][j] == i;
        assert InBucket(s.recs, g.chains[b][j], b, |g.chains|);
      }
    }
  }

  // ---------------------------------------------------------------- recovery from the item array

  /** Entry b of the hash table after the slots below n have been looked at. */
  ghost function HeadBelow(ch: seq<nat>, n: nat): nat {
    if ch != [] && ch[0] < n then ch[0] else 0
  }

  ghost predicate TableBelow(table: seq<nat>, chains: seq<seq<nat>>, n: nat) {
    |table| == |chains| && forall b :: 0 <= b < |table| ==> table[b] == HeadBelow(chains[b], n)
  }

  /** The last slot of the LRU list, once it has been looked at. */
  ghost function TailBelow(lru: seq<nat>, n: nat): nat {
    if lru != [] && Last(lru) < n then Last(lru) else 0
  }

  /** The free slots below n, in increasing order, from entry 1 of the stack on. */
  ghost predicate StackBelow(recs: seq<Record>, stack: seq<nat>, sp: nat, n: nat) {
    && sp < n <= |recs| == |stack|
    && (forall j :: 0 < j <= sp ==> 0 < stack[j] < n && !Live(recs[stack[j]]))
    && (forall j, k :: 0 < j < k <= sp ==> stack[j] < stack[k])
    && (forall i :: 0 < i < n && !Live(recs[i]) ==> OnStack(stack, sp, i))
  }

  /** The least expiry of the live slots below n, 0 if none expires. */
  ghost predicate LeastExpiry(recs: seq<Record>, ns: nat, n: nat) {
    && (forall i :: 0 < i < n && i < |recs| && recs[i].expires > 0 ==> 0 < ns <= recs[i].expires)
    && (ns > 0 ==> exists i :: 0 < i < n && i < |recs| && recs[i].expires == ns)
  }

  /** What the recovery has rebuilt when it comes to slot n. */
  ghost predicate FixedBelow(s: Slots, g: Shape, lru: bool, scan: nat, n: nat) {
    && TableBelow(s.table, g.chains, n) && StackBelow(s.recs, s.stack, s.sp, n) && LeastExpiry(s.recs, scan, n)
    && (lru ==> s.lruHead == HeadBelow(g.lru, n) && s.lruTail == TailBelow(g.lru, n))
  }

  lemma FixedFacts(s: Slots, g: Shape, lru: bool, scan: nat, n: nat)
    requires FixedBelow(s, g, lru, scan, n)
    ensures TableBelow(s.table, g.chains, n) && StackBelow(s.recs, s.stack, s.sp, n) && LeastExpiry(s.recs, scan, n)
    ensures lru ==> s.lruHead == HeadBelow(g.lru, n) && s.lruTail == TailBelow(g.lru, n)
  {}

  /** What the record of slot i adds to the table. */
  lemma TableNext(c: Config, s: Slots, g: Shape, data: seq<byte>, bits: seq<bool>, table: seq<nat>, i: nat)
    requires Inv(c, s, g, data, bits) && TableBelow(table, g.chains, i) && 0 < i < |s.recs|
    ensures |table| == |s.table| > 0 && i < |s.chain|
    ensures TableBelow(if Live(s.recs[i]) && s.chain[i].prev == 0
                       then table[BucketOf(s.recs[i].hash, |table|) := i] else table,
                       g.chains, i + 1)
  {
    hide Buckets, FreeStack, Contents, BitsMatch, LruMembers, Queue, BucketOf, ChainFirst;
    BucketsShape(s.recs, s.chain, s.table, g.chains);
    forall b | 0 <= b < |table|
      ensures ChainFirst(s, g, i, b)
    {
      FirstHasNoPrev(s, g, i, b);
    }
    FirstFacts(s, g, i);
  }

  /** Slot i is the first of chain b exactly if it is live, hashes to b and has no predecessor. */
  ghost predicate ChainFirst(s: Slots, g: Shape, i: nat, b: nat) {
    && b < |g.chains| && i < |s.recs| && i < |s.chain|
    && ((g.chains[b] != [] && g.chains[b][0] == i) <==>
        Live(s.recs[i]) && BucketOf(s.recs[i].hash, |g.chains|) == b && s.chain[i].prev == 0)
  }

  lemma FirstFacts(s: Slots, g: Shape, i: nat)
    requires |g.chains| > 0 && i < |s.recs| && i < |s.chain| && forall b :: 0 <= b < |g.chains| ==>
              ChainFirst(s, g, i, b)
    ensures forall b :: 0 <= b < |g.chains| ==>
              ((g.chains[b] != [] && g.chains[b][0] == i) <==>
               Live(s.recs[i]) && BucketOf(s.recs[i].hash, |g.chains|) == b && s.chain[i].prev == 0)
  {
    hide BucketOf;
    forall b | 0 <= b < |g.chains|
      ensures (g.chains[b] != [] && g.chains[b][0] == i) <==>
              Live(s.recs[i]) && BucketOf(s.recs[i].hash, |g.chains|) == b && s.chain[i].prev == 0
    {
      assert ChainFirst(s, g, i, b);
    }
  }

  lemma FirstHasNoPrev(s: Slots, g: Shape, i: nat, b: nat)
    requires Buckets(s.recs, s.chain, s.table, g.chains) && 0 < i < |s.recs| && b < |s.table|
    ensures ChainFirst(s, g, i, b)
  {
    hide BucketOf;
    var ch := g.chains[b];
    assert Linked(s.chain, ch);
    if ch != [] && ch[0] == i {
      assert InBucket(s.recs, ch[0], b, |g.chains|);
      assert s.chain[ch[0]] == Links(At(ch, -1), At(ch, 1));
    }
    if Live(s.recs[i]) && BucketOf(s.recs[i].hash, |g.chains|) == b {
      var j :| 0 <= j < |ch| && ch[j] == i;
      assert s.chain[ch[j]] == Links(At(ch, j - 1), At(ch, j + 1));
      assert j > 0 ==> 0 < ch[j - 1];
    }
  }

  /** What the record of slot i adds to the two ends of the LRU list. */
  lemma EndsNext(c: Config, s: Slots, g: Shape, data: seq<byte>, bits: seq<bool>, i: nat)
    requires Inv(c, s, g, data, bits) && c.purgeLru && 0 < i < |s.recs|
    ensures i < |s.lruLinks|
    ensures HeadBelow(g.lru, i + 1) ==
              if Live(s.recs[i]) && HeadBelow(g.lru, i) == 0 && s.lruLinks[i].prev == 0 then i else HeadBelow(g.lru, i)
    ensures TailBelow(g.lru, i + 1) ==
              if Live(s.recs[i]) && TailBelow(g.lru, i) == 0 && s.lruLinks[i].next == 0 then i else TailBelow(g.lru, i)
  {
    hide Buckets, FreeStack, Contents, BitsMatch, LruMembers, Queue, HeadBelow, TailBelow;
    EndsOf(s.recs, s.lruLinks, g.lru, s.lruHead, s.lruTail, i);
  }

  lemma EndsOf(recs: seq<Record>, l: seq<Links>, lru: seq<nat>, head: nat, tail: nat, i: nat)
    requires LruMembers(recs, lru) && Queue(l, lru, head, tail) && 0 < i < |recs| == |l|
    ensures HeadBelow(lru, i + 1) ==
              if Live(recs[i]) && HeadBelow(lru, i) == 0 && l[i].prev == 0 then i else HeadBelow(lru, i)
    ensures TailBelow(lru, i + 1) ==
              if Live(recs[i]) && TailBelow(lru, i) == 0 && l[i].next == 0 then i else TailBelow(lru, i)
  {
    hide LruMembers, Linked;
    if Live(recs[i]) {
      var j := LruPosition(recs, lru, i);
      EndsAt(l, lru, j);
    } else {
      EndsAreLive(recs, lru, i);
    }
    EndsArePositive(l, lru);
  }

  /** The links of the slot at position j say whether it is the first or the last one. */
  lemma EndsAt(l: seq<Links>, lru: seq<nat>, j: nat)
    requires Linked(l, lru) && j < |lru|
    ensures lru[j] < |l| && (l[lru[j]].prev == 0 <==> lru[0] == lru[j]) &&
              (l[lru[j]].next == 0 <==> Last(lru) == lru[j])
  {
    assert l[lru[j]] == Links(At(lru, j - 1), At(lru, j + 1));
    assert j > 0 ==> 0 < lru[j - 1] && lru[0] != lru[j];
    assert j + 1 < |lru| ==> 0 < lru[j + 1] && lru[j] != lru[|lru| - 1];
  }

  lemma EndsArePositive(l: seq<Links>, lru: seq<nat>)
    requires Linked(l, lru)
    ensures lru != [] ==> 0 < lru[0] && 0 < Last(lru)
  {}

  lemma EndsAreLive(recs: seq<Record>, lru: seq<nat>, i: nat)
    requires LruMembers(recs, lru) && i < |recs| && !Live(recs[i])
    ensures lru != [] ==> lru[0] != i && Last(lru) != i
  {
    assert lru != [] ==> Live(recs[lru[0]]) && Live(recs[lru[|lru| - 1]]);
  }

  lemma StackNext(recs: seq<Record>, stack: seq<nat>, sp: nat, i: nat)
    requires StackBelow(recs, stack, sp, i) && 0 < i < |recs|
    ensures if Live(recs[i]) then StackBelow(recs, stack, sp, i + 1)
              else StackBelow(recs, stack[sp + 1 := i], sp + 1, i + 1)
  {
    var stack', sp' := if Live(recs[i]) then stack else stack[sp + 1 := i], if Live(recs[i]) then sp else sp + 1;
    forall q | 0 < q < i + 1 && !Live(recs[q])
      ensures OnStack(stack', sp', q)
    {
      if q == i {
        assert stack'[sp'] == i;
      } else {
        assert OnStack(stack, sp, q);
        var j :| 0 < j <= sp && stack[j] == q;
        assert stack'[j] == q;
      }
    }
  }

  lemma LeastNext(recs: seq<Record>, ns: nat, i: nat)
    requires LeastExpiry(recs, ns, i) && 0 < i < |recs|
    ensures LeastExpiry(recs,
                        if recs[i].expires > 0 && (ns == 0 || ns > recs[i].expires) then recs[i].expires else ns, i + 1)
  {
    if recs[i].expires > 0 && (ns == 0 || ns > recs[i].expires) {
      assert 0 < i < i + 1 && recs[i].expires == recs[i].expires;
    } else if ns > 0 {
      var q :| 0 < q < i && q < |recs| && recs[q].expires == ns;
      assert 0 < q < i + 1;
    }
  }

  /** Two stacks of the same free slots are equally high. */
  lemma StackHeight(recs: seq<Record>, stack: seq<nat>, sp: nat, stack': seq<nat>, sp': nat)
    requires FreeStack(recs, stack, sp) && FreeStack(recs, stack', sp')
    ensures sp <= sp'
  {
    var a, b := stack[1..sp + 1], stack'[1..sp' + 1];
    forall x | x in a
      ensures x in b
    {
      assert OnStack(stack', sp', x);
      var j :| 0 < j <= sp' && stack'[j] == x;
      assert b[j - 1] == x;
    }
    DistinctSubset(a, b);
  }

  lemma {:induction false} DistinctSubset(a: seq<nat>, b: seq<nat>)
    requires Distinct(a) && forall x :: x in a ==> x in b
    ensures |a| <= |b|
    decreases |a|
  {
    if a != [] {
      assert a[0] in b;
      var j :| 0 <= j < |b| && b[j] == a[0];
      var b' := Cut(b, j);
      forall x | x in a[1..]
        ensures x in b'
      {
        assert x in a && x in b;
        var k :| 0 <= k < |b| && b[k] == x;
        assert k != j;
        assert b'[if k < j then k else k - 1] == x;
      }
      DistinctSubset(a[1..], b');
    }
  }

  /** The rebuilt tables represent what the item array represented. */
  lemma RecoveredInv(c: Config, s0: Slots, g: Shape, data: seq<byte>, bits: seq<bool>, s: Slots)
    requires Inv(c, s0, g, data, bits) && s.recs == s0.recs && s.chain == s0.chain && s.lruLinks == s0.lruLinks
    requires TableBelow(s.table, g.chains, c.maxItems) && StackBelow(s.recs, s.stack, s.sp, c.maxItems)
    requires s.nItems + s.sp + 1 == c.maxItems
    requires c.purgeLru ==> s.lruHead == HeadBelow(g.lru, c.maxItems) && s.lruTail == TailBelow(g.lru, c.maxItems)
    ensures Inv(c, s, g, data, bits)
  {
    hide Buckets, FreeStack, Contents, BitsMatch, LruMembers, Queue, TableBelow, StackBelow;
    RecoveredTable(c, s0, g, data, bits, s.table);
    RecoveredStack(c, s0, g, data, bits, s.stack, s.sp);
    if c.purgeLru {
      RecoveredEnds(s.recs, s.lruLinks, g.lru, s0.lruHead, s0.lruTail, c.maxItems);
    }
  }

  lemma RecoveredTable(c: Config, s: Slots, g: Shape, data: seq<byte>, bits: seq<bool>, table: seq<nat>)
    requires Inv(c, s, g, data, bits) && TableBelow(table, g.chains, c.maxItems)
    ensures table == s.table
  {
    hide Inv;
    InvSizes(c, s, g, data, bits);
    InvChains(c, s, g, data, bits);
    forall b | 0 <= b < |s.table|
      ensures table[b] == s.table[b]
    {
      ChainFacts(c, s, g, data, bits, b);
      assert g.chains[b] != [] ==> Node(s, g.chains[b], 0, b);
    }
  }

  lemma RecoveredStack(c: Config, s: Slots, g: Shape, data: seq<byte>, bits: seq<bool>, stack: seq<nat>, sp: nat)
    requires Inv(c, s, g, data, bits) && StackBelow(s.recs, stack, sp, c.maxItems)
    ensures FreeStack(s.recs, stack, sp) && sp == s.sp
  {
    hide Buckets, Contents, BitsMatch, LruMembers, Queue;
    StackIsFree(s.recs, s.stack, s.sp, stack, sp);
    StackHeight(s.recs, stack, sp, s.stack, s.sp);
    StackHeight(s.recs, s.stack, s.sp, stack, sp);
  }

  lemma StackIsFree(recs: seq<Record>, stack0: seq<nat>, sp0: nat, stack: seq<nat>, sp: nat)
    requires FreeStack(recs, stack0, sp0) && StackBelow(recs, stack, sp, |recs|)
    ensures FreeStack(recs, stack, sp)
  {}

  lemma RecoveredEnds(recs: seq<Record>, l: seq<Links>, lru: seq<nat>, head: nat, tail: nat, n: nat)
    requires LruMembers(recs, lru) && Queue(l, lru, head, tail) && |recs| == n
    ensures Queue(l, lru, HeadBelow(lru, n), TailBelow(lru, n))
  {
    assert lru != [] ==> 0 < lru[0] < |recs| && 0 < Last(lru) < |recs|;
  }

  lemma StackRoom(recs: seq<Record>, stack: seq<nat>, sp: nat, i: nat)
    requires StackBelow(recs, stack, sp, i) && i < |recs|
    ensures sp + 1 < |stack|
  {}

  lemma RecoveryStart(c: Config, s: Slots, g: Shape, data: seq<byte>, bits: seq<bool>, table: seq<nat>, stack: seq<nat>)
    requires Inv(c, s, g, data, bits) && |table| == c.hashsize && (forall b :: 0 <= b < |table| ==> table[b] == 0)
    requires |stack| == c.maxItems
    ensures |s.recs| == c.maxItems > 0 && TableBelow(table, g.chains, 1) && StackBelow(s.recs, stack, 0, 1) &&
              LeastExpiry(s.recs, 0, 1)
    ensures c.purgeLru ==> HeadBelow(g.lru, 1) == 0 && TailBelow(g.lru, 1) == 0
  {
    InvChains(c, s, g, data, bits);
    forall b | 0 <= b < |table|
      ensures HeadBelow(g.chains[b], 1) == 0
    {
      ChainFacts(c, s, g, data, bits, b);
      assert g.chains[b] != [] ==> Node(s, g.chains[b], 0, b);
    }
    if c.purgeLru {
      assert g.lru != [] ==> 0 < g.lru[0] && 0 < Last(g.lru);
    }
  }

  /** A new bitmap: only the padding of the last byte is set. */
  ghost predicate OnlyPadding(c: Config, bits: seq<bool>) {
    c.blocks <= |bits| && forall k :: 0 <= k < |bits| ==> (bits[k] <==> k >= c.blocks)
  }

  /** A new bitmap fits the recovered tables exactly if they hold nothing. */
  lemma PaddingIsRightIff(c: Config, s: Slots, g: Shape, data: seq<byte>, bits0: seq<bool>, bits: seq<bool>)
    requires Inv(c, s, g, data, bits0) && (c.bitmap ==> OnlyPadding(c, bits))
    ensures Inv(c, s, g, data, bits) <==> !c.bitmap || g.entries == map[]
  {
    hide Buckets, FreeStack, LruMembers, Queue, Bitmap.NeededBlocks;
    if c.bitmap && g.entries != map[] {
      var k :| k in g.entries;
      assert HasSlot(s.recs, k);
      var i :| 0 < i < |s.recs| && Live(s.recs[i]) && s.recs[i].key == k;
      var b := s.recs[i].firstBlock;
      assert Fits(c, s.recs[i]) && Covers(c, s.recs[i], b);
      assert Taken(c, s.recs, b) && !bits[b];
    }
    if c.bitmap && g.entries == map[] {
      forall b: nat | b < c.blocks
        ensures !Taken(c, s.recs, b)
      {}
    }
  }
}
