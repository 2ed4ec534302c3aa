/** The four structures that thread a cache's slots, as predicates on values, and what every step of the
    cache does to them. Slot 0 is never used. */
module CacheSlots {
  import opened Collections
  import opened Bytes
  import opened SlotLists
  import opened CacheModel
  import Bitmap

  /** struct uwsgi_cache_item without its two pairs of links. A free slot has an empty key (keysize 0). */
  datatype Record = Record(key: Key, hash: nat, valsize: nat, firstBlock: nat, expires: nat, flags: Flags)

  predicate Live(r: Record) {
    |r.key| > 0
  }

  /** What del2 leaves in a slot. */
  function Freed(r: Record): Record {
    r.(key := [], hash := 0, valsize := 0, expires := 0)
  }

  /** hash % hashsize */
  function BucketOf(hash: nat, hashsize: nat): (b: nat)
    requires hashsize > 0
    ensures b < hashsize
  {
    if hash < hashsize then hash else BucketOf(hash - hashsize, hashsize)
  }

  lemma {:induction false} BucketOfIsRemainder(hash: nat, hashsize: nat)
    requires hashsize > 0
    ensures BucketOf(hash, hashsize) == hash % hashsize
  {
    if hash >= hashsize {
      BucketOfIsRemainder(hash - hashsize, hashsize);
      Bitmap.DivStep(hash, hashsize);
    }
  }

  // ---------------------------------------------------------------- hash buckets

  /** Each chain is doubly linked, starting from its table entry, and no slot is on two chains. */
  ghost predicate ChainsLinked(l: seq<Links>, table: seq<nat>, chains: seq<seq<nat>>) {
    && |chains| == |table|
    && (forall b :: 0 <= b < |table| ==> Linked(l, chains[b]) && table[b] == At(chains[b], 0))
    && (forall b, d :: 0 <= b < |table| && 0 <= d < |table| && b != d ==> Disjoint(chains[b], chains[d]))
  }

  /** The chains hold exactly the live slots, each on the chain of its hash. */
  ghost predicate ChainsSorted(recs: seq<Record>, chains: seq<seq<nat>>) {
    && |chains| > 0
    && (forall b, j :: 0 <= b < |chains| && 0 <= j < |chains[b]| ==> InBucket(recs, chains[b][j], b, |chains|))
    && (forall i :: 0 < i < |recs| && Live(recs[i]) ==> i in chains[BucketOf(recs[i].hash, |chains|)])
  }

  ghost predicate InBucket(recs: seq<Record>, i: nat, b: nat, hashsize: nat)
    requires hashsize > 0
  {
    0 < i < |recs| && Live(recs[i]) && BucketOf(recs[i].hash, hashsize) == b
  }

  /** The chains are an acyclic doubly linked partition of the live slots by hash % hashsize. */
  ghost predicate Buckets(recs: seq<Record>, l: seq<Links>, table: seq<nat>, chains: seq<seq<nat>>) {
    |l| == |recs| && ChainsLinked(l, table, chains) && ChainsSorted(recs, chains)
  }

  lemma LinksAfterRemove(l: seq<Links>, table: seq<nat>, chains: seq<seq<nat>>, b: nat, j: nat)
    requires ChainsLinked(l, table, chains) && b < |table| && j < |chains[b]|
    ensures var i := chains[b][j];
            i < |l| && l[i].prev < |l| && l[i].next < |l| &&
            ChainsLinked(Unlink(l, i)[i := Links(0, 0)],
                         if l[i].prev == 0 then table[b := l[i].next] else table, chains[b := Cut(chains[b], j)])
  {
    hide Linked, Unlink, Cut;
    var c, i := chains[b], chains[b][j];
    TakeOut(l, c, j);
    var l' := Unlink(l, i)[i := Links(0, 0)];
    forall d | 0 <= d < |table| && d != b
      ensures Linked(l', chains[d]) && Disjoint(Cut(c, j), chains[d]) && Disjoint(chains[d], Cut(c, j))
    {
      assert Disjoint(c, chains[d]);
      assert forall k :: 0 <= k < |Cut(c, j)| ==> Cut(c, j)[k] in c;
      UnlinkElsewhere(l, c, j, chains[d]);
    }
  }

  lemma SortedAfterRemove(recs: seq<Record>, chains: seq<seq<nat>>, b: nat, j: nat)
    requires ChainsSorted(recs, chains) && b < |chains| && j < |chains[b]| && Distinct(chains[b])
    ensures chains[b][j] < |recs|
    ensures ChainsSorted(recs[chains[b][j] := Freed(recs[chains[b][j]])], chains[b := Cut(chains[b], j)])
  {
    hide BucketOf;
    var c, i := chains[b], chains[b][j];
    CutMembers(c, j);
    assert InBucket(recs, i, b, |chains|);
    var recs', chains' := recs[i := Freed(recs[i])], chains[b := Cut(c, j)];
    forall d, k | 0 <= d < |chains'| && 0 <= k < |chains'[d]|
      ensures InBucket(recs', chains'[d][k], d, |chains'|)
    {
      if d == b {
        assert chains'[d][k] in Cut(c, j);
        assert InBucket(recs, c[if k < j then k else k + 1], b, |chains|);
      } else {
        assert InBucket(recs, chains[d][k], d, |chains|);
      }
    }
  }

  lemma BucketsAfterRemove(recs: seq<Record>, l: seq<Links>, table: seq<nat>, chains: seq<seq<nat>>, b: nat, j: nat)
    requires Buckets(recs, l, table, chains) && b < |table| && j < |chains[b]|
    ensures var i := chains[b][j];
            0 < i < |recs| && l[i].prev < |l| && l[i].next < |l| && b == BucketOf(recs[i].hash, |table|) &&
            Buckets(recs[i := Freed(recs[i])], Unlink(l, i)[i := Links(0, 0)],
                    if l[i].prev == 0 then table[b := l[i].next] else table, chains[b := Cut(chains[b], j)])
  {
    LinksAfterRemove(l, table, chains, b, j);
    SortedAfterRemove(recs, chains, b, j);
    assert InBucket(recs, chains[b][j], b, |chains|);
  }

  lemma LinksAfterAppend(l: seq<Links>, table: seq<nat>, chains: seq<seq<nat>>, b: nat, i: nat)
    requires ChainsLinked(l, table, chains) && b < |table| && 0 < i < |l|
    requires forall d :: 0 <= d < |table| ==> i !in chains[d]
    ensures Last(chains[b]) < |l|
    ensures ChainsLinked(Append(l, Last(chains[b]), i), if table[b] == 0 then table[b := i] else table,
                         chains[b := chains[b] + [i]])
  {
    var c := chains[b];
    assert Linked(l, c);
    AppendKeeps(l, c, i);
    var l' := Append(l, Last(c), i);
    forall d | 0 <= d < |table| && d != b
      ensures Linked(l', chains[d]) && Disjoint(c + [i], chains[d]) && Disjoint(chains[d], c + [i])
    {
      assert Disjoint(chains[b], chains[d]) && i !in chains[d];
      AppendElsewhere(l, c, i, chains[d]);
    }
    assert At(c + [i], 0) == if table[b] == 0 then i else table[b];
    hide Linked, Append;
  }

  lemma SortedAfterAppend(recs: seq<Record>, chains: seq<seq<nat>>, i: nat, r: Record)
    requires ChainsSorted(recs, chains) && 0 < i < |recs| && !Live(recs[i]) && Live(r)
    ensures var b := BucketOf(r.hash, |chains|);
            ChainsSorted(recs[i := r], chains[b := chains[b] + [i]])
    ensures forall d :: 0 <= d < |chains| ==> i !in chains[d]
  {
    hide BucketOf;
    var b := BucketOf(r.hash, |chains|);
    var recs', chains' := recs[i := r], chains[b := chains[b] + [i]];
    forall d, k | 0 <= d < |chains| && 0 <= k < |chains[d]|
      ensures chains[d][k] != i
    {
      assert InBucket(recs, chains[d][k], d, |chains|);
    }
    forall d, k | 0 <= d < |chains'| && 0 <= k < |chains'[d]|
      ensures InBucket(recs', chains'[d][k], d, |chains'|)
    {
      if d != b || k < |chains[b]| {
        assert InBucket(recs, chains[d][k], d, |chains|);
      }
    }
    forall s | 0 < s < |recs'| && Live(recs'[s])
      ensures s in chains'[BucketOf(recs'[s].hash, |chains'|)]
    {
      if s == i {
        assert chains'[b][|chains[b]|] == i;
      }
    }
  }

  lemma BucketsAfterAppend(recs: seq<Record>, l: seq<Links>, table: seq<nat>, chains: seq<seq<nat>>, i: nat, r: Record)
    requires Buckets(recs, l, table, chains) && 0 < i < |recs| && !Live(recs[i]) && Live(r)
    ensures var b := BucketOf(r.hash, |table|);
            Last(chains[b]) < |l| &&
            Buckets(recs[i := r], Append(l, Last(chains[b]), i),
                    if table[b] == 0 then table[b := i] else table, chains[b := chains[b] + [i]])
  {
    SortedAfterAppend(recs, chains, i, r);
    LinksAfterAppend(l, table, chains, BucketOf(r.hash, |table|), i);
  }

  /** Changing what a live slot stores, but not its key and hash, is no business of the buckets. */
  lemma BucketsAfterRewrite(recs: seq<Record>, l: seq<Links>, table: seq<nat>, chains: seq<seq<nat>>, i: nat, r: Record)
    requires Buckets(recs, l, table, chains) && 0 < i < |recs|
    requires r.key == recs[i].key && r.hash == recs[i].hash
    ensures Buckets(recs[i := r], l, table, chains)
  {
    hide BucketOf, Linked;
    forall b, j | 0 <= b < |chains| && 0 <= j < |chains[b]|
      ensures InBucket(recs[i := r], chains[b][j], b, |chains|)
    {
      assert InBucket(recs, chains[b][j], b, |chains|);
    }
  }

  // ---------------------------------------------------------------- the stack of free slots

  /** Entries 1..sp of the stack are exactly the free slots, without repeats. */
  ghost predicate FreeStack(recs: seq<Record>, stack: seq<nat>, sp: nat) {
    && |stack| == |recs| && sp < |stack|
    && (forall j :: 0 < j <= sp ==> 0 < stack[j] < |recs| && !Live(recs[stack[j]]))
    && (forall j, k :: 0 < j < k <= sp ==> stack[j] != stack[k])
    && (forall i :: 0 < i < |recs| && !Live(recs[i]) ==> OnStack(stack, sp, i))
    && (forall i :: 0 < i < |recs| && !Live(recs[i]) ==> recs[i] == Freed(recs[i]))
  }

  ghost predicate OnStack(stack: seq<nat>, sp: nat, i: nat)
    requires sp < |stack|
  {
    exists j :: 0 < j <= sp && stack[j] == i
  }

  lemma StackIsShort(recs: seq<Record>, stack: seq<nat>, sp: nat, i: nat)
    requires FreeStack(recs, stack, sp) && 0 < i < |recs| && Live(recs[i])
    ensures sp + 1 < |stack|
  {
    var s := stack[1..sp + 1] + [i];
    forall j, k | 0 <= j < k < |s|
      ensures s[j] != s[k]
    {
      assert s[j] == stack[j + 1];
      assert k < sp ==> s[k] == stack[k + 1];
    }
    forall j | 0 <= j < |s|
      ensures 0 < s[j] < |recs|
    {
      assert j < sp ==> s[j] == stack[j + 1];
    }
    DistinctIsShort(s, |recs|);
  }

  lemma StackAfterPush(recs: seq<Record>, stack: seq<nat>, sp: nat, i: nat)
    requires FreeStack(recs, stack, sp) && 0 < i < |recs| && Live(recs[i])
    ensures sp + 1 < |stack|
    ensures FreeStack(recs[i := Freed(recs[i])], stack[sp + 1 := i], sp + 1)
  {
    StackIsShort(recs, stack, sp, i);
    var recs', stack' := recs[i := Freed(recs[i])], stack[sp + 1 := i];
    forall s | 0 < s < |recs'| && !Live(recs'[s])
      ensures OnStack(stack', sp + 1, s)
    {
      if s == i {
        assert stack'[sp + 1] == s;
      } else {
        assert OnStack(stack, sp, s);
        var j :| 0 < j <= sp && stack[j] == s;
        assert stack'[j] == s;
      }
    }
  }

  lemma StackAfterPop(recs: seq<Record>, stack: seq<nat>, sp: nat, r: Record)
    requires FreeStack(recs, stack, sp) && 0 < sp && Live(r)
    ensures FreeStack(recs[stack[sp] := r], stack, sp - 1)
  {
    var i := stack[sp];
    var recs' := recs[i := r];
    forall s | 0 < s < |recs'| && !Live(recs'[s])
      ensures OnStack(stack, sp - 1, s)
    {
      assert OnStack(stack, sp, s);
      var j :| 0 < j <= sp && stack[j] == s;
      assert j != sp;
    }
  }

  lemma StackAfterRewrite(recs: seq<Record>, stack: seq<nat>, sp: nat, i: nat, r: Record)
    requires FreeStack(recs, stack, sp) && 0 < i < |recs|
    requires Live(r) == Live(recs[i]) && (!Live(r) ==> r == Freed(r))
    ensures FreeStack(recs[i := r], stack, sp)
  {
    forall s | 0 < s < |recs| && !Live(recs[i := r][s])
      ensures OnStack(stack, sp, s)
    {
      assert !Live(recs[s]);
    }
  }

  // ---------------------------------------------------------------- the LRU list

  /** The LRU list holds exactly the live slots. */
  ghost predicate LruMembers(recs: seq<Record>, lru: seq<nat>) {
    && (forall j :: 0 <= j < |lru| ==> 0 < lru[j] < |recs| && Live(recs[lru[j]]))
    && (forall i :: 0 < i < |recs| && Live(recs[i]) ==> i in lru)
    && Distinct(lru)
  }

  /** The keys in LRU order. */
  ghost function Recency(recs: seq<Record>, lru: seq<nat>): (s: seq<Key>)
    ensures |s| == |lru|
  {
    seq(|lru|, j requires 0 <= j < |lru| => if lru[j] < |recs| then recs[lru[j]].key else [])
  }

  lemma LruAfterCut(recs: seq<Record>, lru: seq<nat>, j: nat)
    requires LruMembers(recs, lru) && j < |lru|
    ensures LruMembers(recs[lru[j] := Freed(recs[lru[j]])], Cut(lru, j))
  {
    CutMembers(lru, j);
    forall k | 0 <= k < |Cut(lru, j)|
      ensures Cut(lru, j)[k] in lru
    {
      assert Cut(lru, j)[k] in Cut(lru, j);
    }
  }

  lemma LruAfterAdd(recs: seq<Record>, lru: seq<nat>, i: nat, r: Record)
    requires LruMembers(recs, lru) && 0 < i < |recs| && !Live(recs[i]) && Live(r)
    ensures i !in lru && LruMembers(recs[i := r], lru + [i])
  {
    assert (lru + [i])[|lru|] == i;
  }

  // ---------------------------------------------------------------- keys

  ghost predicate Keyed(c: Config, recs: seq<Record>) {
    && (forall i :: 0 < i < |recs| && Live(recs[i]) ==>
        recs[i].hash == c.hash(recs[i].key) && |recs[i].key| <= c.keysize)
    && (forall i, j :: 0 < i < j < |recs| && Live(recs[i]) && Live(recs[j]) ==> recs[i].key != recs[j].key)
  }

  // ---------------------------------------------------------------- blocks

  function Extent(c: Config, r: Record): nat
  {
    Bitmap.NeededBlocks(r.valsize, c.blocksize)
  }

  ghost predicate Covers(c: Config, r: Record, k: nat)
  {
    Live(r) && r.firstBlock <= k < r.firstBlock + Extent(c, r)
  }

  ghost predicate Fits(c: Config, r: Record)
  {
    0 < r.valsize && r.firstBlock + Extent(c, r) <= c.blocks
  }

  ghost predicate Apart(c: Config, r: Record, q: Record)
  {
    r.firstBlock + Extent(c, r) <= q.firstBlock || q.firstBlock + Extent(c, q) <= r.firstBlock
  }

  /** The values of live slots lie in the data area and do not overlap. Without a bitmap, slot i owns block i. */
  ghost predicate Space(c: Config, recs: seq<Record>)
  {
    && (forall i :: 0 < i < |recs| && Live(recs[i]) ==> Fits(c, recs[i]))
    && (forall i, j :: 0 < i < |recs| && 0 < j < |recs| && i != j && Live(recs[i]) && Live(recs[j]) ==>
        Apart(c, recs[i], recs[j]))
    && (!c.bitmap ==> forall i :: 0 < i < |recs| && Live(recs[i]) ==>
        recs[i].firstBlock == i && recs[i].valsize <= c.blocksize)
  }

  /** The set bits are exactly the blocks of live values and the padding past the last block. */
  ghost predicate BitsMatch(c: Config, recs: seq<Record>, bits: seq<bool>)
  {
    && c.blocks <= |bits|
    && (forall k :: c.blocks <= k < |bits| ==> bits[k])
    && (forall k :: 0 <= k < c.blocks ==> (bits[k] <==> Taken(c, recs, k)))
  }

  ghost predicate Taken(c: Config, recs: seq<Record>, k: nat)
  {
    exists i :: 0 < i < |recs| && Covers(c, recs[i], k)
  }

  /** Unmarking the blocks of slot i when it is freed. */
  lemma BitsAfterFree(c: Config, recs: seq<Record>, b0: seq<bool>, b1: seq<bool>, i: nat)
    requires Space(c, recs) && BitsMatch(c, recs, b0) && 0 < i < |recs| && Live(recs[i])
    requires Bitmap.PaintedBits(b0, b1, recs[i].firstBlock, Extent(c, recs[i]), false)
    ensures BitsMatch(c, recs[i := Freed(recs[i])], b1)
  {
    hide Extent;
    var recs' := recs[i := Freed(recs[i])];
    assert Fits(c, recs[i]);
    forall k | 0 <= k < c.blocks
      ensures b1[k] <==> Taken(c, recs', k)
    {
      if Taken(c, recs, k) {
        var s :| 0 < s < |recs| && Covers(c, recs[s], k);
        if s != i {
          assert Apart(c, recs[s], recs[i]) && Covers(c, recs'[s], k);
        }
      }
      if s :| 0 < s < |recs'| && Covers(c, recs'[s], k) {
        assert s != i && Covers(c, recs[s], k) && Apart(c, recs[s], recs[i]);
      }
    }
  }

  lemma CoveredIsTaken(c: Config, recs: seq<Record>, s: nat, k: nat)
    requires 0 < s < |recs|
    ensures Covers(c, recs[s], k) ==> Taken(c, recs, k)
  {}

  /** Marking a free run for slot i, which then owns it and nothing else. */
  lemma BitsAfterClaim(c: Config, recs: seq<Record>, b0: seq<bool>, b1: seq<bool>, i: nat, r: Record)
    requires BitsMatch(c, recs, b0) && 0 < i < |recs| && !Live(recs[i])
    requires Live(r) && 0 < r.valsize && Bitmap.ClearRun(b0, r.firstBlock, Extent(c, r))
    requires Bitmap.PaintedBits(b0, b1, r.firstBlock, Extent(c, r), true)
    ensures Fits(c, r) && BitsMatch(c, recs[i := r], b1)
    ensures forall s :: 0 < s < |recs| && Live(recs[s]) ==> Extent(c, recs[s]) == 0 || Apart(c, recs[s], r)
  {
    var recs' := recs[i := r];
    assert Extent(c, r) > 0;
    hide Extent;
    assert r.firstBlock + Extent(c, r) <= c.blocks by {
      var k := r.firstBlock + Extent(c, r) - 1;
      assert !b0[k];
    }
    forall k | 0 <= k < c.blocks
      ensures b1[k] <==> Taken(c, recs', k)
    {
      if Taken(c, recs, k) {
        var s :| 0 < s < |recs| && Covers(c, recs[s], k);
        assert Covers(c, recs'[s], k);
      }
      if s :| 0 < s < |recs'| && Covers(c, recs'[s], k) {
        assert s != i ==> Covers(c, recs[s], k);
      }
      if r.firstBlock <= k < r.firstBlock + Extent(c, r) {
        assert Covers(c, recs'[i], k);
      }
    }
    forall s, k: nat | 0 < s < |recs| && r.firstBlock <= k < r.firstBlock + Extent(c, r)
      ensures !Covers(c, recs[s], k)
    {
      CoveredIsTaken(c, recs, s, k);
      assert !b0[k];
    }
    forall s | 0 < s < |recs| && Live(recs[s]) && Extent(c, recs[s]) > 0
      ensures Apart(c, recs[s], r)
    {
      assert !Covers(c, recs[s], r.firstBlock);
      var k := recs[s].firstBlock;
      assert r.firstBlock <= k < r.firstBlock + Extent(c, r) ==> !Covers(c, recs[s], k);
    }
  }

  // ---------------------------------------------------------------- values

  ghost predicate DataSize(c: Config, data: seq<byte>) {
    |data| == Offset(c.blocks, c.blocksize)
  }

  lemma {:induction false} OffsetGrows(a: nat, b: nat, blocksize: nat)
    requires a <= b
    ensures Offset(a, blocksize) <= Offset(b, blocksize)
    decreases b - a
  {
    if a < b {
      OffsetGrows(a, b - 1, blocksize);
    }
  }

  lemma {:induction false} BlocksHoldValue(b: nat, len: nat, blocksize: nat)
    requires blocksize > 0
    ensures Offset(b, blocksize) + len <= Offset(b + Bitmap.NeededBlocks(len, blocksize), blocksize)
    decreases len
  {
    if len > blocksize {
      BlocksHoldValue(b + 1, len - blocksize, blocksize);
    }
  }

  lemma ValueIsInside(c: Config, r: Record)
    requires Fits(c, r)
    ensures Offset(r.firstBlock, c.blocksize) + r.valsize <= Offset(r.firstBlock + Extent(c, r), c.blocksize)
    ensures Offset(r.firstBlock + Extent(c, r), c.blocksize) <= Offset(c.blocks, c.blocksize)
  {
    BlocksHoldValue(r.firstBlock, r.valsize, c.blocksize);
    OffsetGrows(r.firstBlock + Extent(c, r), c.blocks, c.blocksize);
  }

  /** The bytes of a value. */
  ghost function ValueOf(c: Config, data: seq<byte>, r: Record): (v: seq<byte>) {
    var at := Offset(r.firstBlock, c.blocksize);
    if at + r.valsize <= |data| then data[at..][..r.valsize] else []
  }

  /** memcpy(data + at, v, |v|) */
  ghost function Written(data: seq<byte>, at: nat, v: seq<byte>): (d: seq<byte>)
    requires at + |v| <= |data|
    ensures |d| == |data|
  {
    data[..at] + v + data[at + |v|..]
  }

  /** Writing the value of r changes r's bytes and those of nothing apart from it. */
  lemma WriteIsLocal(c: Config, data: seq<byte>, r: Record, v: seq<byte>)
    requires Fits(c, r) && DataSize(c, data) && |v| == r.valsize
    ensures Offset(r.firstBlock, c.blocksize) + |v| <= |data|
    ensures ValueOf(c, Written(data, Offset(r.firstBlock, c.blocksize), v), r) == v
    ensures forall q :: Fits(c, q) && Apart(c, q, r) ==>
              ValueOf(c, Written(data, Offset(r.firstBlock, c.blocksize), v), q) == ValueOf(c, data, q)
  {
    ValueIsInside(c, r);
    var at := Offset(r.firstBlock, c.blocksize);
    var d := Written(data, at, v);
    assert ValueOf(c, d, r) == v;
    forall q | Fits(c, q) && Apart(c, q, r)
      ensures ValueOf(c, d, q) == ValueOf(c, data, q)
    {
      OtherBytes(c, data, r, v, q);
    }
  }

  lemma OtherBytes(c: Config, data: seq<byte>, r: Record, v: seq<byte>, q: Record)
    requires Fits(c, r) && DataSize(c, data) && |v| == r.valsize
    requires Offset(r.firstBlock, c.blocksize) + |v| <= |data|
    requires Fits(c, q) && Apart(c, q, r)
    ensures ValueOf(c, Written(data, Offset(r.firstBlock, c.blocksize), v), q) == ValueOf(c, data, q)
  {
    ValueIsInside(c, r);
    ValueIsInside(c, q);
    var x, y := Offset(r.firstBlock, c.blocksize), Offset(q.firstBlock, c.blocksize);
    if r.firstBlock + Extent(c, r) <= q.firstBlock {
      OffsetGrows(r.firstBlock + Extent(c, r), q.firstBlock, c.blocksize);
    } else {
      OffsetGrows(q.firstBlock + Extent(c, q), r.firstBlock, c.blocksize);
    }
    BytesBesides(data, x, v, y, q.valsize);
  }

  lemma BytesBesides(data: seq<byte>, at: nat, v: seq<byte>, from: nat, n: nat)
    requires at + |v| <= |data| && from + n <= |data|
    requires at + |v| <= from || from + n <= at
    ensures Written(data, at, v)[from..][..n] == data[from..][..n]
  {}

  ghost function EntryOf(c: Config, data: seq<byte>, r: Record): Entry
  {
    Entry(ValueOf(c, data, r), r.expires, r.flags)
  }

  ghost predicate HasSlot(recs: seq<Record>, k: Key) {
    exists i :: 0 < i < |recs| && Live(recs[i]) && recs[i].key == k
  }

  /** The live slots store exactly the entries. */
  ghost predicate Stores(c: Config, recs: seq<Record>, data: seq<byte>, entries: map<Key, Entry>)
  {
    && (forall i :: 0 < i < |recs| && Live(recs[i]) ==>
          recs[i].key in entries && entries[recs[i].key] == EntryOf(c, data, recs[i]))
    && (forall k :: k in entries ==> HasSlot(recs, k))
  }

  ghost predicate Contents(c: Config, recs: seq<Record>, data: seq<byte>, entries: map<Key, Entry>) {
    && Keyed(c, recs) && Space(c, recs) && DataSize(c, data)
    && Stores(c, recs, data, entries)
  }

  lemma HasSlotElsewhere(recs: seq<Record>, i: nat, r: Record, k: Key)
    requires 0 < i < |recs| && HasSlot(recs, k) && (Live(recs[i]) && recs[i].key == k ==> r.key == k)
    ensures HasSlot(recs[i := r], k)
  {
    var s :| 0 < s < |recs| && Live(recs[s]) && recs[s].key == k;
    assert Live(recs[i := r][s]) && recs[i := r][s].key == k;
  }

  lemma SpaceAfterFree(c: Config, recs: seq<Record>, i: nat)
    requires Space(c, recs) && 0 < i < |recs|
    ensures Space(c, recs[i := Freed(recs[i])])
  {
    hide Apart, Fits;
  }

  lemma StoresAfterFree(c: Config, recs: seq<Record>, data: seq<byte>, entries: map<Key, Entry>, i: nat)
    requires Space(c, recs) && DataSize(c, data) && Stores(c, recs, data, entries)
    requires 0 < i < |recs| && Live(recs[i]) && Space(c, recs[i := Freed(recs[i])])
    requires forall s :: 0 < s < |recs| && s != i && Live(recs[s]) ==> recs[s].key != recs[i].key
    ensures Stores(c, recs[i := Freed(recs[i])], data, entries - {recs[i].key})
  {
    hide EntryOf, Apart, Fits, HasSlot, DataSize, Space;
    var recs', k := recs[i := Freed(recs[i])], recs[i].key;
    forall k' | k' in entries - {k}
      ensures HasSlot(recs', k')
    {
      HasSlotElsewhere(recs, i, Freed(recs[i]), k');
    }
  }

  lemma ContentsAfterFree(c: Config, recs: seq<Record>, data: seq<byte>, entries: map<Key, Entry>, i: nat)
    requires Contents(c, recs, data, entries) && 0 < i < |recs| && Live(recs[i])
    ensures Contents(c, recs[i := Freed(recs[i])], data, entries - {recs[i].key})
    ensures |entries - {recs[i].key}| == |entries| - 1
  {
    assert recs[i].key in entries;
    hide Stores, Space, DataSize;
    SpaceAfterFree(c, recs, i);
    StoresAfterFree(c, recs, data, entries, i);
    KeyedAfterFree(c, recs, i);
    OneLess(entries, recs[i].key);
    hide Keyed;
  }

  lemma KeyedAfterFree(c: Config, recs: seq<Record>, i: nat)
    requires Keyed(c, recs) && 0 < i < |recs|
    ensures Keyed(c, recs[i := Freed(recs[i])])
  {}

  lemma OneLess<K, V>(m: map<K, V>, k: K)
    requires k in m
    ensures |m - {k}| == |m| - 1
  {
    assert (m - {k}).Keys == m.Keys - {k};
  }

  lemma SpaceAfterStore(c: Config, recs: seq<Record>, i: nat, r: Record)
    requires Space(c, recs) && 0 < i < |recs| && Fits(c, r)
    requires forall s :: 0 < s < |recs| && s != i && Live(recs[s]) ==> Apart(c, recs[s], r)
    requires !c.bitmap ==> r.firstBlock == i && r.valsize <= c.blocksize
    ensures Space(c, recs[i := r])
  {
    hide Extent, Fits;
  }

  lemma KeyedAfterStore(c: Config, recs: seq<Record>, i: nat, r: Record)
    requires Keyed(c, recs) && 0 < i < |recs| && r.hash == c.hash(r.key) && |r.key| <= c.keysize
    requires forall s :: 0 < s < |recs| && s != i && Live(recs[s]) ==> recs[s].key != r.key
    ensures Keyed(c, recs[i := r])
  {}

  /** Slot i gets record r and r's blocks get the bytes v: a new key in a free slot, or the same key anew. */
  lemma ContentsAfterStore(c: Config, recs: seq<Record>, data: seq<byte>, entries: map<Key, Entry>,
                           i: nat, r: Record, v: seq<byte>)
    requires Contents(c, recs, data, entries) && 0 < i < |recs|
    requires Live(r) && Fits(c, r) && |v| == r.valsize && r.hash == c.hash(r.key) && |r.key| <= c.keysize
    requires if Live(recs[i]) then r.key == recs[i].key else r.key !in entries
    requires forall s :: 0 < s < |recs| && s != i && Live(recs[s]) ==> Apart(c, recs[s], r)
    requires !c.bitmap ==> r.firstBlock == i && r.valsize <= c.blocksize
    ensures Offset(r.firstBlock, c.blocksize) + |v| <= |data|
    ensures Contents(c, recs[i := r], Written(data, Offset(r.firstBlock, c.blocksize), v),
                     entries[r.key := Entry(v, r.expires, r.flags)])
  {
    forall s | 0 < s < |recs| && s != i && Live(recs[s])
      ensures recs[s].key != r.key
    {
      assert recs[s].key in entries;
    }
    SpaceAfterStore(c, recs, i, r);
    KeyedAfterStore(c, recs, i, r);
    WriteIsLocal(c, data, r, v);
    hide ValueOf, Fits, Written, Apart, HasSlot, Keyed, Extent;
    forall k | k in entries
      ensures HasSlot(recs[i := r], k)
    {
      HasSlotElsewhere(recs, i, r, k);
    }
    StoredHasSlot(recs, i, r);
  }

  lemma StoredHasSlot(recs: seq<Record>, i: nat, r: Record)
    requires 0 < i < |recs| && Live(r)
    ensures HasSlot(recs[i := r], r.key)
  {
    assert recs[i := r][i] == r;
  }

  lemma SpaceAfterExpiry(c: Config, recs: seq<Record>, i: nat, e: nat)
    requires Space(c, recs) && 0 < i < |recs| && Live(recs[i])
    ensures Space(c, recs[i := recs[i].(expires := e)])
  {
    var r := recs[i].(expires := e);
    assert Extent(c, r) == Extent(c, recs[i]) && Fits(c, recs[i]);
    forall s | 0 < s < |recs| && s != i && Live(recs[s])
      ensures Apart(c, recs[s], r)
    {
      assert Apart(c, recs[s], recs[i]);
    }
    hide Extent;
    SpaceAfterStore(c, recs, i, r);
  }

  lemma ValueIgnoresExpiry(c: Config, recs: seq<Record>, data: seq<byte>, i: nat, e: nat)
    requires Space(c, recs) && 0 < i < |recs| && Live(recs[i])
    ensures Fits(c, recs[i]) && Fits(c, recs[i].(expires := e))
    ensures ValueOf(c, data, recs[i].(expires := e)) == ValueOf(c, data, recs[i])
  {}

  lemma StoresAfterExpiry(c: Config, recs: seq<Record>, data: seq<byte>, entries: map<Key, Entry>, i: nat, e: nat)
    requires Space(c, recs) && DataSize(c, data) && Stores(c, recs, data, entries)
    requires 0 < i < |recs| && Live(recs[i]) && Space(c, recs[i := recs[i].(expires := e)])
    requires forall s :: 0 < s < |recs| && s != i && Live(recs[s]) ==> recs[s].key != recs[i].key
    ensures Stores(c, recs[i := recs[i].(expires := e)], data,
                   entries[recs[i].key := entries[recs[i].key].(expires := e)])
  {
    hide ValueOf, Apart, Fits, HasSlot, DataSize, Space;
    var r := recs[i].(expires := e);
    ValueIgnoresExpiry(c, recs, data, i, e);
    forall k | k in entries
      ensures HasSlot(recs[i := r], k)
    {
      HasSlotElsewhere(recs, i, r, k);
    }
  }

  /** Only the expiry of slot i changes. */
  lemma ContentsAfterExpiry(c: Config, recs: seq<Record>, data: seq<byte>, entries: map<Key, Entry>, i: nat, e: nat)
    requires Contents(c, recs, data, entries) && 0 < i < |recs| && Live(recs[i])
    ensures recs[i].key in entries
    ensures Contents(c, recs[i := recs[i].(expires := e)], data,
                     entries[recs[i].key := entries[recs[i].key].(expires := e)])
  {
    assert recs[i].key in entries;
    hide Stores, Space, DataSize;
    SpaceAfterExpiry(c, recs, i, e);
    KeyedAfterStore(c, recs, i, recs[i].(expires := e));
    StoresAfterExpiry(c, recs, data, entries, i, e);
  }

  /** In bitmap mode: the blocks of slot i move from the old run to a free run, new blocks marked first. */
  lemma BitsAfterMove(c: Config, recs: seq<Record>, b0: seq<bool>, b1: seq<bool>, b2: seq<bool>, i: nat, r: Record)
    requires Space(c, recs) && BitsMatch(c, recs, b0) && 0 < i < |recs| && Live(recs[i])
    requires Live(r) && 0 < r.valsize && Bitmap.ClearRun(b0, r.firstBlock, Extent(c, r))
    requires Bitmap.PaintedBits(b0, b1, r.firstBlock, Extent(c, r), true)
    requires Bitmap.PaintedBits(b1, b2, recs[i].firstBlock, Extent(c, recs[i]), false)
    ensures Fits(c, r) && BitsMatch(c, recs[i := r], b2)
    ensures forall s :: 0 < s < |recs| && s != i && Live(recs[s]) ==> Apart(c, recs[s], r)
  {
    var x, n := recs[i].firstBlock, Extent(c, recs[i]);
    var mid := seq(|b0|, k requires 0 <= k < |b0| => if x <= k < x + n then false else b0[k]);
    var freed := recs[i := Freed(recs[i])];
    BitsAfterFree(c, recs, b0, mid, i);
    forall k: nat | r.firstBlock <= k < r.firstBlock + Extent(c, r)
      ensures b2[k] && !mid[k]
    {
      CoveredIsTaken(c, recs, i, k);
      assert Fits(c, recs[i]) && !b0[k];
    }
    assert Bitmap.PaintedBits(mid, b2, r.firstBlock, Extent(c, r), true);
    BitsAfterClaim(c, freed, mid, b2, i, r);
    assert freed[i := r] == recs[i := r];
    forall s | 0 < s < |recs| && s != i && Live(recs[s])
      ensures Apart(c, recs[s], r)
    {
      assert Fits(c, recs[s]) && Extent(c, recs[s]) > 0;
      assert freed[s] == recs[s];
    }
  }

  // ---------------------------------------------------------------- recency

  lemma CutFromFirst(s: seq<Key>, j: nat)
    requires 0 < j < |s|
    ensures Cut(s, j) == [s[0]] + Cut(s[1..], j - 1)
  {
    assert s[..j] == [s[0]] + s[1..][..j - 1];
    assert s[1..][j..] == s[j + 1..];
  }

  lemma {:induction false} KeepIsCut(s: seq<Key>, j: nat, alive: set<Key>)
    requires Distinct(s) && j < |s|
    requires forall i :: 0 <= i < |s| ==> (s[i] in alive <==> i != j)
    ensures Keep(s, alive) == Cut(s, j)
  {
    if j > 0 {
      assert forall i :: 0 <= i < |s[1..]| ==> s[1..][i] == s[i + 1];
      KeepIsCut(s[1..], j - 1, alive);
      CutFromFirst(s, j);
    } else {
      KeepAll(s[1..], alive);
    }
  }

  lemma {:induction false} KeepAll(s: seq<Key>, alive: set<Key>)
    requires forall i :: 0 <= i < |s| ==> s[i] in alive
    ensures Keep(s, alive) == s
  {
    if s != [] {
      KeepAll(s[1..], alive);
    }
  }

  lemma {:induction false} KeepTwice(s: seq<Key>, a: set<Key>, b: set<Key>)
    requires b <= a
    ensures Keep(Keep(s, a), b) == Keep(s, b)
  {
    if s != [] {
      KeepTwice(s[1..], a, b);
      if s[0] in a {
        assert Keep(s, a)[1..] == Keep(s[1..], a);
      }
    }
  }

  lemma RecencyIsDistinct(c: Config, recs: seq<Record>, lru: seq<nat>)
    requires LruMembers(recs, lru) && Keyed(c, recs)
    ensures Distinct(Recency(recs, lru))
  {}

  lemma RecencyOfCut(recs: seq<Record>, lru: seq<nat>, j: nat)
    requires j < |lru| && forall k :: 0 <= k < |lru| ==> 0 < lru[k] < |recs|
    ensures forall k :: 0 <= k < |Cut(lru, j)| ==> 0 < Cut(lru, j)[k] < |recs|
    ensures Recency(recs, Cut(lru, j)) == Cut(Recency(recs, lru), j)
  {}

  /** Taking slot lru[j] out of the list takes its key out of the recency order. */
  lemma RecencyAfterCut(c: Config, recs: seq<Record>, lru: seq<nat>, j: nat, alive: set<Key>)
    requires LruMembers(recs, lru) && Keyed(c, recs) && j < |lru|
    requires forall i :: 0 < i < |recs| && Live(recs[i]) ==> (recs[i].key in alive <==> i != lru[j])
    ensures forall k :: 0 <= k < |Cut(lru, j)| ==> 0 < Cut(lru, j)[k] < |recs|
    ensures Recency(recs, Cut(lru, j)) == Keep(Recency(recs, lru), alive)
  {
    RecencyIsDistinct(c, recs, lru);
    RecencyOfCut(recs, lru, j);
    hide Keep, Cut, Keyed;
    var s := Recency(recs, lru);
    forall i | 0 <= i < |s|
      ensures s[i] in alive <==> i != j
    {
      assert i != j ==> lru[i] != lru[j];
    }
    KeepIsCut(s, j, alive);
  }

  /** Freeing slot lru[j] drops its key from the recency order. */
  lemma RecencyAfterFree(c: Config, recs: seq<Record>, data: seq<byte>, entries: map<Key, Entry>, lru: seq<nat>, j: nat)
    requires Contents(c, recs, data, entries) && LruMembers(recs, lru) && j < |lru|
    ensures forall k :: 0 <= k < |Cut(lru, j)| ==> 0 < Cut(lru, j)[k] < |recs|
    ensures Recency(recs[lru[j] := Freed(recs[lru[j]])], Cut(lru, j)) ==
            Keep(Recency(recs, lru), (entries - {recs[lru[j]].key}).Keys)
  {
    var i := lru[j];
    LiveKeys(c, recs, data, entries, i);
    RecencyAfterCut(c, recs, lru, j, (entries - {recs[i].key}).Keys);
    RecencyElsewhere(recs, lru, j, Freed(recs[i]));
  }

  lemma LiveKeys(c: Config, recs: seq<Record>, data: seq<byte>, entries: map<Key, Entry>, i: nat)
    requires Contents(c, recs, data, entries) && 0 < i < |recs| && Live(recs[i])
    ensures forall s :: 0 < s < |recs| && Live(recs[s]) ==> (recs[s].key in (entries - {recs[i].key}).Keys <==> s != i)
  {
    hide Space, DataSize, EntryOf;
  }

  lemma RecencyElsewhere(recs: seq<Record>, lru: seq<nat>, j: nat, r: Record)
    requires LruMembers(recs, lru) && j < |lru|
    ensures forall k :: 0 <= k < |Cut(lru, j)| ==> 0 < Cut(lru, j)[k] < |recs|
    ensures Recency(recs[lru[j] := r], Cut(lru, j)) == Recency(recs, Cut(lru, j))
  {
    CutMembers(lru, j);
    forall k | 0 <= k < |Cut(lru, j)|
      ensures Cut(lru, j)[k] != lru[j]
    {
      assert Cut(lru, j)[k] in Cut(lru, j);
    }
  }

  /** The position of a live slot on its chain. */
  lemma ChainPosition(recs: seq<Record>, l: seq<Links>, table: seq<nat>, chains: seq<seq<nat>>, i: nat)
    returns (b: nat, j: nat)
    requires Buckets(recs, l, table, chains) && 0 < i < |recs| && Live(recs[i])
    ensures |table| == |chains| && |l| == |recs|
    ensures b == BucketOf(recs[i].hash, |table|) && j < |chains[b]| && chains[b][j] == i
    ensures l[i].prev < |l| && l[i].next < |l|
  {
    b := BucketOf(recs[i].hash, |table|);
    hide BucketOf;
    j :| 0 <= j < |chains[b]| && chains[b][j] == i;
    LinksInside(l, chains[b], j);
  }

  lemma LruPosition(recs: seq<Record>, lru: seq<nat>, i: nat) returns (j: nat)
    requires LruMembers(recs, lru) && 0 < i < |recs| && Live(recs[i])
    ensures j < |lru| && lru[j] == i
  {
    j :| 0 <= j < |lru| && lru[j] == i;
  }

  lemma ContentsSpace(c: Config, recs: seq<Record>, data: seq<byte>, entries: map<Key, Entry>)
    requires Contents(c, recs, data, entries)
    ensures Space(c, recs) && DataSize(c, data)
  {}

  lemma FreeIsFreed(recs: seq<Record>, stack: seq<nat>, sp: nat, i: nat)
    requires FreeStack(recs, stack, sp) && 0 < i < |recs| && !Live(recs[i])
    ensures recs[i := Freed(recs[i])] == recs
  {}

  lemma ContentsKey(c: Config, recs: seq<Record>, data: seq<byte>, entries: map<Key, Entry>, i: nat)
    requires Contents(c, recs, data, entries) && 0 < i < |recs| && Live(recs[i])
    ensures recs[i].key in entries && entries[recs[i].key] == EntryOf(c, data, recs[i])
    ensures recs[i].hash == c.hash(recs[i].key) && |recs[i].key| <= c.keysize
    ensures Fits(c, recs[i])
  {}

  lemma BucketsShape(recs: seq<Record>, l: seq<Links>, table: seq<nat>, chains: seq<seq<nat>>)
    requires Buckets(recs, l, table, chains)
    ensures |table| == |chains| > 0 && |l| == |recs|
  {}

  lemma StackTop(recs: seq<Record>, stack: seq<nat>, sp: nat)
    requires FreeStack(recs, stack, sp) && 0 < sp
    ensures sp < |stack| && 0 < stack[sp] < |recs| && !Live(recs[stack[sp]])
  {}

  lemma OneMore<K, V>(m: map<K, V>, k: K, v: V)
    requires k !in m
    ensures |m[k := v]| == |m| + 1
  {
    assert m[k := v].Keys == m.Keys + {k};
  }

  lemma SameSize<K, V>(m: map<K, V>, k: K, v: V)
    requires k in m
    ensures |m[k := v]| == |m|
  {
    assert m[k := v].Keys == m.Keys;
  }

  lemma BitsAfterRewrite(c: Config, recs: seq<Record>, bits: seq<bool>, i: nat, r: Record)
    requires BitsMatch(c, recs, bits) && 0 < i < |recs|
    requires r.key == recs[i].key && r.firstBlock == recs[i].firstBlock && r.valsize == recs[i].valsize
    ensures BitsMatch(c, recs[i := r], bits)
  {
    assert Extent(c, r) == Extent(c, recs[i]);
    hide Extent;
    var recs' := recs[i := r];
    forall k: nat | k < c.blocks
      ensures Taken(c, recs', k) <==> Taken(c, recs, k)
    {
      if q :| 0 < q < |recs| && Covers(c, recs[q], k) {
        assert Covers(c, recs'[q], k);
      }
      if q :| 0 < q < |recs'| && Covers(c, recs'[q], k) {
        assert Covers(c, recs[q], k);
      }
    }
  }

  lemma LruAfterRewrite(recs: seq<Record>, lru: seq<nat>, i: nat, r: Record)
    requires LruMembers(recs, lru) && 0 < i < |recs| && r.key == recs[i].key
    ensures LruMembers(recs[i := r], lru) && Recency(recs[i := r], lru) == Recency(recs, lru)
  {}

  lemma LruAfterTouch(recs: seq<Record>, lru: seq<nat>, j: nat)
    requires LruMembers(recs, lru) && j < |lru|
    ensures lru[j] !in Cut(lru, j) && LruMembers(recs, Cut(lru, j) + [lru[j]])
  {
    CutMembers(lru, j);
    var d := Cut(lru, j) + [lru[j]];
    forall k | 0 <= k < |d|
      ensures d[k] in lru
    {
      assert k < |Cut(lru, j)| ==> d[k] in Cut(lru, j);
    }
    forall i | i in lru
      ensures i in d
    {
      assert i in Cut(lru, j) || d[|d| - 1] == i;
    }
  }

  lemma RecencyOfLast(recs: seq<Record>, lru: seq<nat>, i: nat)
    requires 0 < i < |recs| && forall k :: 0 <= k < |lru| ==> 0 < lru[k] < |recs|
    ensures forall k :: 0 <= k < |lru + [i]| ==> 0 < (lru + [i])[k] < |recs|
    ensures Recency(recs, lru + [i]) == Recency(recs, lru) + [recs[i].key]
  {}

  lemma RecencyAfterTouch(c: Config, recs: seq<Record>, data: seq<byte>, entries: map<Key, Entry>, lru: seq<nat>,
                          j: nat)
    requires Contents(c, recs, data, entries) && LruMembers(recs, lru) && j < |lru|
    ensures Recency(recs, Cut(lru, j) + [lru[j]]) ==
            Keep(Recency(recs, lru), entries.Keys - {recs[lru[j]].key}) + [recs[lru[j]].key]
  {
    hide Space, Stores, Keep, Cut, HasSlot;
    var i := lru[j];
    LiveKeys(c, recs, data, entries, i);
    assert entries.Keys - {recs[i].key} == (entries - {recs[i].key}).Keys;
    RecencyAfterCut(c, recs, lru, j, entries.Keys - {recs[i].key});
    RecencyOfLast(recs, Cut(lru, j), i);
  }

  /** A new key in slot i goes to the end of the recency order. */
  lemma RecencyAfterAdd(c: Config, recs: seq<Record>, data: seq<byte>, entries: map<Key, Entry>, lru: seq<nat>,
                        i: nat, r: Record, v: seq<byte>)
    requires Contents(c, recs, data, entries) && LruMembers(recs, lru) && 0 < i < |recs| && !Live(recs[i])
    requires r.key !in entries
    ensures Recency(recs[i := r], lru + [i]) ==
            Keep(Recency(recs, lru), entries[r.key := Entry(v, r.expires, r.flags)].Keys - {r.key}) + [r.key]
  {
    hide Contents, Keep;
    var s := Recency(recs, lru);
    var alive := entries[r.key := Entry(v, r.expires, r.flags)].Keys - {r.key};
    assert alive == entries.Keys;
    forall j | 0 <= j < |s|
      ensures s[j] in alive
    {
      ContentsKey(c, recs, data, entries, lru[j]);
    }
    KeepAll(s, alive);
    RecencyOfAppend(recs, lru, i, r);
  }

  lemma RecencyOfAppend(recs: seq<Record>, lru: seq<nat>, i: nat, r: Record)
    requires LruMembers(recs, lru) && 0 < i < |recs| && !Live(recs[i])
    ensures Recency(recs[i := r], lru + [i]) == Recency(recs, lru) + [r.key]
  {}

  lemma BitsLength(c: Config, recs: seq<Record>, bm: seq<bv8>)
    requires BitsMatch(c, recs, Bitmap.Bits(bm))
    ensures c.blocks <= 8 * |bm|
  {}

  lemma BitsAfterIdle(c: Config, recs: seq<Record>, bits: seq<bool>, i: nat, r: Record)
    requires BitsMatch(c, recs, bits) && 0 < i < |recs| && !Live(recs[i]) && !Live(r)
    ensures BitsMatch(c, recs[i := r], bits)
  {
    hide Extent;
    var recs' := recs[i := r];
    forall k: nat | k < c.blocks
      ensures Taken(c, recs', k) <==> Taken(c, recs, k)
    {
      if q :| 0 < q < |recs| && Covers(c, recs[q], k) {
        assert Covers(c, recs'[q], k);
      }
      if q :| 0 < q < |recs'| && Covers(c, recs'[q], k) {
        assert Covers(c, recs[q], k);
      }
    }
  }

  /** A free slot that stays free is no business of the contents. */
  lemma ContentsAfterIdle(c: Config, recs: seq<Record>, data: seq<byte>, entries: map<Key, Entry>, i: nat, r: Record)
    requires Contents(c, recs, data, entries) && 0 < i < |recs| && !Live(recs[i]) && !Live(r)
    ensures Contents(c, recs[i := r], data, entries)
  {
    hide EntryOf, Apart, Fits, HasSlot, DataSize;
    forall k | k in entries
      ensures HasSlot(recs[i := r], k)
    {
      HasSlotElsewhere(recs, i, r, k);
    }
  }
}
