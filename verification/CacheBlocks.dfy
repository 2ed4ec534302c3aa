/** Where a cache in bitmap mode puts its values. The bitmap is determined by the entries and their places, so the
    answers of a cache are a function of the operations alone. */
module CacheBlocks {
  import opened Wrappers
  import opened Bytes
  import opened SlotLists
  import opened CacheModel
  import opened CacheSlots
  import opened CacheSteps
  import Bitmap

  /** The first block of each value, and where the next search starts. */
  datatype Blocks = Blocks(place: map<Key, nat>, hint: nat)

  // ---------------------------------------------------------------- the allocator as a function

  ghost predicate Covered(c: Config, entries: map<Key, Entry>, place: map<Key, nat>, b: nat) {
    exists k :: k in entries && k in place && Within(c, place[k], entries[k].value, b)
  }

  predicate Within(c: Config, p: nat, v: seq<byte>, b: nat) {
    p <= b < p + Bitmap.NeededBlocks(|v|, c.blocksize)
  }

  /** The bitmap: the blocks of the values, and the padding of the last byte. */
  ghost function MapOf(c: Config, entries: map<Key, Entry>, place: map<Key, nat>): (bits: seq<bool>)
    ensures |bits| == Bitmap.RoundUp(c.blocks)
  {
    seq(Bitmap.RoundUp(c.blocks), b requires b >= 0 => b >= c.blocks || Covered(c, entries, place, b))
  }

  ghost function Probe(c: Config, entries: map<Key, Entry>, b: Blocks, v: seq<byte>): Option<nat> {
    Bitmap.Search(MapOf(c, entries, b.place), b.hint, Bitmap.NeededBlocks(|v|, c.blocksize))
  }

  function Only(b: Blocks, entries: map<Key, Entry>): Blocks {
    b.(place := map k | k in b.place && k in entries :: b.place[k])
  }

  /** The value of k goes to block p, and the next search starts behind it. */
  function Put(c: Config, b: Blocks, k: Key, v: seq<byte>, p: nat): Blocks {
    var end := p + Bitmap.NeededBlocks(|v|, c.blocksize);
    Blocks(b.place[k := p], if end >= c.blocks then 0 else end)
  }

  /** set2 on a new key: whether the search for blocks lets it through, and the places afterwards. */
  ghost function InsertBlocks(c: Config, m: Model, b: Blocks, k: Key, v: seq<byte>, now: nat): (bool, Blocks) {
    var m1 := if IsFull(c, m) then MakeRoom(c, m, now) else m;
    var b1 := Only(b, m1.entries);
    if !c.bitmap || IsFull(c, m1) then (true, b1)
    else match Probe(c, m1.entries, b1, v)
         case None => (false, Only(b1, MakeRoom(c, m1, now).entries))
         case Some(p) => (true, Put(c, b1, k, v, p))
  }

  /** set2 on a key that is there. */
  ghost function UpdateBlocks(c: Config, m: Model, b: Blocks, k: Key, v: seq<byte>, expires: nat, flags: Flags,
                              now: nat)
    : (bool, Blocks)
    requires k in m.entries
  {
    if !c.bitmap then (true, b)
    else match Probe(c, m.entries, b, v)
         case None => (false, Only(b, Update(c, m, k, v, expires, flags, now, false).0.entries))
         case Some(p) => (true, Put(c, b, k, v, p))
  }

  ghost function SetBlocks(c: Config, m: Model, b: Blocks, k: Key, v: seq<byte>, expires: nat, flags: Flags, now: nat)
    : (bool, Blocks)
  {
    if !Acceptable(c, k, v) then (true, b)
    else
      var m0 := Lazy(c, m, k, now);
      var b0 := Only(b, m0.entries);
      if k !in m0.entries then InsertBlocks(c, m0, b0, k, v, now)
      else if flags.update then UpdateBlocks(c, m0, b0, k, v, expires, flags, now)
      else (true, b0)
  }

  ghost function StepBlocks(c: Config, m: Model, b: Blocks, op: Op): (bool, Blocks) {
    match op
    case OpSet(k, v, e, f, now) => SetBlocks(c, m, b, k, v, e, f, now)
    case OpGet(k, now) => (true, Only(b, Lazy(c, m, k, now).entries))
    case OpDel(k, now) => (true, Only(b, Del(c, m, k, now).0.entries))
  }

  /** For every operation of a run whether its search lets it through. */
  ghost function RunBlocks(c: Config, m: Model, b: Blocks, ops: seq<Op>): (r: (seq<bool>, Blocks))
    ensures |r.0| == |ops|
  {
    if ops == [] then ([], b)
    else
      var n := |ops| - 1;
      var (placed, b1) := RunBlocks(c, m, b, ops[..n]);
      var (p, b2) := StepBlocks(c, Run(c, m, ops[..n], placed).0, b1, ops[n]);
      (placed + [p], b2)
  }

  lemma RunStarts(c: Config, m: Model, b: Blocks, ops: seq<Op>)
    ensures Run(c, m, ops[..0], []) == (m, []) && RunBlocks(c, m, b, ops[..0]) == ([], b)
  {}

  /** One more operation of a run. */
  lemma RunGoesOn(c: Config, m: Model, ops: seq<Op>, i: nat, placed: seq<bool>, p: bool)
    requires i < |ops| && |placed| == i
    ensures var (m', outs) := Run(c, m, ops[..i], placed);
            var (m'', out) := Step(c, m', ops[i], p);
            Run(c, m, ops[..i + 1], placed + [p]) == (m'', outs + [out])
  {
    hide Step;
    assert ops[..i + 1][..i] == ops[..i] && (placed + [p])[..i] == placed;
  }

  lemma RunBlocksGoesOn(c: Config, m: Model, b: Blocks, ops: seq<Op>, i: nat)
    requires i < |ops|
    ensures var (placed, b') := RunBlocks(c, m, b, ops[..i]);
            var (p, b'') := StepBlocks(c, Run(c, m, ops[..i], placed).0, b', ops[i]);
            RunBlocks(c, m, b, ops[..i + 1]) == (placed + [p], b'')
  {
    hide StepBlocks, Run;
    assert ops[..i + 1][..i] == ops[..i];
  }

  // ---------------------------------------------------------------- the places that the records say

  /** place gives the first block of every live record, and of nothing else. */
  ghost predicate Places(recs: seq<Record>, place: map<Key, nat>) {
    && (forall i :: 0 < i < |recs| && Live(recs[i]) ==>
        recs[i].key in place && place[recs[i].key] == recs[i].firstBlock)
    && (forall k :: k in place ==> HasSlot(recs, k))
  }

  ghost function FirstBlockOf(recs: seq<Record>, k: Key): nat {
    if HasSlot(recs, k) then
      var i :| 0 < i < |recs| && Live(recs[i]) && recs[i].key == k;
      recs[i].firstBlock
    else 0
  }

  ghost function KeysOf(recs: seq<Record>): set<Key> {
    set i | 0 < i < |recs| && Live(recs[i]) :: recs[i].key
  }

  ghost function PlaceOf(recs: seq<Record>): map<Key, nat> {
    map k | k in KeysOf(recs) :: FirstBlockOf(recs, k)
  }

  lemma PlaceOfPlaces(c: Config, recs: seq<Record>)
    requires Keyed(c, recs)
    ensures Places(recs, PlaceOf(recs))
  {}

  lemma PlacesAreUnique(recs: seq<Record>, p: map<Key, nat>, q: map<Key, nat>)
    requires Places(recs, p) && Places(recs, q)
    ensures p == q
  {
    forall k | k in p
      ensures k in q && q[k] == p[k]
    {
      assert HasSlot(recs, k);
    }
    forall k | k in q
      ensures k in p
    {
      assert HasSlot(recs, k);
    }
  }

  /** Slots that are freed lose their places, the others keep theirs. */
  lemma PlacesAfterFree(c: Config, recs: seq<Record>, recs': seq<Record>, data: seq<byte>, entries: map<Key, Entry>,
                        b: Blocks)
    requires OnlyFreed(recs, recs') && Contents(c, recs', data, entries) && Places(recs, b.place)
    ensures Places(recs', Only(b, entries).place)
  {
    hide Keyed, Space, DataSize, EntryOf;
    var place := Only(b, entries).place;
    forall i | 0 < i < |recs'| && Live(recs'[i])
      ensures recs'[i].key in place && place[recs'[i].key] == recs'[i].firstBlock
    {
      assert recs'[i] == recs[i];
    }
    forall k | k in place
      ensures HasSlot(recs', k)
    {}
  }

  /** A record that is written into a slot. */
  lemma PlacesAfterStore(c: Config, recs: seq<Record>, i: nat, r: Record, place: map<Key, nat>)
    requires Places(recs, place) && 0 < i < |recs| && Live(r) && (Live(recs[i]) ==> recs[i].key == r.key)
    requires Keyed(c, recs[i := r])
    ensures Places(recs[i := r], place[r.key := r.firstBlock])
  {
    var recs' := recs[i := r];
    forall k | k in place[r.key := r.firstBlock]
      ensures HasSlot(recs', k)
    {
      if k == r.key {
        assert recs'[i].key == k;
      } else {
        assert HasSlot(recs, k);
        var j :| 0 < j < |recs| && Live(recs[j]) && recs[j].key == k;
        assert recs'[j].key == k;
      }
    }
    forall j | 0 < j < |recs'| && Live(recs'[j])
      ensures recs'[j].key in place[r.key := r.firstBlock] &&
                place[r.key := r.firstBlock][recs'[j].key] == recs'[j].firstBlock
    {
      if j != i {
        assert recs'[j].key != recs'[i].key;
      }
    }
  }

  /** A record that stays where it is, or a free one that changes. */
  lemma PlacesElsewhere(recs: seq<Record>, i: nat, r: Record, place: map<Key, nat>)
    requires Places(recs, place) && 0 < i < |recs|
    requires if Live(recs[i]) then r.key == recs[i].key && r.firstBlock == recs[i].firstBlock else !Live(r)
    ensures Places(recs[i := r], place)
  {
    var recs' := recs[i := r];
    forall k | k in place
      ensures HasSlot(recs', k)
    {
      assert HasSlot(recs, k);
      var j :| 0 < j < |recs| && Live(recs[j]) && recs[j].key == k;
      assert recs'[j].key == k;
    }
  }

  /** The bitmap is the one that the entries and their places make. */
  lemma BitsAreMapOf(c: Config, s: Slots, g: Shape, data: seq<byte>, bits: seq<bool>, place: map<Key, nat>)
    requires Inv(c, s, g, data, bits) && c.bitmap && |bits| == Bitmap.RoundUp(c.blocks) && Places(s.recs, place)
    ensures bits == MapOf(c, g.entries, place)
  {
    hide Buckets, FreeStack, LruMembers, Queue, Bitmap.NeededBlocks;
    forall b: nat | b < c.blocks
      ensures bits[b] <==> Covered(c, g.entries, place, b)
    {
      CoveredIffTaken(c, s.recs, data, g.entries, place, b);
    }
  }

  lemma CoveredIffTaken(c: Config, recs: seq<Record>, data: seq<byte>, entries: map<Key, Entry>, place: map<Key, nat>,
                        b: nat)
    requires Contents(c, recs, data, entries) && Places(recs, place)
    ensures Covered(c, entries, place, b) <==> Taken(c, recs, b)
  {
    hide Bitmap.NeededBlocks, Offset, Apart;
    if Taken(c, recs, b) {
      var i :| 0 < i < |recs| && Covers(c, recs[i], b);
      SizeOfValue(c, recs, data, entries, i);
      assert Within(c, place[recs[i].key], entries[recs[i].key].value, b);
    }
    if Covered(c, entries, place, b) {
      var k :| k in entries && k in place && Within(c, place[k], entries[k].value, b);
      assert HasSlot(recs, k);
      var i :| 0 < i < |recs| && Live(recs[i]) && recs[i].key == k;
      SizeOfValue(c, recs, data, entries, i);
      assert Covers(c, recs[i], b);
    }
  }

  lemma SizeOfValue(c: Config, recs: seq<Record>, data: seq<byte>, entries: map<Key, Entry>, i: nat)
    requires Contents(c, recs, data, entries) && 0 < i < |recs| && Live(recs[i])
    ensures recs[i].key in entries && |entries[recs[i].key].value| == recs[i].valsize
  {
    hide Bitmap.NeededBlocks, Offset, Apart;
    ValueIsInside(c, recs[i]);
  }

  // ---------------------------------------------------------------- what the methods need

  lemma InvKeyed(c: Config, s: Slots, g: Shape, data: seq<byte>, bits: seq<bool>)
    requires Inv(c, s, g, data, bits)
    ensures Contents(c, s.recs, data, g.entries) && Keyed(c, s.recs) && Places(s.recs, PlaceOf(s.recs))
  {
    hide Buckets, FreeStack, LruMembers, Queue, BitsMatch, Keyed, Places;
    PlaceOfPlaces(c, s.recs);
  }

  lemma FreedBlocks(c: Config, s: Slots, g: Shape, d: seq<byte>, bits: seq<bool>,
                    s': Slots, g': Shape, d': seq<byte>, bits': seq<bool>, hint: nat)
    requires Inv(c, s, g, d, bits) && Inv(c, s', g', d', bits') && OnlyFreed(s.recs, s'.recs)
    ensures Blocks(PlaceOf(s'.recs), hint) == Only(Blocks(PlaceOf(s.recs), hint), g'.entries)
  {
    hide Inv, Contents, Places, PlaceOf, OnlyFreed;
    InvKeyed(c, s, g, d, bits);
    InvKeyed(c, s', g', d', bits');
    var b := Blocks(PlaceOf(s.recs), hint);
    PlacesAfterFree(c, s.recs, s'.recs, d', g'.entries, b);
    PlacesAreUnique(s'.recs, PlaceOf(s'.recs), Only(b, g'.entries).place);
  }

  lemma StoredBlocks(c: Config, s: Slots, g: Shape, d: seq<byte>, bits: seq<bool>,
                     s': Slots, g': Shape, d': seq<byte>, bits': seq<bool>, i: nat, r: Record)
    requires Inv(c, s, g, d, bits) && Inv(c, s', g', d', bits') && 0 < i < |s.recs| && s'.recs == s.recs[i := r]
    requires Live(r) && (Live(s.recs[i]) ==> s.recs[i].key == r.key)
    ensures PlaceOf(s'.recs) == PlaceOf(s.recs)[r.key := r.firstBlock]
  {
    hide Inv, Contents, Places, PlaceOf, Keyed;
    InvKeyed(c, s, g, d, bits);
    InvKeyed(c, s', g', d', bits');
    PlacesAfterStore(c, s.recs, i, r, PlaceOf(s.recs));
    PlacesAreUnique(s'.recs, PlaceOf(s'.recs), PlaceOf(s.recs)[r.key := r.firstBlock]);
  }

  lemma SameBlocks(c: Config, s: Slots, g: Shape, d: seq<byte>, bits: seq<bool>,
                   s': Slots, g': Shape, d': seq<byte>, bits': seq<bool>, i: nat, r: Record)
    requires Inv(c, s, g, d, bits) && Inv(c, s', g', d', bits') && 0 < i < |s.recs| && s'.recs == s.recs[i := r]
    requires if Live(s.recs[i]) then r.key == s.recs[i].key && r.firstBlock == s.recs[i].firstBlock else !Live(r)
    ensures PlaceOf(s'.recs) == PlaceOf(s.recs)
  {
    hide Inv, Contents, Places, PlaceOf, Keyed;
    InvKeyed(c, s, g, d, bits);
    InvKeyed(c, s', g', d', bits');
    PlacesElsewhere(s.recs, i, r, PlaceOf(s.recs));
    PlacesAreUnique(s'.recs, PlaceOf(s'.recs), PlaceOf(s.recs));
  }

  lemma ProbeIs(c: Config, s: Slots, g: Shape, d: seq<byte>, bits: seq<bool>, hint: nat, v: seq<byte>, bytes: nat)
    requires Inv(c, s, g, d, bits) && c.bitmap && |bits| == 8 * bytes < c.blocks + 8
    ensures Probe(c, g.entries, Blocks(PlaceOf(s.recs), hint), v) ==
            Bitmap.Search(bits, hint, Bitmap.NeededBlocks(|v|, c.blocksize))
  {
    hide Inv, Contents, Places, PlaceOf, Keyed, MapOf, Bitmap.Search, Bitmap.NeededBlocks, BitsMatch;
    InvKeyed(c, s, g, d, bits);
    InvBits(c, s, g, d, bits);
    BitsAreMapOf(c, s, g, d, bits, PlaceOf(s.recs));
  }

  /** Places of keys that are all there stay as they are. */
  lemma OnlyAll(c: Config, s: Slots, g: Shape, d: seq<byte>, bits: seq<bool>, hint: nat)
    requires Inv(c, s, g, d, bits)
    ensures Only(Blocks(PlaceOf(s.recs), hint), g.entries) == Blocks(PlaceOf(s.recs), hint)
  {
    hide Inv;
    FreedBlocks(c, s, g, d, bits, s, g, d, bits, hint);
  }

  lemma InsertBlocksIs(c: Config, m: Model, b: Blocks, k: Key, v: seq<byte>, now: nat)
    requires c.bitmap && !IsFull(c, m) && Only(b, m.entries) == b
    ensures InsertBlocks(c, m, b, k, v, now) ==
            match Probe(c, m.entries, b, v)
            case None => (false, Only(b, MakeRoom(c, m, now).entries))
            case Some(p) => (true, Put(c, b, k, v, p))
  {
    hide Only, Put, Probe, MakeRoom;
  }

  /** Making room and inserting is inserting. */
  lemma InsertBlocksAfterRoom(c: Config, m: Model, b: Blocks, k: Key, v: seq<byte>, now: nat)
    requires c.bitmap && IsFull(c, m)
    ensures var m1 := MakeRoom(c, m, now);
            var b1 := Only(b, m1.entries);
            InsertBlocks(c, m, b, k, v, now) == if IsFull(c, m1) then (true, b1) else InsertBlocks(c, m1, b1, k, v, now)
  {
    hide Put, Probe, MakeRoom;
    var m1 := MakeRoom(c, m, now);
    assert Only(Only(b, m1.entries), m1.entries) == Only(b, m1.entries);
  }
}
