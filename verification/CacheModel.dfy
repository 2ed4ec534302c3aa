/** The simple thing a cache must agree with: a finite map from keys to (value, expiry, flags), the keys in
    order of last touch when LRU purging is on, and the time of the next expiry scan. */
module CacheModel {
  import opened Wrappers
  import opened Bytes
  import Bitmap

  type Key = seq<byte>
  type Positive = x: nat | x > 0 witness 1

  /** The flag bits of uwsgi.h:355-364 that the modelled operations read. */
  datatype Flags = Flags(ungettable: bool, update: bool, absExpire: bool, fixExpire: bool)

  datatype Config = Config(
    maxItems: nat, hashsize: Positive, keysize: nat, blocks: nat, blocksize: Positive,
    bitmap: bool, purgeLru: bool, lazyExpire: bool, noExpire: bool, sweepOnFull: nat, clearOnFull: bool,
    hash: Key -> nat)
  {
    /** What uwsgi_cache_create checks or establishes; a block number must fit below the "none" mark. */
    ghost predicate Ok() {
      && 0 < maxItems <= blocks && 0 < keysize
      && blocks + 8 < Bitmap.NO_BLOCK
    }

    function MaxItemSize(): nat {
      if bitmap then Offset(blocks, blocksize) else blocksize
    }
  }

  /** Where block b starts: b * blocksize. */
  function Offset(b: nat, blocksize: nat): nat {
    if b == 0 then 0 else Offset(b - 1, blocksize) + blocksize
  }

  lemma {:induction false} OffsetIsProduct(b: nat, blocksize: nat)
    ensures Offset(b, blocksize) == b * blocksize
  {
    if b > 0 {
      OffsetIsProduct(b - 1, blocksize);
    }
  }

  datatype Entry = Entry(value: seq<byte>, expires: nat, flags: Flags)

  datatype Model = Model(entries: map<Key, Entry>, recency: seq<Key>, nextScan: nat)

  // ---------------------------------------------------------------- steps of the model

  predicate Expired(e: Entry, now: nat) {
    0 < e.expires <= now
  }

  /** The keys of s that are in `alive`, in their order. */
  function Keep(s: seq<Key>, alive: set<Key>): (r: seq<Key>)
    ensures |r| <= |s|
    ensures forall k :: k in r <==> k in s && k in alive
  {
    if s == [] then []
    else if s[0] in alive then [s[0]] + Keep(s[1..], alive)
    else Keep(s[1..], alive)
  }

  /** The model with only the entries `left`. */
  function Shrink(m: Model, left: map<Key, Entry>): Model {
    m.(entries := left, recency := Keep(m.recency, left.Keys))
  }

  function Delete(m: Model, k: Key): Model {
    Shrink(m, m.entries - {k})
  }

  /** k becomes the most recently touched key. */
  function Touch(c: Config, m: Model, k: Key): Model {
    if c.purgeLru then m.(recency := Keep(m.recency, m.entries.Keys - {k}) + [k]) else m
  }

  /** A look-up first removes an entry that it finds expired, when expiry is lazy. */
  function Lazy(c: Config, m: Model, k: Key, now: nat): Model {
    if c.lazyExpire && k in m.entries && Expired(m.entries[k], now) then Delete(m, k) else m
  }

  function PurgeOldest(c: Config, m: Model): Model {
    if c.purgeLru && m.recency != [] then Delete(m, m.recency[0]) else m
  }

  function Unexpired(m: Model, now: nat): map<Key, Entry> {
    map k | k in m.entries && !Expired(m.entries[k], now) :: m.entries[k]
  }

  predicate SweepDue(c: Config, m: Model, now: nat) {
    c.sweepOnFull > 0 && m.nextScan <= now
  }

  /** What a full cache does to make room. */
  function MakeRoom(c: Config, m: Model, now: nat): Model {
    var m1 := PurgeOldest(c, m);
    var m2 := if SweepDue(c, m1, now) then Shrink(m1, Unexpired(m1, now)).(nextScan := now + c.sweepOnFull) else m1;
    if c.clearOnFull && |m2.entries| == |m1.entries| then Shrink(m2, map[]) else m2
  }

  predicate IsFull(c: Config, m: Model) {
    |m.entries| + 1 >= c.maxItems
  }

  /** A relative expiry is counted from now, and pulls the next scan forward. */
  function ExpiryOf(c: Config, expires: nat, flags: Flags, now: nat): nat {
    if !c.purgeLru && expires > 0 && !flags.absExpire then expires + now else expires
  }

  function ScanAfter(c: Config, nextScan: nat, expires: nat, flags: Flags, now: nat): nat {
    if !c.purgeLru && expires > 0 && !flags.absExpire && (nextScan == 0 || nextScan > expires + now)
    then expires + now else nextScan
  }

  predicate Acceptable(c: Config, k: Key, v: seq<byte>) {
    0 < |k| <= c.keysize && 0 < |v| <= c.MaxItemSize()
  }

  /** set2 on a key that is not there; `placed` says whether a run of free blocks was found. */
  function Insert(c: Config, m: Model, k: Key, v: seq<byte>, expires: nat, flags: Flags, now: nat, placed: bool)
    : (Model, bool)
  {
    var m1 := if IsFull(c, m) then MakeRoom(c, m, now) else m;
    if IsFull(c, m1) then (m1, false)
    else if !placed then (MakeRoom(c, m1, now), false)
    else
      (Touch(c, m1.(entries := m1.entries[k := Entry(v, ExpiryOf(c, expires, flags, now), flags)],
                    nextScan := ScanAfter(c, m1.nextScan, expires, flags, now)), k), true)
  }

  /** The key gets a new expiry and becomes the most recently touched one. */
  function Refreshed(c: Config, m: Model, k: Key, expires: nat, flags: Flags, now: nat): Model
    requires k in m.entries
  {
    Touch(c, m.(entries := m.entries[k := m.entries[k].(expires := ExpiryOf(c, expires, flags, now))],
                nextScan := ScanAfter(c, m.nextScan, expires, flags, now)), k)
  }

  /** set2 on a key that is there, with the update flag. A failed relocation has already moved the expiry. */
  function Update(c: Config, m: Model, k: Key, v: seq<byte>, expires: nat, flags: Flags, now: nat, placed: bool)
    : (Model, bool)
    requires k in m.entries
  {
    var m1 := if flags.fixExpire then m else Refreshed(c, m, k, expires, flags, now);
    if !placed then (MakeRoom(c, m1, now), false)
    else (m1.(entries := m1.entries[k := m1.entries[k].(value := v)]), true)
  }

  function Set(c: Config, m: Model, k: Key, v: seq<byte>, expires: nat, flags: Flags, now: nat, placed: bool)
    : (Model, bool)
  {
    if !Acceptable(c, k, v) then (m, false)
    else
      var m0 := Lazy(c, m, k, now);
      if k !in m0.entries then Insert(c, m0, k, v, expires, flags, now, placed)
      else if flags.update then Update(c, m0, k, v, expires, flags, now, placed)
      else (m0, false)
  }

  /** get2 and get3: the entry, if it is there and may be read. */
  function Get(c: Config, m: Model, k: Key, now: nat): (Model, Option<Entry>) {
    var m0 := Lazy(c, m, k, now);
    if k in m0.entries && !m0.entries[k].flags.ungettable
    then (Touch(c, m0, k), Some(m0.entries[k]))
    else (m0, None)
  }

  function Del(c: Config, m: Model, k: Key, now: nat): (Model, bool) {
    var m0 := Lazy(c, m, k, now);
    if k in m0.entries then (Delete(m0, k), true) else (m0, false)
  }

  // ---------------------------------------------------------------- whole runs

  datatype Op =
    | OpSet(key: Key, value: seq<byte>, expires: nat, flags: Flags, now: nat)
    | OpGet(key: Key, now: nat)
    | OpDel(key: Key, now: nat)

  datatype Out = Stored(ok: bool) | Read(found: Option<Entry>) | Deleted(ok: bool)

  function Step(c: Config, m: Model, op: Op, placed: bool): (Model, Out) {
    match op
    case OpSet(k, v, e, f, now) => var (m', ok) := Set(c, m, k, v, e, f, now, placed); (m', Stored(ok))
    case OpGet(k, now) => var (m', found) := Get(c, m, k, now); (m', Read(found))
    case OpDel(k, now) => var (m', ok) := Del(c, m, k, now); (m', Deleted(ok))
  }

  function Run(c: Config, m: Model, ops: seq<Op>, placed: seq<bool>): (r: (Model, seq<Out>))
    requires |placed| == |ops|
    ensures |r.1| == |ops|
  {
    if ops == [] then (m, [])
    else
      var n := |ops| - 1;
      var (m1, outs) := Run(c, m, ops[..n], placed[..n]);
      var (m2, out) := Step(c, m1, ops[n], placed[n]);
      (m2, outs + [out])
  }
}
