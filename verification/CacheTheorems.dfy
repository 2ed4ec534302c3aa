/** What follows for the users of a cache, for every run. The cache answers what CacheModel.Run answers
    (Cache.Store.Execute), so these are statements about the cache. */
module CacheTheorems {
  import opened Collections
  import opened Wrappers
  import opened Bytes
  import opened SlotLists
  import opened CacheModel
  import opened CacheSlots
  import CacheSteps
  import opened CacheBlocks
  import Bitmap

  const EMPTY_MODEL := Model(map[], [], 0)

  // ---------------------------------------------------------------- one key never disturbs another

  /** Shrinking steps remove entries and change none. */
  ghost predicate Submap(a: map<Key, Entry>, b: map<Key, Entry>) {
    forall k :: k in a ==> k in b && a[k] == b[k]
  }

  lemma MakeRoomShrinks(c: Config, m: Model, now: nat)
    ensures Submap(MakeRoom(c, m, now).entries, m.entries)
  {
    hide Keep;
  }

  /** Whatever set2 has to evict or relocate, a key that is still there afterwards has kept its bytes, expiry and
      flags. */
  lemma SetIsLocal(c: Config, m: Model, k: Key, v: seq<byte>, expires: nat, flags: Flags, now: nat, placed: bool,
                   k': Key)
    requires k' != k && k' in Set(c, m, k, v, expires, flags, now, placed).0.entries
    ensures k' in m.entries && Set(c, m, k, v, expires, flags, now, placed).0.entries[k'] == m.entries[k']
  {
    hide Keep, ExpiryOf, ScanAfter, MakeRoom;
    var m0 := Lazy(c, m, k, now);
    MakeRoomShrinks(c, m0, now);
    MakeRoomShrinks(c, if IsFull(c, m0) then MakeRoom(c, m0, now) else m0, now);
    if k in m0.entries && !flags.fixExpire {
      MakeRoomShrinks(c, Refreshed(c, m0, k, expires, flags, now), now);
    }
  }

  /** What was stored is read back, until it expires or is replaced. */
  lemma ReadYourWrite(c: Config, m: Model, k: Key, v: seq<byte>, expires: nat, flags: Flags, now: nat, placed: bool,
                      later: nat)
    requires Set(c, m, k, v, expires, flags, now, placed).1
    ensures var m' := Set(c, m, k, v, expires, flags, now, placed).0;
            k in m'.entries && m'.entries[k].value == v &&
            (m'.entries[k].flags.ungettable || (c.lazyExpire && Expired(m'.entries[k], later)) ||
             Get(c, m', k, later).1 == Some(m'.entries[k]))
  {
    hide Keep, MakeRoom;
  }

  // ---------------------------------------------------------------- LRU order

  /** The recency order lists each key of the cache once. */
  ghost predicate Listed(m: Model) {
    Distinct(m.recency) && (forall k :: k in m.recency <==> k in m.entries)
  }

  lemma {:induction false} KeepDistinct(s: seq<Key>, alive: set<Key>)
    requires Distinct(s)
    ensures Distinct(Keep(s, alive))
  {
    if s != [] {
      KeepDistinct(s[1..], alive);
      assert forall i :: 0 < i < |s| ==> s[i] != s[0];
      assert s[0] !in s[1..] && s[0] !in Keep(s[1..], alive);
    }
  }

  /** A new key in a full LRU cache evicts exactly the least recently touched one. */
  lemma FullCacheEvictsOldest(c: Config, m: Model, k: Key, v: seq<byte>, expires: nat, flags: Flags, now: nat)
    requires c.purgeLru && c.sweepOnFull == 0 && !c.clearOnFull
    requires Listed(m) && m.recency != [] && IsFull(c, m) && |m.entries| < c.maxItems
    requires k !in m.entries && Acceptable(c, k, v)
    ensures var (m', ok) := Set(c, m, k, v, expires, flags, now, true);
            ok && m'.entries == (m.entries - {m.recency[0]})[k := Entry(v, expires, flags)]
            && m'.recency == m.recency[1..] + [k]
  {
    hide MakeRoom, Keep;
    OldestGoes(c, m, now);
    var m1 := MakeRoom(c, m, now);
    OneLess(m.entries, m.recency[0]);
    var e := m1.entries[k := Entry(v, expires, flags)];
    assert e.Keys - {k} == m1.entries.Keys;
    KeepAll(m1.recency, e.Keys - {k});
  }

  lemma OldestGoes(c: Config, m: Model, now: nat)
    requires c.purgeLru && c.sweepOnFull == 0 && !c.clearOnFull && Listed(m) && m.recency != []
    ensures MakeRoom(c, m, now) == Model(m.entries - {m.recency[0]}, m.recency[1..], m.nextScan)
    ensures forall i :: 0 <= i < |m.recency[1..]| ==> m.recency[1..][i] in m.entries - {m.recency[0]}
  {
    var oldest := m.recency[0];
    KeepIsCut(m.recency, 0, (m.entries - {oldest}).Keys);
    assert Cut(m.recency, 0) == m.recency[1..];
  }

  /** Position of the last touch of k in the log, -1 if there is none. */
  function LastTouch(log: seq<Key>, k: Key): int {
    if log == [] then -1 else if log[|log| - 1] == k then |log| - 1 else LastTouch(log[..|log| - 1], k)
  }

  /** The keys of s in order of their last touch. */
  ghost predicate ByLastTouch(s: seq<Key>, log: seq<Key>) {
    forall i, j :: 0 <= i < j < |s| ==> LastTouch(log, s[i]) < LastTouch(log, s[j])
  }

  lemma {:induction false} KeepByLastTouch(s: seq<Key>, alive: set<Key>, log: seq<Key>)
    requires ByLastTouch(s, log)
    ensures ByLastTouch(Keep(s, alive), log)
  {
    if s != [] {
      KeepByLastTouch(s[1..], alive, log);
      var rest := Keep(s[1..], alive);
      forall j | 0 <= j < |rest|
        ensures LastTouch(log, s[0]) < LastTouch(log, rest[j])
      {
        assert rest[j] in s[1..];
        var q :| 0 <= q < |s[1..]| && s[1..][q] == rest[j];
        assert s[q + 1] == rest[j];
      }
    }
  }

  lemma {:induction false} LastTouchBound(log: seq<Key>, k: Key)
    ensures -1 <= LastTouch(log, k) < |log|
  {
    if log != [] {
      LastTouchBound(log[..|log| - 1], k);
    }
  }

  lemma LogAppend(log: seq<Key>, k: Key, x: Key)
    ensures LastTouch(log + [k], x) == if x == k then |log| else LastTouch(log, x)
  {
    assert (log + [k])[..|log|] == log;
  }

  /** The key that an operation touches: stored, updated without a fixed expiry, or read. */
  function TouchedBy(c: Config, m: Model, op: Op, placed: bool): Option<Key> {
    match op
    case OpSet(k, v, e, f, now) =>
      var m0 := Lazy(c, m, k, now);
      if Acceptable(c, k, v) && (if k in m0.entries then f.update && !f.fixExpire else Step(c, m, op, placed).1.ok)
      then Some(k) else None
    case OpGet(k, now) => if Step(c, m, op, placed).1.found.Some? then Some(k) else None
    case OpDel(k, now) => None
  }

  function Log(c: Config, m: Model, ops: seq<Op>, placed: seq<bool>): seq<Key>
    requires |placed| == |ops|
  {
    if ops == [] then []
    else
      var n := |ops| - 1;
      var t := TouchedBy(c, Run(c, m, ops[..n], placed[..n]).0, ops[n], placed[n]);
      Log(c, m, ops[..n], placed[..n]) + if t.Some? then [t.value] else []
  }

  /** What an LRU cache keeps at all times. */
  ghost predicate LruInv(m: Model, log: seq<Key>) {
    Listed(m) && ByLastTouch(m.recency, log)
  }

  lemma ShrinkKeepsLru(m: Model, left: map<Key, Entry>, log: seq<Key>)
    requires LruInv(m, log) && left.Keys <= m.entries.Keys
    ensures LruInv(Shrink(m, left), log)
  {
    KeepDistinct(m.recency, left.Keys);
    KeepByLastTouch(m.recency, left.Keys, log);
  }

  lemma TouchKeepsLru(c: Config, m: Model, entries: map<Key, Entry>, k: Key, log: seq<Key>)
    requires c.purgeLru && LruInv(m, log) && entries.Keys == m.entries.Keys + {k}
    ensures LruInv(Touch(c, m.(entries := entries), k), log + [k])
  {
    hide Keep, LastTouch;
    var alive := entries.Keys - {k};
    var s := Keep(m.recency, alive);
    KeepDistinct(m.recency, alive);
    KeepByLastTouch(m.recency, alive, log);
    forall i, j | 0 <= i < j < |s + [k]|
      ensures LastTouch(log + [k], (s + [k])[i]) < LastTouch(log + [k], (s + [k])[j])
    {
      assert s[i] in s;
      LogAppend(log, k, s[i]);
      LogAppend(log, k, (s + [k])[j]);
      LastTouchBound(log, s[i]);
      assert j < |s| ==> s[j] in s;
    }
    assert forall i :: 0 <= i < |s| ==> s[i] in s;
  }

  lemma LazyKeepsLru(c: Config, m: Model, k: Key, now: nat, log: seq<Key>)
    requires LruInv(m, log)
    ensures LruInv(Lazy(c, m, k, now), log)
  {
    ShrinkKeepsLru(m, m.entries - {k}, log);
  }

  lemma MakeRoomKeepsLru(c: Config, m: Model, now: nat, log: seq<Key>)
    requires LruInv(m, log)
    ensures LruInv(MakeRoom(c, m, now), log)
  {
    hide Keep, LruInv;
    var m1 := PurgeOldest(c, m);
    if c.purgeLru && m.recency != [] {
      ShrinkKeepsLru(m, m.entries - {m.recency[0]}, log);
    }
    var m2 := if SweepDue(c, m1, now) then Shrink(m1, Unexpired(m1, now)).(nextScan := now + c.sweepOnFull) else m1;
    ShrinkKeepsLru(m1, Unexpired(m1, now), log);
    LruIgnoresScan(Shrink(m1, Unexpired(m1, now)), now + c.sweepOnFull, log);
    ShrinkKeepsLru(m2, map[], log);
  }

  lemma LruIgnoresScan(m: Model, ns: nat, log: seq<Key>)
    requires LruInv(m, log)
    ensures LruInv(m.(nextScan := ns), log)
  {}

  lemma InsertKeepsLru(c: Config, m: Model, k: Key, v: seq<byte>, e: nat, f: Flags, now: nat, placed: bool,
                       log: seq<Key>)
    requires c.purgeLru && LruInv(m, log) && k !in m.entries
    ensures var (m', ok) := Insert(c, m, k, v, e, f, now, placed);
            LruInv(m', if ok then log + [k] else log)
  {
    hide Keep, LruInv, MakeRoom, ExpiryOf, ScanAfter, Touch, IsFull;
    MakeRoomKeepsLru(c, m, now, log);
    var m1 := if IsFull(c, m) then MakeRoom(c, m, now) else m;
    MakeRoomKeepsLru(c, m1, now, log);
    var m2 := m1.(nextScan := ScanAfter(c, m1.nextScan, e, f, now));
    LruIgnoresScan(m1, m2.nextScan, log);
    TouchKeepsLru(c, m2, m1.entries[k := Entry(v, ExpiryOf(c, e, f, now), f)], k, log);
  }

  lemma UpdateKeepsLru(c: Config, m: Model, k: Key, v: seq<byte>, e: nat, f: Flags, now: nat, placed: bool,
                       log: seq<Key>)
    requires c.purgeLru && LruInv(m, log) && k in m.entries
    ensures LruInv(Update(c, m, k, v, e, f, now, placed).0, if f.fixExpire then log else log + [k])
  {
    hide Keep, LruInv, MakeRoom, ExpiryOf, ScanAfter, Touch;
    var entries := m.entries[k := m.entries[k].(expires := ExpiryOf(c, e, f, now))];
    var m1 := m.(nextScan := ScanAfter(c, m.nextScan, e, f, now));
    LruIgnoresScan(m, m1.nextScan, log);
    TouchKeepsLru(c, m1, entries, k, log);
    TouchEntries(c, m1.(entries := entries), k);
    var m2 := if f.fixExpire then m else Touch(c, m1.(entries := entries), k);
    var log' := if f.fixExpire then log else log + [k];
    MakeRoomKeepsLru(c, m2, now, log');
    RewriteKeepsLru(m2, k, m2.entries[k].(value := v), log');
  }

  lemma SetKeepsLru(c: Config, m: Model, op: Op, placed: bool, log: seq<Key>)
    requires c.purgeLru && LruInv(m, log) && op.OpSet?
    ensures var t := TouchedBy(c, m, op, placed);
            LruInv(Step(c, m, op, placed).0, log + if t.Some? then [t.value] else [])
  {
    var OpSet(k, v, e, f, now) := op;
    assert log + [] == log;
    hide LruInv, Insert, Update, Lazy, Acceptable;
    if Acceptable(c, k, v) {
      var m0 := Lazy(c, m, k, now);
      LazyKeepsLru(c, m, k, now, log);
      if k !in m0.entries {
        InsertKeepsLru(c, m0, k, v, e, f, now, placed, log);
      } else if f.update {
        UpdateKeepsLru(c, m0, k, v, e, f, now, placed, log);
      }
    }
  }

  lemma TouchEntries(c: Config, m: Model, k: Key)
    ensures Touch(c, m, k).entries == m.entries
  {}

  lemma RewriteKeepsLru(m: Model, k: Key, e: Entry, log: seq<Key>)
    requires LruInv(m, log) && k in m.entries
    ensures LruInv(m.(entries := m.entries[k := e]), log)
  {}

  lemma StepKeepsLru(c: Config, m: Model, op: Op, placed: bool, log: seq<Key>)
    requires c.purgeLru && LruInv(m, log)
    ensures var t := TouchedBy(c, m, op, placed);
            LruInv(Step(c, m, op, placed).0, log + if t.Some? then [t.value] else [])
  {
    assert log + [] == log;
    match op {
      case OpSet(_, _, _, _, _) => SetKeepsLru(c, m, op, placed, log);
      case OpGet(k, now) =>
        LazyKeepsLru(c, m, k, now, log);
        var m0 := Lazy(c, m, k, now);
        if k in m0.entries {
          assert m0.(entries := m0.entries) == m0;
          assert m0.entries.Keys == m0.entries.Keys + {k};
          TouchKeepsLru(c, m0, m0.entries, k, log);
        }
      case OpDel(k, now) =>
        LazyKeepsLru(c, m, k, now, log);
        var m0 := Lazy(c, m, k, now);
        ShrinkKeepsLru(m0, m0.entries - {k}, log);
    }
  }

  /** After every run of an LRU cache its keys are listed once each, in order of last touch. */
  lemma {:induction false} RecencyIsLastTouchOrder(c: Config, ops: seq<Op>, placed: seq<bool>)
    requires c.purgeLru && |placed| == |ops|
    ensures LruInv(Run(c, EMPTY_MODEL, ops, placed).0, Log(c, EMPTY_MODEL, ops, placed))
  {
    if ops != [] {
      var n := |ops| - 1;
      RecencyIsLastTouchOrder(c, ops[..n], placed[..n]);
      StepKeepsLru(c, Run(c, EMPTY_MODEL, ops[..n], placed[..n]).0, ops[n], placed[n],
                   Log(c, EMPTY_MODEL, ops[..n], placed[..n]));
    }
  }

  // ---------------------------------------------------------------- when an expiry escapes the sweeper

  /** The next scan comes no later than any expiry. */
  ghost predicate InTime(m: Model) {
    forall k :: k in m.entries && m.entries[k].expires > 0 ==> 0 < m.nextScan <= m.entries[k].expires
  }

  /** The set replaces the expiry of an entry that is there, or makes a new entry. */
  predicate NewExpiry(c: Config, m: Model, k: Key, flags: Flags, now: nat) {
    !flags.fixExpire || k !in Lazy(c, m, k, now).entries
  }

  lemma StoredExpiry(c: Config, m: Model, k: Key, v: seq<byte>, expires: nat, flags: Flags, now: nat, placed: bool)
    requires Set(c, m, k, v, expires, flags, now, placed).1
    ensures var m' := Set(c, m, k, v, expires, flags, now, placed).0;
            k in m'.entries && (NewExpiry(c, m, k, flags, now) ==>
                m'.entries[k].expires == ExpiryOf(c, expires, flags, now)) &&
            (!NewExpiry(c, m, k, flags, now) ==> k in m.entries && m'.entries[k].expires == m.entries[k].expires)
  {
    hide Keep, MakeRoom, ExpiryOf, ScanAfter;
  }

  lemma MakeRoomKeepsScan(c: Config, m: Model, now: nat)
    requires c.sweepOnFull == 0
    ensures MakeRoom(c, m, now).nextScan == m.nextScan
    ensures !c.purgeLru ==> MakeRoom(c, m, now).entries == if c.clearOnFull then map[] else m.entries
  {
    hide Keep;
  }

  lemma ScanOfAbsolute(c: Config, m: Model, k: Key, v: seq<byte>, expires: nat, flags: Flags, now: nat, placed: bool)
    requires c.sweepOnFull == 0 && flags.absExpire
    ensures Set(c, m, k, v, expires, flags, now, placed).0.nextScan == m.nextScan
  {
    hide Keep, MakeRoom, IsFull, Acceptable;
    var m0 := Lazy(c, m, k, now);
    MakeRoomKeepsScan(c, m0, now);
    MakeRoomKeepsScan(c, MakeRoom(c, m0, now), now);
    if k in m0.entries {
      MakeRoomKeepsScan(c, if flags.fixExpire then m0 else Refreshed(c, m0, k, expires, flags, now), now);
    }
  }

  /** The set leaves its own expiry in the cache. A failed update does, unless it has cleared the cache. */
  predicate LeavesExpiry(c: Config, m: Model, k: Key, v: seq<byte>, flags: Flags, now: nat, ok: bool) {
    && Acceptable(c, k, v) && NewExpiry(c, m, k, flags, now)
    && (ok || (k in Lazy(c, m, k, now).entries && flags.update && !c.clearOnFull))
  }

  lemma FailedExpiry(c: Config, m: Model, k: Key, v: seq<byte>, expires: nat, flags: Flags, now: nat, placed: bool)
    requires !c.purgeLru && c.sweepOnFull == 0 && !Set(c, m, k, v, expires, flags, now, placed).1
    ensures var m' := Set(c, m, k, v, expires, flags, now, placed).0;
            if LeavesExpiry(c, m, k, v, flags, now, false)
            then k in m'.entries && m'.entries[k].expires == ExpiryOf(c, expires, flags, now)
            else k in m'.entries ==> k in m.entries && m'.entries[k].expires == m.entries[k].expires
  {
    hide Keep, MakeRoom, IsFull, ExpiryOf, ScanAfter;
    var m0 := Lazy(c, m, k, now);
    if k in m0.entries {
      MakeRoomKeepsScan(c, if flags.fixExpire then m0 else Refreshed(c, m0, k, expires, flags, now), now);
    } else {
      MakeRoomKeepsScan(c, m0, now);
      MakeRoomKeepsScan(c, MakeRoom(c, m0, now), now);
    }
  }

  /** An absolute expiry does not pull the next scan forward: after a set, successful or not, the next scan is in time
      exactly if the set has left no new expiry or a scan was due by then anyway. */
  lemma AbsoluteExpiryInTimeIff(c: Config, m: Model, k: Key, v: seq<byte>, expires: nat, flags: Flags, now: nat,
                                placed: bool)
    requires !c.purgeLru && c.sweepOnFull == 0 && InTime(m) && flags.absExpire && expires > 0
    ensures var (m', ok) := Set(c, m, k, v, expires, flags, now, placed);
            InTime(m') <==> !LeavesExpiry(c, m, k, v, flags, now, ok) || 0 < m.nextScan <= expires
  {
    hide Keep, MakeRoom, Set, NewExpiry;
    var (m', ok) := Set(c, m, k, v, expires, flags, now, placed);
    SetOnlyIfAcceptable(c, m, k, v, expires, flags, now, placed);
    ScanOfAbsolute(c, m, k, v, expires, flags, now, placed);
    if ok {
      StoredExpiry(c, m, k, v, expires, flags, now, placed);
    } else {
      FailedExpiry(c, m, k, v, expires, flags, now, placed);
    }
    forall k' | k' in m'.entries && k' != k
      ensures k' in m.entries && m'.entries[k'] == m.entries[k']
    {
      SetIsLocal(c, m, k, v, expires, flags, now, placed, k');
    }
  }

  lemma SetOnlyIfAcceptable(c: Config, m: Model, k: Key, v: seq<byte>, expires: nat, flags: Flags, now: nat,
                            placed: bool)
    ensures Set(c, m, k, v, expires, flags, now, placed).1 ==> Acceptable(c, k, v)
  {}

  /** sweep_on_full puts the next scan off: it is in time exactly if nothing that is left expires earlier. Nothing at
      all is left if the sweep finds nothing and clear_on_full follows. */
  lemma SweepOnFullInTimeIff(c: Config, m: Model, now: nat)
    requires !c.purgeLru && SweepDue(c, m, now)
    ensures InTime(MakeRoom(c, m, now)) <==>
            || (c.clearOnFull && Unexpired(m, now) == m.entries)
            || forall k :: k in m.entries && m.entries[k].expires > now ==> now + c.sweepOnFull <= m.entries[k].expires
  {
    hide Keep;
    var m', left := MakeRoom(c, m, now), Unexpired(m, now);
    assert m'.nextScan == now + c.sweepOnFull;
    LeftIsAll(m.entries, left);
    if !(c.clearOnFull && left == m.entries) {
      assert m'.entries == left;
      forall k | k in m.entries && m.entries[k].expires > now
        ensures k in m'.entries
      {}
    }
  }

  lemma LeftIsAll(all: map<Key, Entry>, left: map<Key, Entry>)
    requires Submap(left, all)
    ensures |left| == |all| <==> left == all
  {
    SubsetSize(left.Keys, all.Keys);
    assert |left| == |left.Keys| && |all| == |all.Keys|;
  }

  // ---------------------------------------------------------------- expiries in an LRU cache

  /** A relative expiry is counted from now exactly if the cache purges by expiry and not by use. */
  lemma RelativeExpiryIff(c: Config, m: Model, k: Key, v: seq<byte>, expires: nat, flags: Flags, now: nat, placed: bool)
    requires expires > 0 && !flags.absExpire && NewExpiry(c, m, k, flags, now)
    requires Set(c, m, k, v, expires, flags, now, placed).1
    ensures var m' := Set(c, m, k, v, expires, flags, now, placed).0;
            k in m'.entries && (m'.entries[k].expires == expires + now <==> !c.purgeLru || now == 0)
  {
    hide Set, NewExpiry;
    StoredExpiry(c, m, k, v, expires, flags, now, placed);
  }

  /** With lazy expiry on top, what is stored for less time than has passed since 1970 is gone at the next look. */
  lemma LruExpiryIsThePast(c: Config, m: Model, k: Key, v: seq<byte>, expires: nat, flags: Flags, now: nat,
                           placed: bool, later: nat)
    requires c.purgeLru && c.lazyExpire && NewExpiry(c, m, k, flags, now)
    requires Set(c, m, k, v, expires, flags, now, placed).1 && 0 < expires <= now <= later
    ensures Get(c, Set(c, m, k, v, expires, flags, now, placed).0, k, later).1 == None
  {
    hide Set, NewExpiry, Keep;
    StoredExpiry(c, m, k, v, expires, flags, now, placed);
  }

  // ---------------------------------------------------------------- sets that fail

  /** Making room would remove nothing, if the next scan were due at `scan`. */
  predicate NoRoomToMake(c: Config, entries: map<Key, Entry>, scan: nat, now: nat) {
    || entries == map[]
    || (!c.purgeLru && !c.clearOnFull &&
        (c.sweepOnFull > 0 && scan <= now ==> forall k :: k in entries ==> !(0 < entries[k].expires <= now)))
  }

  lemma MakeRoomIdleIff(c: Config, m: Model, now: nat)
    requires c.purgeLru ==> Listed(m)
    ensures MakeRoom(c, m, now).entries == m.entries <==> NoRoomToMake(c, m.entries, m.nextScan, now)
  {
    hide Keep;
    var m1 := PurgeOldest(c, m);
    if c.purgeLru && m.entries != map[] {
      assert m.recency != [] by {
        var k :| k in m.entries;
        assert k in m.recency;
      }
      MakeRoomShrinks(c, m, now);
      assert m.recency[0] in m.entries;
      assert m.recency[0] !in MakeRoom(c, m, now).entries;
    } else if m.entries != map[] {
      var left := Unexpired(m, now);
      assert m1 == m;
      if SweepDue(c, m, now) {
        if k :| k in m.entries && Expired(m.entries[k], now) {
          assert k !in MakeRoom(c, m, now).entries;
        } else {
          assert left == m.entries;
        }
      }
    }
  }

  /** When a set that fails leaves the map as it was. */
  predicate FailsCleanly(c: Config, m: Model, k: Key, v: seq<byte>, expires: nat, flags: Flags, now: nat) {
    || !Acceptable(c, k, v)
    || (&& !(c.lazyExpire && k in m.entries && 0 < m.entries[k].expires <= now)
        && (if k !in m.entries then NoRoomToMake(c, m.entries, m.nextScan, now)
            else !flags.update ||
                 (if flags.fixExpire then NoRoomToMake(c, m.entries, m.nextScan, now)
                  else m.entries[k].expires == ExpiryOf(c, expires, flags, now) &&
                       NoRoomToMake(c, m.entries, ScanAfter(c, m.nextScan, expires, flags, now), now))))
  }

  lemma FailedInsertIff(c: Config, m: Model, k: Key, v: seq<byte>, expires: nat, flags: Flags, now: nat, placed: bool)
    requires (c.purgeLru ==> Listed(m)) && !Insert(c, m, k, v, expires, flags, now, placed).1
    ensures Submap(Insert(c, m, k, v, expires, flags, now, placed).0.entries, m.entries)
    ensures Insert(c, m, k, v, expires, flags, now, placed).0.entries == m.entries <==>
            NoRoomToMake(c, m.entries, m.nextScan, now)
  {
    hide Keep, MakeRoom, NoRoomToMake, Touch, ExpiryOf, ScanAfter, Listed;
    MakeRoomIdleIff(c, m, now);
    var m1 := MakeRoom(c, m, now);
    MakeRoomShrinks(c, m, now);
    MakeRoomShrinks(c, m1, now);
    SmallerMap(MakeRoom(c, m1, now).entries, m1.entries);
    SmallerMap(m1.entries, m.entries);
  }

  lemma SmallerMap(a: map<Key, Entry>, b: map<Key, Entry>)
    requires Submap(a, b)
    ensures |a| <= |b|
  {
    SubsetSize(a.Keys, b.Keys);
    assert |a| == |a.Keys| && |b| == |b.Keys|;
  }

  lemma FailedUpdateIff(c: Config, m: Model, k: Key, v: seq<byte>, expires: nat, flags: Flags, now: nat)
    requires (c.purgeLru ==> Listed(m)) && k in m.entries
    ensures Update(c, m, k, v, expires, flags, now, false).0.entries == m.entries <==>
            if flags.fixExpire then NoRoomToMake(c, m.entries, m.nextScan, now)
            else m.entries[k].expires == ExpiryOf(c, expires, flags, now) &&
                 NoRoomToMake(c, m.entries, ScanAfter(c, m.nextScan, expires, flags, now), now)
  {
    hide Keep, MakeRoom, NoRoomToMake, ExpiryOf, ScanAfter;
    if flags.fixExpire {
      MakeRoomIdleIff(c, m, now);
    } else {
      var entries := m.entries[k := m.entries[k].(expires := ExpiryOf(c, expires, flags, now))];
      var m0 := m.(entries := entries, nextScan := ScanAfter(c, m.nextScan, expires, flags, now));
      var m1 := Touch(c, m0, k);
      if c.purgeLru {
        TouchKeepsListed(c, m0, k);
      }
      MakeRoomIdleIff(c, m1, now);
      MakeRoomShrinks(c, m1, now);
      if MakeRoom(c, m1, now).entries == m.entries {
        assert m1.entries[k] == m.entries[k];
        assert entries == m.entries;
      } else if m.entries[k].expires == ExpiryOf(c, expires, flags, now) {
        assert entries == m.entries;
      }
    }
  }

  lemma TouchKeepsListed(c: Config, m: Model, k: Key)
    requires c.purgeLru && Listed(m) && k in m.entries
    ensures Listed(Touch(c, m, k))
  {
    KeepDistinct(m.recency, m.entries.Keys - {k});
  }

  /** Exactly when a failed set is atomic. */
  lemma FailedSetIsAtomicIff(c: Config, m: Model, k: Key, v: seq<byte>, expires: nat, flags: Flags, now: nat,
                             placed: bool)
    requires (c.purgeLru ==> Listed(m)) && !Set(c, m, k, v, expires, flags, now, placed).1
    ensures Set(c, m, k, v, expires, flags, now, placed).0.entries == m.entries <==>
            FailsCleanly(c, m, k, v, expires, flags, now)
  {
    hide Keep, MakeRoom, NoRoomToMake, ExpiryOf, ScanAfter, Insert, Update, Listed;
    if Acceptable(c, k, v) {
      var m0 := Lazy(c, m, k, now);
      LazyKeepsListed(c, m, k, now);
      if k !in m0.entries {
        FailedInsertIff(c, m0, k, v, expires, flags, now, placed);
      } else if flags.update {
        UpdateFailsUnplaced(c, m0, k, v, expires, flags, now, placed);
        FailedUpdateIff(c, m0, k, v, expires, flags, now);
      }
    }
  }

  lemma UpdateFailsUnplaced(c: Config, m: Model, k: Key, v: seq<byte>, expires: nat, flags: Flags, now: nat,
                            placed: bool)
    requires k in m.entries
    ensures Update(c, m, k, v, expires, flags, now, placed).1 == placed
  {}

  lemma LazyKeepsListed(c: Config, m: Model, k: Key, now: nat)
    requires c.purgeLru ==> Listed(m)
    ensures c.purgeLru ==> Listed(Lazy(c, m, k, now))
  {
    if c.purgeLru {
      KeepDistinct(m.recency, (m.entries - {k}).Keys);
    }
  }

  /** A failed update of a cache with clear_on_full wipes everything, the updated key included. */
  lemma FailedUpdateWipes(c: Config, m: Model, k: Key, v: seq<byte>, expires: nat, flags: Flags, now: nat)
    requires c.clearOnFull && c.sweepOnFull == 0 && !c.lazyExpire
    requires Acceptable(c, k, v) && k in m.entries && flags.update
    ensures Set(c, m, k, v, expires, flags, now, false).0.entries == map[]
  {
    hide Keep;
  }

  // ---------------------------------------------------------------- inputs at which the expectations fail

  /** A cache of three items in blocks of eight bytes, with every option off. */
  const SMALL := Config(4, 1, 8, 4, 8, false, false, false, false, 0, false, k => 0)

  const PLAIN := Flags(false, false, false, false)

  /** An item that is to expire at 100, in a cache whose next scan is never. */
  lemma AbsoluteExpiryIsMissed()
    ensures var (m', ok) := Set(SMALL, EMPTY_MODEL, [1], [2], 100, PLAIN.(absExpire := true), 50, true);
            ok && InTime(EMPTY_MODEL) && m' == Model(map[[1] := Entry([2], 100, PLAIN.(absExpire := true))], [], 0) &&
                !InTime(m')
  {
    var m' := Set(SMALL, EMPTY_MODEL, [1], [2], 100, PLAIN.(absExpire := true), 50, true).0;
    assert m'.entries[[1]].expires == 100;
  }

  lemma RunMore(c: Config, m: Model, ops: seq<Op>, placed: seq<bool>, op: Op, p: bool)
    requires |ops| == |placed|
    ensures Run(c, m, ops + [op], placed + [p]).0 == Step(c, Run(c, m, ops, placed).0, op, p).0
    ensures Run(c, m, ops + [op], placed + [p]).1 ==
              Run(c, m, ops, placed).1 + [Step(c, Run(c, m, ops, placed).0, op, p).1]
  {
    assert (ops + [op])[..|ops|] == ops && (placed + [p])[..|ops|] == placed;
  }

  /** A cache for one item. The first item is to expire at 50 and is deleted, the second is to expire at 60; a third
      at 50 makes the full cache sweep, which finds nothing and puts the next scan off to 150. */
  lemma SweepOnFullIsLate()
    ensures var c := SMALL.(maxItems := 2, sweepOnFull := 100);
            var ops := [OpSet([1], [2], 10, PLAIN, 40), OpDel([1], 40), OpSet([2], [2], 20, PLAIN, 40)];
            var m := Run(c, EMPTY_MODEL, ops, [true, true, true]).0;
            var m' := Run(c, EMPTY_MODEL, ops + [OpSet([7], [2], 0, PLAIN, 50)], [true, true, true] + [true]).0;
            InTime(m) && m' == Model(map[[2] := Entry([2], 60, PLAIN)], [], 150) && !InTime(m')
  {
    hide Run;
    var c := SMALL.(maxItems := 2, sweepOnFull := 100);
    var o1, o2, o3 := OpSet([1], [2], 10, PLAIN, 40), OpDel([1], 40), OpSet([2], [2], 20, PLAIN, 40);
    var ops := [o1, o2, o3];
    EmptyRun(c, EMPTY_MODEL);
    RunMore(c, EMPTY_MODEL, [], [], o1, true);
    RunMore(c, EMPTY_MODEL, [] + [o1], [] + [true], o2, true);
    RunMore(c, EMPTY_MODEL, [] + [o1] + [o2], [] + [true] + [true], o3, true);
    assert [] + [o1] + [o2] + [o3] == ops && [] + [true] + [true] + [true] == [true, true, true];
    var m := Model(map[[2] := Entry([2], 60, PLAIN)], [], 50);
    FirstOps(c);
    assert Run(c, EMPTY_MODEL, ops, [true, true, true]).0 == m;
    RunMore(c, EMPTY_MODEL, ops, [true, true, true], OpSet([7], [2], 0, PLAIN, 50), true);
    SweepWhenFull(c, m);
    assert [2] in m.entries;
  }

  lemma EmptyRun(c: Config, m: Model)
    ensures Run(c, m, [], []) == (m, [])
  {}

  lemma FirstOps(c: Config)
    requires c == SMALL.(maxItems := 2, sweepOnFull := 100)
    ensures var m1 := Step(c, EMPTY_MODEL, OpSet([1], [2], 10, PLAIN, 40), true).0;
            var m2 := Step(c, m1, OpDel([1], 40), true).0;
            Step(c, m2, OpSet([2], [2], 20, PLAIN, 40), true).0 == Model(map[[2] := Entry([2], 60, PLAIN)], [], 50)
  {
    var m1 := Step(c, EMPTY_MODEL, OpSet([1], [2], 10, PLAIN, 40), true).0;
    assert m1 == Model(map[[1] := Entry([2], 50, PLAIN)], [], 50);
    var m2 := Step(c, m1, OpDel([1], 40), true).0;
    assert m2 == Model(map[], [], 50);
  }

  lemma SweepWhenFull(c: Config, m: Model)
    requires c == SMALL.(maxItems := 2, sweepOnFull := 100) && m == Model(map[[2] := Entry([2], 60, PLAIN)], [], 50)
    ensures Step(c, m, OpSet([7], [2], 0, PLAIN, 50), true).0 == m.(nextScan := 150)
  {
    assert Unexpired(m, 50) == m.entries;
    assert MakeRoom(c, m, 50) == m.(nextScan := 150);
  }

  /** An item stored at 1000 for 60 seconds in an LRU cache expires at 60. */
  lemma LruExpiryIsLongGone()
    ensures var c := SMALL.(purgeLru := true, lazyExpire := true);
            var (m', ok) := Set(c, EMPTY_MODEL, [1], [2], 60, PLAIN, 1000, true);
            ok && [1] in m'.entries && m'.entries[[1]].expires == 60 && Get(c, m', [1], 1000).1 == None
  {
    var c := SMALL.(purgeLru := true, lazyExpire := true);
    RelativeExpiryIff(c, EMPTY_MODEL, [1], [2], 60, PLAIN, 1000, true);
    LruExpiryIsThePast(c, EMPTY_MODEL, [1], [2], 60, PLAIN, 1000, true, 1000);
  }

  /** 32 bytes. */
  const LONG: seq<byte> := [
    0, 0, 0, 0, 0, 0, 0, 0, 0, 0, 0, 0, 0, 0, 0, 0, 0, 0, 0, 0, 0, 0, 0, 0, 0, 0, 0, 0, 0, 0, 0, 0]

  /** A new cache of four blocks with clear_on_full. A value that takes all of them is stored; then its update by a
      single byte finds no block, fails, and wipes the cache. */
  lemma FailedUpdateLosesTheKey()
    ensures var c := SMALL.(bitmap := true, clearOnFull := true);
            var ops := [OpSet([1], LONG, 0, PLAIN, 50), OpSet([1], [3], 0, PLAIN.(update := true), 50)];
            var (placed, b) := RunBlocks(c, EMPTY_MODEL, Blocks(map[], 0), ops);
            placed == [true, false] && Run(c, EMPTY_MODEL, ops, placed) == (EMPTY_MODEL, [Stored(true), Stored(false)])
  {
    hide Run, RunBlocks, Set, SetBlocks;
    var c := SMALL.(bitmap := true, clearOnFull := true);
    var o1, o2 := OpSet([1], LONG, 0, PLAIN, 50), OpSet([1], [3], 0, PLAIN.(update := true), 50);
    LongIsStored(c);
    NoBlockIsLeft(c);
    EmptyRun(c, EMPTY_MODEL);
    RunBlocksOfTwo(c, EMPTY_MODEL, Blocks(map[], 0), o1, o2);
    RunMore(c, EMPTY_MODEL, [], [], o1, true);
    RunMore(c, EMPTY_MODEL, [] + [o1], [] + [true], o2, false);
    assert [] + [o1] + [o2] == [o1, o2] && [] + [true] + [false] == [true, false];
    var r := Run(c, EMPTY_MODEL, [o1, o2], [true, false]);
    assert r.0 == EMPTY_MODEL && r.1 == [Stored(true), Stored(false)];
  }

  lemma RunBlocksOfTwo(c: Config, m: Model, b: Blocks, o1: Op, o2: Op)
    ensures var (p1, b1) := StepBlocks(c, m, b, o1);
            var (p2, b2) := StepBlocks(c, Step(c, m, o1, p1).0, b1, o2);
            RunBlocks(c, m, b, [o1, o2]) == ([p1, p2], b2)
  {
    hide StepBlocks, Step;
    assert [o1, o2][..1] == [o1] && [o1][..0] == [];
    var (p1, b1) := StepBlocks(c, m, b, o1);
    EmptyRun(c, m);
    assert RunBlocks(c, m, b, []) == ([], b);
    assert RunBlocks(c, m, b, [o1]) == ([] + [p1], b1);
    RunMore(c, m, [], [], o1, p1);
    assert [] + [o1] == [o1] && [] + [p1] == [p1];
    var (p2, b2) := StepBlocks(c, Step(c, m, o1, p1).0, b1, o2);
    assert RunBlocks(c, m, b, [o1, o2]) == ([p1] + [p2], b2) && [p1] + [p2] == [p1, p2];
  }

  lemma FourBlocks()
    ensures Bitmap.NeededBlocks(32, 8) == 4 && Bitmap.NeededBlocks(1, 8) == 1 && Bitmap.RoundUp(4) == 8 &&
              Offset(4, 8) == 32
  {
    assert Bitmap.NeededBlocks(16, 8) == 2 && Bitmap.NeededBlocks(24, 8) == 3;
    assert Offset(1, 8) == 8 && Offset(2, 8) == 16 && Offset(3, 8) == 24;
  }

  lemma LongIsStored(c: Config)
    requires c == SMALL.(bitmap := true, clearOnFull := true)
    ensures Set(c, EMPTY_MODEL, [1], LONG, 0, PLAIN, 50, true) ==
              (Model(map[[1] := Entry(LONG, 0, PLAIN)], [], 0), true)
    ensures SetBlocks(c, EMPTY_MODEL, Blocks(map[], 0), [1], LONG, 0, PLAIN, 50) == (true, Blocks(map[[1] := 0], 0))
  {
    FourBlocks();
    hide Bitmap.FirstRun, Bitmap.NeededBlocks, Offset, MapOf;
    EmptyMap(c);
    assert Only(Blocks(map[], 0), map[]) == Blocks(map[], 0);
    assert Probe(c, map[], Blocks(map[], 0), LONG) == Some(0);
  }

  lemma EmptyMap(c: Config)
    requires c == SMALL.(bitmap := true, clearOnFull := true)
    ensures Bitmap.Search(MapOf(c, map[], map[]), 0, 4) == Some(0)
  {
    FourBlocks();
    Bitmap.FirstRunIs(MapOf(c, map[], map[]), 0, 8, 4, 0);
  }

  lemma NoBlockIsLeft(c: Config)
    requires c == SMALL.(bitmap := true, clearOnFull := true)
    ensures var m := Model(map[[1] := Entry(LONG, 0, PLAIN)], [], 0);
            && Set(c, m, [1], [3], 0, PLAIN.(update := true), 50, false) == (EMPTY_MODEL, false)
            && SetBlocks(c, m, Blocks(map[[1] := 0], 0), [1], [3], 0, PLAIN.(update := true), 50).0 == false
  {
    FourBlocks();
    hide Bitmap.FirstRun, Bitmap.NeededBlocks, Offset, MapOf;
    var m, b := Model(map[[1] := Entry(LONG, 0, PLAIN)], [], 0), Blocks(map[[1] := 0], 0);
    assert Only(b, m.entries) == b;
    FullMap(c, m, b);
    FailedUpdateWipes(c, m, [1], [3], 0, PLAIN.(update := true), 50);
  }

  lemma FullMap(c: Config, m: Model, b: Blocks)
    requires c == SMALL.(bitmap := true, clearOnFull := true)
    requires m == Model(map[[1] := Entry(LONG, 0, PLAIN)], [], 0) && b == Blocks(map[[1] := 0], 0)
    ensures Probe(c, m.entries, b, [3]) == None
  {
    FourBlocks();
    var bits := MapOf(c, m.entries, b.place);
    forall k: nat | k < 8
      ensures bits[k]
    {
      if k < 4 {
        assert Within(c, b.place[[1]], m.entries[[1]].value, k);
      }
    }
    forall p: nat
      ensures !Bitmap.ClearRun(bits, p, 1)
    {
      assert p + 1 <= |bits| ==> bits[p];
    }
    Bitmap.SearchSucceedsIff(bits, 0, 1);
    assert |[3 as byte]| == 1;
  }

  /** One item of one block, recovered beside a bitmap that says that all four blocks are free. */
  lemma RecoveredBitmapForgets()
    ensures var c := SMALL.(bitmap := true);
            var recs := [CacheSteps.EMPTY, Record([1], 0, 1, 2, 0, PLAIN), CacheSteps.EMPTY, CacheSteps.EMPTY];
            var bits := [false, false, false, false, true, true, true, true];
            CacheSteps.OnlyPadding(c, bits) && !BitsMatch(c, recs, bits)
  {
    var c := SMALL.(bitmap := true);
    var recs := [CacheSteps.EMPTY, Record([1], 0, 1, 2, 0, PLAIN), CacheSteps.EMPTY, CacheSteps.EMPTY];
    assert Covers(c, recs[1], 2);
    assert Taken(c, recs, 2);
  }
}
