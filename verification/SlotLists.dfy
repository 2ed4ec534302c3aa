/** Doubly linked lists threaded through slots by slot number, 0 meaning "none": the bucket chains and the
    LRU list of a cache are such lists. */
module SlotLists {
  import opened Collections

  datatype Links = Links(prev: nat, next: nat)

  function At(c: seq<nat>, j: int): nat {
    if 0 <= j < |c| then c[j] else 0
  }

  function Last(c: seq<nat>): nat {
    At(c, |c| - 1)
  }

  /** The slots of c, in this order, are one list. */
  ghost predicate Linked(l: seq<Links>, c: seq<nat>) {
    && Distinct(c)
    && (forall j :: 0 <= j < |c| ==> 0 < c[j] < |l|)
    && (forall j :: 0 <= j < |c| ==> l[c[j]] == Links(At(c, j - 1), At(c, j + 1)))
  }

  /** if (p) item[p].next = n */
  function WithNext(l: seq<Links>, p: nat, n: nat): (r: seq<Links>)
    requires p < |l|
    ensures |r| == |l|
  {
    if p != 0 then l[p := l[p].(next := n)] else l
  }

  /** if (n) item[n].prev = p */
  function WithPrev(l: seq<Links>, n: nat, p: nat): (r: seq<Links>)
    requires n < |l|
    ensures |r| == |l|
  {
    if n != 0 then l[n := l[n].(prev := p)] else l
  }

  /** The neighbours of slot i joined to each other. */
  function Unlink(l: seq<Links>, i: nat): seq<Links>
    requires i < |l| && l[i].prev < |l| && l[i].next < |l|
    ensures |Unlink(l, i)| == |l|
  {
    WithPrev(WithNext(l, l[i].prev, l[i].next), l[i].next, l[i].prev)
  }

  /** Slot i put behind slot `last`, the end of its list. */
  function Append(l: seq<Links>, last: nat, i: nat): seq<Links>
    requires i < |l| && last < |l|
  {
    WithNext(l, last, i)[i := Links(last, 0)]
  }

  lemma LinksCommute(l: seq<Links>, p: nat, n: nat)
    requires p < |l| && n < |l| && (p == n ==> p == 0)
    ensures WithNext(WithPrev(l, n, p), p, n) == WithPrev(WithNext(l, p, n), n, p)
  {}

  lemma UnlinkKeeps(l: seq<Links>, c: seq<nat>, j: nat)
    requires Linked(l, c) && j < |c|
    ensures Linked(Unlink(l, c[j]), Cut(c, j))
  {
    hide Unlink, Cut, Distinct;
    var d, l' := Cut(c, j), Unlink(l, c[j]);
    CutMembers(c, j);
    forall k | 0 <= k < |d|
      ensures 0 < d[k] < |l'| && l'[d[k]] == Links(At(d, k - 1), At(d, k + 1))
    {
      UnlinkedAt(l, c, j, k);
    }
  }

  /** Positions of the shorter list, and what lies beyond its ends. */
  lemma AtCut(c: seq<nat>, j: nat, k: int)
    requires j < |c|
    ensures |Cut(c, j)| == |c| - 1 && At(Cut(c, j), k) == At(c, if k < j then k else k + 1)
  {}

  lemma UnlinkedAt(l: seq<Links>, c: seq<nat>, j: nat, k: nat)
    requires Linked(l, c) && j < |c| && k < |Cut(c, j)| && l[c[j]].prev < |l| && l[c[j]].next < |l|
    ensures var d := Cut(c, j);
            0 < d[k] < |l| && Unlink(l, c[j])[d[k]] == Links(At(d, k - 1), At(d, k + 1))
  {
    hide Unlink, Cut, Linked, At;
    var o := if k < j then k else k + 1;
    AtCut(c, j, k - 1);
    AtCut(c, j, k + 1);
    CutAt(c, j, k);
    InsideAt(l, c, o);
    UnlinkAt(l, c, j, o);
  }

  lemma InsideAt(l: seq<Links>, c: seq<nat>, k: nat)
    requires Linked(l, c) && k < |c|
    ensures 0 < c[k] < |l|
  {}

  lemma CutEnds(l: seq<Links>, c: seq<nat>, j: nat)
    requires Linked(l, c) && j < |c|
    ensures At(Cut(c, j), 0) == if l[c[j]].prev == 0 then l[c[j]].next else c[0]
    ensures Last(Cut(c, j)) == if l[c[j]].next == 0 then l[c[j]].prev else Last(c)
  {}

  lemma UnlinkAt(l: seq<Links>, c: seq<nat>, j: nat, k: nat)
    requires Linked(l, c) && j < |c| && k < |c| && k != j
    ensures l[c[j]].prev < |l| && l[c[j]].next < |l|
    ensures Unlink(l, c[j])[c[k]] ==
            Links(At(c, if k == j + 1 then k - 2 else k - 1), At(c, if k + 1 == j then k + 2 else k + 1))
  {
    var p, n := l[c[j]].prev, l[c[j]].next;
    assert k + 1 == j ==> p == c[k];
    assert k == j + 1 ==> n == c[k];
    assert p == c[k] ==> k + 1 == j;
    assert n == c[k] ==> k == j + 1;
  }

  lemma AppendKeeps(l: seq<Links>, c: seq<nat>, i: nat)
    requires Linked(l, c) && 0 < i < |l| && i !in c
    ensures Linked(Append(l, Last(c), i), c + [i])
  {
    var d, l' := c + [i], Append(l, Last(c), i);
    forall k | 0 <= k < |d|
      ensures l'[d[k]] == Links(At(d, k - 1), At(d, k + 1))
    {
      if k < |c| - 1 {
        assert d[k] != c[|c| - 1];
      }
    }
  }

  /** Only the links of a list's own slots matter to it. */
  lemma LinkedElsewhere(l: seq<Links>, l': seq<Links>, c: seq<nat>)
    requires Linked(l, c) && |l'| == |l|
    requires forall j :: 0 <= j < |c| ==> l'[c[j]] == l[c[j]]
    ensures Linked(l', c)
  {}

  ghost predicate Disjoint(c: seq<nat>, d: seq<nat>) {
    forall j, k :: 0 <= j < |c| && 0 <= k < |d| ==> c[j] != d[k]
  }

  lemma LinkedInside(l: seq<Links>, c: seq<nat>)
    requires Linked(l, c)
    ensures forall k :: 0 <= k < |c| ==> 0 < c[k] < |l|
  {}

  lemma LinkedDistinct(l: seq<Links>, c: seq<nat>)
    requires Linked(l, c)
    ensures Distinct(c)
  {}

  /** Slot c[j] taken out of its list, with its own links cleared. */
  lemma TakeOut(l: seq<Links>, c: seq<nat>, j: nat)
    requires Linked(l, c) && j < |c|
    ensures c[j] < |l| && l[c[j]].prev < |l| && l[c[j]].next < |l|
    ensures Linked(Unlink(l, c[j])[c[j] := Links(0, 0)], Cut(c, j))
    ensures At(Cut(c, j), 0) == if l[c[j]].prev == 0 then l[c[j]].next else c[0]
    ensures forall x :: x in Cut(c, j) <==> x in c && x != c[j]
  {
    hide Unlink, Linked, Cut, Distinct;
    LinkedInside(l, c);
    LinkedDistinct(l, c);
    LinksInside(l, c, j);
    UnlinkKeeps(l, c, j);
    CutEnds(l, c, j);
    CutMembers(c, j);
    forall k | 0 <= k < |Cut(c, j)|
      ensures Cut(c, j)[k] != c[j]
    {
      assert Cut(c, j)[k] in Cut(c, j);
    }
    LinkedInside(Unlink(l, c[j]), Cut(c, j));
    LinkedElsewhere(Unlink(l, c[j]), Unlink(l, c[j])[c[j] := Links(0, 0)], Cut(c, j));
  }

  /** A list with its two ends. */
  ghost predicate Queue(l: seq<Links>, c: seq<nat>, head: nat, tail: nat) {
    Linked(l, c) && head == At(c, 0) && tail == Last(c)
  }

  lemma LinksInside(l: seq<Links>, c: seq<nat>, j: nat)
    requires Linked(l, c) && j < |c|
    ensures 0 < c[j] < |l| && l[c[j]].prev < |l| && l[c[j]].next < |l|
    ensures l[c[j]].prev == l[c[j]].next ==> l[c[j]].prev == 0
    ensures l[c[j]].prev != c[j] && l[c[j]].next != c[j]
  {
    assert l[c[j]] == Links(At(c, j - 1), At(c, j + 1));
  }

  lemma QueueAfterRemove(l: seq<Links>, c: seq<nat>, head: nat, tail: nat, j: nat)
    requires Queue(l, c, head, tail) && j < |c|
    ensures c[j] < |l| && l[c[j]].prev < |l| && l[c[j]].next < |l|
    ensures Queue(Unlink(l, c[j]), Cut(c, j), if l[c[j]].prev == 0 then l[c[j]].next else head,
                  if l[c[j]].next == 0 then l[c[j]].prev else tail)
  {
    LinksInside(l, c, j);
    UnlinkKeeps(l, c, j);
    CutEnds(l, c, j);
    hide Linked, Unlink, Cut;
  }

  lemma QueueAfterAppend(l: seq<Links>, c: seq<nat>, head: nat, tail: nat, i: nat)
    requires Queue(l, c, head, tail) && 0 < i < |l| && i !in c
    ensures tail < |l|
    ensures Queue(Append(l, tail, i), c + [i], if tail == 0 then i else head, i)
  {
    AppendKeeps(l, c, i);
    assert tail == 0 <==> c == [];
    hide Linked, Append;
  }

  lemma UnlinkElsewhere(l: seq<Links>, c: seq<nat>, j: nat, d: seq<nat>)
    requires Linked(l, c) && Linked(l, d) && Disjoint(c, d) && j < |c|
    ensures Linked(Unlink(l, c[j])[c[j] := Links(0, 0)], d)
  {
    var i := c[j];
    assert l[i] == Links(At(c, j - 1), At(c, j + 1));
    LinkedElsewhere(l, Unlink(l, i)[i := Links(0, 0)], d);
  }

  lemma AppendElsewhere(l: seq<Links>, c: seq<nat>, i: nat, d: seq<nat>)
    requires Linked(l, c) && Linked(l, d) && Disjoint(c, d) && 0 < i < |l| && i !in d
    ensures Linked(Append(l, Last(c), i), d)
  {
    LinkedElsewhere(l, Append(l, Last(c), i), d);
  }

  /** Distinct slot numbers are fewer than there are slots. */
  lemma {:induction false} DistinctIsShort(c: seq<nat>, n: nat)
    requires 0 < n && Distinct(c) && forall j :: 0 <= j < |c| ==> 0 < c[j] < n
    ensures |c| < n
  {
    if j :| 0 <= j < |c| && c[j] == n - 1 {
      CutMembers(c, j);
      DistinctIsShort(Cut(c, j), n - 1);
    } else if c != [] {
      assert 0 < c[0] < n && c[0] != n - 1;
      DistinctIsShort(c, n - 1);
    }
  }
}
