/** The run queue of core/async.c: a doubly linked list of requests without repeats. */
module RunQueues {
  import opened Collections

  class Cell {
    var prev: Cell?
    var next: Cell?
    const req: nat

    constructor (req: nat)
      ensures this.req == req && prev == null && next == null
    {
      this.req := req;
      prev, next := null, null;
    }
  }

  // ---------------------------------------------------------------- chains of cells

  ghost function At(s: seq<Cell>, i: int): Cell? {
    if 0 <= i < |s| then s[i] else null
  }

  ghost predicate OncePerRequest(s: seq<Cell>) {
    forall i, j :: 0 <= i < j < |s| ==> s[i].req != s[j].req
  }

  /** The links of the cell at position i. */
  ghost predicate LinksAt(s: seq<Cell>, i: nat)
    reads s
    requires i < |s|
  {
    s[i].prev == At(s, i - 1) && s[i].next == At(s, i + 1)
  }

  ghost predicate Chained(s: seq<Cell>)
    reads s
  {
    forall i: nat :: i < |s| ==> LinksAt(s, i)
  }

  /** The links of position o once position k has been bypassed. */
  ghost predicate Bypassed(s: seq<Cell>, k: nat, o: nat)
    reads s
    requires o < |s|
  {
    && s[o].prev == At(s, if o == k + 1 then o - 2 else o - 1)
    && s[o].next == At(s, if o + 1 == k then o + 2 else o + 1)
  }

  ghost predicate AllBypassed(s: seq<Cell>, k: nat)
    reads s
  {
    forall o: nat :: o < |s| && o != k ==> Bypassed(s, k, o)
  }

  /** Position i of the shorter list is position i or i + 1 of the longer one. */
  lemma ShorterAt(s: seq<Cell>, k: nat, i: int)
    requires k < |s|
    ensures At(Cut(s, k), i) == At(s, if i < k then i else i + 1)
  {
  }

  lemma ShorterIsChained(s: seq<Cell>, k: nat)
    requires k < |s| && AllBypassed(s, k)
    ensures Chained(Cut(s, k))
  {
    forall i: nat | i < |Cut(s, k)|
      ensures LinksAt(Cut(s, k), i)
    {
      ShorterAt(s, k, i - 1);
      ShorterAt(s, k, i);
      ShorterAt(s, k, i + 1);
      assert Bypassed(s, k, if i < k then i else i + 1);
    }
  }

  lemma ShorterIsDifferent(s: seq<Cell>, k: nat)
    requires k < |s| && Distinct(s) && OncePerRequest(s)
    ensures Distinct(Cut(s, k)) && OncePerRequest(Cut(s, k))
  {
    var d := Cut(s, k);
    forall i, j | 0 <= i < j < |d|
      ensures d[i] != d[j] && d[i].req != d[j].req
    {
      ShorterAt(s, k, i);
      ShorterAt(s, k, j);
    }
  }

  /** One more cell behind the last one. */
  ghost predicate Appended(s: seq<Cell>, cell: Cell)
    reads s, cell
  {
    && cell.prev == At(s, |s| - 1) && cell.next == null
    && forall i: nat :: i < |s| ==> s[i].prev == At(s, i - 1) && s[i].next == At(s + [cell], i + 1)
  }

  lemma LongerIsChained(s: seq<Cell>, cell: Cell)
    requires Appended(s, cell)
    ensures Chained(s + [cell])
  {
    forall i: nat | i < |s + [cell]|
      ensures LinksAt(s + [cell], i)
    {
      assert i < |s| ==> (s + [cell])[i] == s[i] && s[i].prev == At(s, i - 1);
    }
  }

  lemma LongerIsDifferent(s: seq<Cell>, cell: Cell)
    requires Distinct(s) && OncePerRequest(s) && forall i :: 0 <= i < |s| ==> s[i].req != cell.req
    ensures Distinct(s + [cell]) && OncePerRequest(s + [cell])
  {
  }

  // ---------------------------------------------------------------- the queue

  class RunQueue {
    var first: Cell?
    var last: Cell?
    ghost var cells: seq<Cell>

    ghost predicate Valid()
      reads this, cells
    {
      && first == At(cells, 0) && last == At(cells, |cells| - 1)
      && Chained(cells) && Distinct(cells) && OncePerRequest(cells)
    }

    /** The queued requests, in order. */
    ghost function Requests(): (s: seq<nat>)
      reads this
      ensures |s| == |cells|
    {
      seq(|cells|, i requires 0 <= i < |cells| reads this => cells[i].req)
    }

    constructor ()
      ensures Valid() && cells == []
    {
      first, last, cells := null, null, [];
    }

    /** Whether the request is queued already. */
    method Contains(req: nat) returns (found: bool)
      requires Valid()
      ensures found <==> req in Requests()
    {
      hide Distinct, OncePerRequest;
      var uar := first;
      ghost var i := 0;
      while uar != null
        invariant 0 <= i <= |cells| && uar == At(cells, i)
        invariant forall k :: 0 <= k < i ==> cells[k].req != req
        decreases |cells| - i
      {
        if uar.req == req {
          assert Requests()[i] == req;
          return true;
        }
        assert LinksAt(cells, i);
        uar, i := uar.next, i + 1;
      }
      return false;
    }

    /** runqueue_push: a request that is queued already is not queued again. */
    method Push(req: nat)
      requires Valid()
      modifies this, cells
      ensures Valid() && fresh(set c | c in cells && c !in old(cells))
      ensures Requests() == if req in old(Requests()) then old(Requests()) else old(Requests()) + [req]
    {
      var found := Contains(req);
      if found {
        return;
      }
      forall k | 0 <= k < |cells|
        ensures cells[k].req != req
      {
        assert Requests()[k] in Requests();
      }
      var cell := new Cell(req);
      LongerIsDifferent(cells, cell);
      Append(cell);
      assert Requests() == old(Requests()) + [req];
    }

    method Grow(cell: Cell)
      requires first == At(cells + [cell], 0) && last == cell && Appended(cells, cell)
      modifies this`cells
      ensures first == At(cells, 0) && last == At(cells, |cells| - 1) && Chained(cells) && cells == old(cells) + [cell]
    {
      hide Appended, Chained;
      LongerIsChained(cells, cell);
      cells := cells + [cell];
    }

    /** The pointer updates of runqueue_push. */
    method Append(cell: Cell)
      requires first == At(cells, 0) && last == At(cells, |cells| - 1) && Chained(cells) && Distinct(cells)
      requires cell.prev == null && cell.next == null && cell !in cells
      modifies this, cells, cell
      ensures first == At(cells, 0) && last == At(cells, |cells| - 1) && Chained(cells) && cells == old(cells) + [cell]
    {
      if first == null {
        first := cell;
      } else {
        cell.prev := last;
      }
      if last != null {
        last.next := cell;
      }
      last := cell;
      forall i: nat | i < |cells|
        ensures cells[i].prev == At(cells, i - 1) && cells[i].next == At(cells + [cell], i + 1)
      {
        assert old(LinksAt(cells, i)) && cells[i] != cell;
        if i < |cells| - 1 {
          assert cells[i] != cells[|cells| - 1];
        }
      }
      Grow(cell);
    }

    /** The two pointer updates of runqueue_remove. */
    method Bypass(cell: Cell, ghost k: nat)
      requires Chained(cells) && Distinct(cells) && k < |cells| && cells[k] == cell
      modifies cells
      ensures AllBypassed(cells, k) && cell.prev == At(cells, k - 1) && cell.next == At(cells, k + 1)
    {
      assert LinksAt(cells, k);
      var parent, child := cell.prev, cell.next;
      if parent != null {
        parent.next := child;
      }
      if child != null {
        child.prev := parent;
      }
      forall o: nat | o < |cells| && o != k
        ensures Bypassed(cells, k, o)
      {
        assert old(LinksAt(cells, o));
        assert o != k + 1 ==> cells[o] != child;
        assert o + 1 != k ==> cells[o] != parent;
      }
    }

    /** The list without position k, once first and last have been moved. */
    method CutOut(ghost k: nat)
      requires k < |cells| && AllBypassed(cells, k) && Distinct(cells) && OncePerRequest(cells)
      requires first == At(cells, if k == 0 then 1 else 0)
      requires last == At(cells, if k == |cells| - 1 then k - 1 else |cells| - 1)
      modifies this`cells
      ensures Valid() && cells == Cut(old(cells), k)
    {
      hide Chained, Distinct, OncePerRequest, AllBypassed, Cut;
      ShorterIsChained(cells, k);
      ShorterIsDifferent(cells, k);
      ShorterAt(cells, k, 0);
      ShorterAt(cells, k, |cells| - 2);
      ShorterLength(cells, k);
      cells := Cut(cells, k);
    }

    /** runqueue_remove */
    method Remove(cell: Cell, ghost k: nat)
      requires Valid() && k < |cells| && cells[k] == cell
      modifies this, cells
      ensures Valid() && cells == Cut(old(cells), k)
    {
      hide Chained, OncePerRequest, AllBypassed, Cut;
      assert cell == first <==> k == 0;
      assert cell == last <==> k == |cells| - 1;
      Bypass(cell, k);
      if cell == first {
        first := cell.next;
      }
      if cell == last {
        last := cell.prev;
      }
      CutOut(k);
    }
  }

  lemma ShorterLength(s: seq<Cell>, k: nat)
    requires k < |s|
    ensures |Cut(s, k)| == |s| - 1
  {
  }
}
