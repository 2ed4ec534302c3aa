/** The linked list of a legion's nodes and the scroll list built from it (core/legion.c:87-181). */
module LegionNodes {
  import opened Wrappers
  import opened Bytes

  // ---------------------------------------------------------------- framed scrolls

  type Scroll = s: seq<byte> | |s| < 0x10000

  /** A 16 bit little-endian length and the bytes. */
  function Frame(s: Scroll): seq<byte> {
    [(|s| % 256) as byte, (|s| / 256) as byte] + s
  }

  /** Whose low byte comes first. */
  lemma FrameIs(s: Scroll)
    ensures var f := Frame(s); |f| == 2 + |s| && f[0] as nat + 256 * f[1] as nat == |s| && f[2..] == s
  {}

  function Frames(list: seq<Scroll>): seq<byte> {
    if list == [] then [] else Frames(list[..|list| - 1]) + Frame(list[|list| - 1])
  }

  /** What a reader of the scroll list gets. */
  function Parse(b: seq<byte>): Option<seq<Scroll>>
    decreases |b|
  {
    if b == [] then Some([])
    else if |b| < 2 then None
    else
      var n := b[0] as nat + 256 * b[1] as nat;
      if |b| < 2 + n then None
      else
        match Parse(b[2 + n..])
        case None => None
        case Some(rest) => Some([b[2..2 + n]] + rest)
  }

  lemma {:induction false} FramesSplit(a: seq<Scroll>, b: seq<Scroll>)
    ensures Frames(a + b) == Frames(a) + Frames(b)
    decreases |b|
  {
    if b == [] {
      assert a + b == a;
    } else {
      var n := |b| - 1;
      FramesSplit(a, b[..n]);
      assert (a + b)[..|a + b| - 1] == a + b[..n];
      assert Frames(a) + (Frames(b[..n]) + Frame(b[n])) == (Frames(a) + Frames(b[..n])) + Frame(b[n]);
    }
  }

  lemma {:induction false} ParseFrame(s: Scroll, rest: seq<byte>)
    ensures Parse(Frame(s) + rest) == match Parse(rest) case None => None case Some(r) => Some([s] + r)
  {
    var b := Frame(s) + rest;
    assert b[0] as nat + 256 * b[1] as nat == |s|;
    assert b[2..2 + |s|] == s && b[2 + |s|..] == rest;
  }

  /** Reading undoes writing. */
  lemma {:induction false} ParseUndoesFrames(list: seq<Scroll>)
    ensures Parse(Frames(list)) == Some(list)
  {
    if list != [] {
      var head, rest := list[0], list[1..];
      assert list == [head] + rest;
      FramesSplit([head], rest);
      assert [head][..0] == [] && Frames([head]) == [] + Frame(head) == Frame(head);
      ParseUndoesFrames(rest);
      ParseFrame(head, Frames(rest));
    }
  }

  /** Write one framed scroll at position `at`. */
  method Put(out: array<byte>, at: nat, s: Scroll)
    requires at + 2 + |s| <= out.Length
    modifies out
    ensures out[..at] == old(out[..at]) && out[at..at + 2 + |s|] == Frame(s)
  {
    out[at] := (|s| % 256) as byte;
    out[at + 1] := (|s| / 256) as byte;
    for i := 0 to |s|
      invariant out[..at] == old(out[..at]) && out[at..at + 2 + i] == Frame(s)[..2 + i]
    {
      out[at + 2 + i] := s[i];
    }
  }

  lemma FirstFrame(own: Scroll, scrolls: seq<Scroll>)
    ensures Frames([own] + scrolls[..0]) == Frame(own)
  {
    assert [own] + scrolls[..0] == [own] && [own][..0] == [];
  }

  lemma NextFrame(own: Scroll, scrolls: seq<Scroll>, k: nat)
    requires k < |scrolls|
    ensures Frames([own] + scrolls[..k + 1]) == Frames([own] + scrolls[..k]) + Frame(scrolls[k])
    ensures |Frame(scrolls[k])| == 2 + |scrolls[k]|
  {
    var s := [own] + scrolls[..k + 1];
    assert s[..|s| - 1] == [own] + scrolls[..k] && s[|s| - 1] == scrolls[k];
  }

  // ---------------------------------------------------------------- the linked list

  class Cell {
    var prev: Cell?
    var next: Cell?
    const name: seq<byte>
    const scroll: Scroll

    constructor (name: seq<byte>, scroll: Scroll)
      ensures this.name == name && this.scroll == scroll && prev == null && next == null
    {
      this.name, this.scroll := name, scroll;
      prev, next := null, null;
    }
  }

  /** The node list of a legion, and the list of scrolls that is rebuilt from it. */
  class NodeList {
    var head: Cell?
    var tail: Cell?
    var own: Scroll
    const scrolls: array<byte>
    var scrollsLen: nat
    ghost var cells: seq<Cell>

    ghost function CellAt(i: int): Cell?
      reads this
    {
      if 0 <= i < |cells| then cells[i] else null
    }

    /** The cells are chained both ways between head and tail, and none occurs twice. */
    ghost predicate Linked()
      reads this, cells
    {
      && head == CellAt(0) && tail == CellAt(|cells| - 1)
      && (forall i {:trigger cells[i].prev} :: 0 <= i < |cells| ==> cells[i].prev == CellAt(i - 1))
      && (forall i {:trigger cells[i].next} :: 0 <= i < |cells| ==> cells[i].next == CellAt(i + 1))
      && (forall i, j :: 0 <= i < j < |cells| ==> cells[i] != cells[j])
    }

    /** The scrolls of the nodes, in list order. */
    ghost function NodeScrolls(): (s: seq<Scroll>)
      reads this
      ensures |s| == |cells|
    {
      seq(|cells|, i requires 0 <= i < |cells| reads this => cells[i].scroll)
    }

    /** The scroll list as a peer reads it. */
    ghost function Published(): seq<byte>
      reads this, scrolls
    {
      if scrollsLen <= scrolls.Length then scrolls[..scrollsLen] else []
    }

    constructor (own: Scroll, maxSize: nat)
      ensures Linked() && cells == [] && this.own == own && scrolls.Length == maxSize && scrollsLen == 0
    {
      head, tail, cells := null, null, [];
      this.own, scrollsLen := own, 0;
      scrolls := new byte[maxSize](_ => 0);
    }

    /** uwsgi_legion_add_node: a node without a name is refused. */
    method Add(name: seq<byte>, scroll: Scroll) returns (node: Cell?)
      requires Linked()
      modifies this`head, this`tail, this`cells, cells
      ensures Linked() && (node == null <==> name == [])
      ensures node == null ==> cells == old(cells)
      ensures node != null ==> cells == old(cells) + [node] && fresh(node) && node.name == name && node.scroll == scroll
    {
      if |name| == 0 {
        return null;
      }
      var cell := new Cell(name, scroll);
      if tail != null {
        cell.prev := tail;
        tail.next := cell;
      }
      tail := cell;
      if head == null {
        head := cell;
      }
      cells := cells + [cell];
      node := cell;
    }

    /** The unlinking part of uwsgi_legion_remove_node. */
    method Unlink(node: Cell, ghost k: nat)
      requires Linked() && k < |cells| && cells[k] == node
      modifies this`head, this`tail, this`cells, cells
      ensures Linked() && cells == old(cells)[..k] + old(cells)[k + 1..]
    {
      if node == head {
        head := node.next;
      }
      if node == tail {
        tail := node.prev;
      }
      if node.prev != null {
        node.prev.next := node.next;
      }
      if node.next != null {
        node.next.prev := node.prev;
      }
      cells := cells[..k] + cells[k + 1..];
    }

    /** legion_rebuild_scrolls: my own scroll, then those of the nodes in list order until one does not fit. When my
        own does not fit, it is given up and the list stays as it was. */
    method Rebuild() returns (ghost count: nat)
      requires Linked()
      modifies this`own, this`scrollsLen, scrolls
      ensures Linked()
      ensures |old(own)| + 2 > scrolls.Length ==>
                own == [] && scrollsLen == old(scrollsLen) && scrolls[..] == old(scrolls[..])
      ensures |old(own)| + 2 <= scrolls.Length ==>
                && own == old(own) && scrollsLen <= scrolls.Length && count <= |cells|
                && Published() == Frames([own] + NodeScrolls()[..count])
                && Parse(Published()) == Some([own] + NodeScrolls()[..count])
                && (count < |cells| ==> |Frames([own] + NodeScrolls()[..count + 1])| > scrolls.Length)
    {
      hide Frames, Parse, Frame;
      count := 0;
      if |own| + 2 > scrolls.Length {
        own := [];
        return;
      }
      ghost var list := NodeScrolls();
      Put(scrolls, 0, own);
      scrollsLen := 2 + |own|;
      FirstFrame(own, list);
      var uln := head;
      while uln != null
        invariant 0 <= count <= |cells| && uln == CellAt(count) && scrollsLen <= scrolls.Length
        invariant scrolls[..scrollsLen] == Frames([own] + list[..count]) && own == old(own) && NodeScrolls() == list
        decreases |cells| - count
      {
        NextFrame(own, list, count);
        if scrollsLen + 2 + |uln.scroll| > scrolls.Length {
          break;
        }
        ghost var before := scrolls[..scrollsLen];
        Put(scrolls, scrollsLen, uln.scroll);
        scrollsLen := scrollsLen + 2 + |uln.scroll|;
        assert scrolls[..scrollsLen] == before + Frame(list[count]);
        uln, count := uln.next, count + 1;
      }
      ParseUndoesFrames([own] + list[..count]);
    }

    /** uwsgi_legion_remove_node: the node leaves the list, and the scrolls are rebuilt from those that remain. */
    method Remove(node: Cell, ghost k: nat) returns (ghost count: nat)
      requires Linked() && k < |cells| && cells[k] == node
      modifies this`head, this`tail, this`cells, cells, this`own, this`scrollsLen, scrolls
      ensures Linked() && cells == old(cells)[..k] + old(cells)[k + 1..]
      ensures |old(own)| + 2 > scrolls.Length ==> own == [] && scrollsLen == old(scrollsLen)
      ensures |old(own)| + 2 <= scrolls.Length ==>
                && own == old(own) && count <= |cells| && Parse(Published()) == Some([own] + NodeScrolls()[..count])
                && (count < |cells| ==> |Frames([own] + NodeScrolls()[..count + 1])| > scrolls.Length)
    {
      hide NodeList.Linked, Parse, Frames;
      Unlink(node, k);
      count := Rebuild();
    }
  }
}
