/** The growable byte buffer of core/buffer.c. Its len is the length of buf; realloc is a new, longer array. */
module Buffers {
  import opened Bytes

  function Max(a: nat, b: nat): nat {
    if a > b then a else b
  }

  /** What becomes of an insertion. */
  datatype Inserted = Spliced | Refused | Overrun

  /** Exactly: at the limit it is refused, below the limit it is let through even if it does not fit. */
  function Insertion(len: nat, pos: nat, limit: nat, n: nat): Inserted {
    if limit == 0 || pos + n <= limit then Spliced else if len == limit then Refused else Overrun
  }

  /** Four bytes into a full buffer of four whose limit is six. */
  lemma InsertionMayOverrun()
    ensures Insertion(4, 4, 6, 4) == Overrun
  {}

  class Buffer {
    var buf: array<byte>
    var pos: nat
    var limit: nat

    /** pos never passes len, and len never passes a limit. */
    ghost predicate Valid()
      reads this
    {
      pos <= buf.Length && (limit > 0 ==> buf.Length <= limit)
    }

    ghost function Contents(): seq<byte>
      reads this, buf
      requires Valid()
    {
      buf[..pos]
    }

    /** uwsgi_buffer_new */
    constructor (len: nat)
      ensures Valid() && Contents() == [] && limit == 0 && buf.Length == len && fresh(buf)
    {
      buf := new byte[len](_ => 0);
      pos, limit := 0, 0;
    }

    /** realloc(ub->buf, len) */
    method Realloc(len: nat)
      requires pos <= buf.Length <= len
      modifies this`buf
      ensures fresh(buf) && buf.Length == len && buf[..old(buf.Length)] == old(buf[..])
    {
      var src := buf[..];
      buf := new byte[len](i requires 0 <= i => if i < |src| then src[i] else 0);
    }

    /** memmove(buf + to, buf + from, n) */
    method Memmove(to: nat, from: nat, n: nat)
      requires to + n <= buf.Length && from + n <= buf.Length
      modifies buf
      ensures buf[to..to + n] == old(buf[from..from + n])
      ensures buf[..to] == old(buf[..to]) && buf[to + n..] == old(buf[to + n..])
    {
      var block := buf[from..from + n];
      Memcpy(to, block);
    }

    /** memcpy(buf + to, data, |data|) */
    method Memcpy(to: nat, data: seq<byte>)
      requires to + |data| <= buf.Length
      modifies buf
      ensures buf[to..to + |data|] == data
      ensures buf[..to] == old(buf[..to]) && buf[to + |data|..] == old(buf[to + |data|..])
    {
      for i := 0 to |data|
        invariant buf[to..to + i] == data[..i] && buf[..to] == old(buf[..to]) && buf[to + i..] == old(buf[to + i..])
      {
        buf[to + i] := data[i];
        assert data[..i + 1] == data[..i] + [data[i]];
        assert buf[to..to + i + 1] == buf[to..to + i] + [data[i]];
        assert buf[to + i + 1..] == buf[to + i..][1..];
      }
    }

    /** memcpy(buf + pos, data, |data|): bytes behind the contents. */
    method Place(data: seq<byte>)
      requires pos + |data| <= buf.Length
      modifies buf
      ensures buf[..pos + |data|] == old(buf[..pos]) + data
    {
      Memcpy(pos, data);
      assert buf[..pos + |data|] == buf[..pos] + buf[pos..pos + |data|];
    }

    /** uwsgi_buffer_fix */
    method Fix(len: nat) returns (ok: bool)
      requires Valid()
      modifies this`buf
      ensures Valid() && Contents() == old(Contents()) && (buf == old(buf) || fresh(buf))
      ensures ok <==> limit == 0 || len <= limit
      ensures ok ==> buf.Length == Max(old(buf.Length), len)
      ensures !ok ==> buf == old(buf)
    {
      if limit > 0 && len > limit {
        return false;
      }
      if buf.Length < len {
        Realloc(len);
        assert buf[..pos] == buf[..old(buf.Length)][..pos];
      }
      return true;
    }

    /** uwsgi_buffer_ensure: success means room for at least one byte, and for n bytes when no limit is in the way. */
    method Ensure(n: nat) returns (ok: bool)
      requires Valid()
      modifies this`buf
      ensures Valid() && Contents() == old(Contents()) && (buf == old(buf) || fresh(buf))
      ensures ok <==> pos + n <= old(buf.Length) || limit == 0 || old(buf.Length) < limit
      ensures ok ==> pos + n <= buf.Length || (limit > 0 && buf.Length == limit)
      ensures ok ==> (pos + n <= buf.Length <==> limit == 0 || pos + n <= limit)
      ensures ok && n > 0 ==> pos < buf.Length
      ensures !ok ==> buf == old(buf)
      ensures buf.Length >= old(buf.Length)
    {
      var remains := buf.Length - pos;
      if remains < n {
        var newLen := buf.Length + (n - remains);
        if limit > 0 && newLen > limit {
          newLen := limit;
          if newLen == buf.Length {
            return false;
          }
        }
        Realloc(newLen);
        assert buf[..pos] == buf[..old(buf.Length)][..pos];
      }
      return true;
    }

    /** uwsgi_buffer_append, with the page size that it grows by. */
    method Append(data: seq<byte>, pageSize: nat) returns (ok: bool)
      requires Valid()
      modifies this, buf
      ensures Valid() && limit == old(limit) && (buf == old(buf) || fresh(buf))
      ensures ok <==> old(pos) + |data| <= old(buf.Length) || limit == 0 || old(buf.Length) + |data| <= limit
      ensures Contents() == if ok then old(Contents()) + data else old(Contents())
      ensures !ok ==> buf == old(buf)
    {
      var remains := buf.Length - pos;
      ghost var before := Contents();
      if |data| > remains {
        var chunkSize := Max(|data|, pageSize);
        if limit > 0 && buf.Length + chunkSize > limit {
          if |data| < pageSize {
            chunkSize := |data|;
          }
          if buf.Length + chunkSize > limit {
            return false;
          }
        }
        Realloc(buf.Length + chunkSize);
        assert buf[..pos] == buf[..old(buf.Length)][..pos];
      }
      Place(data);
      pos := pos + |data|;
      return true;
    }

    /** uwsgi_buffer_decapitate */
    method Decapitate(n: nat) returns (ok: bool)
      requires Valid()
      modifies this`pos, buf
      ensures Valid() && buf == old(buf)
      ensures ok <==> n <= old(pos)
      ensures Contents() == if ok then old(Contents())[n..] else old(Contents())
    {
      if n > pos {
        return false;
      }
      Memmove(0, n, pos - n);
      assert buf[..pos - n] == buf[0..0 + (pos - n)];
      assert old(buf[n..n + (pos - n)]) == old(buf[..pos])[n..];
      pos := pos - n;
      return true;
    }

    /** uwsgi_buffer_insert: a splice, or an error, or, since uwsgi_buffer_ensure is content when something fits, a
        memmove past the end of the buffer. The model stops before that memmove. */
    method Insert(at: nat, data: seq<byte>) returns (r: Inserted)
      requires Valid() && at <= pos
      modifies this, buf
      ensures Valid() && limit == old(limit) && (buf == old(buf) || fresh(buf))
      ensures r == Insertion(old(buf.Length), old(pos), limit, |data|)
      ensures Contents() ==
                if r == Spliced then old(Contents())[..at] + data + old(Contents())[at..] else old(Contents())
      ensures r == Overrun ==> buf.Length == limit < pos + |data|
    {
      var ok := Ensure(|data|);
      if !ok {
        return Refused;
      }
      if pos + |data| > buf.Length {
        return Overrun;
      }
      Splice(at, data);
      return Spliced;
    }

    /** The memmove and memcpy of uwsgi_buffer_insert. */
    method Splice(at: nat, data: seq<byte>)
      requires at <= pos && pos + |data| <= buf.Length
      modifies this`pos, buf
      ensures buf == old(buf) && pos == old(pos) + |data|
      ensures buf[..pos] == old(buf[..at]) + data + old(buf[at..pos])
    {
      ghost var b0 := buf[..];
      var toMove := pos - at;
      Memmove(at + |data|, at, toMove);
      ghost var b1 := buf[..];
      Memcpy(at, data);
      pos := pos + |data|;
      SpliceParts(b0, b1, buf[..], at, data, toMove);
    }

    static lemma SpliceParts(b0: seq<byte>, b1: seq<byte>, b2: seq<byte>, at: nat, data: seq<byte>, n: nat)
      requires |b0| == |b1| == |b2| && at + |data| + n <= |b0|
      requires b1[at + |data|..at + |data| + n] == b0[at..at + n] && b1[..at + |data|] == b0[..at + |data|]
      requires b2[at..at + |data|] == data && b2[..at] == b1[..at] && b2[at + |data|..] == b1[at + |data|..]
      ensures b2[..at + |data| + n] == b0[..at] + data + b0[at..at + n]
    {
      assert b2[at + |data|..at + |data| + n] == b2[at + |data|..][..n];
      assert b1[at + |data|..at + |data| + n] == b1[at + |data|..][..n];
      assert b1[..at] == b1[..at + |data|][..at] && b0[..at] == b0[..at + |data|][..at];
      assert b2[..at + |data| + n] == b2[..at] + b2[at..at + |data|] + b2[at + |data|..at + |data| + n];
    }
  }
}
