/** The incremental decoder of core/chunked.c over a buffer that a byte source fills in arbitrary pieces. */
module Chunked {
  import opened Bytes
  import opened Buffers
  import opened ChunkWire

  /** What a call gives: the bytes of one chunk, the end of the body, or nothing for now. */
  datatype Answer = Data(bytes: seq<byte>) | End | Fail

  /** The reads went dry: none is left, or the last one gave nothing. */
  predicate Starved(before: seq<nat>, after: seq<nat>) {
    after == [] || (|after| < |before| && before[|before| - |after| - 1] == 0)
  }

  predicate Suffix<T(==)>(a: seq<T>, b: seq<T>) {
    |a| <= |b| && b[|b| - |a|..] == a
  }

  /** Every read gives one byte, and there are more reads than n. */
  predicate OneByOne(script: seq<nat>, n: int) {
    0 <= n < |script| && forall i :: 0 <= i < |script| ==> script[i] == 1
  }

  /** This many bytes, which the reader needs together, can be received in pieces: the last of them still finds a page
      of room. */
  predicate Snug(n: nat, pageSize: nat, limit: nat) {
    n - 1 + pageSize <= limit
  }

  /** The size line with its line end, then the bytes with theirs. */
  ghost predicate SnugChunk(c: Chunk, pageSize: nat, limit: nat) {
    Snug(|c.line| + 2, pageSize, limit) && Snug(|c.payload| + 2, pageSize, limit)
  }

  /** Every size line and every chunk leaves a page of room below the limit. */
  ghost predicate Roomy(chunks: seq<Chunk>, ending: Ending, pageSize: nat, limit: nat) {
    || limit == 0
    || (&& Snug(EndNeed(ending), pageSize, limit)
        && forall i :: 0 <= i < |chunks| ==> SnugChunk(chunks[i], pageSize, limit))
  }

  /** Somewhere in these bytes there is a complete size line whose number is 0. */
  ghost predicate HasEndLine(s: seq<byte>) {
    exists u, n :: 0 <= u <= n <= |s| && Scan(s[u..n], 0).Ends? && Strtoul(s[u..n]) == 0
  }

  class ChunkReader {
    const input: Buffer
    const pageSize: nat
    /** The bytes that the peer sends, and what each of the coming reads will give of them at most; 0 stands for
        a read that would block, times out or fails. */
    const stream: seq<byte>
    var off: nat
    var script: seq<nat>
    var status: nat
    var chunkLen: int
    var need: nat
    var complete: bool
    var decap: nat
    /** Whether the stream is a chunked body, which one, and how many of its chunks have been handed out. */
    ghost const good: bool
    ghost const chunks: seq<Chunk>
    ghost const ending: Ending
    ghost var done: nat

    ghost predicate Shape()
      reads this, input
    {
      && input.Valid() && pageSize > 0 && off <= |stream| && done <= |chunks| && (good ==> GoodStream(chunks, ending))
      && status <= 1 && (status == 1 ==> chunkLen > 0) && decap <= input.pos && (need > 0 ==> decap == 0)
      && (input.limit > 0 ==> pageSize <= input.limit)
    }

    ghost predicate Spacious()
      reads this, input
    {
      Roomy(chunks, ending, pageSize, input.limit)
    }

    /** The buffer is at its limit and has less room left than a page or than what is needed. */
    ghost predicate Stuck()
      reads this, input
    {
      input.limit > 0 && input.buf.Length == input.limit && input.pos + Max(pageSize, need) > input.limit
    }

    /** The rest of the stream will come byte by byte. */
    ghost predicate Drip()
      reads this
    {
      OneByOne(script, |stream| - off)
    }

    /** What is in the buffer came byte by byte, so that the buffer has grown by pages. */
    ghost predicate Grown()
      reads this, input
    {
      input.pos == 0 || (need > 0 && (input.buf.Length == input.limit || input.buf.Length >= input.pos - 1 + pageSize))
    }

    /** The buffer holds no byte beyond the size line or the chunk that is being received. */
    ghost predicate Tight()
      reads this, input
      requires done <= |chunks|
    {
      if status == 0 then input.pos <= LineNeed(chunks[done..], ending) else input.pos <= chunkLen + 2
    }

    /** A call cannot receive anything any more. */
    ghost predicate Jammed()
      reads this, input
    {
      !complete && decap == 0 && (need > 0 || input.pos == 0) && Stuck()
    }

    /** The line in the buffer is no size line. */
    ghost predicate Refused()
      reads this, input, input.buf
    {
      && input.Valid() && !complete && status == 0 && decap == 0 && need == 0 && input.pos > 0
      && Scan(input.Contents(), 0).Bad?
    }

    /** All chunks have been handed out, and a bad line follows. */
    ghost predicate AtBreak()
      reads this
    {
      done == |chunks| && ending.Broken?
    }

    /** In the read loop. */
    ghost predicate Going()
      reads this, input, input.buf
    {
      Shape() && decap == 0 && !complete && (good ==> AtLine() || InChunk())
    }

    /** And with bytes coming one by one. */
    ghost predicate Creeping()
      reads this, input
    {
      && good && input.limit > 0 && Drip() && Grown()
      && (status == 1 ==> done < |chunks| && Snug(|chunks[done].line| + 2, pageSize, input.limit))
    }

    /** Between two calls, with bytes coming one by one, nothing but the chunk handed out is in the buffer. */
    ghost predicate Dripping()
      reads this, input
    {
      good && input.limit > 0 && Drip() && !complete && status == 0 && need == 0 && decap == input.pos
    }

    /** The bytes that have not been dropped yet: those in the buffer and those still to come. */
    ghost function Rest(): seq<byte>
      reads this, input, input.buf
      requires Shape()
    {
      input.Contents() + stream[off..]
    }

    /** How many bytes have not been consumed. */
    ghost function Budget(): int
      reads this, input
    {
      input.pos - decap + |stream| - off
    }

    ghost function Ahead(): seq<byte>
      reads this
      requires done <= |chunks|
    {
      Wire(chunks[done..], ending)
    }

    ghost function Inside(): seq<byte>
      reads this
      requires done <= |chunks|
    {
      AfterLine(chunks[done..], ending)
    }

    /** At a size line, with the buffer cleared of the chunk before. */
    ghost predicate AtLine()
      reads this, input, input.buf
      requires Shape()
    {
      && status == 0 && decap == 0 && need <= 1 && Rest() == Ahead()
      && (need == 1 ==> input.pos < LineNeed(chunks[done..], ending))
    }

    /** Behind a size line, waiting for the whole chunk. */
    ghost predicate InChunk()
      reads this, input, input.buf
      requires Shape()
    {
      && status == 1 && decap == 0 && done < |chunks| && chunkLen == |chunks[done].payload| && Rest() == Inside()
      && need == if chunkLen + 2 > input.pos then chunkLen + 2 - input.pos else 0
    }

    /** A chunk has been handed out and is still in the buffer. */
    ghost predicate HandedOut()
      reads this, input, input.buf
      requires Shape()
    {
      status == 0 && need == 0 && 0 < decap <= input.pos && Rest()[decap..] == Ahead()
    }

    ghost predicate Valid()
      reads this, input, input.buf
    {
      && Shape()
      && (good ==> if complete then done == |chunks| && ending.Last? else AtLine() || InChunk() || HandedOut())
    }

    constructor (stream: seq<byte>, script: seq<nat>, pageSize: nat, limit: nat,
                 ghost good: bool, ghost chunks: seq<Chunk>, ghost ending: Ending)
      requires pageSize > 0 && (limit > 0 ==> pageSize <= limit)
      requires good ==> GoodStream(chunks, ending) && stream == Wire(chunks, ending)
      ensures Valid() && done == 0 && !complete && fresh(input) && fresh(input.buf) && input.limit == limit
      ensures this.good == good && this.chunks == chunks && this.ending == ending && this.stream == stream
      ensures this.script == script && this.pageSize == pageSize
      ensures off == 0 && status == 0 && need == 0 && decap == input.pos == 0
    {
      var b := new Buffer(pageSize);
      b.limit := limit;
      input := b;
      this.stream, this.script, this.pageSize := stream, script, pageSize;
      off, status, chunkLen, need, complete, decap := 0, 0, 0, 0, false, 0;
      this.good, this.chunks, this.ending, done := good, chunks, ending, 0;
      new;
      assert chunks[0..] == chunks && [] + stream[0..] == stream;
    }

    /** uwsgi_chunked_input_recv: some bytes behind the ones in the buffer, or none. */
    method Recv() returns (n: nat)
      requires Shape() && input.pos < input.buf.Length
      modifies this`off, this`script, input.buf
      ensures Shape() && Suffix(script, old(script))
      ensures off == old(off) + n && input.pos + n <= input.buf.Length
      ensures input.buf[..input.pos + n] == old(input.Contents()) + stream[old(off)..off]
      ensures n == 0 ==> off == old(off) && (old(off) == |stream| || Starved(old(script), script))
      ensures old(Drip()) && old(off) < |stream| ==> n == 1 && Drip()
    {
      if script == [] {
        n := 0;
        return;
      }
      var k, room := script[0], input.buf.Length - input.pos;
      script := script[1..];
      n := if k < room then k else room;
      n := if n < |stream| - off then n else |stream| - off;
      input.Place(stream[off..off + n]);
      off := off + n;
    }

    /** Receive, and count the bytes as contents. */
    method Receive() returns (n: nat)
      requires Shape() && input.pos < input.buf.Length
      modifies this`off, this`script, input`pos, input.buf
      ensures Shape() && Suffix(script, old(script)) && Rest() == old(Rest())
      ensures off == old(off) + n && input.pos == old(input.pos) + n
      ensures n == 0 && old(off) < |stream| ==> Starved(old(script), script)
      ensures old(Drip()) && old(off) < |stream| ==> n == 1 && Drip()
    {
      hide Starved, GoodStream, Suffix, OneByOne;
      ghost var before := input.Contents();
      n := Recv();
      input.pos := input.pos + n;
      assert input.Contents() == before + stream[old(off)..off];
      Flow(before, stream, old(off), off);
    }

    /** Make room and receive. */
    method Extend() returns (n: nat)
      requires Shape()
      modifies this`off, this`script, input, input.buf
      ensures Shape() && Suffix(script, old(script)) && (input.buf == old(input.buf) || fresh(input.buf))
      ensures input.limit == old(input.limit) && Rest() == old(Rest())
      ensures off == old(off) + n && input.pos == old(input.pos) + n
      ensures n == 0 && old(off) < |stream| ==> Starved(old(script), script) || Stuck()
      ensures old(Stuck()) ==> n == 0 && Stuck()
      ensures old(Drip()) && old(off) < |stream| ==>
                Drip() && n == (if old(Stuck()) then 0 else 1) &&
                (n == 1 && input.limit > 0 ==>
                    input.buf.Length == input.limit || input.buf.Length >= old(input.pos) + pageSize)
    {
      hide Starved, GoodStream, Suffix, OneByOne;
      SuffixSelf(script);
      ghost var before := input.Contents();
      var ok := input.Ensure(Max(pageSize, need));
      if !ok {
        return 0;
      }
      assert input.Contents() == before;
      n := Receive();
    }

    /** The top of the read loop: make room, receive, and count down what is needed. */
    method Fill() returns (ok: bool)
      requires Shape()
      modifies this`off, this`script, this`need, input, input.buf
      ensures Shape() && Suffix(script, old(script)) && (input.buf == old(input.buf) || fresh(input.buf))
      ensures input.limit == old(input.limit) && Rest() == old(Rest()) && Budget() == old(Budget())
      ensures ok ==> off > old(off) && input.pos == old(input.pos) + (off - old(off))
      ensures ok ==> need == if old(need) > off - old(off) then old(need) - (off - old(off)) else 0
      ensures !ok ==> need == old(need) && input.pos == old(input.pos)
      ensures !ok && old(off) < |stream| ==> Starved(old(script), script) || Stuck()
      ensures old(Stuck()) ==> !ok && Stuck()
      ensures old(Drip()) && old(off) < |stream| ==>
                Drip() && ok == !old(Stuck()) &&
                (ok ==> off == old(off) + 1) &&
                (ok && input.limit > 0 ==>
                    input.buf.Length == input.limit || input.buf.Length >= old(input.pos) + pageSize)
    {
      hide Starved, GoodStream, Suffix;
      var rlen := Extend();
      if rlen == 0 {
        return false;
      }
      if need > 0 {
        if rlen > need {
          need := 0;
        } else {
          need := need - rlen;
        }
      }
      return true;
    }

    /** uwsgi_chunked_readline: the size, -1 for a bad line, -2 for an unfinished one. A complete line is dropped. */
    method Readline() returns (n: int)
      requires Shape() && decap == 0
      modifies input`pos, input.buf
      ensures Shape() && input.buf == old(input.buf) && input.pos <= old(input.pos)
      ensures match Scan(old(input.Contents()), 0)
              case More => n == -2 && input.Contents() == old(input.Contents())
              case Bad => n == -1 && input.Contents() == old(input.Contents())
              case Ends(i) =>
                n == Signed(Strtoul(old(input.Contents()))) && input.Contents() == old(input.Contents())[i + 2..]
    {
      hide Scan, IsAlnum, Strtoul, GoodStream;
      ghost var s := input.Contents();
      var i, found := 0, false;
      while i < input.pos
        invariant Shape() && input.buf == old(input.buf) && input.pos == |s| && input.Contents() == s
        invariant 0 <= i <= |s| && (found ==> i > 0)
        invariant if found then s[i - 1] == CR && Scan(s, 0) == Scan(s, i - 1) else Scan(s, 0) == Scan(s, i)
      {
        var b := input.buf[i];
        assert b == s[i];
        ScanStep(s, if found then i - 1 else i);
        if found {
          if b == LF {
            var num := Strtoul(input.buf[..input.pos]);
            var ok := input.Decapitate(i + 1);
            return Signed(num);
          }
          return -1;
        }
        if IsAlnum(b) {
        } else if b == CR {
          found := true;
        } else {
          return -1;
        }
        i := i + 1;
      }
      ScanStep(s, if found then i - 1 else i);
      return -2;
    }

    /** Hand out a chunk that is wholly in the buffer. */
    method HandOut() returns (a: Answer)
      requires Shape() && !complete && decap == 0 && need == 0 && 0 < chunkLen && chunkLen + 2 <= input.pos
      requires good ==> done < |chunks| && Rest() == Inside() && chunkLen == |chunks[done].payload|
      modifies this`status, this`decap, this`done
      ensures Shape() && a.Data? && |a.bytes| > 0 && Budget() < old(Budget()) && status == 0 && decap == chunkLen + 2
      ensures good ==> HandedOut() && done == old(done) + 1 && a == Data(chunks[old(done)].payload)
    {
      decap := chunkLen + 2;
      status := 0;
      a := Data(input.buf[..chunkLen]);
      if good {
        InsideIs(chunks, ending, done);
        assert GoodChunk(chunks[done]);
        hide Wire, GoodStream, GoodChunk;
        ghost var c, rest := chunks[done], Rest();
        assert input.Contents()[..chunkLen] == rest[..chunkLen] == c.payload;
        assert rest[chunkLen + 2..] == Wire(chunks[done + 1..], ending);
        done := done + 1;
      }
    }

    /** The size line, read from the buffer. */
    method ParseLine()
      requires Shape() && !complete && need == 0 && input.pos > 0 && status == 0 && decap == 0 && (good ==> AtLine())
      modifies this`chunkLen, input`pos, input.buf
      ensures Shape() && input.buf == old(input.buf) && input.pos <= old(input.pos)
      ensures match Scan(old(input.Contents()), 0)
              case More => chunkLen == -2 && input.Contents() == old(input.Contents())
              case Bad => chunkLen == -1 && input.Contents() == old(input.Contents())
              case Ends(i) =>
                && chunkLen == Signed(Strtoul(old(input.Contents())))
                && input.Contents() == old(input.Contents())[i + 2..]
      ensures Suffix(Rest(), old(Rest())) && (chunkLen == 0 ==> HasEndLine(old(Rest())))
      ensures chunkLen < 0 && !Refused() && chunkLen != -2 ==>
                old(Strtoul(input.Contents())) >= 0x8000_0000_0000_0000
      ensures good ==>
                (chunkLen == -2 && Rest() == Ahead() && input.pos < LineNeed(chunks[done..], ending)
                 && input.pos == old(input.pos)) ||
                (chunkLen == -1 && AtBreak() && Refused() && Rest() == Ahead() && input.pos == old(input.pos)
                 && input.pos >= LineNeed(chunks[done..], ending)) ||
                (!AtBreak() && Rest() == Inside() && chunkLen == (if done < |chunks| then |chunks[done].payload| else 0)
                 && input.pos == old(input.pos) - LineNeed(chunks[done..], ending))
    {
      hide Wire, AfterLine, Strtoul, Scan, LineNeed, FirstLine, GoodStream, HasEndLine, Suffix;
      ghost var s, more := input.Contents(), stream[off..];
      if good {
        LineAhead(chunks, ending, done, s, more);
      }
      EndLineAtFront(s, more);
      chunkLen := Readline();
      Dropped(s, more, |s| - input.pos);
    }

    /** The parsing half of the read loop, once the buffer holds what was needed. */
    method Parse() returns (again: bool, a: Answer)
      requires Shape() && !complete && need == 0 && input.pos > 0 && decap == 0 && (good ==> AtLine() || InChunk())
      modifies this, input`pos, input.buf
      ensures Shape() && input.buf == old(input.buf) && off == old(off) && script == old(script)
      ensures Suffix(Rest(), old(Rest()))
      ensures old(Refused()) ==> !again && a == Fail && Refused()
      ensures !again && a == End ==> HasEndLine(old(Rest()))
      ensures old(status) == 0 && old(Scan(input.Contents(), 0)).Ends? ==>
                var v := old(Strtoul(input.Contents()));
                && (v == 0 <==> !again && a == End)
                && (v >= 0x8000_0000_0000_0000 && v != WORD - 2 ==> !again && a == Fail)
      ensures !again && a == End ==> old(status) == 0 && old(Scan(input.Contents(), 0)).Ends?
      ensures !again && a == Fail ==>
                old(status) == 0 && (Refused() || old(Strtoul(input.Contents())) >= 0x8000_0000_0000_0000)
      ensures again ==> !complete && need > 0 && done == old(done) && (good ==> AtLine() || InChunk())
      ensures !again ==> (a == End <==> complete)
      ensures Budget() <= old(Budget()) && (!again && a.Data? ==> |a.bytes| > 0 && Budget() < old(Budget()))
      ensures !again && good ==> match a
                                 case Data(p) => old(done) < |chunks| && p == chunks[old(done)].payload
                                                 && done == old(done) + 1 && HandedOut()
                                 case End => done == old(done) == |chunks| && ending.Last?
                                 case Fail => done == old(done) && AtBreak() && Refused() && AtLine()
      ensures old(good && Tight() && input.pos - 1 + pageSize <= input.limit) ==>
                if again then
                  if status == 0 then input.pos == old(input.pos)
                  else input.pos == 0 && done < |chunks| && Snug(|chunks[done].line| + 2, pageSize, input.limit)
                else match a
                     case Data(_) => old(status) == 1 && status == 0 && need == 0 && decap == input.pos
                                     && Snug(|chunks[old(done)].payload| + 2, pageSize, input.limit)
                     case _ => Snug(EndNeed(ending), pageSize, input.limit)
    {
      hide Wire, AfterLine, GoodStream, Scan, Strtoul, HasEndLine, Suffix, LineNeed, EndNeed;
      SuffixSelf(Rest());
      again, a := true, Fail;
      if status == 0 {
        LineValues(chunks, ending, done, good);
        ParseLine();
        if chunkLen == -2 {
          need := need + 1;
          return;
        } else if chunkLen < 0 {
          return false, Fail;
        } else if chunkLen == 0 {
          complete := true;
          return false, End;
        }
        if chunkLen + 2 > input.pos {
          need := chunkLen + 2 - input.pos;
          status := 1;
          return;
        }
      } else {
        if chunkLen + 2 > input.pos {
          need := chunkLen + 2 - input.pos;
          return;
        }
      }
      a := HandOut();
      again := false;
    }

    /** The first lines of uwsgi_chunked_read: the chunk handed out before is dropped. */
    method DropChunk() returns (ok: bool)
      requires Valid() && !complete
      modifies this`decap, input`pos, input.buf
      ensures ok && Shape() && decap == 0 && input.buf == old(input.buf) && (good ==> AtLine() || InChunk())
      ensures Budget() == old(Budget()) && Suffix(Rest(), old(Rest())) 
      ensures old(decap) == 0 ==> input.Contents() == old(input.Contents()) && Rest() == old(Rest())
    {
      hide Wire, AfterLine, GoodStream;
      SuffixSelf(Rest());
      ok := true;
      if decap > 0 {
        ghost var contents := input.Contents();
        Dropped(contents, stream[off..], decap);
        ok := input.Decapitate(decap);
        assert (contents + stream[off..])[decap..] == contents[decap..] + stream[off..];
        decap := 0;
      }
    }

    /** uwsgi_chunked_read. However a well-formed stream is cut, a call gives the next chunk, or the end behind the
        last one, or stops for lack of data and loses nothing. A line that is no size line is refused for good, and
        whatever the stream, the end comes only behind a size line of value 0. */
    method Read() returns (a: Answer)
      requires Valid()
      modifies this, input, input.buf
      ensures Valid() && (input.buf == old(input.buf) || fresh(input.buf)) && input.limit == old(input.limit)
      ensures Suffix(script, old(script)) && (a == End <==> complete) && (old(complete) ==> complete)
      ensures a.Data? ==> |a.bytes| > 0 && Budget() < old(Budget())
      ensures good ==> match a
                       case Data(p) => old(done) < |chunks| && p == chunks[old(done)].payload && done == old(done) + 1
                       case End => done == old(done) == |chunks| && ending.Last?
                       case Fail =>
                         && done == old(done)
                         && (Starved(old(script), script) || (Jammed() && !Spacious()) || (AtBreak() && Refused()))
      ensures old(Refused()) ==> a == Fail && Refused()
      ensures Suffix(Rest(), old(Rest())) && (a == End && !old(complete) ==> HasEndLine(old(Rest())))
      ensures old(Jammed()) ==> a == Fail && Jammed()
      ensures old(Dripping()) ==> match a
                                  case Data(_) => Dripping() && SnugChunk(chunks[old(done)], pageSize, input.limit)
                                  case End => Snug(EndNeed(ending), pageSize, input.limit)
                                  case Fail =>
                                    && Drip() && !Starved(old(script), script)
                                    && (Jammed() || (Refused() && Snug(EndNeed(ending), pageSize, input.limit)))
    {
      hide Wire, AfterLine, GoodStream, Starved, Suffix, AtLine, InChunk, HandedOut, OneByOne, ChunkReader.Spacious,
           Scan, HasEndLine, LineNeed, EndNeed, Snug, ChunkReader.Rest, Buffer.Contents;
      SuffixSelf(script);
      SuffixSelf(Rest());
      if complete {
        return End;
      }
      var ok := DropChunk();
      if !ok {
        return Fail;
      }
      while true
        invariant Going() && done == old(done) && Suffix(script, old(script)) && input.limit == old(input.limit)
        invariant (input.buf == old(input.buf) || fresh(input.buf)) && Budget() <= old(Budget())
        invariant Suffix(Rest(), old(Rest()))
        invariant (old(Refused()) ==> Refused()) && (old(Jammed()) ==> Jammed())
        invariant old(Dripping()) ==> Creeping()
        decreases |stream| - off, need == 0
      {
        ghost var s0, r0 := script, Rest();
        var again;
        again, a := Round();
        SuffixTrans(script, s0, old(script));
        StarvedLater(old(script), s0, script);
        NeverStarved(old(script), |stream| - old(off), script, |stream| - off);
        SuffixTrans(Rest(), r0, old(Rest()));
        EndLineLater(r0, old(Rest()));
        if !again {
          return;
        }
      }
    }

    /** One round of the read loop: receive if there is a need to, and parse what is there. */
    method Round() returns (again: bool, a: Answer)
      requires Going()
      modifies this, input, input.buf
      ensures Shape() && (input.buf == old(input.buf) || fresh(input.buf)) && input.limit == old(input.limit)
      ensures Suffix(script, old(script)) && Suffix(Rest(), old(Rest())) && Budget() <= old(Budget())
      ensures again ==> Going() && done == old(done) && (off > old(off) || (off == old(off) && need > 0 == old(need)))
      ensures !again ==> (a == End <==> complete) && (a.Data? ==> |a.bytes| > 0 && Budget() < old(Budget()))
      ensures !again && a == End ==> HasEndLine(old(Rest()))
      ensures !again ==> Valid()
      ensures !again && good ==>
                match a
                case Data(p) => old(done) < |chunks| && p == chunks[old(done)].payload && done == old(done) + 1
                case End => done == old(done) == |chunks| && ending.Last?
                case Fail =>
                  && done == old(done)
                  && (Starved(old(script), script) || (Jammed() && !Spacious()) || (AtBreak() && Refused()))
      ensures old(Refused()) ==> !again && a == Fail && Refused()
      ensures old(Jammed()) ==> !again && a == Fail && Jammed()
      ensures old(Creeping()) ==>
                if again then Creeping() else
                match a
                case Data(_) => Dripping() && SnugChunk(chunks[old(done)], pageSize, input.limit)
                case End => Snug(EndNeed(ending), pageSize, input.limit)
                case Fail => Drip() && (Jammed() || (Refused() && Snug(EndNeed(ending), pageSize, input.limit)))
    {
      hide Wire, AfterLine, GoodStream, Starved, Suffix, AtLine, InChunk, HandedOut, OneByOne, ChunkReader.Spacious,
           Scan, HasEndLine, LineNeed, EndNeed, Snug;
      SuffixSelf(script);
      SuffixSelf(Rest());
      if need > 0 || input.pos == 0 {
        var ok := FillMore();
        if !ok {
          return false, Fail;
        }
      }
      again, a := true, Fail;
      if need == 0 && input.pos > 0 {
        again, a := Parse();
      }
    }

    /** Fill, where the stream still has bytes to give. */
    method FillMore() returns (ok: bool)
      requires Shape() && decap == 0 && (need > 0 || input.pos == 0) && !complete && (good ==> AtLine() || InChunk())
      modifies this`off, this`script, this`need, input, input.buf
      ensures Shape() && Suffix(script, old(script)) && (input.buf == old(input.buf) || fresh(input.buf))
      ensures input.limit == old(input.limit) && (good ==> AtLine() || InChunk()) && Budget() == old(Budget())
      ensures Rest() == old(Rest())
      ensures ok ==> off > old(off) && input.pos > 0
      ensures !ok ==> need == old(need) && input.pos == old(input.pos)
      ensures !ok && good ==> Starved(old(script), script) || (Stuck() && !Spacious())
      ensures old(Stuck()) ==> !ok && Stuck()
      ensures old(good && input.limit > 0 && Drip() && Grown()) ==> Drip() && (!ok ==> Stuck())
      ensures old(good && input.limit > 0 && Drip() && Grown()) && ok ==>
                Tight() && input.pos - 1 + pageSize <= input.limit &&
                (input.buf.Length == input.limit || input.buf.Length >= input.pos - 1 + pageSize)
    {
      hide Wire, AfterLine, GoodStream, Starved, OneByOne;
      if good {
        Unread(chunks, ending, done);
        RoomAt(chunks, ending, done, pageSize, input.limit);
      }
      ok := Fill();
    }

    ghost predicate AllSnug(from: nat)
      reads this, input
    {
      forall i :: from <= i < |chunks| ==> SnugChunk(chunks[i], pageSize, input.limit)
    }

    /** Read until there is nothing to be had: the chunks come whole, in order and once each. */
    method ReadChunks() returns (list: seq<seq<byte>>, a: Answer)
      requires Valid()
      modifies this, input, input.buf
      ensures Valid() && !a.Data? && (a == End <==> complete) && input.limit == old(input.limit)
      ensures Suffix(script, old(script))
      ensures good ==> old(done) <= done && list == Payloads(chunks[old(done)..done])
      ensures good && a == End ==> done == |chunks|
      ensures good && ending.Broken? ==> a == Fail
      ensures good && a == Fail ==>
                Starved(old(script), script) || (Jammed() && !Spacious()) || (AtBreak() && Refused())
      ensures a == End && !old(complete) ==> HasEndLine(old(Rest()))
      ensures old(Dripping()) && a == Fail ==> !Starved(old(script), script)
      ensures old(Dripping()) ==>
                (a == Fail && Jammed()) || (AllSnug(old(done)) && Snug(EndNeed(ending), pageSize, input.limit))
    {
      hide Wire, AfterLine, GoodStream, AtLine, InChunk, HandedOut, Starved, ChunkReader.Spacious, Suffix, OneByOne,
           Payloads, SnugChunk, HasEndLine, Scan, LineNeed, EndNeed, Snug, ChunkReader.Rest, ChunkReader.Refused,
           ChunkReader.Jammed, Buffer.Contents;
      SuffixSelf(script);
      SuffixSelf(Rest());
      NoPayloads(chunks, done);
      list := [];
      while true
        invariant Valid() && Suffix(script, old(script)) && input.limit == old(input.limit)
        invariant input.buf == old(input.buf) || fresh(input.buf)
        invariant Suffix(Rest(), old(Rest())) && complete == old(complete)
        invariant good ==> old(done) <= done && list == Payloads(chunks[old(done)..done])
        invariant old(Dripping()) ==> Dripping() && old(done) <= done <= |chunks|
        invariant old(Dripping()) ==> forall i :: old(done) <= i < done ==> SnugChunk(chunks[i], pageSize, input.limit)
        decreases Budget()
      {
        ghost var s0, d0, r0 := script, done, Rest();
        a := Read();
        SuffixTrans(Rest(), r0, old(Rest()));
        EndLineLater(r0, old(Rest()));
        SuffixTrans(script, s0, old(script));
        StarvedLater(old(script), s0, script);
        if !a.Data? {
          NeverStarved(old(script), |stream| - old(off), script, |stream| - off);
          return;
        }
        PayloadsAppend(chunks, old(done), d0, good);
        list := list + [a.bytes];
      }
    }
  }

  function Payloads(chunks: seq<Chunk>): seq<seq<byte>> {
    if chunks == [] then [] else Payloads(chunks[..|chunks| - 1]) + [chunks[|chunks| - 1].payload]
  }

  lemma NoPayloads(chunks: seq<Chunk>, d: nat)
    ensures d <= |chunks| ==> Payloads(chunks[d..d]) == []
  {}

  lemma PayloadsAppend(chunks: seq<Chunk>, from: nat, d: nat, good: bool)
    requires good ==> from <= d < |chunks|
    ensures good ==> Payloads(chunks[from..d + 1]) == Payloads(chunks[from..d]) + [chunks[d].payload]
  {
    if good {
      assert chunks[from..d + 1][..d - from] == chunks[from..d];
    }
  }

  /** What is inside a chunk: its bytes, its line end, and the stream from the next size line on. */
  lemma InsideIs(chunks: seq<Chunk>, e: Ending, done: nat)
    requires done < |chunks|
    ensures AfterLine(chunks[done..], e) ==
              chunks[done].payload + chunks[done].end + Wire(chunks[done + 1..], e)
  {
    assert chunks[done..][1..] == chunks[done + 1..];
  }

  /** The size line is 0 exactly behind the last chunk. */
  lemma LineValue(chunks: seq<Chunk>, e: Ending, done: nat)
    requires GoodStream(chunks, e) && done <= |chunks|
    ensures GoodStream(chunks[done..], e)
    ensures HasLine(chunks[done..], e) <==> done < |chunks| || e.Last?
    ensures HasLine(chunks[done..], e) ==>
              AllHex(FirstLine(chunks[done..], e)) &&
              HexValue(FirstLine(chunks[done..], e)) == if done < |chunks| then |chunks[done].payload| else 0
    ensures done < |chunks| ==> 0 < |chunks[done].payload| < 0x8000_0000_0000_0000 - 2
  {
    if done < |chunks| {
      assert GoodChunk(chunks[done]);
    }
  }

  /** What a scan of the first bytes ahead finds. */
  lemma LineAhead(chunks: seq<Chunk>, e: Ending, done: nat, s: seq<byte>, more: seq<byte>)
    requires GoodStream(chunks, e) && done <= |chunks| && s + more == Wire(chunks[done..], e)
    ensures var n := LineNeed(chunks[done..], e);
            if |s| < n then Scan(s, 0) == More
            else if done == |chunks| && e.Broken? then Scan(s, 0) == Bad
            else Scan(s, 0) == Ends(n - 2) && s[n..] + more == AfterLine(chunks[done..], e) &&
                 Strtoul(s) == (if done < |chunks| then |chunks[done].payload| else 0)
    ensures done < |chunks| ==> 0 < |chunks[done].payload| < 0x8000_0000_0000_0000 - 2
  {
    hide Wire, AfterLine, Strtoul, Scan, LineNeed, FirstLine, GoodStream, HexValue;
    assert s <= s + more;
    LineValue(chunks, e, done);
    LineOfPrefix(chunks[done..], e, s);
    if HasLine(chunks[done..], e) {
      WireIsLineAndRest(chunks[done..], e);
      if LineNeed(chunks[done..], e) <= |s| {
        AfterTheLine(s, more, FirstLine(chunks[done..], e), AfterLine(chunks[done..], e));
      }
    }
  }

  lemma LineValues(chunks: seq<Chunk>, e: Ending, done: nat, good: bool)
    requires done <= |chunks| && (good ==> GoodStream(chunks, e))
    ensures good && done < |chunks| ==> 0 < |chunks[done].payload|
    ensures LineNeed(chunks[done..], e) == if done < |chunks| then |chunks[done].line| + 2 else EndNeed(e)
  {
    if good {
      LineValue(chunks, e, done);
    }
  }

  lemma AfterTheLine(s: seq<byte>, more: seq<byte>, line: seq<byte>, after: seq<byte>)
    requires |line| + 2 <= |s| && s + more == line + [CR, LF] + after
    ensures s[|line| + 2..] + more == after
  {
    assert (s + more)[|line| + 2..] == s[|line| + 2..] + more;
    assert (line + [CR, LF] + after)[|line| + 2..] == after;
  }

  /** What is dropped from the front leaves a tail of the bytes. */
  lemma Dropped(s: seq<byte>, more: seq<byte>, k: nat)
    requires k <= |s|
    ensures Suffix(s[k..] + more, s + more)
  {
    assert (s + more)[k..] == s[k..] + more;
  }

  lemma EndLineAtFront(s: seq<byte>, more: seq<byte>)
    ensures Scan(s, 0).Ends? && Strtoul(s) == 0 ==> HasEndLine(s + more)
  {
    assert (s + more)[0..|s|] == s;
  }

  lemma EndLineLater(a: seq<byte>, b: seq<byte>)
    requires Suffix(a, b)
    ensures HasEndLine(a) ==> HasEndLine(b)
  {
    hide Scan, Strtoul;
    if HasEndLine(a) {
      var u, n :| 0 <= u <= n <= |a| && Scan(a[u..n], 0).Ends? && Strtoul(a[u..n]) == 0;
      SliceOfTail(a, b, u, n);
    }
  }

  lemma SliceOfTail(a: seq<byte>, b: seq<byte>, u: nat, n: nat)
    requires Suffix(a, b) && u <= n <= |a|
    ensures b[|b| - |a| + u..|b| - |a| + n] == a[u..n]
  {
    var d := |b| - |a|;
    forall k | 0 <= k < n - u
      ensures b[d + u..d + n][k] == a[u..n][k]
    {
      assert b[d..][u + k] == a[u + k];
    }
  }

  /** The stream ahead is as long as its first line takes, and what is inside a chunk at least as long as the chunk. */
  lemma Unread(chunks: seq<Chunk>, e: Ending, done: nat)
    requires GoodStream(chunks, e) && done <= |chunks|
    ensures |Wire(chunks[done..], e)| >= LineNeed(chunks[done..], e) > 0
    ensures done < |chunks| ==> |AfterLine(chunks[done..], e)| >= |chunks[done].payload| + 2
  {
    if HasLine(chunks[done..], e) {
      WireIsLineAndRest(chunks[done..], e);
    } else {
      BadIsWithin(e.rest, 0);
    }
    if done < |chunks| {
      InsideIs(chunks, e, done);
      assert GoodChunk(chunks[done]);
    }
  }

  lemma RoomAt(chunks: seq<Chunk>, e: Ending, done: nat, pageSize: nat, limit: nat)
    requires done <= |chunks|
    ensures Roomy(chunks, e, pageSize, limit) && limit > 0 ==> Snug(LineNeed(chunks[done..], e), pageSize, limit)
    ensures Roomy(chunks, e, pageSize, limit) && limit > 0 && done < |chunks| ==>
              Snug(|chunks[done].payload| + 2, pageSize, limit)
  {
    if done < |chunks| && Roomy(chunks, e, pageSize, limit) && limit > 0 {
      assert SnugChunk(chunks[done], pageSize, limit);
    }
  }

  /** Bytes that move from the stream to the buffer. */
  lemma Flow(before: seq<byte>, stream: seq<byte>, a: nat, b: nat)
    requires a <= b <= |stream|
    ensures (before + stream[a..b]) + stream[b..] == before + stream[a..]
  {
    assert stream[a..] == stream[a..b] + stream[b..];
  }

  lemma SuffixSelf<T>(a: seq<T>)
    ensures Suffix(a, a)
  {}

  lemma SuffixTrans<T>(a: seq<T>, b: seq<T>, c: seq<T>)
    requires Suffix(a, b) && Suffix(b, c)
    ensures Suffix(a, c)
  {}

  lemma NeverStarved(before: seq<nat>, n: int, after: seq<nat>, n': int)
    ensures OneByOne(before, n) && OneByOne(after, n') ==> !Starved(before, after)
  {}

  lemma StarvedLater(c: seq<nat>, b: seq<nat>, a: seq<nat>)
    requires Suffix(a, b) && Suffix(b, c)
    ensures Starved(b, a) ==> Starved(c, a)
  {
    if |a| < |b| {
      assert b == c[|c| - |b|..];
    }
  }

  lemma {:induction false} PayloadsOfPrinted(payloads: seq<seq<byte>>, d: nat)
    requires d <= |payloads|
    ensures Payloads(AsChunks(payloads)[..d]) == payloads[..d]
  {
    hide Print, AsChunks;
    var c := AsChunks(payloads);
    if d > 0 {
      PayloadsOfPrinted(payloads, d - 1);
      assert c[..d][..d - 1] == c[..d - 1];
      assert payloads[..d] == payloads[..d - 1] + [payloads[d - 1]];
    } else {
      assert c[..0] == [] && payloads[..0] == [];
    }
  }

  /** A reader whose stream has a size line or a chunk that leaves less than a page below the limit, and comes byte by
      byte: it fails with reads left, and goes on failing. */
  method DripInto(reader: ChunkReader) returns (list: seq<seq<byte>>, a: Answer)
    requires reader.Valid() && reader.Dripping() && reader.done == 0 && !reader.Spacious()
    modifies reader, reader.input, reader.input.buf
    ensures reader.Valid() && a == Fail && reader.Jammed() && !Starved(old(reader.script), reader.script)
  {
    hide Wire, GoodStream, Starved, OneByOne, SnugChunk;
    list, a := reader.ReadChunks();
  }

  /** For every such stream, page size and limit there is a script of reads at which that happens. */
  method DripFails(chunks: seq<Chunk>, ending: Ending, pageSize: nat, limit: nat)
    returns (reader: ChunkReader, script: seq<nat>, list: seq<seq<byte>>, a: Answer)
    requires 0 < pageSize <= limit && GoodStream(chunks, ending) && !Roomy(chunks, ending, pageSize, limit)
    ensures fresh(reader) && reader.Valid() && reader.stream == Wire(chunks, ending)
    ensures reader.pageSize == pageSize && reader.input.limit == limit
    ensures OneByOne(script, |reader.stream|) && Suffix(reader.script, script)
    ensures a == Fail && reader.Jammed() && !Starved(script, reader.script)
  {
    hide Wire, GoodStream, Starved, OneByOne, SnugChunk, Suffix;
    var stream := Wire(chunks, ending);
    script := seq(|stream| + 1, _ => 1);
    AllOnes(script, |stream|);
    reader := new ChunkReader(stream, script, pageSize, limit, true, chunks, ending);
    list, a := reader.ReadChunks();
  }

  lemma AllOnes(script: seq<nat>, n: nat)
    requires |script| == n + 1 && forall i :: 0 <= i < |script| ==> script[i] == 1
    ensures OneByOne(script, n)
  {}

  /** The chunk "abcdef" with pages of 4 bytes and a limit of 8. */
  method SixBytesOfEight() returns (reader: ChunkReader, script: seq<nat>, list: seq<seq<byte>>, a: Answer)
    ensures fresh(reader) && reader.Valid() && reader.pageSize == 4 && reader.input.limit == 8
    ensures reader.stream == Wire([Chunk([54], [97, 98, 99, 100, 101, 102], [CR, LF])], Last([48], []))
    ensures OneByOne(script, |reader.stream|) && Suffix(reader.script, script)
    ensures a == Fail && reader.Jammed() && !Starved(script, reader.script)
  {
    var chunks: seq<Chunk>, ending := [Chunk([54], [97, 98, 99, 100, 101, 102], [CR, LF])], Last([48], []);
    assert chunks[0].line[..0] == [] && ending.line[..0] == [];
    assert !SnugChunk(chunks[0], 4, 8);
    reader, script, list, a := DripFails(chunks, ending, 4, 8);
  }

  /** From the printed headers to the chunks of the reader and back: whatever the lengths of the reads, the payloads
      come out in order, and all of them by the time the end is reported. */
  method DecodePrinted(payloads: seq<seq<byte>>, tail: seq<byte>, script: seq<nat>, pageSize: nat, limit: nat)
    returns (list: seq<seq<byte>>, a: Answer, unused: seq<nat>)
    requires pageSize > 0 && (limit > 0 ==> pageSize <= limit)
    requires forall i :: 0 <= i < |payloads| ==> 0 < |payloads[i]| < 0x1_0000_0000
    ensures |list| <= |payloads| && list == payloads[..|list|] && !a.Data?
    ensures a == End ==> list == payloads
    ensures a == Fail && Roomy(AsChunks(payloads), Last(Print(0), tail), pageSize, limit) ==> Starved(script, unused)
  {
    hide Wire, Printed, Payloads, AsChunks, GoodStream, Roomy, Starved;
    PrintedIsWellFormed(payloads, tail);
    var reader := new ChunkReader(Printed(payloads) + tail, script, pageSize, limit,
                                  true, AsChunks(payloads), Last(Print(0), tail));
    list, a := reader.ReadChunks();
    unused := reader.script;
    PayloadsOfPrinted(payloads, reader.done);
    assert reader.chunks[0..reader.done] == AsChunks(payloads)[..reader.done];
    assert payloads[..|payloads|] == payloads;
  }

  /** Behind good chunks a line that is no size line: whatever the reads, the chunks come out in order and then the
      body fails, and unless the source went dry or the limit is too tight it fails behind all of them. */
  method RefuseBroken(chunks: seq<Chunk>, rest: seq<byte>, script: seq<nat>, pageSize: nat, limit: nat)
    returns (list: seq<seq<byte>>, a: Answer, unused: seq<nat>)
    requires pageSize > 0 && (limit > 0 ==> pageSize <= limit)
    requires GoodStream(chunks, Broken(rest))
    ensures a == Fail && |list| <= |chunks| && list == Payloads(chunks[..|list|])
    ensures Roomy(chunks, Broken(rest), pageSize, limit) && !Starved(script, unused) ==> |list| == |chunks|
  {
    hide Wire, Payloads, GoodStream, Roomy, Starved;
    var reader := new ChunkReader(Wire(chunks, Broken(rest)), script, pageSize, limit, true, chunks, Broken(rest));
    list, a := reader.ReadChunks();
    unused := reader.script;
    PayloadCount(chunks[..reader.done]);
    assert chunks[0..reader.done] == chunks[..reader.done];
  }

  lemma {:induction false} PayloadCount(chunks: seq<Chunk>)
    ensures |Payloads(chunks)| == |chunks|
  {
    if chunks != [] {
      PayloadCount(chunks[..|chunks| - 1]);
    }
  }

  // ---------------------------------------------------------------- writing a chunk header

  /** uwsgi_buffer_append_chunked */
  method AppendChunked(b: Buffer, len: nat, pageSize: nat) returns (ok: bool)
    requires b.Valid()
    modifies b, b.buf
    ensures b.Valid() && (b.buf == old(b.buf) || fresh(b.buf)) && b.limit == old(b.limit)
    ensures ok <==>
              || old(b.pos) + |Header(len)| <= old(b.buf.Length) || b.limit == 0
              || old(b.buf.Length) + |Header(len)| <= b.limit
    ensures b.Contents() == if ok then old(b.Contents()) + Header(len) else old(b.Contents())
  {
    ok := b.Append(Header(len), pageSize);
  }

  /** uwsgi_buffer_insert_chunked */
  method InsertChunked(b: Buffer, at: nat, len: nat) returns (r: Inserted)
    requires b.Valid() && at <= b.pos
    modifies b, b.buf
    ensures b.Valid() && (b.buf == old(b.buf) || fresh(b.buf)) && b.limit == old(b.limit)
    ensures r == Insertion(old(b.buf.Length), old(b.pos), b.limit, |Header(len)|)
    ensures b.Contents() ==
              if r == Spliced then old(b.Contents())[..at] + Header(len) + old(b.Contents())[at..]
              else old(b.Contents())
  {
    r := b.Insert(at, Header(len));
  }

  // ---------------------------------------------------------------- reading the body by size

  /** The bytes of a list of chunks. */
  function Joined(chunks: seq<Chunk>): seq<byte> {
    if chunks == [] then [] else chunks[0].payload + Joined(chunks[1..])
  }

  lemma JoinedFrom(chunks: seq<Chunk>, d: nat)
    requires d < |chunks|
    ensures Joined(chunks[d..]) == chunks[d].payload + Joined(chunks[d + 1..])
  {
    assert chunks[d..][1..] == chunks[d + 1..];
  }

  class BodyReader {
    const reader: ChunkReader
    /** Bytes that have been decoded but not asked for. */
    const left: Buffer

    ghost predicate Valid()
      reads this, reader, reader.input, reader.input.buf, left, left.buf
    {
      && reader.Valid() && reader.done <= |reader.chunks| && left.Valid() && left.limit == 0
      && left != reader.input && left.buf != reader.input.buf
    }

    /** What the body still has to give: the leftover bytes and the chunks that have not been decoded. */
    ghost function Pending(): seq<byte>
      reads this, reader, left, left.buf
      requires left.Valid() && reader.done <= |reader.chunks|
    {
      left.Contents() + Joined(reader.chunks[reader.done..])
    }

    constructor (reader: ChunkReader)
      requires reader.Valid()
      ensures Valid() && this.reader == reader && left.Contents() == [] && fresh(left) && fresh(left.buf)
    {
      this.reader := reader;
      var b := new Buffer(reader.pageSize);
      left := b;
    }

    /** The reader ran into its limit on a stream that has a line or a chunk too long for it. */
    ghost predicate Cramped()
      reads reader, reader.input
    {
      reader.Jammed() && !reader.Spacious()
    }

    /** Decode one more chunk into the leftover buffer. */
    method Pull() returns (n: nat)
      requires Valid()
      modifies reader, reader.input, reader.input.buf, left, left.buf
      ensures Valid() && (left.buf == old(left.buf) || fresh(left.buf))
      ensures reader.input.buf == old(reader.input.buf) || fresh(reader.input.buf)
      ensures reader.input.limit == old(reader.input.limit)
      ensures Suffix(reader.script, old(reader.script))
      ensures left.pos == old(left.pos) + n && left.Contents()[..old(left.pos)] == old(left.Contents())
      ensures n > 0 ==> reader.Budget() < old(reader.Budget())
      ensures reader.good ==> Pending() == old(Pending())
      ensures reader.good && n == 0 ==>
                Pending() == left.Contents() || Starved(old(reader.script), reader.script) || Cramped()
    {
      hide Wire, AfterLine, GoodStream, Scan, HasEndLine, LineNeed, EndNeed, Suffix, OneByOne, Snug, ChunkReader.Rest;
      n := 0;
      ghost var d0 := reader.done;
      var a := reader.Read();
      if a.Data? {
        n := |a.bytes|;
        var ok := left.Append(a.bytes, reader.pageSize);
        if reader.good {
          JoinedFrom(reader.chunks, d0);
          assert old(left.Contents()) + (a.bytes + Joined(reader.chunks[reader.done..]))
              == (old(left.Contents()) + a.bytes) + Joined(reader.chunks[reader.done..]);
        }
      } else if a == End && reader.good {
        assert reader.chunks[reader.done..] == [];
      }
    }

    /** Move n bytes from the front of the leftover buffer to the end of an answer. */
    method Take(sofar: seq<byte>, n: nat) returns (data: seq<byte>)
      requires Valid() && n <= left.pos
      modifies left`pos, left.buf
      ensures Valid() && left.buf == old(left.buf) && |data| == |sofar| + n && left.pos == old(left.pos) - n
      ensures data + Pending() == sofar + old(Pending())
      ensures n == old(left.pos) ==> left.Contents() == []
      ensures n == old(left.pos) && old(Pending()) == old(left.Contents()) ==> Pending() == []
    {
      hide Joined, ChunkReader.Valid, ChunkReader.Shape;
      ghost var before, later := left.Contents(), Joined(reader.chunks[reader.done..]);
      data := sofar + left.buf[..n];
      var ok := left.Decapitate(n);
      Regroup(sofar, before, n, later);
    }

    static lemma Regroup(sofar: seq<byte>, b: seq<byte>, n: nat, later: seq<byte>)
      requires n <= |b|
      ensures (sofar + b[..n]) + (b[n..] + later) == sofar + (b + later)
    {
      assert b == b[..n] + b[n..];
    }

    /** uwsgi_chunked_read_smart with a length of 0: everything that can be had. */
    method ReadEverything() returns (data: seq<byte>)
      requires Valid()
      modifies reader, reader.input, reader.input.buf, left, left.buf
      ensures Valid() && left.Contents() == []
      ensures reader.good ==> data + Pending() == old(Pending())
      ensures reader.good ==> Pending() == [] || Starved(old(reader.script), reader.script) || Cramped()
    {
      hide Wire, AfterLine, GoodStream, Starved, Suffix, Joined, ChunkReader.Valid, ChunkReader.Budget,
          BodyReader.Pending;
      ghost var total := Pending();
      SuffixSelf(reader.script);
      BudgetIsNatural();
      while true
        invariant Valid() && (left.buf == old(left.buf) || fresh(left.buf)) &&
                  reader.input.limit == old(reader.input.limit)
        invariant reader.input.buf == old(reader.input.buf) || fresh(reader.input.buf)
        invariant Suffix(reader.script, old(reader.script)) && (reader.good ==> Pending() == total)
        invariant reader.Budget() >= 0
        decreases reader.Budget()
      {
        ghost var s0 := reader.script;
        var n := Pull();
        BudgetIsNatural();
        SuffixTrans(reader.script, s0, old(reader.script));
        StarvedLater(old(reader.script), s0, reader.script);
        if n == 0 {
          data := Take([], left.pos);
          return;
        }
      }
    }

    lemma BudgetIsNatural()
      requires Valid()
      ensures reader.Budget() >= 0
    {}

    /** uwsgi_chunked_read_smart with a length: exactly that much, or all there is, or what there was when the source
        went dry. Nothing is lost. */
    method ReadUpTo(len: nat) returns (data: seq<byte>)
      requires Valid() && len > 0
      modifies reader, reader.input, reader.input.buf, left, left.buf
      ensures Valid() && |data| <= len
      ensures reader.good ==> data + Pending() == old(Pending())
      ensures |data| < len ==> left.Contents() == []
      ensures reader.good && |data| < len ==> Pending() == [] || Starved(old(reader.script), reader.script) || Cramped()
    {
      hide Wire, AfterLine, GoodStream, Starved, Suffix, Joined, ChunkReader.Valid, ChunkReader.Budget,
          BodyReader.Pending;
      if len <= left.pos {
        data := Take([], len);
        return;
      }
      ghost var total := Pending();
      SuffixSelf(reader.script);
      data := Take([], left.pos);
      var remains := len - |data|;
      while remains > 0
        invariant Valid() && (left.buf == old(left.buf) || fresh(left.buf)) &&
                  reader.input.limit == old(reader.input.limit)
        invariant reader.input.buf == old(reader.input.buf) || fresh(reader.input.buf)
        invariant Suffix(reader.script, old(reader.script)) && (reader.good ==> data + Pending() == total)
        invariant 0 <= remains && |data| + left.pos + remains == len
        decreases remains
      {
        ghost var s0 := reader.script;
        var n := Pull();
        SuffixTrans(reader.script, s0, old(reader.script));
        StarvedLater(old(reader.script), s0, reader.script);
        if n == 0 {
          break;
        }
        if n > remains {
          data := Take(data, left.pos - (n - remains));
          return;
        }
        remains := remains - n;
      }
      data := Take(data, left.pos);
    }
  }
}
