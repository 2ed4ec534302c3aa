/** The chunked transfer coding of section 7.1 of RFC 9112 as core/chunked.c and core/buffer.c see it: size lines,
    hexadecimal numbers and whole streams, without chunk extensions. */
module ChunkWire {
  import opened Bytes

  const CR: byte := 13
  const LF: byte := 10

  predicate IsDigit(b: byte) { 48 <= b <= 57 }
  predicate IsLower(b: byte) { 97 <= b <= 122 }
  predicate IsUpper(b: byte) { 65 <= b <= 90 }

  /** What uwsgi_chunked_readline lets pass: any letter or digit. */
  predicate IsAlnum(b: byte) {
    IsDigit(b) || IsLower(b) || IsUpper(b)
  }

  predicate IsHex(b: byte) {
    IsDigit(b) || 97 <= b <= 102 || 65 <= b <= 70
  }

  function DigitValue(b: byte): nat
    requires IsHex(b)
  {
    if IsDigit(b) then b as nat - 48 else if IsLower(b) then b as nat - 87 else b as nat - 55
  }

  ghost predicate AllHex(s: seq<byte>) {
    forall i :: 0 <= i < |s| ==> IsHex(s[i])
  }

  function HexValue(s: seq<byte>): nat
    requires AllHex(s)
  {
    if s == [] then 0 else 16 * HexValue(s[..|s| - 1]) + DigitValue(s[|s| - 1])
  }

  // ---------------------------------------------------------------- printing, as snprintf("%X") does

  function DigitOf(v: nat): (b: byte)
    requires v < 16
    ensures IsHex(b) && DigitValue(b) == v
  {
    if v < 10 then (48 + v) as byte else (55 + v) as byte
  }

  function Print(n: nat): (s: seq<byte>)
    ensures s != [] && AllHex(s)
  {
    if n < 16 then [DigitOf(n)] else Print(n / 16) + [DigitOf(n % 16)]
  }

  /** Reading a printed number gives the number. */
  lemma {:induction false} PrintThenRead(n: nat)
    ensures HexValue(Print(n)) == n
  {
    var s := Print(n);
    if n < 16 {
      assert s[..0] == [];
    } else {
      PrintThenRead(n / 16);
      assert s[..|s| - 1] == Print(n / 16);
    }
  }

  /** The digits from 0 to 9, then A to F in either case; the first digit of a number weighs most. */
  lemma DigitsAre(v: nat)
    requires v < 16
    ensures IsHex("0123456789ABCDEF"[v] as int as byte) && DigitValue("0123456789ABCDEF"[v] as int as byte) == v
    ensures IsHex("0123456789abcdef"[v] as int as byte) && DigitValue("0123456789abcdef"[v] as int as byte) == v
  {}

  lemma {:induction false} FirstDigitWeighsMost(d: byte, s: seq<byte>)
    requires IsHex(d) && AllHex(s)
    ensures HexValue([d] + s) == Shifted(DigitValue(d), |s|) + HexValue(s)
  {
    hide DigitValue, IsHex;
    if s != [] {
      var n := |s| - 1;
      FirstDigitWeighsMost(d, s[..n]);
      assert ([d] + s)[..n + 1] == [d] + s[..n] && ([d] + s)[n + 1] == s[n];
    } else {
      assert ([d] + s)[..0] == [];
    }
  }

  /** v followed by n zeroes in hexadecimal. */
  function Shifted(v: nat, n: nat): nat {
    if n == 0 then v else 16 * Shifted(v, n - 1)
  }

  // ---------------------------------------------------------------- strtoul(s, NULL, 16)

  function HexPrefix(s: seq<byte>): (n: nat)
    ensures n <= |s| && AllHex(s[..n]) && (n < |s| ==> !IsHex(s[n]))
  {
    if s == [] || !IsHex(s[0]) then 0 else 1 + HexPrefix(s[1..])
  }

  function SkipSpace(s: seq<byte>): (r: seq<byte>)
    ensures |r| <= |s|
  {
    if s != [] && (9 <= s[0] <= 13 || s[0] == 32) then SkipSpace(s[1..]) else s
  }

  /** White space, a sign, an 0x prefix and the longest run of hexadecimal digits; too large a number saturates. */
  function Strtoul(s: seq<byte>): (v: nat)
    ensures v < WORD
  {
    var t := SkipSpace(s);
    var minus := t != [] && t[0] == 45;
    var u := if t != [] && (t[0] == 45 || t[0] == 43) then t[1..] else t;
    var d := if |u| > 2 && u[0] == 48 && (u[1] == 120 || u[1] == 88) && IsHex(u[2]) then u[2..] else u;
    var v := HexValue(d[..HexPrefix(d)]);
    if v >= WORD then WORD - 1 else if minus && v > 0 then WORD - v else v
  }

  /** A size_t stored in a ssize_t. */
  function Signed(v: nat): int {
    if v < 0x8000_0000_0000_0000 then v else v - WORD
  }

  lemma {:induction false} HexPrefixIs(s: seq<byte>, rest: seq<byte>)
    requires AllHex(s) && (rest != [] ==> !IsHex(rest[0]))
    ensures HexPrefix(s + rest) == |s|
  {
    if s == [] {
      assert s + rest == rest;
    } else {
      HexPrefixIs(s[1..], rest);
      assert (s + rest)[1..] == s[1..] + rest;
    }
  }

  /** Without white space, sign and prefix it is the value of the digits in front. */
  lemma StrtoulOfDigits(s: seq<byte>)
    requires s != [] && IsHex(s[0]) && (|s| > 1 ==> s[1] == CR || IsHex(s[1]))
    ensures var v := HexValue(s[..HexPrefix(s)]); Strtoul(s) == if v >= WORD then WORD - 1 else v
  {
    hide HexValue, HexPrefix;
    assert SkipSpace(s) == s;
  }

  /** On a size line of hexadecimal digits strtoul reads the number and stops at the carriage return. */
  lemma StrtoulReadsLine(line: seq<byte>, rest: seq<byte>)
    requires line != [] && AllHex(line) && HexValue(line) < WORD
    ensures Strtoul(line + [CR] + rest) == HexValue(line)
  {
    hide HexValue, HexPrefix, Strtoul;
    var s := line + ([CR] + rest);
    assert line + [CR] + rest == s;
    assert s[0] == line[0] && (|line| > 1 ==> s[1] == line[1]) && (|line| == 1 ==> s[1] == CR);
    StrtoulOfDigits(s);
    HexPrefixIs(line, [CR] + rest);
    assert s[..|line|] == line;
  }

  // ---------------------------------------------------------------- size lines

  datatype Line = More | Bad | Ends(cr: nat)

  /** uwsgi_chunked_readline from position i on: where the line ends, if all of it is there. */
  function Scan(s: seq<byte>, i: nat): (r: Line)
    requires i <= |s|
    ensures r.Ends? ==> i <= r.cr && r.cr + 2 <= |s| && s[r.cr] == CR && s[r.cr + 1] == LF
    decreases |s| - i
  {
    if i == |s| then More
    else if IsAlnum(s[i]) then Scan(s, i + 1)
    else if s[i] != CR then Bad
    else if i + 1 == |s| then More
    else if s[i + 1] == LF then Ends(i)
    else Bad
  }

  lemma ScanStep(s: seq<byte>, i: nat)
    requires i <= |s|
    ensures Scan(s, i) ==
            if i == |s| then More
            else if IsAlnum(s[i]) then Scan(s, i + 1)
            else if s[i] != CR then Bad
            else if i + 1 == |s| then More
            else if s[i + 1] == LF then Ends(i)
            else Bad
    ensures !IsAlnum(CR)
  {}

  /** Exactly how a line is judged: by the first byte that is no letter or digit, and the one behind it. */
  lemma {:induction false} ScanIs(s: seq<byte>, i: nat, n: nat)
    requires i <= n <= |s| && (forall k :: i <= k < n ==> IsAlnum(s[k])) && (n < |s| ==> !IsAlnum(s[n]))
    ensures Scan(s, i) ==
            if n == |s| || (s[n] == CR && n + 1 == |s|) then More
            else if s[n] == CR && s[n + 1] == LF then Ends(n)
            else Bad
    decreases n - i
  {
    if i < n {
      ScanIs(s, i + 1, n);
    }
  }

  lemma OnlyLettersAndDigits(b: byte)
    ensures IsAlnum(b) <==>
            var c := b as int as char;
            '0' <= c <= '9' || 'a' <= c <= 'z' || 'A' <= c <= 'Z'
  {}

  /** Anything but letters and digits before the line end, such as the ; of a chunk extension, makes a line bad. */
  lemma ExtensionsAreRefused(size: seq<byte>, b: byte, rest: seq<byte>)
    requires forall k :: 0 <= k < |size| ==> IsAlnum(size[k])
    requires b != CR && !IsAlnum(b)
    ensures Scan(size + [b] + rest, 0) == Bad
  {
    ScanIs(size + [b] + rest, 0, |size|);
  }

  /** Where a bad line is found to be bad: the number of bytes up to the one that decides it. */
  function BadAt(s: seq<byte>, i: nat): nat
    requires i <= |s|
    decreases |s| - i
  {
    if i == |s| then i
    else if IsAlnum(s[i]) then BadAt(s, i + 1)
    else if s[i] != CR then i + 1
    else i + 2
  }

  /** On a shorter prefix more is wanted, and on any longer one the line is bad. */
  lemma {:induction false} BadOfPrefix(s: seq<byte>, t: seq<byte>, i: nat)
    requires i <= |s| && s <= t && Scan(t, i).Bad?
    ensures Scan(s, i) == if |s| < BadAt(t, i) then More else Bad
    ensures i < BadAt(t, i) <= |t|
    decreases |s| - i
  {
    if i < |s| {
      assert s[i] == t[i];
      if IsAlnum(t[i]) {
        BadOfPrefix(s, t, i + 1);
      }
    } else {
      BadIsWithin(t, i);
    }
  }

  lemma {:induction false} BadIsWithin(t: seq<byte>, i: nat)
    requires i <= |t| && Scan(t, i).Bad?
    ensures i < BadAt(t, i) <= |t|
    decreases |t| - i
  {
    if IsAlnum(t[i]) {
      BadIsWithin(t, i + 1);
    }
  }

  /** A line that is no number is read as the end of the body. */
  lemma NoNumberReadsAsTheEnd(line: seq<byte>, rest: seq<byte>)
    requires line != [] && (forall k :: 0 <= k < |line| ==> IsAlnum(line[k])) && !IsHex(line[0])
    ensures var s := line + [CR, LF] + rest;
            Scan(s, 0) == Ends(|line|) && Strtoul(s) == 0
  {
    var s := line + [CR, LF] + rest;
    ScanIs(s, 0, |line|);
    assert s[0] == line[0] && IsAlnum(line[0]);
    assert SkipSpace(s) == s;
    assert HexPrefix(s) == 0 && s[..0] == [];
  }

  /** An empty line gets its size from the line behind it, if that has been received, and only the first is dropped. */
  lemma EmptyLineReadsTheNext(line: seq<byte>, rest: seq<byte>)
    requires line != [] && AllHex(line) && HexValue(line) < WORD
    ensures var s := [CR, LF] + (line + [CR] + rest);
            Scan(s, 0) == Ends(0) && Strtoul(s) == HexValue(line)
  {
    hide HexValue;
    var t := line + [CR] + rest;
    var s := [CR, LF] + t;
    StrtoulReadsLine(line, rest);
    assert IsHex(t[0]);
    assert s[1..][1..] == t && s[1..][0] == LF;
    assert SkipSpace(s) == SkipSpace(s[1..]) == SkipSpace(t) == t;
  }

  // ---------------------------------------------------------------- streams

  /** One chunk: its size in hexadecimal digits, its bytes, and the two bytes behind them. */
  datatype Chunk = Chunk(line: seq<byte>, payload: seq<byte>, end: seq<byte>)

  ghost predicate GoodChunk(c: Chunk) {
    && c.line != [] && AllHex(c.line) && HexValue(c.line) == |c.payload| && |c.end| == 2
    && 0 < |c.payload| < 0x8000_0000_0000_0000 - 2
  }

  /** How a body goes on behind its last chunk: with a size line of zeroes and bytes that nobody looks at, or with a
      line that is none. */
  datatype Ending = Last(line: seq<byte>, tail: seq<byte>) | Broken(rest: seq<byte>)

  ghost predicate GoodEnding(e: Ending) {
    match e
    case Last(line, _) => line != [] && AllHex(line) && HexValue(line) == 0
    case Broken(rest) => Scan(rest, 0).Bad?
  }

  /** The bytes of a chunked body. */
  function Wire(chunks: seq<Chunk>, e: Ending): seq<byte> {
    if chunks == [] then match e case Last(line, tail) => line + [CR, LF] + tail case Broken(rest) => rest
    else chunks[0].line + [CR, LF] + chunks[0].payload + chunks[0].end + Wire(chunks[1..], e)
  }

  ghost predicate GoodStream(chunks: seq<Chunk>, e: Ending) {
    GoodEnding(e) && forall i :: 0 <= i < |chunks| ==> GoodChunk(chunks[i])
  }

  /** The stream starts with a size line. */
  predicate HasLine(chunks: seq<Chunk>, e: Ending) {
    chunks != [] || e.Last?
  }

  function FirstLine(chunks: seq<Chunk>, e: Ending): seq<byte>
    requires HasLine(chunks, e)
  {
    if chunks == [] then e.line else chunks[0].line
  }

  /** How many bytes it takes to see how the body ends. */
  function EndNeed(e: Ending): nat {
    match e
    case Last(line, _) => |line| + 2
    case Broken(rest) => BadAt(rest, 0)
  }

  /** How many bytes it takes to read the line that comes first, or to see that it is bad. */
  function LineNeed(chunks: seq<Chunk>, e: Ending): nat {
    if chunks == [] then EndNeed(e) else |chunks[0].line| + 2
  }

  /** What follows the first size line. */
  function AfterLine(chunks: seq<Chunk>, e: Ending): seq<byte> {
    if chunks != [] then chunks[0].payload + chunks[0].end + Wire(chunks[1..], e)
    else if e.Last? then e.tail
    else []
  }

  lemma Regroup(a: seq<byte>, b: seq<byte>, c: seq<byte>, d: seq<byte>)
    ensures a + b + c + d == a + (b + c + d)
  {
    assert a + b + c == a + (b + c);
    assert (a + (b + c)) + d == a + ((b + c) + d);
  }

  lemma WireIsLineAndRest(chunks: seq<Chunk>, e: Ending)
    requires HasLine(chunks, e)
    ensures Wire(chunks, e) == FirstLine(chunks, e) + [CR, LF] + AfterLine(chunks, e)
    ensures LineNeed(chunks, e) == |FirstLine(chunks, e)| + 2
  {
    if chunks != [] {
      var c := chunks[0];
      Regroup(c.line + [CR, LF], c.payload, c.end, Wire(chunks[1..], e));
    }
  }

  /** A prefix of the stream that is at a size line: more is needed, or the line is complete and read, or found bad. */
  lemma LineOfPrefix(chunks: seq<Chunk>, e: Ending, s: seq<byte>)
    requires GoodStream(chunks, e) && s <= Wire(chunks, e)
    ensures if |s| < LineNeed(chunks, e) then Scan(s, 0) == More
            else if !HasLine(chunks, e) then Scan(s, 0) == Bad
            else Scan(s, 0) == Ends(LineNeed(chunks, e) - 2) && Strtoul(s) == HexValue(FirstLine(chunks, e))
                 && s[LineNeed(chunks, e)..] <= AfterLine(chunks, e)
  {
    hide AfterLine, Scan, Strtoul, HexValue, FirstLine;
    if !HasLine(chunks, e) {
      BadOfPrefix(s, e.rest, 0);
      return;
    }
    hide Wire, LineNeed;
    var line, after := FirstLine(chunks, e), AfterLine(chunks, e);
    WireIsLineAndRest(chunks, e);
    LineIsHex(chunks, e);
    LineOfBytes(line, after, s);
  }

  lemma LineIsHex(chunks: seq<Chunk>, e: Ending)
    requires GoodStream(chunks, e) && HasLine(chunks, e)
    ensures var line := FirstLine(chunks, e); line != [] && AllHex(line) && HexValue(line) < WORD
  {
    assert chunks != [] ==> GoodChunk(chunks[0]);
  }

  lemma LineOfBytes(line: seq<byte>, after: seq<byte>, s: seq<byte>)
    requires line != [] && AllHex(line) && HexValue(line) < WORD && s <= line + [CR, LF] + after
    ensures if |s| < |line| + 2 then Scan(s, 0) == More
            else Scan(s, 0) == Ends(|line|) && Strtoul(s) == HexValue(line) && s[|line| + 2..] <= after
  {
    hide Scan, Strtoul, HexValue, IsHex;
    PartsOfLine(line, after, s);
    ScanOfLine(s, line);
    if |line| + 2 <= |s| {
      StrtoulReadsLine(line, s[|line| + 1..]);
    }
  }

  lemma PartsOfLine(line: seq<byte>, after: seq<byte>, s: seq<byte>)
    requires s <= line + [CR, LF] + after
    ensures forall k :: 0 <= k < |line| && k < |s| ==> s[k] == line[k]
    ensures (|line| < |s| ==> s[|line|] == CR) && (|line| + 1 < |s| ==> s[|line| + 1] == LF)
    ensures |line| + 2 <= |s| ==> s == line + [CR] + s[|line| + 1..] && s[|line| + 2..] <= after
  {
    var w := line + [CR, LF] + after;
    if |line| + 2 <= |s| {
      assert s[..|line|] == line;
      assert w[|line| + 2..] == after;
      assert s[|line| + 2..] == w[|line| + 2..|s|];
    }
  }

  lemma ScanOfLine(s: seq<byte>, line: seq<byte>)
    requires forall k :: 0 <= k < |line| && k < |s| ==> IsHex(s[k])
    requires (|line| < |s| ==> s[|line|] == CR) && (|line| + 1 < |s| ==> s[|line| + 1] == LF)
    ensures Scan(s, 0) == if |s| < |line| + 2 then More else Ends(|line|)
  {
    hide Scan;
    ScanIs(s, 0, if |s| < |line| then |s| else |line|);
  }

  // ---------------------------------------------------------------- what uwsgi_buffer_append_chunked prints

  /** The size line for a length, as an unsigned 32 bit number. */
  function Header(len: nat): seq<byte> {
    Print(len % 0x1_0000_0000) + [CR, LF]
  }

  /** A printed header, the payload and a line end are a good chunk exactly for the lengths from 1 to 2^32 - 1. */
  lemma PrintedChunkIsGoodIff(payload: seq<byte>)
    requires |payload| < 0x8000_0000_0000_0000 - 2
    ensures GoodChunk(Chunk(Print(|payload| % 0x1_0000_0000), payload, [CR, LF])) <==> 0 < |payload| < 0x1_0000_0000
  {
    PrintThenRead(|payload| % 0x1_0000_0000);
  }

  /** A chunk of 2^32 bytes is announced as the end of the body. */
  lemma FourGigabytesReadAsTheEnd(rest: seq<byte>)
    ensures Strtoul(Header(0x1_0000_0000) + rest) == 0
  {
    PrintedHeaderIsRead(0x1_0000_0000, rest);
  }

  /** It is read back as the length modulo 2^32, whatever follows. */
  lemma PrintedHeaderIsRead(len: nat, rest: seq<byte>)
    ensures var s := Header(len) + rest;
            Scan(s, 0) == Ends(|Header(len)| - 2) && Strtoul(s) == len % 0x1_0000_0000
  {
    var n := len % 0x1_0000_0000;
    PrintThenRead(n);
    var s := Header(len) + rest;
    ScanIs(s, 0, |Print(n)|);
    assert s == Print(n) + [CR] + ([LF] + rest);
    StrtoulReadsLine(Print(n), [LF] + rest);
  }

  /** A body as uWSGI itself sends it: header, payload and line end per chunk, and a final 0 header. */
  function Printed(payloads: seq<seq<byte>>): seq<byte> {
    if payloads == [] then Header(0)
    else Header(|payloads[0]|) + payloads[0] + [CR, LF] + Printed(payloads[1..])
  }

  function AsChunks(payloads: seq<seq<byte>>): (c: seq<Chunk>)
    ensures |c| == |payloads|
    ensures forall i :: 0 <= i < |c| ==> c[i] == Chunk(Print(|payloads[i]| % 0x1_0000_0000), payloads[i], [CR, LF])
  {
    if payloads == [] then []
    else [Chunk(Print(|payloads[0]| % 0x1_0000_0000), payloads[0], [CR, LF])] + AsChunks(payloads[1..])
  }

  /** What is printed is a well-formed stream of exactly the payloads. */
  lemma {:induction false} PrintedIsWellFormed(payloads: seq<seq<byte>>, tail: seq<byte>)
    requires forall i :: 0 <= i < |payloads| ==> 0 < |payloads[i]| < 0x1_0000_0000
    ensures GoodStream(AsChunks(payloads), Last(Print(0), tail))
    ensures Printed(payloads) + tail == Wire(AsChunks(payloads), Last(Print(0), tail))
  {
    PrintThenRead(0);
    forall i | 0 <= i < |payloads|
      ensures GoodChunk(AsChunks(payloads)[i])
    {
      PrintedChunkIsGoodIff(payloads[i]);
    }
    if payloads != [] {
      PrintedIsWellFormed(payloads[1..], tail);
      var c := AsChunks(payloads);
      assert c[1..] == AsChunks(payloads[1..]);
      hide Print, Printed, AsChunks;
      var head := c[0].line + [CR, LF] + c[0].payload + c[0].end;
      assert Wire(c, Last(Print(0), tail)) == head + Wire(c[1..], Last(Print(0), tail));
      PrintedHead(payloads, head);
      assert head + (Printed(payloads[1..]) + tail) == (head + Printed(payloads[1..])) + tail;
    }
  }

  lemma PrintedHead(payloads: seq<seq<byte>>, head: seq<byte>)
    requires payloads != []
    requires head == Print(|payloads[0]| % 0x1_0000_0000) + [CR, LF] + payloads[0] + [CR, LF]
    ensures Printed(payloads) == head + Printed(payloads[1..])
  {}
}
