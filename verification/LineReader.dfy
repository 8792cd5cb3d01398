/** The buffered line reader: a window of two blocks slid over the input, with a third block
    that a worker may fill ahead of time. */
module LineReading {
  import opened LineSplit
  import opened Texts

  // ----- overwriting part of a buffer -----

  function Put(s: string, at: nat, t: string): string
    requires at + |t| <= |s|
  {
    s[..at] + t + s[at + |t|..]
  }

  lemma PutElsewhere(s: string, at: nat, t: string, a: nat, b: nat)
    requires at + |t| <= |s| && a <= b <= |s| && (b <= at || at + |t| <= a)
    ensures Put(s, at, t)[a..b] == s[a..b]
  {
  }

  lemma PutThere(s: string, at: nat, t: string, n: nat)
    requires at + |t| <= |s| && n <= |t|
    ensures Put(s, at, t)[at..at + n] == t[..n]
  {
  }

  lemma Joint(s: string, a: nat, b: nat, c: nat)
    requires a <= b <= c <= |s|
    ensures s[a..c] == s[a..b] + s[b..c]
  {
  }

  lemma StartOfSlice(s: string, a: nat, b: nat, n: nat)
    requires a + n <= b <= |s|
    ensures s[a..b][..n] == s[a..a + n]
  {
  }

  /** memcpy(buffer + to, buffer + from, n) for regions that do not overlap */
  method MemCpy(buffer: array<char>, to: nat, from: nat, n: nat)
    requires to + n <= from && from + n <= buffer.Length
    modifies buffer
    ensures buffer[..] == Put(old(buffer[..]), to, old(buffer[from..from + n]))
  {
    forall i | 0 <= i < n { buffer[to + i] := buffer[from + i]; }
  }

  // ----- the readers -----

  /** A source that returns fewer bytes than asked for only at the end of its input. */
  class ByteSource {
    var rest: string

    constructor (content: string)
      ensures rest == content
    {
      rest := content;
    }

    method Read(buffer: array<char>, at: nat, desired: nat) returns (count: nat)
      requires at + desired <= buffer.Length
      modifies this, buffer
      ensures count == if |old(rest)| < desired then |old(rest)| else desired
      ensures buffer[..] == Put(old(buffer[..]), at, old(rest)[..count])
      ensures rest == old(rest)[count..]
    {
      count := if |rest| < desired then |rest| else desired;
      forall i | 0 <= i < count { buffer[at + i] := rest[i]; }
      rest := rest[count..];
    }
  }

  /** A block reader with at most one read under way. The worker may do a requested read at
      once or only when its result is waited for; the second is also what the synchronous
      reader does. After a read of no bytes the worker has exited. */
  class AsynchronousReader {
    var byteSource: ByteSource?
    var desiredByteCount: int
    var readByteCount: int
    var workerExited: bool

    constructor ()
      ensures byteSource == null
    {
      byteSource, desiredByteCount, readByteCount, workerExited := null, -1, -1, false;
    }

    predicate IsValid()
      reads this
    {
      byteSource != null
    }

    method Init(source: ByteSource)
      modifies this
      ensures byteSource == source && desiredByteCount == -1 && readByteCount == -1 && !workerExited
    {
      byteSource, desiredByteCount, readByteCount, workerExited := source, -1, -1, false;
    }

    /** One round of the worker's loop. */
    method WorkerRead(buffer: array<char>, at: nat)
      requires IsValid() && 0 <= desiredByteCount && at + desiredByteCount <= buffer.Length && !workerExited
      modifies this`desiredByteCount, this`readByteCount, this`workerExited, byteSource, buffer
      ensures desiredByteCount == -1
      ensures readByteCount
        == if |old(byteSource.rest)| < old(desiredByteCount) then |old(byteSource.rest)| else old(desiredByteCount)
      ensures buffer[..] == Put(old(buffer[..]), at, old(byteSource.rest)[..readByteCount])
      ensures byteSource.rest == old(byteSource.rest)[readByteCount..]
      ensures workerExited <==> readByteCount == 0
    {
      readByteCount := byteSource.Read(buffer, at, desiredByteCount);
      desiredByteCount := -1;
      workerExited := readByteCount == 0;
    }

    /** A read of n bytes has been requested; it may have been done. */
    ghost predicate Requested(n: nat)
      reads this, byteSource
    {
      && IsValid()
      && (readByteCount == -1 ==> desiredByteCount == n && (workerExited ==> byteSource.rest == ""))
      && (readByteCount != -1 ==> 0 <= readByteCount <= n && (readByteCount < n ==> byteSource.rest == "") &&
                                  (workerExited <==> readByteCount == 0))
    }

    /** The bytes not yet handed over: those already read into the block at `at` of the buffer
        contents s, then the rest of the source. */
    ghost function Ahead(s: string, at: nat, n: nat): string
      requires Requested(n) && at + n <= |s|
      reads this, byteSource
    {
      if readByteCount == -1 then byteSource.rest else s[at..at + readByteCount] + byteSource.rest
    }

    lemma NothingAhead(s: string, at: nat, n: nat)
      requires Requested(n) && at + n <= |s|
      requires byteSource.rest == "" && readByteCount <= 0
      ensures Ahead(s, at, n) == ""
    {
    }

    /** Requests a read; `now` says whether the worker does it before the caller goes on. */
    method StartRead(buffer: array<char>, at: nat, n: nat, now: bool)
      requires IsValid() && 0 < n && at + n <= buffer.Length
      requires workerExited ==> byteSource.rest == ""
      modifies this`desiredByteCount, this`readByteCount, this`workerExited, byteSource, buffer
      ensures Requested(n) && Ahead(buffer[..], at, n) == old(byteSource.rest)
      ensures old(workerExited) ==> readByteCount == -1 && workerExited
      ensures !old(workerExited) ==> readByteCount == -1 ==> !workerExited
      ensures buffer[..][..at] == old(buffer[..])[..at] && buffer[..][at + n..] == old(buffer[..])[at + n..]
    {
      desiredByteCount, readByteCount := n, -1;
      assert buffer[..] == Put(buffer[..], at, "");
      if now && !workerExited {
        WorkerRead(buffer, at);
        PutThere(old(buffer[..]), at, old(byteSource.rest)[..readByteCount], readByteCount);
      }
    }

    /** Waits for the requested read. The precondition is what keeps the wait from being in
        vain: the worker has done the read, or is still there to do it. */
    method FinishRead(buffer: array<char>, at: nat, ghost n: nat) returns (count: nat)
      requires at + n <= buffer.Length && Requested(n) && (readByteCount == -1 ==> !workerExited)
      modifies this`desiredByteCount, this`readByteCount, this`workerExited, byteSource, buffer
      ensures count == if |old(Ahead(buffer[..], at, n))| < n then |old(Ahead(buffer[..], at, n))| else n
      ensures buffer[..] == Put(old(buffer[..]), at, old(Ahead(buffer[..], at, n))[..count])
      ensures byteSource.rest == old(Ahead(buffer[..], at, n))[count..]
      ensures workerExited <==> count == 0
    {
      if readByteCount == -1 {
        WorkerRead(buffer, at);
      } else {
        assert buffer[..] == Put(buffer[..], at, buffer[at..at + readByteCount]);
      }
      count := readByteCount;
    }
  }

  datatype LineResult =
    | EndOfInput
    | LineAt(begin: nat)         // the line is the C string at buffer[begin..]
    | LengthExceeded(line: nat)  // thrown, with the number of the line

  class LineReader {
    const blockLen: nat
    const buffer: array<char>
    const reader: AsynchronousReader
    var dataBegin: nat
    var dataEnd: nat
    var fileLine: nat

    /** The window lies in the first two blocks; it is cut short only at the end of the input;
        and once the worker has exited no line can begin in the second block. */
    ghost predicate Valid()
      reads this, reader, reader.byteSource
    {
      && 2 <= blockLen && buffer.Length == 3 * blockLen
      && dataBegin <= dataEnd <= 2 * blockLen && dataBegin < 2 * blockLen
      && (reader.IsValid() ==>
            && reader.Requested(blockLen)
            && (dataEnd < 2 * blockLen ==> reader.byteSource.rest == "" && reader.readByteCount <= 0)
            && (reader.readByteCount == -1 && reader.workerExited ==> dataEnd <= blockLen || dataBegin == dataEnd))
    }

    ghost function Later(s: string): string
      requires Valid() && |s| == buffer.Length
      reads this, reader, reader.byteSource
    {
      if reader.IsValid() then reader.Ahead(s, 2 * blockLen, blockLen) else ""
    }

    /** The input that no line has been returned from yet: the window, and what is to come. */
    ghost function Rest(): string
      requires Valid()
      reads this, buffer, reader, reader.byteSource
    {
      buffer[..][dataBegin..dataEnd] + Later(buffer[..])
    }

    constructor (byteSource: ByteSource, blockLen: nat)
      requires 2 <= blockLen
      modifies byteSource
      ensures Valid() && this.blockLen == blockLen && buffer.Length == 3 * blockLen && fileLine == 0 &&
        fresh(reader) && fresh(buffer)
      ensures reader.byteSource == null || reader.byteSource == byteSource
      ensures Rest() == DropBom(old(byteSource.rest))
    {
      this.blockLen := blockLen;
      buffer := new char[3 * blockLen];
      reader := new AsynchronousReader();
      fileLine, dataBegin, dataEnd := 0, 0, 0;
      new;
      hide DropBom, AsynchronousReader.Ahead;
      ReadFirstBlocks(byteSource);
      if dataEnd == 2 * blockLen {
        reader.Init(byteSource);
        RequestBlock();
      }
    }

    /** Fills the first two blocks and steps over a byte order mark. */
    method ReadFirstBlocks(byteSource: ByteSource)
      requires 2 <= blockLen && buffer.Length == 3 * blockLen
      modifies this`dataBegin, this`dataEnd, buffer, byteSource
      ensures dataBegin <= dataEnd <= 2 * blockLen && dataBegin < 2 * blockLen
      ensures dataEnd < 2 * blockLen ==> byteSource.rest == ""
      ensures buffer[..][dataBegin..dataEnd] + byteSource.rest == DropBom(old(byteSource.rest))
    {
      hide Put, DropBom;
      ghost var content, s := byteSource.rest, buffer[..];
      dataBegin := 0;
      dataEnd := byteSource.Read(buffer, 0, 2 * blockLen);
      PutThere(s, 0, content[..dataEnd], dataEnd);
      BomInWindow(content, dataEnd, buffer[..]);
      if dataEnd >= 3 && buffer[0] == '\U{EF}' && buffer[1] == '\U{BB}' && buffer[2] == '\U{BF}' {
        dataBegin := 3;
      }
    }

    /** Requests the read of the third block. */
    method RequestBlock()
      requires 2 <= blockLen && buffer.Length == 3 * blockLen && dataBegin <= dataEnd <= 2 * blockLen &&
        dataBegin < 2 * blockLen
      requires reader.IsValid() && (dataEnd < 2 * blockLen ==> reader.byteSource.rest == "")
      requires reader.workerExited ==> reader.byteSource.rest == "" && dataEnd <= blockLen
      modifies buffer, reader`desiredByteCount, reader`readByteCount, reader`workerExited, reader.byteSource
      ensures Valid() && Rest() == old(buffer[..])[dataBegin..dataEnd] + old(reader.byteSource.rest)
    {
      var now: bool := *;
      reader.StartRead(buffer, 2 * blockLen, blockLen, now);
      PrefixSlices(buffer[..], old(buffer[..]), 2 * blockLen, dataBegin, dataEnd);
    }

    /** Moves the second block to the front and refills behind it. */
    method SlideWindow()
      requires Valid() && blockLen <= dataBegin < dataEnd
      modifies this`dataBegin, this`dataEnd, buffer
      modifies reader`desiredByteCount, reader`readByteCount, reader`workerExited, reader.byteSource
      ensures Valid() && Rest() == old(Rest()) && dataBegin < dataEnd && dataBegin < blockLen
    {
      hide AsynchronousReader.Ahead;
      MoveToFront();
      if reader.IsValid() {
        SameAhead(old(buffer[..]), buffer[..]);
        if dataEnd < blockLen { reader.NothingAhead(buffer[..], 2 * blockLen, blockLen); }
        Refill();
      }
    }

    method MoveToFront()
      requires buffer.Length == 3 * blockLen && blockLen <= dataBegin < dataEnd <= 2 * blockLen
      modifies this`dataBegin, this`dataEnd, buffer
      ensures dataBegin == old(dataBegin) - blockLen && dataEnd == old(dataEnd) - blockLen
      ensures buffer[..][dataBegin..dataEnd] == old(buffer[..][dataBegin..dataEnd])
      ensures buffer[..][2 * blockLen..3 * blockLen] == old(buffer[..][2 * blockLen..3 * blockLen])
    {
      hide Put;
      ghost var s := buffer[..];
      MemCpy(buffer, 0, blockLen, blockLen);
      SlidFront(s, blockLen, dataBegin, dataEnd);
      PutElsewhere(s, 0, s[blockLen..2 * blockLen], 2 * blockLen, 3 * blockLen);
      dataBegin, dataEnd := dataBegin - blockLen, dataEnd - blockLen;
    }

    lemma SameAhead(s: string, t: string)
      requires reader.Requested(blockLen) && |s| == |t| == 3 * blockLen
      requires s[2 * blockLen..3 * blockLen] == t[2 * blockLen..3 * blockLen]
      ensures reader.Ahead(s, 2 * blockLen, blockLen) == reader.Ahead(t, 2 * blockLen, blockLen)
    {
      if reader.readByteCount >= 0 {
        var n := reader.readByteCount;
        StartOfSlice(s, 2 * blockLen, 3 * blockLen, n);
        StartOfSlice(t, 2 * blockLen, 3 * blockLen, n);
      }
    }

    /** Waits for the block read ahead, copies it behind the window and requests the next. */
    method Refill()
      requires 2 <= blockLen && buffer.Length == 3 * blockLen && dataBegin < dataEnd <= blockLen
      requires reader.IsValid() && reader.Requested(blockLen) && (reader.readByteCount == -1 ==> !reader.workerExited)
      requires dataEnd < blockLen ==> reader.Ahead(buffer[..], 2 * blockLen, blockLen) == ""
      modifies this`dataEnd, buffer
      modifies reader`desiredByteCount, reader`readByteCount, reader`workerExited, reader.byteSource
      ensures Valid() && old(dataEnd) <= dataEnd
      ensures Rest() == old(buffer[..])[dataBegin..old(dataEnd)] + old(reader.Ahead(buffer[..], 2 * blockLen, blockLen))
    {
      hide Put, AsynchronousReader.Ahead;
      ghost var s0, end, ahead := buffer[..], dataEnd, reader.Ahead(buffer[..], 2 * blockLen, blockLen);
      var count := reader.FinishRead(buffer, 2 * blockLen, blockLen);
      ghost var s1 := buffer[..];
      dataEnd := dataEnd + count;
      MemCpy(buffer, blockLen, 2 * blockLen, blockLen);
      ghost var s2 := buffer[..];
      BlockTaken(s0, s1, s2, blockLen, dataBegin, end, ahead[..count]);
      assert s2[dataBegin..dataEnd] == s0[dataBegin..end] + ahead[..count];
      RequestBlock();
      Rejoin(s0[dataBegin..end], ahead, count);
    }

    lemma WindowFirst()
      requires Valid()
      ensures Rest() == "" <==> dataBegin == dataEnd
    {
    }

    method FindLineEnd() returns (lineEnd: nat)
      requires Valid()
      ensures dataBegin <= lineEnd <= dataEnd && (lineEnd < dataEnd ==> buffer[lineEnd] == '\n')
      ensures forall k :: dataBegin <= k < lineEnd ==> buffer[k] != '\n'
    {
      lineEnd := dataBegin;
      while lineEnd != dataEnd && buffer[lineEnd] != '\n'
        invariant dataBegin <= lineEnd <= dataEnd && forall k :: dataBegin <= k < lineEnd ==> buffer[k] != '\n'
        decreases dataEnd - lineEnd
      {
        lineEnd := lineEnd + 1;
      }
    }

    /** Ends the line with '\0', also in place of a '\r' before its end, and goes on behind it.
        No '\0' is written at or beyond 2 * blockLen. */
    method CutLine(lineEnd: nat)
      requires Valid() && dataBegin < blockLen && dataBegin <= lineEnd <= dataEnd && lineEnd - dataBegin < blockLen
      requires lineEnd < dataEnd ==> buffer[lineEnd] == '\n'
      requires lineEnd == dataEnd ==> dataEnd < 2 * blockLen
      modifies this`dataBegin, this`dataEnd, buffer
      ensures Valid() && Rest()
        == (if lineEnd < old(dataEnd) then old(buffer[..][lineEnd + 1..dataEnd]) else "") + old(Later(buffer[..]))
      ensures UpTo(buffer[..][old(dataBegin)..], '\0') == Shown(old(buffer[..][dataBegin..lineEnd]))
      ensures buffer[..][2 * blockLen..3 * blockLen] == old(buffer[..])[2 * blockLen..3 * blockLen]
    {
      hide AsynchronousReader.Ahead, UpTo, Shown;
      ghost var s, end, later := buffer[..], dataEnd, Later(buffer[..]);
      if lineEnd == dataEnd {
        // the input ends without a newline: make room for the '\0'
        dataEnd := dataEnd + 1;
      }
      Terminate(buffer, dataBegin, lineEnd);
      ghost var t := buffer[..];
      LineTerminated(s, t, dataBegin, lineEnd);
      SuffixSlices(s, t, lineEnd + 1, 2 * blockLen, 3 * blockLen);
      if lineEnd < end { SuffixSlices(s, t, lineEnd + 1, lineEnd + 1, end); }
      if reader.IsValid() { SameAhead(s, t); }
      dataBegin := lineEnd + 1;
      assert t[dataBegin..dataEnd] == if lineEnd < end then s[lineEnd + 1..end] else "";
      assert Later(t) == later;
    }

    lemma NothingLater()
      requires Valid() && dataEnd < 2 * blockLen
      ensures Later(buffer[..]) == ""
    {
    }

    /** Returns the next line, or that there is none, or throws if it has blockLen or more
        characters before its newline. */
    method NextLine() returns (r: LineResult)
      requires Valid()
      modifies this`dataBegin, this`dataEnd, this`fileLine, buffer
      modifies reader`desiredByteCount, reader`readByteCount, reader`workerExited, reader.byteSource
      ensures Valid()
      ensures old(Rest()) == "" ==> r == EndOfInput && Rest() == "" && fileLine == old(fileLine)
      ensures old(Rest()) != "" ==> fileLine == (old(fileLine) + 1) % 0x1_0000_0000
      ensures old(Rest()) != "" && |UpTo(old(Rest()), '\n')| >= blockLen ==>
        r == LengthExceeded(fileLine) && Rest() == old(Rest())
      ensures old(Rest()) != "" && |UpTo(old(Rest()), '\n')| < blockLen ==>
        r.LineAt? && r.begin < 2 * blockLen && Rest() == After(old(Rest()), '\n') &&
        UpTo(buffer[..][r.begin..], '\0') == Shown(UpTo(old(Rest()), '\n'))
    {
      hide UpTo, After, Shown, AsynchronousReader.Ahead;
      WindowFirst();
      if dataBegin == dataEnd { return EndOfInput; }
      fileLine := (fileLine + 1) % 0x1_0000_0000;
      if dataBegin >= blockLen { SlideWindow(); }
      r := LineInWindow();
    }

    /** next_line once the window starts in the first block */
    method LineInWindow() returns (r: LineResult)
      requires Valid() && dataBegin < dataEnd && dataBegin < blockLen
      modifies this`dataBegin, this`dataEnd, buffer
      ensures Valid()
      ensures |UpTo(old(Rest()), '\n')| >= blockLen ==> r == LengthExceeded(fileLine) && Rest() == old(Rest())
      ensures |UpTo(old(Rest()), '\n')| < blockLen ==>
        r.LineAt? && r.begin < 2 * blockLen && Rest() == After(old(Rest()), '\n') &&
        UpTo(buffer[..][r.begin..], '\0') == Shown(UpTo(old(Rest()), '\n'))
    {
      hide UpTo, After, Shown, AsynchronousReader.Ahead;
      var lineEnd := FindLineEnd();
      LineEndFound(buffer[..], dataBegin, dataEnd, lineEnd, Later(buffer[..]));
      if dataEnd < 2 * blockLen { NothingLater(); }
      if lineEnd - dataBegin + 1 > blockLen { return LengthExceeded(fileLine); }
      r := LineAt(dataBegin);
      CutLine(lineEnd);
    }
  }

  /** The '\0' in place of the line's end, and in place of a '\r' before it. */
  method Terminate(buffer: array<char>, begin: nat, lineEnd: nat)
    requires begin <= lineEnd < buffer.Length
    modifies buffer
    ensures var chomped := if begin < lineEnd && old(buffer[..][lineEnd - 1]) == '\r' then lineEnd - 1 else lineEnd;
      buffer[..][..chomped] == old(buffer[..])[..chomped] && buffer[..][chomped] == '\0'
    ensures buffer[..][lineEnd + 1..] == old(buffer[..])[lineEnd + 1..]
  {
    buffer[lineEnd] := '\0';
    if lineEnd != begin && buffer[lineEnd - 1] == '\r' { buffer[lineEnd - 1] := '\0'; }
  }

  lemma SuffixSlices(s: string, t: string, n: nat, a: nat, b: nat)
    requires n <= a <= b <= |s| == |t| && s[n..] == t[n..]
    ensures s[a..b] == t[a..b]
  {
    assert forall i :: a <= i < b ==> s[i] == s[n..][i - n] == t[n..][i - n] == t[i];
  }

  /** lines is what has been shown of the raw lines of the input before `rest`, all short. */
  ghost predicate Read(input: string, raw: seq<string>, lines: seq<string>, rest: string, blockLen: nat) {
    && RawLines(input) == raw + RawLines(rest) && |raw| == |lines|
    && forall i :: 0 <= i < |raw| ==> lines[i] == Shown(raw[i]) && |raw[i]| < blockLen
  }

  lemma ReadNext(input: string, raw: seq<string>, lines: seq<string>, rest: string, blockLen: nat)
    requires Read(input, raw, lines, rest, blockLen) && rest != "" && |UpTo(rest, '\n')| < blockLen
    ensures Read(input, raw + [UpTo(rest, '\n')], lines + [Shown(UpTo(rest, '\n'))], After(rest, '\n'), blockLen)
    ensures |After(rest, '\n')| < |rest|
  {
    hide Shown, UpTo, After, RawLines;
    RawLinesStep(rest);
    var line, more := UpTo(rest, '\n'), RawLines(After(rest, '\n'));
    assert raw + ([line] + more) == raw + [line] + more;
  }

  lemma RawLinesStep(s: string)
    requires s != ""
    ensures RawLines(s) == [UpTo(s, '\n')] + RawLines(After(s, '\n')) && |After(s, '\n')| < |s|
  {
  }

  /** The first line of blockLen or more characters is line n (counted from 0). */
  ghost predicate FirstLong(raw: seq<string>, n: nat, blockLen: nat) {
    n < |raw| && |raw[n]| >= blockLen && forall i :: 0 <= i < n ==> |raw[i]| < blockLen
  }

  lemma ReadDone(input: string, raw: seq<string>, lines: seq<string>, blockLen: nat)
    requires Read(input, raw, lines, "", blockLen)
    ensures lines == Lines(input) && forall n :: !FirstLong(RawLines(input), n, blockLen)
  {
    hide Shown;
    assert RawLines("") == [] && RawLines(input) == raw;
  }

  lemma ReadStopped(input: string, raw: seq<string>, lines: seq<string>, rest: string, blockLen: nat)
    requires Read(input, raw, lines, rest, blockLen) && rest != "" && |UpTo(rest, '\n')| >= blockLen
    ensures FirstLong(RawLines(input), |lines|, blockLen) && lines == Lines(input)[..|lines|]
  {
    hide Shown;
    assert RawLines(rest) == [UpTo(rest, '\n')] + RawLines(After(rest, '\n'));
    assert RawLines(input)[|raw|] == UpTo(rest, '\n');
  }

  /** Repeated next_line over a whole input: for every block length the lines are those of the
      simple splitter, up to the first line of blockLen or more characters, where it throws. */
  method ReadAll(content: string, blockLen: nat) returns (lines: seq<string>, thrown: bool, thrownLine: nat)
    requires 2 <= blockLen
    ensures !thrown ==>
      lines == Lines(DropBom(content)) && forall n :: !FirstLong(RawLines(DropBom(content)), n, blockLen)
    ensures thrown ==> FirstLong(RawLines(DropBom(content)), |lines|, blockLen)
    ensures thrown ==> lines == Lines(DropBom(content))[..|lines|] && thrownLine == (|lines| + 1) % 0x1_0000_0000
  {
    hide LineReader.Rest, LineReader.Valid, UpTo, After, Shown, DropBom, RawLines, Lines, Read, FirstLong;
    var source := new ByteSource(content);
    var reader := new LineReader(source, blockLen);
    ghost var input := DropBom(content);
    ghost var raw: seq<string> := [];
    lines, thrown, thrownLine := [], false, 0;
    assert Read(input, raw, lines, input, blockLen) by { ReadNothing(input, blockLen); }
    while true
      invariant reader.Valid() && reader.blockLen == blockLen && reader.buffer.Length == 3 * blockLen
      invariant fresh(reader) && fresh(reader.buffer) && fresh(reader.reader)
      invariant reader.reader.byteSource == null || fresh(reader.reader.byteSource)
      invariant Read(input, raw, lines, reader.Rest(), blockLen) && !thrown
      invariant reader.fileLine == |lines| % 0x1_0000_0000
      decreases |reader.Rest()|
    {
      ghost var rest := reader.Rest();
      var r := reader.NextLine();
      match r {
        case EndOfInput =>
          ReadDone(input, raw, lines, blockLen);
          return;
        case LengthExceeded(n) =>
          ReadStopped(input, raw, lines, rest, blockLen);
          return lines, true, n;
        case LineAt(begin) =>
          ReadNext(input, raw, lines, rest, blockLen);
          raw := raw + [UpTo(rest, '\n')];
          lines := lines + [UpTo(reader.buffer[..][begin..], '\0')];
      }
    }
  }

  /** The line of this many characters, and a '\r' if there is one, does not fit into a block. */
  predicate TooLong(line: string, crlf: bool, blockLen: nat) { |line| + (if crlf then 1 else 0) >= blockLen }

  /** Reading what was written, with or without a byte order mark, "\n" or "\r\n" after the lines,
      and an unterminated last line: the lines come back, up to the first that is too long. */
  method ReadWritten(lines: seq<string>, last: string, bom: bool, crlf: bool, blockLen: nat)
      returns (read: seq<string>, thrown: bool, thrownLine: nat)
    requires 2 <= blockLen && (forall i :: 0 <= i < |lines| ==> Plain(lines[i])) && Plain(last)
    requires !bom ==> !(BOM <= Joined(lines, Eol(crlf)) + last)
    ensures !thrown ==> read == lines + Last(last)
    ensures !thrown ==> forall i :: 0 <= i < |lines| ==> !TooLong(lines[i], crlf, blockLen)
    ensures !thrown ==> !TooLong(last, false, blockLen)
    ensures thrown ==> |read| <= |lines| && read == lines[..|read|] && thrownLine == (|read| + 1) % 0x1_0000_0000
    ensures thrown ==> forall i :: 0 <= i < |read| ==> !TooLong(lines[i], crlf, blockLen)
    ensures thrown ==>
      if |read| < |lines| then TooLong(lines[|read|], crlf, blockLen) else TooLong(last, false, blockLen)
  {
    hide Plain, RawLines, Lines, Joined, DropBom;
    var text := Joined(lines, Eol(crlf)) + last;
    var content := if bom then BOM + text else text;
    BomDropped(text);
    RawLinesOfJoined(lines, last, crlf);
    LinesOfJoined(lines, last, crlf);
    read, thrown, thrownLine := ReadAll(content, blockLen);
    ghost var raw := RawLines(text);
    assert forall i :: 0 <= i < |lines| ==> raw[i] == Raw(lines, crlf)[i];
    assert last != "" ==> raw[|lines|] == last;
    if !thrown { NoneLong(raw, |raw|, blockLen); }
  }

  lemma {:induction false} NoneLong(raw: seq<string>, n: nat, blockLen: nat)
    requires n <= |raw| && forall k :: !FirstLong(raw, k, blockLen)
    ensures forall i :: 0 <= i < n ==> |raw[i]| < blockLen
  {
    if n > 0 {
      NoneLong(raw, n - 1, blockLen);
      assert !FirstLong(raw, n - 1, blockLen);
    }
  }

  lemma ReadNothing(input: string, blockLen: nat)
    ensures Read(input, [], [], input, blockLen)
  {
  }

  /** The scan of the window finds the first line of the whole rest, if the window reaches it. */
  lemma LineEndFound(s: string, begin: nat, end: nat, lineEnd: nat, later: string)
    requires begin <= lineEnd <= end <= |s| && (lineEnd < end ==> s[lineEnd] == '\n')
    requires forall k :: begin <= k < lineEnd ==> s[k] != '\n'
    ensures var rest := s[begin..end] + later;
      && (lineEnd < end ==> UpTo(rest, '\n') == s[begin..lineEnd] && After(rest, '\n') == s[lineEnd + 1..end] + later)
      && (lineEnd == end && later == "" ==> UpTo(rest, '\n') == s[begin..end] && After(rest, '\n') == "")
      && |UpTo(rest, '\n')| >= lineEnd - begin
  {
    var rest, n := s[begin..end] + later, lineEnd - begin;
    if lineEnd < end || later == "" {
      SpanIs(rest, '\n', n);
      assert rest[..n] == s[begin..lineEnd];
      assert lineEnd < end ==> rest[n + 1..] == s[lineEnd + 1..end] + later;
    } else {
      SpanAtLeast(rest, '\n', n);
    }
  }

  lemma {:induction false} SpanAtLeast(s: string, stop: char, n: nat)
    requires n <= |s| && forall k :: 0 <= k < n ==> s[k] != stop
    ensures Span(s, stop) >= n
  {
    if n > 0 { SpanAtLeast(s[1..], stop, n - 1); }
  }

  /** What the caller sees at `begin` after the '\0's are in place. */
  lemma LineTerminated(s: string, t: string, begin: nat, lineEnd: nat)
    requires begin <= lineEnd < |s| == |t|
    requires var chomped := if begin < lineEnd && s[lineEnd - 1] == '\r' then lineEnd - 1 else lineEnd;
      t[..chomped] == s[..chomped] && t[chomped] == '\0'
    ensures UpTo(t[begin..], '\0') == Shown(s[begin..lineEnd])
  {
    var line := s[begin..lineEnd];
    var end := if begin < lineEnd && s[lineEnd - 1] == '\r' then lineEnd - 1 else lineEnd;
    assert Chomp(line) == s[begin..end];
    PrefixSlices(s, t, end, begin, end);
    assert t[begin..][..end - begin] == t[begin..end];
    CutAtStop(t[begin..], Chomp(line), '\0');
  }

  lemma CutAtStop(s: string, a: string, stop: char)
    requires |a| < |s| && s[..|a|] == a && s[|a|] == stop
    ensures UpTo(s, stop) == UpTo(a, stop)
  {
    var n := Span(a, stop);
    assert forall k :: 0 <= k < n ==> s[k] == a[k] == a[..n][k];
    assert s[n] == stop;
    SpanIs(s, stop, n);
  }

  lemma Rejoin(a: string, t: string, n: nat)
    requires n <= |t|
    ensures a + t[..n] + t[n..] == a + t
  {
  }

  lemma PrefixSlices(s: string, t: string, n: nat, a: nat, b: nat)
    requires a <= b <= n <= |s| && n <= |t| && s[..n] == t[..n]
    ensures s[a..b] == t[a..b]
  {
    assert s[a..b] == s[..n][a..b] && t[a..b] == t[..n][a..b];
  }

  /** After the move to the front the window is the same text, one block further down. */
  lemma SlidFront(s: string, b: nat, begin: nat, end: nat)
    requires |s| == 3 * b && b <= begin <= end <= 2 * b
    ensures Put(s, 0, s[b..2 * b])[begin - b..end - b] == s[begin..end]
  {
    var front := s[b..2 * b];
    PutThere(s, 0, front, b);
    assert Put(s, 0, front)[..b] == front;
    PrefixSlices(Put(s, 0, front), front, b, begin - b, end - b);
    SliceOfSlice(s, b, 2 * b, begin - b, end - b);
  }

  /** The block read ahead, t, ends up right behind the window. */
  lemma BlockTaken(s0: string, s1: string, s2: string, b: nat, begin: nat, end: nat, t: string)
    requires |s0| == 3 * b && begin <= end <= b && |t| <= b && (t != "" ==> end == b)
    requires s1 == Put(s0, 2 * b, t) && s2 == Put(s1, b, s1[2 * b..3 * b])
    ensures s2[begin..end + |t|] == s0[begin..end] + t
  {
    PutElsewhere(s0, 2 * b, t, begin, end);
    PutThere(s0, 2 * b, t, |t|);
    PutElsewhere(s1, b, s1[2 * b..3 * b], begin, end);
    if t != "" {
      PutThere(s1, b, s1[2 * b..3 * b], |t|);
      StartOfSlice(s1, 2 * b, 3 * b, |t|);
      Joint(s2, begin, end, end + |t|);
    }
  }

  /** The mark is recognised in the first n characters read, n being at least 3 or everything. */
  lemma BomInWindow(content: string, n: nat, s: string)
    requires n <= |content| && (n < |content| ==> 3 <= n) && n <= |s| && s[..n] == content[..n]
    ensures var bom := n >= 3 && s[0] == '\U{EF}' && s[1] == '\U{BB}' && s[2] == '\U{BF}';
            DropBom(content) == s[if bom then 3 else 0..n] + content[n..]
  {
    assert content == s[..n] + content[n..];
    assert n >= 3 ==> s[3..n] + content[n..] == content[3..];
  }
}
