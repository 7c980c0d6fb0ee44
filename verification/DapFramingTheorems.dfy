/** Framing survives any chunking of the stream; and exactly when the parsing loop makes progress. */
module DapFramingTheorems {
  import opened Common
  import opened Decimal
  import opened DapFraming

  // ------------------------------------------------------------------
  // Progress and termination
  // ------------------------------------------------------------------

  /** The declared end of the frame at the front of the buffer, counted from its first byte. */
  function DeclaredEnd(buf: string): int
    requires FindSep(buf, 0).Some?
  {
    FindSep(buf, 0).value + 4 + HeaderLength(buf[..FindSep(buf, 0).value])
  }

  /** A turn that takes a frame shortens the buffer unless the declared length points at the buffer's
      very start, or at or before it counted from the end; then it leaves the buffer as it was and the
      loop never ends. A declared length that is not negative always makes progress. */
  lemma ProgressExactly(buf: string)
    requires Parse1(buf).Got?
    ensures |Parse1(buf).rest| < |buf| <==> DeclaredEnd(buf) > 0 || (DeclaredEnd(buf) < 0 && DeclaredEnd(buf) + |buf| > 0)
    ensures |Parse1(buf).rest| >= |buf| ==> Parse1(buf).rest == buf
    ensures HeaderLength(buf[..FindSep(buf, 0).value]) >= 0 ==> |Parse1(buf).rest| < |buf|
  {
  }

  /** A header with a negative length that makes the loop spin. */
  lemma NegativeLengthSpins()
    ensures var buf := "Content-Length: -23" + CRLF2;
            Parse1(buf).Got? && Parse1(buf).rest == buf && Drain(buf).spins
  {
    var header := "Content-Length: " + "-23";
    assert header + CRLF2 == "Content-Length: -23" + CRLF2;
    assert CRLF2[..4] == CRLF2;
    SepAtEnd(header, CRLF2);
    assert (header + CRLF2)[..|header|] == header;
    NamesLengthOfFrame("-23");
    SingleLine(header);
    assert header[|FIELD|..] == " -23";
    MinusTwentyThree();
  }

  lemma MinusTwentyThree()
    ensures ParseInt(" -23") == Some(-23)
  {
    assert " -23"[1..] == "-23";
    assert StripLeft("-23") == "-23" && StripRight("-23") == "-23";
    assert "-23"[1..] == "23" && "23"[1..] == "3";
    assert ParseDigits("3", 2) == Some(23);
  }

  // ------------------------------------------------------------------
  // Headers
  // ------------------------------------------------------------------

  ghost predicate Plain(s: string) {
    forall i :: 0 <= i < |s| ==> s[i] != '\r'
  }

  lemma NoSepInside(header: string, rest: string, k: nat)
    requires Plain(header) && k < |header|
    ensures !SepAt(header + rest, k)
  {
    var buf := header + rest;
    if k + 4 <= |buf| {
      assert buf[k..k + 4][0] == header[k] != '\r';
    }
  }

  lemma SepAtEnd(header: string, rest: string)
    requires Plain(header) && |rest| >= 4 && rest[..4] == CRLF2
    ensures FindSep(header + rest, 0) == Some(|header|)
  {
    var buf := header + rest;
    assert buf[|header|..|header| + 4] == rest[..4];
    assert SepAt(buf, |header|);
    forall k: nat | k < |header| ensures !SepAt(buf, k) {
      NoSepInside(header, rest, k);
    }
    hide SepAt, Plain;
  }

  lemma {:induction false} LinesOfPlain(header: string, line: string)
    requires Plain(header)
    ensures Lines(header, line) == [line + header]
  {
    if header == "" {
      assert line + header == line;
    } else {
      LinesOfPlain(header[1..], line + [header[0]]);
      assert line + [header[0]] + header[1..] == line + header;
    }
  }

  function JoinLines(lines: seq<string>): string {
    if lines == [] then "" else if |lines| == 1 then lines[0] else lines[0] + "\r\n" + JoinLines(lines[1..])
  }

  /** The lines of a header are its parts between line breaks: joined again they are the header. */
  lemma {:induction false} LinesJoinBack(header: string, line: string)
    ensures Lines(header, line) != [] && JoinLines(Lines(header, line)) == line + header
    decreases |header|
  {
    if header == "" {
    } else if header[0] == '\r' && |header| > 1 && header[1] == '\n' {
      LinesJoinBack(header[2..], "");
      var rest := Lines(header[2..], "");
      assert ([line] + rest)[1..] == rest;
      assert header == "\r\n" + header[2..];
      assert JoinLines([line] + rest) == line + "\r\n" + ("" + header[2..]);
    } else {
      LinesJoinBack(header[1..], line + [header[0]]);
      assert line + [header[0]] + header[1..] == line + header;
    }
  }

  ghost predicate NoBreak(s: string) {
    forall i :: 0 <= i < |s| - 1 ==> !(s[i] == '\r' && s[i + 1] == '\n')
  }

  /** No line holds a line break, so the header is split at every one. */
  lemma {:induction false} LinesHoldNoBreak(header: string, line: string, k: nat)
    requires k < |Lines(header, line)| && NoBreak(line)
    requires header != "" && line != "" ==> !(line[|line| - 1] == '\r' && header[0] == '\n')
    ensures NoBreak(Lines(header, line)[k])
    decreases |header|
  {
    if header == "" {
    } else if header[0] == '\r' && |header| > 1 && header[1] == '\n' {
      if k > 0 {
        LinesHoldNoBreak(header[2..], "", k - 1);
      }
    } else {
      LinesHoldNoBreak(header[1..], line + [header[0]], k);
    }
  }

  /** A further line decides the length if it is a Content-Length field with a readable number, and changes
      nothing otherwise. */
  lemma {:induction false} LastLengthWins(lines: seq<string>, line: string, found: int)
    ensures DeclaredLength(lines + [line], found)
         == if NamesLength(line) && ParseInt(line[|FIELD|..]).Some? then ParseInt(line[|FIELD|..]).value
            else DeclaredLength(lines, found)
    decreases |lines|
  {
    if lines == [] {
      assert ([] + [line])[1..] == [];
      assert ([] + [line])[0] == line;
    } else {
      assert (lines + [line])[1..] == lines[1..] + [line];
      LastLengthWins(lines[1..], line, if NamesLength(lines[0]) && ParseInt(lines[0][|FIELD|..]).Some?
                                       then ParseInt(lines[0][|FIELD|..]).value else found);
    }
  }

  lemma {:induction false} LineCut(l: string, rest: string, line: string)
    requires NoBreak(l)
    ensures Lines(l, line) == [line + l]
    ensures Lines(l + "\r\n" + rest, line) == [line + l] + Lines(rest, "")
  {
    var more := l + "\r\n" + rest;
    if l == "" {
      assert line + l == line && more[2..] == rest;
    } else {
      LineCut(l[1..], rest, line + [l[0]]);
      assert line + [l[0]] + l[1..] == line + l;
      assert more[1..] == l[1..] + "\r\n" + rest;
      assert |l| > 1 ==> !(l[0] == '\r' && l[1] == '\n');
      assert more[1] == if |l| > 1 then l[1] else '\r';
    }
  }

  /** Any lines without line breaks in them, joined, are split into those lines again. */
  lemma {:induction false} LinesOfJoin(lines: seq<string>)
    requires lines != [] && forall i :: 0 <= i < |lines| ==> NoBreak(lines[i])
    ensures Lines(JoinLines(lines), "") == lines
  {
    hide Lines, NoBreak;
    assert "" + lines[0] == lines[0];
    if |lines| == 1 {
      LineCut(lines[0], "", "");
    } else {
      LinesOfJoin(lines[1..]);
      LineCut(lines[0], JoinLines(lines[1..]), "");
    }
  }

  /** A Content-Length field with a number that can be read. */
  predicate Readable(line: string) {
    NamesLength(line) && ParseInt(line[|FIELD|..]).Some?
  }

  lemma {:induction false} LastReadable(lines: seq<string>, k: nat, found: int)
    requires k < |lines| && Readable(lines[k]) && forall m :: k < m < |lines| ==> !Readable(lines[m])
    ensures DeclaredLength(lines, found) == ParseInt(lines[k][|FIELD|..]).value
    decreases |lines|
  {
    hide NamesLength, ParseInt;
    var n := |lines| - 1;
    assert lines == lines[..n] + [lines[n]];
    LastLengthWins(lines[..n], lines[n], found);
    if k < n {
      LastReadable(lines[..n], k, found);
    }
  }

  lemma {:induction false} NoneReadable(lines: seq<string>, found: int)
    requires forall m :: 0 <= m < |lines| ==> !Readable(lines[m])
    ensures DeclaredLength(lines, found) == found
  {
    hide NamesLength, ParseInt;
    if lines != [] {
      NoneReadable(lines[1..], found);
    }
  }

  /** In a header of any fields the last readable Content-Length counts, wherever it stands, and without one the
      length is 0. */
  lemma HeaderDeclares(lines: seq<string>)
    requires lines != [] && forall i :: 0 <= i < |lines| ==> NoBreak(lines[i])
    ensures forall k :: 0 <= k < |lines| && Readable(lines[k]) && (forall m :: k < m < |lines| ==> !Readable(lines[m])) ==>
              HeaderLength(JoinLines(lines)) == ParseInt(lines[k][15..]).value
    ensures (forall m :: 0 <= m < |lines| ==> !Readable(lines[m])) ==> HeaderLength(JoinLines(lines)) == 0
  {
    LinesOfJoin(lines);
    hide NamesLength, ParseInt, JoinLines, Lines, DeclaredLength;
    forall k | 0 <= k < |lines| && Readable(lines[k]) && (forall m :: k < m < |lines| ==> !Readable(lines[m]))
      ensures HeaderLength(JoinLines(lines)) == ParseInt(lines[k][15..]).value
    {
      LastReadable(lines, k, 0);
    }
    if forall m :: 0 <= m < |lines| ==> !Readable(lines[m]) {
      NoneReadable(lines, 0);
    }
  }

  lemma SingleLine(header: string)
    requires Plain(header)
    ensures HeaderLength(header) == if NamesLength(header) && ParseInt(header[|FIELD|..]).Some?
                                    then ParseInt(header[|FIELD|..]).value else 0
  {
    LinesOfPlain(header, "");
    assert "" + header == header;
    assert [header][1..] == [];
    var found := if NamesLength(header) && ParseInt(header[|FIELD|..]).Some?
                 then ParseInt(header[|FIELD|..]).value else 0;
    assert DeclaredLength([], found) == found;
  }

  lemma NamesLengthOfFrame(digits: string)
    ensures NamesLength("Content-Length: " + digits)
  {
    var s := "Content-Length: ";
    assert s == ['C', 'o', 'n', 't', 'e', 'n', 't', '-', 'L', 'e', 'n', 'g', 't', 'h', ':', ' '];
    forall i | 0 <= i < |FIELD| ensures Lower((s + digits)[i]) == FIELD[i] {}
  }

  function FrameHeader(n: nat): string {
    "Content-Length: " + Print(n)
  }

  lemma HeaderReadsBack(n: nat)
    ensures Plain(FrameHeader(n)) && HeaderLength(FrameHeader(n)) == n
  {
    var header := FrameHeader(n);
    SingleLine(header);
    NamesLengthOfFrame(Print(n));
    assert header[|FIELD|..] == " " + Print(n);
    ParseOfPrint(n);
  }

  lemma FrameSep(body: string, more: string)
    ensures var buf := Frame(body) + more;
            && FindSep(buf, 0) == Some(|FrameHeader(|body|)|)
            && buf[..|FrameHeader(|body|)|] == FrameHeader(|body|)
            && buf[|FrameHeader(|body|)| + 4..] == body + more
  {
    var header := FrameHeader(|body|);
    HeaderReadsBack(|body|);
    assert Frame(body) + more == header + (CRLF2 + body + more);
    assert (CRLF2 + body + more)[..4] == CRLF2;
    SepAtEnd(header, CRLF2 + body + more);
  }

  /** A frame followed by anything at all is taken off whole. */
  lemma ParseOfFrame(body: string, more: string)
    ensures Parse1(Frame(body) + more) == Got(body, more)
  {
    FrameSep(body, more);
    HeaderReadsBack(|body|);
    var buf := Frame(body) + more;
    var start := |FrameHeader(|body|)| + 4;
    assert buf[start..start + |body|] == buf[start..][..|body|] == body;
    assert buf[start + |body|..] == buf[start..][|body|..] == more;
  }

  // ------------------------------------------------------------------
  // Chunking
  // ------------------------------------------------------------------

  /** No header the loop meets in this stream declares a negative length. */
  ghost predicate Clean(buf: string)
    decreases |buf|
  {
    FindSep(buf, 0).Some? ==>
      && HeaderLength(buf[..FindSep(buf, 0).value]) >= 0
      && (Parse1(buf).Got? && |Parse1(buf).rest| < |buf| ==> Clean(Parse1(buf).rest))
  }

  lemma FindSepAppend(buf: string, more: string)
    requires FindSep(buf, 0).Some?
    ensures FindSep(buf + more, 0) == FindSep(buf, 0)
  {
    var i := FindSep(buf, 0).value;
    assert (buf + more)[i..i + 4] == buf[i..i + 4];
    assert SepAt(buf + more, i);
    forall k | 0 <= k < i ensures !SepAt(buf + more, k) {
      assert (buf + more)[k..k + 4] == buf[k..k + 4];
      assert !SepAt(buf, k);
    }
  }

  lemma TakeBodyAppend(buf: string, more: string, start: nat, end: nat)
    requires start <= end && TakeBody(buf, start, end).Got?
    ensures TakeBody(buf + more, start, end) == Got(TakeBody(buf, start, end).raw, TakeBody(buf, start, end).rest + more)
    ensures |TakeBody(buf, start, end).rest| == |buf| - end
  {
    assert (buf + more)[start..end] == buf[start..end];
    assert (buf + more)[end..] == buf[end..] + more;
  }

  /** The header read is the same when more bytes arrive. */
  lemma HeaderAppend(buf: string, more: string)
    requires FindSep(buf, 0).Some?
    ensures FindSep(buf + more, 0) == FindSep(buf, 0)
    ensures HeaderLength((buf + more)[..FindSep(buf, 0).value]) == HeaderLength(buf[..FindSep(buf, 0).value])
  {
    FindSepAppend(buf, more);
    var sep := FindSep(buf, 0).value;
    assert (buf + more)[..sep] == buf[..sep];
  }

  lemma CleanHeader(buf: string, more: string)
    requires Clean(buf + more) && FindSep(buf, 0).Some?
    ensures HeaderLength(buf[..FindSep(buf, 0).value]) >= 0
  {
    HeaderAppend(buf, more);
  }

  lemma CleanRest(buf: string)
    requires Clean(buf) && Parse1(buf).Got? && |Parse1(buf).rest| < |buf|
    ensures Clean(Parse1(buf).rest)
  {
  }

  /** A frame that is whole stays the same frame when more bytes arrive. */
  lemma ParseAppend(buf: string, more: string)
    requires Clean(buf + more) && Parse1(buf).Got?
    ensures Parse1(buf + more) == Got(Parse1(buf).raw, Parse1(buf).rest + more)
    ensures |Parse1(buf).rest| < |buf| && Clean(Parse1(buf).rest + more)
  {
    CleanHeader(buf, more);
    hide FindSep, HeaderLength, Clean;
    HeaderAppend(buf, more);
    TakeBodyAppend(buf, more, FindSep(buf, 0).value + 4, DeclaredEnd(buf));
    CleanRest(buf + more);
  }

  /** Draining what has arrived and then the rest together with the later bytes is draining it all. */
  lemma {:induction false} DrainAppend(buf: string, more: string)
    requires Clean(buf + more)
    ensures !Drain(buf).spins && Clean(Drain(buf).rest + more)
    ensures Drain(buf + more) == Prepend(Drain(buf).bodies, Drain(Drain(buf).rest + more))
    decreases |buf|
  {
    if Parse1(buf).Got? {
      ParseAppend(buf, more);
      var raw, rest := Parse1(buf).raw, Parse1(buf).rest;
      DrainAppend(rest, more);
      assert Drain(buf) == Prepend([raw], Drain(rest));
      assert Drain(buf + more) == Prepend([raw], Drain(rest + more));
      PrependTwice([raw], Drain(rest).bodies, Drain(Drain(rest).rest + more));
    } else {
      PrependTwice([], [], Drain(buf + more));
    }
  }

  lemma DrainedRestWaits(buf: string)
    requires !Drain(buf).spins
    ensures Drain(Drain(buf).rest) == Drained([], Drain(buf).rest, false)
  {
  }

  /** However a stream without negative lengths is cut into chunks, the same messages are dispatched in
      the same order and the same bytes are left. */
  lemma {:induction false} ChunkingIrrelevant(buf: string, chunks: seq<string>)
    requires Clean(buf + Concat(chunks)) && Drain(buf) == Drained([], buf, false)
    ensures Feed(buf, chunks) == Drain(buf + Concat(chunks))
    decreases |chunks|
  {
    if chunks == [] {
      assert buf + Concat(chunks) == buf;
    } else {
      var c, more := chunks[0], Concat(chunks[1..]);
      assert buf + Concat(chunks) == (buf + c) + more;
      DrainAppend(buf + c, more);
      DrainedRestWaits(buf + c);
      ChunkingIrrelevant(Drain(buf + c).rest, chunks[1..]);
    }
  }

  /** What has been dispatched at any moment is a prefix of what the whole stream dispatches. */
  lemma DispatchedIsPrefix(arrived: string, more: string)
    requires Clean(arrived + more)
    ensures Drain(arrived).bodies <= Drain(arrived + more).bodies
  {
    DrainAppend(arrived, more);
  }

  lemma {:induction false} DrainOfFrames(bodies: seq<string>)
    ensures Drain(FrameAll(bodies)) == Drained(bodies, "", false) && Clean(FrameAll(bodies))
  {
    if bodies != [] {
      var body, more := bodies[0], FrameAll(bodies[1..]);
      ParseOfFrame(body, more);
      DrainOfFrames(bodies[1..]);
      assert [body] + bodies[1..] == bodies;
      FrameSep(body, more);
      HeaderReadsBack(|body|);
    }
  }

  /** Any list of messages, framed as `send` and `fire` frame them and arriving in any chunks, is
      dispatched in order, unchanged, with nothing left over. */
  lemma FramingRoundTrip(bodies: seq<string>, chunks: seq<string>)
    requires Concat(chunks) == FrameAll(bodies)
    ensures Feed("", chunks) == Drained(bodies, "", false)
  {
    DrainOfFrames(bodies);
    assert "" + Concat(chunks) == Concat(chunks);
    ChunkingIrrelevant("", chunks);
  }
}
