/** The Content-Length framing of the debug adapter client. A byte is modelled as the character with
    its code. */
module DapFraming {
  import opened Common
  import opened Decimal

  const CRLF2: string := "\r\n\r\n"

  // ------------------------------------------------------------------
  // Sending
  // ------------------------------------------------------------------

  function Frame(body: string): string {
    "Content-Length: " + Print(|body|) + CRLF2 + body
  }

  function FrameAll(bodies: seq<string>): string {
    if bodies == [] then "" else Frame(bodies[0]) + FrameAll(bodies[1..])
  }

  // ------------------------------------------------------------------
  // Reading the header
  // ------------------------------------------------------------------

  predicate SepAt(buf: string, i: nat) {
    i + 4 <= |buf| && buf[i..i + 4] == CRLF2
  }

  /** The first header end at or after `from`. */
  function FindSep(buf: string, from: nat): (r: Option<nat>)
    ensures r.Some? ==> from <= r.value && SepAt(buf, r.value) && forall k :: from <= k < r.value ==> !SepAt(buf, k)
    ensures r.None? ==> forall k :: from <= k ==> !SepAt(buf, k)
    decreases |buf| - from
  {
    if from + 4 > |buf| then None
    else if SepAt(buf, from) then Some(from)
    else FindSep(buf, from + 1)
  }

  /** The header cut at its line breaks; `line` is the part of the current line already read. */
  function Lines(header: string, line: string): seq<string> {
    if header == "" then [line]
    else if header[0] == '\r' && |header| > 1 && header[1] == '\n' then [line] + Lines(header[2..], "")
    else Lines(header[1..], line + [header[0]])
  }

  function Lower(c: char): char {
    if 'A' <= c <= 'Z' then (c as int + 32) as char else c
  }

  const FIELD: string := "content-length:"

  predicate NamesLength(line: string) {
    |line| >= |FIELD| && forall i :: 0 <= i < |FIELD| ==> Lower(line[i]) == FIELD[i]
  }

  /** The field is recognised in any mixture of upper and lower case. */
  lemma NamedInAnyCase(line: string)
    ensures NamesLength(line)
            <==> |line| >= 15
                 && forall i :: 0 <= i < 15 ==> line[i] == "content-length:"[i] || line[i] == "CONTENT-LENGTH:"[i]
  {
    if |line| >= 15 {
      forall i | 0 <= i < 15
        ensures Lower(line[i]) == FIELD[i] <==> line[i] == "content-length:"[i] || line[i] == "CONTENT-LENGTH:"[i]
      {
        LowerCase(line[i], FIELD[i]);
        UpperField(i);
      }
    }
  }

  /** The field name in capitals. */
  lemma UpperField(i: nat)
    requires i < 15
    ensures var c, d := FIELD[i], "CONTENT-LENGTH:"[i];
            if 'a' <= c <= 'z' then d as int == c as int - 32 else d == c && !('A' <= c <= 'Z')
    ensures FIELD[i] == "content-length:"[i]
  {
  }

  lemma LowerCase(c: char, d: char)
    requires !('A' <= d <= 'Z')
    ensures Lower(c) == d <==> c == d || ('a' <= d <= 'z' && c as int == d as int - 32)
  {
  }

  /** The last Content-Length field that parses wins; without any the length is `found`. */
  function DeclaredLength(lines: seq<string>, found: int): int {
    if lines == [] then found
    else
      var now := if NamesLength(lines[0]) then
                   (match ParseInt(lines[0][|FIELD|..]) case Some(v) => v case None => found)
                 else found;
      DeclaredLength(lines[1..], now)
  }

  function HeaderLength(header: string): int {
    DeclaredLength(Lines(header, ""), 0)
  }

  // ------------------------------------------------------------------
  // Taking one frame off the buffer
  // ------------------------------------------------------------------

  /** Python's reading of a slice bound: negative counts from the end, and both ends are clamped. */
  function Bound(n: nat, k: int): (r: nat)
    ensures r <= n
  {
    if k >= 0 then (if k <= n then k else n) else (if n + k >= 0 then n + k else 0)
  }

  function Slice(buf: string, lo: int, hi: int): string {
    var a, b := Bound(|buf|, lo), Bound(|buf|, hi);
    if a <= b then buf[a..b] else ""
  }

  /** What a slice holds: a bound counts from the start or, when negative, from the end, and one that lies outside
      the text is the end it lies beyond; the characters between the bounds, none where they cross. */
  lemma SliceHolds(buf: string, lo: int, hi: int)
    ensures var n, a, b, r := |buf|, Bound(|buf|, lo), Bound(|buf|, hi), Slice(buf, lo, hi);
            && (0 <= lo <= n ==> a == lo) && (-n <= lo < 0 ==> n - a == -lo) && (lo > n ==> a == n) && (lo < -n ==> a == 0)
            && (a <= b ==> a + |r| == b && r == buf[a..b])
            && (a >= b ==> r == "")
  {
  }

  datatype Parse = NeedMore | Got(raw: string, rest: string)

  /** The body between `start` and `end`, if it has arrived. */
  function TakeBody(buf: string, start: nat, end: int): Parse {
    if |buf| < end then NeedMore
    else Got(Slice(buf, start, end), buf[Bound(|buf|, end)..])
  }

  /** One turn of the loop of `_process_buf`. */
  function Parse1(buf: string): Parse {
    match FindSep(buf, 0)
    case None => NeedMore
    case Some(sep) =>
      TakeBody(buf, sep + 4, sep + 4 + HeaderLength(buf[..sep]))
  }

  /** The frames taken off, what is left, and whether the loop would go round forever. */
  datatype Drained = Drained(bodies: seq<string>, rest: string, spins: bool)

  function Drain(buf: string): (d: Drained)
    ensures !d.spins ==> Parse1(d.rest).NeedMore?
    decreases |buf|
  {
    match Parse1(buf)
    case NeedMore => Drained([], buf, false)
    case Got(raw, rest) =>
      if |rest| >= |buf| then Drained([], buf, true) else Prepend([raw], Drain(rest))
  }

  function Prepend(bodies: seq<string>, d: Drained): Drained {
    Drained(bodies + d.bodies, d.rest, d.spins)
  }

  lemma PrependTwice(a: seq<string>, b: seq<string>, d: Drained)
    ensures Prepend(a, Prepend(b, d)) == Prepend(a + b, d)
    ensures Prepend([], d) == d
  {
  }

  lemma DrainTurn(done: seq<string>, buf: string, raw: string, rest: string)
    requires Parse1(buf) == Got(raw, rest) && |rest| < |buf|
    ensures Prepend(done, Drain(buf)) == Prepend(done + [raw], Drain(rest))
  {
    PrependTwice(done, [raw], Drain(rest));
  }

  /** The receive buffer and the messages handed to `_dispatch`. */
  class Receiver {
    var recvBuf: string
    var dispatched: seq<string>

    constructor ()
      ensures recvBuf == "" && dispatched == []
    {
      recvBuf, dispatched := "", [];
    }

    /** The header loop. */
    method ContentLength(header: string) returns (contentLength: int)
      ensures contentLength == HeaderLength(header)
    {
      contentLength := 0;
      var lines := Lines(header, "");
      for i := 0 to |lines|
        invariant DeclaredLength(lines[i..], contentLength) == HeaderLength(header)
      {
        if NamesLength(lines[i]) {
          var v := ParseInt(lines[i][|FIELD|..]);
          if v.Some? {
            contentLength := v.value;
          }
        }
      }
    }

    /** The upper half of the loop body: finds the frame at the front, if it is whole. */
    method NextFrame() returns (parse: Parse)
      ensures parse == Parse1(recvBuf)
    {
      var sep := FindSep(recvBuf, 0);
      if sep.None? {
        return NeedMore;
      }
      var contentLength := ContentLength(recvBuf[..sep.value]);
      var start := sep.value + 4;
      if |recvBuf| < start + contentLength {
        return NeedMore;
      }
      parse := Got(Slice(recvBuf, start, start + contentLength), recvBuf[Bound(|recvBuf|, start + contentLength)..]);
    }

    /** Dispatches every whole frame in the buffer. Where Python's loop would repeat the same turn forever
        this returns `spins` instead. */
    method ProcessBuf() returns (spins: bool)
      modifies this
      ensures var d := Drain(old(recvBuf));
              dispatched == old(dispatched) + d.bodies && recvBuf == d.rest && spins == d.spins
    {
      ghost var goal := Prepend(dispatched, Drain(recvBuf));
      while true
        invariant Prepend(dispatched, Drain(recvBuf)) == goal
        decreases |recvBuf|
      {
        var parse := NextFrame();
        if parse.NeedMore? {
          return false;
        }
        if |parse.rest| >= |recvBuf| {
          return true;
        }
        DrainTurn(dispatched, recvBuf, parse.raw, parse.rest);
        recvBuf := parse.rest;
        dispatched := dispatched + [parse.raw];
      }
    }

    /** One chunk from the socket. */
    method OnChunk(chunk: string) returns (spins: bool)
      modifies this
      ensures var d := Drain(old(recvBuf) + chunk);
              dispatched == old(dispatched) + d.bodies && recvBuf == d.rest && spins == d.spins
    {
      recvBuf := recvBuf + chunk;
      spins := ProcessBuf();
    }

    /** The receive loop over the chunks that arrive until the connection closes. */
    method RecvLoop(chunks: seq<string>) returns (spins: bool)
      modifies this
      ensures var d := Feed(old(recvBuf), chunks);
              dispatched == old(dispatched) + d.bodies && recvBuf == d.rest && spins == d.spins
    {
      ghost var goal := Prepend(dispatched, Feed(recvBuf, chunks));
      for k := 0 to |chunks|
        invariant Prepend(dispatched, Feed(recvBuf, chunks[k..])) == goal
      {
        ghost var d := Drain(recvBuf + chunks[k]);
        ghost var before := dispatched;
        FeedStep(before, recvBuf, chunks[k..]);
        spins := OnChunk(chunks[k]);
        if spins {
          return;
        }
        assert chunks[k..][1..] == chunks[k + 1..];
      }
      spins := false;
    }
  }

  /** The receive loop over a list of chunks; it never gets past a chunk that spins. */
  function Feed(buf: string, chunks: seq<string>): Drained
    decreases |chunks|
  {
    if chunks == [] then Drained([], buf, false)
    else
      var d := Drain(buf + chunks[0]);
      if d.spins then d
      else
        Prepend(d.bodies, Feed(d.rest, chunks[1..]))
  }

  lemma FeedStep(done: seq<string>, buf: string, chunks: seq<string>)
    requires chunks != []
    ensures var d := Drain(buf + chunks[0]);
            Prepend(done, Feed(buf, chunks))
            == if d.spins then Prepend(done, d) else Prepend(done + d.bodies, Feed(d.rest, chunks[1..]))
  {
    var d := Drain(buf + chunks[0]);
    PrependTwice(done, d.bodies, Feed(d.rest, chunks[1..]));
  }

  function Concat(chunks: seq<string>): string {
    if chunks == [] then "" else chunks[0] + Concat(chunks[1..])
  }
}
