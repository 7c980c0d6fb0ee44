/** Length-prefixed frames read from a socket that delivers its bytes in arbitrary pieces. */
module ByteStream {
  import opened Common
  import opened Brpc

  /** What one `recv` yields: some bytes, end of stream, or an operating-system error or timeout. */
  datatype Chunk = Data(bytes: Bytes) | Closed | Raised

  /** Why a frame could not be read. */
  datatype WireError = Eof | TooLarge(length: nat) | OsError

  /** One connection. `stream` is all the peer will ever send on it, `incoming` what of it has not been
      received yet, `outgoing` what has been sent to the peer; `errors` counts how often the operating system
      has reported an error or a timeout. */
  class Socket {
    ghost const stream: Bytes
    var incoming: Bytes
    var outgoing: Bytes
    ghost var errors: nat

    constructor (stream: Bytes)
      ensures this.stream == stream && incoming == stream && outgoing == [] && errors == 0
    {
      this.stream := stream;
      incoming, outgoing, errors := stream, [], 0;
    }

    /** At least one and at most `n` of the bytes still to come; how many is up to the network. */
    method Recv(n: nat) returns (c: Chunk)
      requires n > 0
      modifies this`incoming, this`errors
      ensures match c
              case Data(bytes) => 0 < |bytes| <= n && old(incoming) == bytes + incoming
              case Closed => old(incoming) == [] == incoming
              case Raised => incoming == old(incoming)
      ensures errors == old(errors) + if c.Raised? then 1 else 0
    {
      if * {
        errors := errors + 1;
        return Raised;
      }
      if incoming == [] {
        return Closed;
      }
      var k: nat :| 0 < k <= n && k <= |incoming|;
      c := Data(incoming[..k]);
      incoming := incoming[k..];
    }

    /** `sendall` of one frame; it may raise, and then nothing is known of what was sent. */
    method SendAll(bytes: Bytes) returns (ok: bool)
      modifies this`outgoing, this`errors
      ensures ok ==> outgoing == old(outgoing) + bytes
      ensures errors == old(errors) + if !ok then 1 else 0
    {
      if * {
        var some: Bytes := *;
        outgoing := some;
        errors := errors + 1;
        return false;
      }
      outgoing := outgoing + bytes;
      ok := true;
    }

    /** `_recv_exactly`: exactly the next `n` bytes, however they are delivered. */
    method RecvExactly(n: nat) returns (r: Result<Bytes, WireError>)
      modifies this`incoming, this`errors
      ensures match r
              case Ok(bytes) => |bytes| == n && old(incoming) == bytes + incoming
              case Err(e) => (e == Eof && |old(incoming)| < n) || e == OsError
      ensures errors == old(errors) + if r == Err(OsError) then 1 else 0
    {
      var buf: Bytes := [];
      while |buf| < n
        invariant |buf| <= n && old(incoming) == buf + incoming && errors == old(errors)
        decreases n - |buf|
      {
        var c := Recv(n - |buf|);
        match c {
          case Raised => return Err(OsError);
          case Closed => return Err(Eof);
          case Data(bytes) =>
            assert buf + (bytes + incoming) == (buf + bytes) + incoming;
            buf := buf + bytes;
        }
      }
      r := Ok(buf);
    }

    /** `_recv_raw`: one length-prefixed frame. Unless the operating system reports an error, the outcome
        depends on the bytes alone and not on how they were delivered. */
    method RecvRaw(limit: nat) returns (r: Result<Bytes, WireError>)
      modifies this`incoming, this`errors
      ensures errors == old(errors) + if r == Err(OsError) then 1 else 0
      ensures match r
              case Ok(body) => ReadFrame(old(incoming), limit) == Ok(body) && old(incoming) == U32(|body|) + body + incoming
                               && |body| < TWO_32
              case Err(e) => ReadFrame(old(incoming), limit) == Err(e) || e == OsError
    {
      var header := RecvExactly(4);
      if header.Err? {
        return Err(header.error);
      }
      var length := ReadU32(header.value, 0).value.item;
      LengthPrefix(header.value, incoming, limit);
      if length > limit {
        return Err(TooLarge(length));
      }
      ghost var rest := incoming;
      r := RecvExactly(length);
      if r.Ok? {
        assert rest[..length] == r.value;
        assert header.value + (r.value + incoming) == U32(length) + r.value + incoming;
      }
    }
  }

  // ------------------------------------------------------------------
  // Frames as bytes
  // ------------------------------------------------------------------

  /** The body of the frame at the front of a stream that ends where it ends. */
  function ReadFrame(stream: Bytes, limit: nat): Result<Bytes, WireError> {
    match ReadU32(stream, 0)
    case Err(_) => Err(Eof)
    case Ok(Read(length, _)) =>
      if length > limit then Err(TooLarge(length))
      else if |stream| < 4 + length then Err(Eof)
      else Ok(stream[4..4 + length])
  }

  lemma U32OfBytes(b: Bytes)
    requires |b| == 4
    ensures ReadU32(b, 0).Ok? && ReadU32(b, 0).value.item < TWO_32 && U32(ReadU32(b, 0).value.item) == b
  {
    var n := ReadU32(b, 0).value.item;
    assert n == ((b[0] as int * 256 + b[1]) * 256 + b[2]) * 256 + b[3];
    assert n / 0x100 == (b[0] as int * 256 + b[1]) * 256 + b[2];
    assert n / 0x1_0000 == (n / 0x100) / 0x100 == b[0] as int * 256 + b[1];
    assert n / 0x100_0000 == (n / 0x1_0000) / 0x100 == b[0];
  }

  /** What the first four bytes of a stream decide. */
  lemma LengthPrefix(header: Bytes, rest: Bytes, limit: nat)
    requires |header| == 4
    ensures var length := ReadU32(header, 0).value.item;
            && length < TWO_32 && U32(length) == header
            && ReadFrame(header + rest, limit) == if length > limit then Err(TooLarge(length))
                                                  else if |rest| < length then Err(Eof) else Ok(rest[..length])
  {
    U32OfBytes(header);
    var length := ReadU32(header, 0).value.item;
    assert ReadU32(header + rest, 0) == Ok(Read(length, 4));
    assert (header + rest)[4..] == rest;
    if length <= |rest| {
      assert (header + rest)[4..4 + length] == rest[..length];
    }
  }

  /** A frame; None where `struct.pack` raises because its length needs more than 32 bits. */
  function FrameOf(body: Bytes): Option<Bytes> {
    if |body| < TWO_32 then Some(U32(|body|) + body) else None
  }

  predicate Framable(bodies: seq<Bytes>) {
    forall k :: 0 <= k < |bodies| ==> |bodies[k]| < TWO_32
  }

  function FrameAll(bodies: seq<Bytes>): Bytes
    requires Framable(bodies)
  {
    if bodies == [] then [] else U32(|bodies[0]|) + bodies[0] + FrameAll(bodies[1..])
  }

  lemma {:induction false} FrameAllSnoc(bodies: seq<Bytes>, body: Bytes)
    requires Framable(bodies) && |body| < TWO_32
    ensures Framable(bodies + [body])
    ensures FrameAll(bodies + [body]) == FrameAll(bodies) + (U32(|body|) + body)
  {
    if bodies == [] {
      assert ([] + [body])[1..] == [];
      assert FrameAll([body]) == U32(|body|) + body + FrameAll([]);
    } else {
      FrameAllSnoc(bodies[1..], body);
      assert (bodies + [body])[1..] == bodies[1..] + [body];
      var head := U32(|bodies[0]|) + bodies[0];
      assert head + (FrameAll(bodies[1..]) + (U32(|body|) + body)) == (head + FrameAll(bodies[1..])) + (U32(|body|) + body);
    }
  }
}
