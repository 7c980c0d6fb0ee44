/** Concatenated frames have one reading, so a list of messages survives any delivery of its bytes. */
module ByteStreamTheorems {
  import opened Common
  import opened Brpc
  import opened BrpcTheorems
  import opened ByteStream

  /** A frame is read back exactly when its length is within the reader's limit. */
  lemma FrameRoundTrip(body: Bytes, rest: Bytes, limit: nat)
    requires |body| < TWO_32
    ensures ReadFrame(U32(|body|) + body + rest, limit) == if |body| <= limit then Ok(body) else Err(TooLarge(|body|))
  {
    var s := U32(|body|) + body + rest;
    assert s == U32(|body|) + (body + rest);
    assert At(s, 0, U32(|body|));
    U32RoundTrip(|body|, s, 0);
    assert s[4..4 + |body|] == body;
  }

  /** Two frames at the front of the same bytes are the same frame. */
  lemma FrameIsUnique(a: Bytes, x: Bytes, b: Bytes, y: Bytes)
    requires |a| < TWO_32 && |b| < TWO_32 && U32(|a|) + a + x == U32(|b|) + b + y
    ensures a == b && x == y
  {
    var s := U32(|a|) + a + x;
    FrameRoundTrip(a, x, TWO_32);
    FrameRoundTrip(b, y, TWO_32);
    assert s[4 + |a|..] == x && s[4 + |b|..] == y;
  }

  /** The same bytes cannot be two different lists of frames. */
  lemma {:induction false} FramesAreUnique(a: seq<Bytes>, x: Bytes, b: seq<Bytes>, y: Bytes)
    requires Framable(a) && Framable(b) && |a| == |b| && FrameAll(a) + x == FrameAll(b) + y
    ensures a == b && x == y
  {
    if a == [] {
      assert FrameAll(a) + x == x && FrameAll(b) + y == y;
    } else {
      var p, q := FrameAll(a[1..]) + x, FrameAll(b[1..]) + y;
      assert FrameAll(a) + x == U32(|a[0]|) + a[0] + p;
      assert FrameAll(b) + y == U32(|b[0]|) + b[0] + q;
      FrameIsUnique(a[0], p, b[0], q);
      FramesAreUnique(a[1..], x, b[1..], y);
      assert a == [a[0]] + a[1..] && b == [b[0]] + b[1..];
    }
  }

  /** Reads `k` frames from a socket. Whatever the delivery, if the bytes to come start with the frames of
      `bodies`, each within the limit, these bodies are what is read, unless the system reports an error meanwhile. */
  method ReceiveFrames(socket: Socket, k: nat, limit: nat, ghost bodies: seq<Bytes>, ghost tail: Bytes)
    returns (r: Result<seq<Bytes>, WireError>)
    requires |bodies| == k && Framable(bodies) && socket.incoming == FrameAll(bodies) + tail
    requires forall j :: 0 <= j < k ==> |bodies[j]| <= limit
    modifies socket`incoming, socket`errors
    ensures r.Ok? ==> socket.errors == old(socket.errors)
    ensures (r == Ok(bodies) && socket.incoming == tail) || (r == Err(OsError) && socket.errors > old(socket.errors))
  {
    var got: seq<Bytes> := [];
    for j := 0 to k
      invariant socket.errors == old(socket.errors)
      invariant got == bodies[..j] && socket.incoming == FrameAll(bodies[j..]) + tail
    {
      ghost var next, more := bodies[j], FrameAll(bodies[j + 1..]) + tail;
      assert bodies[j..][0] == next && bodies[j..][1..] == bodies[j + 1..];
      assert socket.incoming == U32(|next|) + next + more;
      FrameRoundTrip(next, more, limit);
      var frame := socket.RecvRaw(limit);
      if frame.Err? {
        return Err(frame.error);
      }
      FrameIsUnique(frame.value, socket.incoming, next, more);
      got := got + [frame.value];
    }
    assert bodies[..k] == bodies && bodies[k..] == [];
    assert FrameAll([]) + tail == tail;
    r := Ok(got);
  }

  ghost predicate Encodes<J>(json: Json<J>, payload: Payload<J>, body: Bytes) {
    Encode(json, payload) == Some(body)
  }

  /** The encodings of a list of payloads. */
  ghost predicate Encodings<J>(json: Json<J>, payloads: seq<Payload<J>>, bodies: seq<Bytes>) {
    |bodies| == |payloads| && forall k :: 0 <= k < |bodies| ==> Encodes(json, payloads[k], bodies[k])
  }

  method DecodeOne<J(!new)>(json: Json<J>, body: Bytes, ghost payload: Payload<J>) returns (m: Message<J>)
    requires Lawful(json) && Encodes(json, payload, body)
    ensures m == Meaning(json, payload)
  {
    MessageRoundTrip(json, payload);
    var d := DecodeData(json, body);
    m := d.value;
  }

  ghost function Meanings<J>(json: Json<J>, payloads: seq<Payload<J>>): seq<Message<J>> {
    if payloads == [] then []
    else Meanings(json, payloads[..|payloads| - 1]) + [Meaning(json, payloads[|payloads| - 1])]
  }

  method DecodeAll<J(!new)>(json: Json<J>, frames: seq<Bytes>, ghost payloads: seq<Payload<J>>)
    returns (messages: seq<Message<J>>)
    requires Lawful(json) && Encodings(json, payloads, frames)
    ensures messages == Meanings(json, payloads)
  {
    messages := [];
    for j := 0 to |frames|
      invariant messages == Meanings(json, payloads[..j])
    {
      assert Encodes(json, payloads[j], frames[j]);
      var m := DecodeOne(json, frames[j], payloads[j]);
      messages := messages + [m];
      assert payloads[..j + 1][..j] == payloads[..j];
    }
    assert payloads[..|payloads|] == payloads;
  }

  /** Whatever the delivery, receiving and decoding the frames of a list of payloads gives the messages
      they stand for, in order, unless the system reports an error meanwhile. */
  method ReceiveMessages<J(!new)>(json: Json<J>, socket: Socket, limit: nat, k: nat,
                                  ghost payloads: seq<Payload<J>>, ghost bodies: seq<Bytes>, ghost tail: Bytes)
    returns (r: Result<seq<Message<J>>, WireError>)
    requires Lawful(json) && k == |payloads| && Encodings(json, payloads, bodies)
    requires Framable(bodies) && socket.incoming == FrameAll(bodies) + tail
    requires forall j :: 0 <= j < k ==> |bodies[j]| <= limit
    modifies socket`incoming, socket`errors
    ensures r.Ok? ==> socket.errors == old(socket.errors)
    ensures (r == Ok(Meanings(json, payloads)) && socket.incoming == tail) || (r == Err(OsError) && socket.errors > old(socket.errors))
  {
    var frames := ReceiveFrames(socket, k, limit, bodies, tail);
    if frames.Err? {
      return Err(frames.error);
    }
    var messages := DecodeAll(json, frames.value, payloads);
    r := Ok(messages);
  }
}
