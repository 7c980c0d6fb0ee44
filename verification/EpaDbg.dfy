/** The epavm client: one request and one reply at a time over one connection, under one lock. Since
    every operation holds the lock from beginning to end, any concurrent history is a sequence of whole
    calls, and what `Valid` says holds whenever the lock is free. */
module EpaDbg {
  import opened Common
  import opened Brpc
  import opened BrpcTheorems
  import opened ByteStream

  const MAX_FRAME: nat := 64 * 1024 * 1024

  /** `epa.debug`'s "unknown", the code reported when a reply carries no verdict at all. */
  const UNKNOWN: Bytes := [117, 110, 107, 110, 111, 119, 110]

  /** How a call ends: a result, the server's error, or some other exception. */
  datatype Outcome<J> = Result(value: J) | DbgError(code: Value, msg: Value) | Broken

  /** What the reply says to the caller that sent `reqId`. A request with the right id is taken for a
      reply without a verdict; anything with another id, or none, is a failure of the stream. */
  function Judge<J>(m: Message<J>, reqId: Bytes): Outcome<J> {
    match m
    case SuccessMsg(id, result) => if id == Text(reqId) then Outcome.Result(result) else Broken
    case FailureMsg(id, code, msg) => if id == Text(reqId) then DbgError(code, msg) else Broken
    case RequestMsg(id, _, _) => if id == Text(reqId) then DbgError(Text(UNKNOWN), Text([])) else Broken
    case NotificationMsg(_, _) => Broken
  }

  /** The request can be sent, and what the server sends starts with a whole frame within the limit that can
      be decoded and gives the caller a verdict. */
  predicate Answered<J>(json: Json<J>, reqId: Bytes, name: Bytes, params: Option<J>, incoming: Bytes) {
    match (Encode(json, Request(Named(reqId), name, params)), ReadFrame(incoming, MAX_FRAME))
    case (Some(body), Ok(reply)) => |body| < TWO_32 && GivesVerdict(json, reply, reqId)
    case _ => false
  }

  predicate GivesVerdict<J>(json: Json<J>, reply: Bytes, reqId: Bytes) {
    match Decode(json, reply)
    case Ok(message) => !Judge(message, reqId).Broken?
    case Err(_) => false
  }

  class EpaDbgClient<J(!new)> {
    const json: Json<J>
    var sock: Socket?

    /** The request and reply bodies that crossed the present connection. */
    ghost var requests: seq<Bytes>
    ghost var replies: seq<Bytes>

    /** A connection that is kept has had exactly one whole reply consumed per request sent, and nothing
        of a further reply. */
    ghost predicate Valid()
      reads this, sock
    {
      sock != null ==>
        && |requests| == |replies| && Framable(requests) && Framable(replies)
        && sock.outgoing == FrameAll(requests)
        && sock.stream == FrameAll(replies) + sock.incoming
    }

    constructor (json: Json<J>)
      ensures Valid() && sock == null && this.json == json
    {
      this.json := json;
      sock := null;
      requests, replies := [], [];
    }

    ghost function Errors(): nat
      reads this, sock
    {
      if sock == null then 0 else sock.errors
    }

    ghost function Incoming(): Bytes
      reads this, sock
    {
      if sock == null then [] else sock.incoming
    }

    /** Connects unless there is a connection. What the server will send on a new one is up to it. */
    method Connect() returns (ok: bool)
      requires Valid()
      modifies this
      ensures Valid()
      ensures old(sock) != null ==> ok && sock == old(sock) && requests == old(requests) && replies == old(replies)
      ensures old(sock) == null ==> ok == (sock != null)
      ensures old(sock) == null && ok ==> fresh(sock) && requests == [] && sock.stream == sock.incoming
    {
      if sock != null {
        return true;
      }
      if * {
        return false;
      }
      var bytes: Bytes := *;
      var s := new Socket(bytes);
      sock := s;
      requests, replies := [], [];
      assert FrameAll(replies) + sock.incoming == sock.incoming;
      ok := true;
    }

    method Close()
      modifies this
      ensures Valid() && sock == null
    {
      sock := null;
    }

    /** `_send_raw`. */
    method SendRaw(body: Bytes) returns (ok: bool)
      requires Valid() && sock != null
      modifies this, sock
      ensures sock == old(sock) && sock.incoming == old(sock.incoming) && replies == old(replies)
      ensures ok <==> |body| < TWO_32 && sock.errors == old(sock.errors)
      ensures ok ==> |body| < TWO_32 && requests == old(requests) + [body] && Framable(requests)
                     && sock.outgoing == FrameAll(requests)
    {
      var frame := FrameOf(body);
      if frame.None? {
        return false;
      }
      ok := sock.SendAll(frame.value);
      if ok {
        FrameAllSnoc(requests, body);
        requests := requests + [body];
      }
    }

    /** Reads one reply off a connection whose request has just gone out. */
    method RecvReply() returns (raw: Result<Bytes, WireError>)
      requires sock != null && Framable(replies) && sock.stream == FrameAll(replies) + sock.incoming
      modifies this`replies, sock`incoming, sock`errors
      ensures sock.errors == old(sock.errors) + if raw == Err(OsError) then 1 else 0
      ensures match raw
              case Ok(reply) => ReadFrame(old(sock.incoming), MAX_FRAME) == Ok(reply)
              case Err(e) => ReadFrame(old(sock.incoming), MAX_FRAME) == Err(e) || e == OsError
      ensures raw.Ok? ==> replies == old(replies) + [raw.value] && Framable(replies)
                          && sock.stream == FrameAll(replies) + sock.incoming
    {
      raw := sock.RecvRaw(MAX_FRAME);
      if raw.Ok? {
        FrameAllSnoc(replies, raw.value);
        var frame := U32(|raw.value|) + raw.value;
        assert FrameAll(replies) + (frame + sock.incoming) == (FrameAll(replies) + frame) + sock.incoming;
        replies := replies + [raw.value];
      }
    }

    /** One transaction. A result or a server error comes from the reply frame just consumed, which carries
        this call's id, and keeps the connection; every other failure drops it. The call gives a verdict
        exactly when the system reports no error and the request is answered. */
    method Call(reqId: Bytes, name: Bytes, params: Option<J>) returns (r: Outcome<J>)
      requires Valid()
      modifies this, sock
      ensures Valid()
      ensures r.Broken? <==> sock == null
      ensures !r.Broken? <==> && old(sock) != null && old(sock).errors == old(Errors())
                              && Answered(json, reqId, name, params, old(Incoming()))
      ensures !r.Broken? ==>
                && sock == old(sock) && |replies| == |old(replies)| + 1
                && replies[..|replies| - 1] == old(replies)
                && Encode(json, Request(Named(reqId), name, params)) == Some(requests[|requests| - 1])
                && requests[..|requests| - 1] == old(requests)
                && Decode(json, replies[|replies| - 1]).Ok?
                && r == Judge(Decode(json, replies[|replies| - 1]).value, reqId)
    {
      var body := Encode(json, Request(Named(reqId), name, params));
      if body.None? || sock == null {
        Close();
        return Broken;
      }
      var sent := SendRaw(body.value);
      if !sent {
        Close();
        return Broken;
      }
      var raw := RecvReply();
      if raw.Err? {
        Close();
        return Broken;
      }
      var message := DecodeData(json, raw.value);
      if message.Err? {
        Close();
        return Broken;
      }
      r := Judge(message.value, reqId);
      if r.Broken? {
        Close();
      }
    }
  }

  // ------------------------------------------------------------------
  // What the verdict means
  // ------------------------------------------------------------------

  /** Which replies are accepted, in bytes: a big-endian length of at most 67108864 and that many bytes after it. */
  lemma ReplyAccepted(incoming: Bytes, reply: Bytes)
    ensures ReadFrame(incoming, MAX_FRAME) == Ok(reply)
            <==> && 4 + |reply| <= |incoming| && |reply| <= 67108864 && incoming[4..4 + |reply|] == reply
                 && incoming[0] as int * 16777216 + incoming[1] as int * 65536 + incoming[2] as int * 256 + incoming[3] as int == |reply|
  {
  }

  /** A request sent back under the caller's id counts as the error "unknown" without a message. */
  lemma RequestIsNoVerdict<J(!new)>(json: Json<J>, id: Bytes, reqId: Bytes, name: Bytes, params: Option<J>)
    requires Lawful(json) && Encode(json, Request(Named(id), name, params)).Some?
    ensures var m := Decode(json, Encode(json, Request(Named(id), name, params)).value);
            && m.Ok?
            && var outcome := Judge(m.value, reqId);
               if id == reqId then outcome.DbgError? && outcome.msg == Text([]) && outcome.code.Text? && Chars(outcome.code.text) == "unknown"
               else outcome == Broken
  {
    MessageRoundTrip(json, Request(Named(id), name, params));
  }

  /** A reply gives a verdict exactly if it carries the caller's own id. */
  lemma VerdictCarriesOwnId<J>(json: Json<J>, raw: Bytes, reqId: Bytes)
    requires Decode(json, raw).Ok?
    ensures !Judge(Decode(json, raw).value, reqId).Broken? <==> IdOf(Decode(json, raw).value) == Some(Text(reqId))
  {
  }

  /** The encoded result of a call is judged as that result by its own caller, and as a failure by any other. */
  lemma AnswerReachesItsCaller<J(!new)>(json: Json<J>, id: Bytes, reqId: Bytes, result: Option<J>)
    requires Lawful(json) && Encode(json, Success(Named(id), result)).Some?
    ensures var m := Decode(json, Encode(json, Success(Named(id), result)).value);
            m.Ok? && Judge(m.value, reqId) == if id == reqId then Outcome.Result(OrNone(json, result)) else Broken
  {
    MessageRoundTrip(json, Success(Named(id), result));
  }

  /** The same for the encoded error of a call. */
  lemma ErrorReachesItsCaller<J(!new)>(json: Json<J>, id: Bytes, reqId: Bytes, code: Bytes, msg: Bytes)
    requires Lawful(json) && Encode(json, Failure(Named(id), code, msg)).Some?
    ensures var m := Decode(json, Encode(json, Failure(Named(id), code, msg)).value);
            m.Ok? && Judge(m.value, reqId) == if id == reqId then DbgError(Text(code), Text(msg)) else Broken
  {
    MessageRoundTrip(json, Failure(Named(id), code, msg));
  }
}
