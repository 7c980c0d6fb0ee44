/** The external-logic proxy: one thread carries frames from the Python client to the C++ side and answers
    pings and registrations itself, another carries frames back. Frames are sent whole. */
module ExtProxy {
  import opened Common
  import opened Brpc
  import opened BrpcTheorems

  const PING: Bytes := [101, 120, 116, 46, 112, 105, 110, 103]
  const REGISTER: Bytes := [101, 120, 116, 46, 114, 101, 103, 105, 115, 116, 101, 114]

  /** JSON with the two constant results, and whether `(params or {}).get` works on a value. */
  datatype Env<!J> = Env(json: Json<J>, pong: J, registered: J, hasGet: J -> bool)

  // ------------------------------------------------------------------
  // What becomes of a frame from the Python side
  // ------------------------------------------------------------------

  datatype Decision = Forward | Answer(reply: Bytes) | Stop

  function NameOf<J>(m: Message<J>): Value {
    match m
    case RequestMsg(_, name, _) => name
    case NotificationMsg(name, _) => name
    case _ => Text([])
  }

  function HasGet<J>(env: Env<J>, m: Message<J>): bool {
    match m
    case RequestMsg(_, _, params) => env.hasGet(params)
    case _ => true
  }

  /** A decoded id, as the id of the answer. */
  function Echo(id: Value): Id {
    match id
    case Text(t) => Named(t)
    case Num(n) => Numbered(n)
  }

  function Reply<J>(env: Env<J>, id: Value, result: J): Decision {
    match Encode(env.json, Success(Echo(id), Some(result)))
    case Some(frame) => Answer(frame)
    case None => Stop
  }

  /** An undecodable frame ends the thread, as does an exception while answering; a ping or registration
      with a truthy id is answered; everything else is forwarded. */
  function Decide<J>(env: Env<J>, frame: Bytes): Decision {
    match Decode(env.json, frame)
    case Err(_) => Stop
    case Ok(m) =>
      var id := IdOf(m);
      if id.Some? && Truthy(id.value) && NameOf(m) == Text(PING) then Reply(env, id.value, env.pong)
      else if id.Some? && Truthy(id.value) && NameOf(m) == Text(REGISTER) then
        if HasGet(env, m) then Reply(env, id.value, env.registered) else Stop
      else Forward
  }

  method DecideFrame<J>(env: Env<J>, frame: Bytes) returns (d: Decision)
    ensures d == Decide(env, frame)
  {
    var msg := DecodeData(env.json, frame);
    if msg.Err? {
      return Stop;
    }
    var name, reqId := NameOf(msg.value), IdOf(msg.value);
    var truthy := reqId.Some? && Truthy(reqId.value);
    if truthy && name == Text(PING) {
      d := Reply(env, reqId.value, env.pong);
    } else if truthy && name == Text(REGISTER) {
      if !HasGet(env, msg.value) {
        return Stop;
      }
      d := Reply(env, reqId.value, env.registered);
    } else {
      d := Forward;
    }
  }

  /** The frames of a list that are forwarded, and the answers to the others, both in order. */
  function Forwarded(decide: Bytes -> Decision, frames: seq<Bytes>): seq<Bytes> {
    if frames == [] then []
    else
      var last := frames[|frames| - 1];
      Forwarded(decide, frames[..|frames| - 1]) + if decide(last).Forward? then [last] else []
  }

  function Answers(decide: Bytes -> Decision, frames: seq<Bytes>): seq<Bytes> {
    if frames == [] then []
    else
      var d := decide(frames[|frames| - 1]);
      Answers(decide, frames[..|frames| - 1]) + if d.Answer? then [d.reply] else []
  }

  // ------------------------------------------------------------------
  // The two threads
  // ------------------------------------------------------------------

  /** At the loop test, waiting for a frame, about to send what became of it, or finished. */
  datatype Phase = Testing | Waiting | Sending(frame: Bytes) | Ended

  /** What is sent to the Python side, marked with the thread that sent it. */
  datatype Sent = Answered(frame: Bytes) | Relayed(frame: Bytes)

  /** `pyRead` and `cppRead` count frames received by the two threads, `pyDone` and `cppDone` those dealt
      with. */
  datatype State = State(
    up: Phase, down: Phase, stop: bool,
    pyRead: nat, pyDone: nat, cppRead: nat, cppDone: nat,
    toCpp: seq<Bytes>, toPy: seq<Sent>)

  const INIT: State := State(Testing, Testing, false, 0, 0, 0, 0, [], [])

  /** `Fail` ends a thread where a socket operation raises or the peer has closed. */
  datatype Step = UpTest | UpRecv | UpSend | UpFail | DownTest | DownRecv | DownSend | DownFail

  function EndUp(s: State): State {
    s.(up := Ended, stop := true)
  }

  function EndDown(s: State): State {
    s.(down := Ended, stop := true)
  }

  function Do(decide: Bytes -> Decision, py: seq<Bytes>, cpp: seq<Bytes>, s: State, step: Step): Option<State> {
    match step
    case UpTest =>
      if !s.up.Testing? then None else Some(if s.stop then EndUp(s) else s.(up := Waiting))
    case UpRecv =>
      if !s.up.Waiting? || s.pyRead >= |py| then None
      else
        var s1 := s.(pyRead := s.pyRead + 1);
        Some(if decide(py[s.pyRead]).Stop? then EndUp(s1) else s1.(up := Sending(py[s.pyRead])))
    case UpSend =>
      if !s.up.Sending? then None
      else
        var s1 := s.(up := Testing, pyDone := s.pyDone + 1);
        (match decide(s.up.frame)
         case Answer(reply) => Some(s1.(toPy := s.toPy + [Answered(reply)]))
         case _ => Some(s1.(toCpp := s.toCpp + [s.up.frame])))
    case UpFail =>
      if !s.up.Waiting? && !s.up.Sending? then None else Some(EndUp(s))
    case DownTest =>
      if !s.down.Testing? then None else Some(if s.stop then EndDown(s) else s.(down := Waiting))
    case DownRecv =>
      if !s.down.Waiting? || s.cppRead >= |cpp| then None
      else Some(s.(cppRead := s.cppRead + 1, down := Sending(cpp[s.cppRead])))
    case DownSend =>
      if !s.down.Sending? then None
      else Some(s.(down := Testing, cppDone := s.cppDone + 1, toPy := s.toPy + [Relayed(s.down.frame)]))
    case DownFail =>
      if !s.down.Waiting? && !s.down.Sending? then None else Some(EndDown(s))
  }

  /** The state after an interleaving, when the two sides send the frames `py` and `cpp`. */
  function Execute(decide: Bytes -> Decision, py: seq<Bytes>, cpp: seq<Bytes>, steps: seq<Step>): Option<State> {
    if steps == [] then Some(INIT)
    else
      match Execute(decide, py, cpp, steps[..|steps| - 1])
      case None => None
      case Some(s) => Do(decide, py, cpp, s, steps[|steps| - 1])
  }

  /** The answers, and the relayed frames, among what was sent to the Python side. */
  function AnsweredIn(sent: seq<Sent>): seq<Bytes> {
    if sent == [] then []
    else AnsweredIn(sent[..|sent| - 1])
         + match sent[|sent| - 1] case Answered(f) => [f] case Relayed(_) => []
  }

  function RelayedIn(sent: seq<Sent>): seq<Bytes> {
    if sent == [] then []
    else RelayedIn(sent[..|sent| - 1])
         + match sent[|sent| - 1] case Answered(_) => [] case Relayed(f) => [f]
  }

  lemma SentSnoc(sent: seq<Sent>, x: Sent)
    ensures AnsweredIn(sent + [x]) == AnsweredIn(sent) + (match x case Answered(f) => [f] case Relayed(_) => [])
    ensures RelayedIn(sent + [x]) == RelayedIn(sent) + (match x case Answered(_) => [] case Relayed(f) => [f])
  {
    assert (sent + [x])[..|sent|] == sent;
  }

  /** A thread that has not ended has dealt with all it has read, but for the frame in hand. */
  ghost predicate InHand(phase: Phase, frames: seq<Bytes>, read: nat, done: nat) {
    match phase
    case Testing => done == read
    case Waiting => done == read
    case Sending(f) => done + 1 == read <= |frames| && f == frames[done]
    case Ended => done <= read <= done + 1
  }

  ghost predicate Inv(decide: Bytes -> Decision, py: seq<Bytes>, cpp: seq<Bytes>, s: State) {
    && s.pyDone <= s.pyRead <= |py| && s.cppDone <= s.cppRead <= |cpp|
    && InHand(s.up, py, s.pyRead, s.pyDone) && InHand(s.down, cpp, s.cppRead, s.cppDone)
    && (s.up.Sending? ==> !decide(s.up.frame).Stop?)
    && (forall k :: 0 <= k < s.pyDone ==> !decide(py[k]).Stop?)
    && s.toCpp == Forwarded(decide, py[..s.pyDone])
    && AnsweredIn(s.toPy) == Answers(decide, py[..s.pyDone])
    && RelayedIn(s.toPy) == cpp[..s.cppDone]
    && (s.stop <==> s.up.Ended? || s.down.Ended?)
  }

  lemma UpSendKeeps(decide: Bytes -> Decision, py: seq<Bytes>, cpp: seq<Bytes>, s: State, t: State)
    requires Inv(decide, py, cpp, s) && Do(decide, py, cpp, s, UpSend) == Some(t)
    ensures Inv(decide, py, cpp, t)
  {
    SentOn(decide, py, s.pyDone);
    hide Forwarded, Answers;
    if decide(s.up.frame).Answer? {
      SentSnoc(s.toPy, Answered(decide(s.up.frame).reply));
    }
  }

  /** What one more frame adds to what is forwarded and answered. */
  lemma SentOn(decide: Bytes -> Decision, py: seq<Bytes>, n: nat)
    requires n < |py|
    ensures Forwarded(decide, py[..n + 1]) == Forwarded(decide, py[..n]) + if decide(py[n]).Forward? then [py[n]] else []
    ensures Answers(decide, py[..n + 1]) == Answers(decide, py[..n]) + if decide(py[n]).Answer? then [decide(py[n]).reply] else []
  {
    assert py[..n + 1][..n] == py[..n];
  }

  lemma DownSendKeeps(decide: Bytes -> Decision, py: seq<Bytes>, cpp: seq<Bytes>, s: State, t: State)
    requires Inv(decide, py, cpp, s) && Do(decide, py, cpp, s, DownSend) == Some(t)
    ensures Inv(decide, py, cpp, t)
  {
    SentSnoc(s.toPy, Relayed(s.down.frame));
    assert cpp[..t.cppDone] == cpp[..s.cppDone] + [s.down.frame];
  }

  lemma StepKeeps(decide: Bytes -> Decision, py: seq<Bytes>, cpp: seq<Bytes>, s: State, step: Step, t: State)
    requires Inv(decide, py, cpp, s) && Do(decide, py, cpp, s, step) == Some(t)
    ensures Inv(decide, py, cpp, t)
  {
    if step.UpSend? {
      UpSendKeeps(decide, py, cpp, s, t);
    } else if step.DownSend? {
      DownSendKeeps(decide, py, cpp, s, t);
    }
  }

  lemma {:induction false} RunKeeps(decide: Bytes -> Decision, py: seq<Bytes>, cpp: seq<Bytes>, steps: seq<Step>)
    ensures Execute(decide, py, cpp, steps).Some? ==> Inv(decide, py, cpp, Execute(decide, py, cpp, steps).value)
  {
    if steps != [] {
      var front := steps[..|steps| - 1];
      RunKeeps(decide, py, cpp, front);
      if Execute(decide, py, cpp, front).Some? && Execute(decide, py, cpp, steps).Some? {
        StepKeeps(decide, py, cpp, Execute(decide, py, cpp, front).value, steps[|steps| - 1], Execute(decide, py, cpp, steps).value);
      }
    }
  }

  // ------------------------------------------------------------------
  // Main results
  // ------------------------------------------------------------------

  /** In every interleaving, with any failures: the C++ side has received exactly the forwardable frames of
      a prefix of the Python frames, in order and unmodified; the Python side has received a shuffle of the
      answers to the others of that prefix, in request order, with a prefix of the C++ frames; nothing in
      the prefix is lost or would have ended the thread; and each thread that is still running has left
      nothing behind but the frame it holds. `decide` stands for any way of deciding. */
  lemma ProxySafe(decide: Bytes -> Decision, py: seq<Bytes>, cpp: seq<Bytes>, steps: seq<Step>)
    requires Execute(decide, py, cpp, steps).Some?
    ensures var s := Execute(decide, py, cpp, steps).value;
            && s.pyDone <= |py| && s.cppDone <= |cpp|
            && s.toCpp == Forwarded(decide, py[..s.pyDone])
            && AnsweredIn(s.toPy) == Answers(decide, py[..s.pyDone])
            && RelayedIn(s.toPy) == cpp[..s.cppDone]
            && (s.up.Testing? || s.up.Waiting? ==> s.pyDone == s.pyRead)
            && (s.down.Testing? || s.down.Waiting? ==> s.cppDone == s.cppRead)
            && s.pyRead <= s.pyDone + 1 && s.cppRead <= s.cppDone + 1
            && |s.toCpp| + |AnsweredIn(s.toPy)| == s.pyDone
            && (s.stop <==> s.up.Ended? || s.down.Ended?)
            && forall k :: 0 <= k < s.pyDone ==> !decide(py[k]).Stop?
  {
    RunKeeps(decide, py, cpp, steps);
    NothingDropped(decide, py[..Execute(decide, py, cpp, steps).value.pyDone]);
  }

  /** An answer is a success response to the request it answers: same id, printed as a text. */
  lemma AnswerCarriesOwnId<J(!new)>(env: Env<J>, frame: Bytes)
    requires Lawful(env.json) && Decide(env, frame).Answer?
    ensures var m := Decode(env.json, frame).value;
            && IdOf(m).Some? && Truthy(IdOf(m).value) && (NameOf(m) == Text(PING) || NameOf(m) == Text(REGISTER))
            && Decode(env.json, Decide(env, frame).reply)
               == Ok(SuccessMsg(Text(Str(Echo(IdOf(m).value))), if NameOf(m) == Text(PING) then env.pong else env.registered))
  {
    var m := Decode(env.json, frame).value;
    var result := if NameOf(m) == Text(PING) then env.pong else env.registered;
    MessageRoundTrip(env.json, Success(Echo(IdOf(m).value), Some(result)));
  }

  lemma MethodNames(name: Bytes)
    ensures name == PING <==> Chars(name) == "ext.ping"
    ensures name == REGISTER <==> Chars(name) == "ext.register"
    ensures PING != REGISTER
  {
    assert Chars(PING) == "ext.ping" && Chars(REGISTER) == "ext.register";
    if Chars(name) == "ext.ping" {
      CharsInjective(name, PING);
    }
    if Chars(name) == "ext.register" {
      CharsInjective(name, REGISTER);
    }
    assert |PING| != |REGISTER|;
  }

  /** What becomes of an encoded request: `ext.ping` or `ext.register` with a non-empty id is answered, as long
      as the answer can be encoded and, for a registration, its params can be read; any other request goes to
      the C++ side. */
  lemma RequestFate<J(!new)>(env: Env<J>, id: Id, name: Bytes, params: Option<J>)
    requires Lawful(env.json) && Encode(env.json, Request(id, name, params)).Some?
    ensures var d := Decide(env, Encode(env.json, Request(id, name, params)).value);
            var ping := Chars(name) == "ext.ping";
            if Str(id) != [] && (ping || Chars(name) == "ext.register") then
              var result := if ping then env.pong else env.registered;
              var answer := Encode(env.json, Success(id, Some(result)));
              if answer.Some? && (ping || env.hasGet(OrNone(env.json, params))) then d == Answer(answer.value)
              else d == Stop
            else d == Forward
  {
    MessageRoundTrip(env.json, Request(id, name, params));
    MethodNames(name);
    hide PING, REGISTER;
    var result := if name == PING then env.pong else env.registered;
    assert Fields(env.json, Success(id, Some(result))) == Fields(env.json, Success(Named(Str(id)), Some(result)));
  }

  /** Responses and notifications are always forwarded. */
  lemma OthersForwarded<J(!new)>(env: Env<J>, p: Payload<J>)
    requires Lawful(env.json) && !p.Request? && Encode(env.json, p).Some?
    ensures Decide(env, Encode(env.json, p).value) == Forward
  {
    MessageRoundTrip(env.json, p);
  }

  /** Every frame dealt with is forwarded or answered, never both and never neither. */
  lemma {:induction false} NothingDropped(decide: Bytes -> Decision, frames: seq<Bytes>)
    requires forall k :: 0 <= k < |frames| ==> !decide(frames[k]).Stop?
    ensures |Forwarded(decide, frames)| + |Answers(decide, frames)| == |frames|
  {
    if frames != [] {
      var front := frames[..|frames| - 1];
      assert forall k :: 0 <= k < |front| ==> front[k] == frames[k];
      NothingDropped(decide, front);
      assert !decide(frames[|frames| - 1]).Stop?;
    }
  }

  // ------------------------------------------------------------------
  // Stopping
  // ------------------------------------------------------------------

  /** How many steps a thread can still take once `stop` is set. */
  function StepsLeft(phase: Phase): nat {
    match phase
    case Waiting => 3
    case Sending(_) => 2
    case Testing => 1
    case Ended => 0
  }

  /** A thread ends for one of three reasons: its loop test finds the other thread ended, a frame from the Python side
      is not to be sent on, or a socket operation fails that it was in the middle of. */
  lemma WhyItEnds(decide: Bytes -> Decision, py: seq<Bytes>, cpp: seq<Bytes>, steps: seq<Step>, step: Step)
    requires Execute(decide, py, cpp, steps).Some? && Do(decide, py, cpp, Execute(decide, py, cpp, steps).value, step).Some?
    ensures var s, t := Execute(decide, py, cpp, steps).value, Do(decide, py, cpp, Execute(decide, py, cpp, steps).value, step).value;
            && (t.up.Ended? && !s.up.Ended? <==>
                  || (step.UpTest? && s.down.Ended?)
                  || (step.UpRecv? && s.pyRead < |py| && decide(py[s.pyRead]).Stop?)
                  || (step.UpFail? && (s.up.Waiting? || s.up.Sending?)))
            && (t.down.Ended? && !s.down.Ended? <==>
                  || (step.DownTest? && s.up.Ended?)
                  || (step.DownFail? && (s.down.Waiting? || s.down.Sending?)))
  {
    RunKeeps(decide, py, cpp, steps);
  }

  /** A thread can take a step until it has ended: receive while frames are to come, and fail in any socket
      operation. */
  lemma RunningThreadsMove(decide: Bytes -> Decision, py: seq<Bytes>, cpp: seq<Bytes>, s: State)
    ensures Do(decide, py, cpp, s, UpTest).Some? <==> s.up.Testing?
    ensures Do(decide, py, cpp, s, UpRecv).Some? <==> s.up.Waiting? && s.pyRead < |py|
    ensures Do(decide, py, cpp, s, UpSend).Some? <==> s.up.Sending?
    ensures Do(decide, py, cpp, s, UpFail).Some? <==> s.up.Waiting? || s.up.Sending?
    ensures Do(decide, py, cpp, s, DownTest).Some? <==> s.down.Testing?
    ensures Do(decide, py, cpp, s, DownRecv).Some? <==> s.down.Waiting? && s.cppRead < |cpp|
    ensures Do(decide, py, cpp, s, DownSend).Some? <==> s.down.Sending?
    ensures Do(decide, py, cpp, s, DownFail).Some? <==> s.down.Waiting? || s.down.Sending?
  {
  }

  lemma StopStep(decide: Bytes -> Decision, py: seq<Bytes>, cpp: seq<Bytes>, s: State, step: Step, t: State)
    requires s.stop && Do(decide, py, cpp, s, step) == Some(t)
    ensures t.stop && StepsLeft(t.up) + StepsLeft(t.down) < StepsLeft(s.up) + StepsLeft(s.down)
    ensures t.pyRead + (if t.up.Waiting? then 1 else 0) <= s.pyRead + (if s.up.Waiting? then 1 else 0)
    ensures t.cppRead + (if t.down.Waiting? then 1 else 0) <= s.cppRead + (if s.down.Waiting? then 1 else 0)
  {
  }

  /** Once one thread has set `stop` the other ends at its next loop test: it reads one more frame at most, and that
      only if it was already waiting for it, and both together take at most six more steps. */
  lemma {:induction false} StopEndsBoth(decide: Bytes -> Decision, py: seq<Bytes>, cpp: seq<Bytes>, steps: seq<Step>, later: seq<Step>)
    requires Execute(decide, py, cpp, steps).Some? && Execute(decide, py, cpp, steps).value.stop
    requires Execute(decide, py, cpp, steps + later).Some?
    ensures var s, t := Execute(decide, py, cpp, steps).value, Execute(decide, py, cpp, steps + later).value;
            && t.stop && |later| + StepsLeft(t.up) + StepsLeft(t.down) <= StepsLeft(s.up) + StepsLeft(s.down) <= 6
            && t.pyRead + (if t.up.Waiting? then 1 else 0) <= s.pyRead + (if s.up.Waiting? then 1 else 0)
            && t.cppRead + (if t.down.Waiting? then 1 else 0) <= s.cppRead + (if s.down.Waiting? then 1 else 0)
  {
    hide Do;
    if later == [] {
      assert steps + later == steps;
    } else {
      var n := |later| - 1;
      var before := steps + later[..n];
      assert (steps + later)[..|steps + later| - 1] == before;
      StopEndsBoth(decide, py, cpp, steps, later[..n]);
      StopStep(decide, py, cpp, Execute(decide, py, cpp, before).value, later[n], Execute(decide, py, cpp, steps + later).value);
    }
  }
}
