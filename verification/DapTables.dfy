/** The pending and response tables of the debug adapter client, shared by any number of sending
    threads and one receiving thread. */
module DapTables {
  import opened Common

  /** A response message; `serial` is its position among the messages received, so that equal-looking
      messages stay distinguishable. */
  datatype Response = Response(requestSeq: int, serial: nat)

  /** The client's shared fields; `woken` are the sequence numbers whose Event has been set. */
  datatype Tables = Tables(number: nat, pending: set<int>, responses: map<int, Response>, woken: set<int>)

  // ------------------------------------------------------------------
  // The critical sections
  // ------------------------------------------------------------------

  function NumberSection(t: Tables): Tables {
    t.(number := t.number + 1)
  }

  function RegisterSection(t: Tables, s: int): Tables {
    t.(pending := t.pending + {s})
  }

  function AbandonSection(t: Tables, s: int): Tables {
    t.(pending := t.pending - {s})
  }

  function CollectSection(t: Tables, s: int): Tables {
    t.(responses := t.responses - {s})
  }

  function DispatchSection(t: Tables, r: Response): Tables {
    if r.requestSeq in t.pending then
      t.(pending := t.pending - {r.requestSeq}, responses := t.responses[r.requestSeq := r],
         woken := t.woken + {r.requestSeq})
    else t
  }

  function ReleaseSection(t: Tables): Tables {
    t.(woken := t.woken + t.pending)
  }

  function Lookup(t: Tables, s: int): Option<Response> {
    if s in t.responses then Some(t.responses[s]) else None
  }

  class PythonDapClient {
    var number: nat
    var pending: set<int>
    var responses: map<int, Response>
    var woken: set<int>

    ghost function View(): Tables
      reads this
    {
      Tables(number, pending, responses, woken)
    }

    constructor ()
      ensures View() == Tables(0, {}, map[], {})
    {
      number, pending, responses, woken := 0, {}, map[], {};
    }

    method TakeNumber() returns (s: nat)
      modifies this
      ensures View() == NumberSection(old(View())) && s == number
    {
      number := number + 1;
      s := number;
    }

    method Register(s: int)
      modifies this
      ensures View() == RegisterSection(old(View()), s)
    {
      pending := pending + {s};
    }

    method Abandon(s: int)
      modifies this
      ensures View() == AbandonSection(old(View()), s)
    {
      pending := pending - {s};
    }

    method Collect(s: int) returns (r: Option<Response>)
      modifies this
      ensures View() == CollectSection(old(View()), s) && r == Lookup(old(View()), s)
    {
      r := None;
      if s in responses {
        r := Some(responses[s]);
      }
      responses := responses - {s};
    }

    method Dispatch(r: Response)
      modifies this
      ensures View() == DispatchSection(old(View()), r)
    {
      if r.requestSeq in pending {
        pending := pending - {r.requestSeq};
        responses := responses[r.requestSeq := r];
        woken := woken + {r.requestSeq};
      }
    }

    /** The end of the receive loop: wakes every registered waiter. */
    method ReleaseWaiters()
      modifies this
      ensures View() == ReleaseSection(old(View()))
    {
      var rest := pending;
      while rest != {}
        invariant rest <= pending && pending == old(pending)
        invariant woken == old(woken) + (pending - rest)
        invariant number == old(number) && responses == old(responses)
        decreases |rest|
      {
        HasMember(rest);
        var s :| s in rest;
        woken := woken + {s};
        rest := rest - {s};
      }
    }
  }

  // ------------------------------------------------------------------
  // The threads
  // ------------------------------------------------------------------

  /** How far one call of `send` has got. */
  datatype Phase = Numbered | Registered | Waiting | Leaving(timedOut: bool) | Returned(result: Option<Response>)

  /** `calls` are the `send`s by number, `fired` the numbers used by `fire`; `received` counts messages;
      `exited` says that the receive loop has ended. */
  datatype State = State(tables: Tables, calls: map<int, Phase>, fired: set<int>, received: nat, exited: bool)

  const INIT: State := State(Tables(0, {}, map[], {}), map[], {}, 0, false)

  datatype Step =
    | Begin
    | Fire
    | Register(s: int)
    | SendOk(s: int)
    | SendFails(s: int)
    | Wake(s: int)
    | TimeOut(s: int)
    | Collect(s: int)
    | Receive(requestSeq: int)
    | ReceiveOther
    | Exit

  function At(c: map<int, Phase>, s: int): Option<Phase> {
    if s in c then Some(c[s]) else None
  }

  function Do(st: State, step: Step): Option<State> {
    match step
    case Begin =>
      Some(st.(tables := NumberSection(st.tables), calls := st.calls[st.tables.number + 1 := Numbered]))
    case Fire =>
      Some(st.(tables := NumberSection(st.tables), fired := st.fired + {st.tables.number + 1}))
    case Register(s) =>
      if At(st.calls, s) != Some(Numbered) then None
      else Some(st.(tables := RegisterSection(st.tables, s), calls := st.calls[s := Registered]))
    case SendOk(s) =>
      if At(st.calls, s) != Some(Registered) then None
      else Some(st.(calls := st.calls[s := Waiting]))
    case SendFails(s) =>
      if At(st.calls, s) != Some(Registered) then None
      else Some(st.(tables := AbandonSection(st.tables, s), calls := st.calls[s := Returned(None)]))
    case Wake(s) =>
      if At(st.calls, s) != Some(Waiting) || s !in st.tables.woken then None
      else Some(st.(calls := st.calls[s := Leaving(false)]))
    case TimeOut(s) =>
      if At(st.calls, s) != Some(Waiting) then None
      else Some(st.(calls := st.calls[s := Leaving(true)]))
    case Collect(s) =>
      if At(st.calls, s).None? || !At(st.calls, s).value.Leaving? then None
      else Some(st.(tables := CollectSection(st.tables, s), calls := st.calls[s := Returned(Lookup(st.tables, s))]))
    case Receive(requestSeq) =>
      if st.exited then None
      else Some(st.(tables := DispatchSection(st.tables, Response(requestSeq, st.received)), received := st.received + 1))
    case ReceiveOther =>
      if st.exited then None else Some(st.(received := st.received + 1))
    case Exit =>
      if st.exited then None else Some(st.(tables := ReleaseSection(st.tables), exited := true))
  }

  function Execute(steps: seq<Step>): Option<State> {
    if steps == [] then Some(INIT)
    else
      match Execute(steps[..|steps| - 1])
      case None => None
      case Some(st) => Do(st, steps[|steps| - 1])
  }

  // ------------------------------------------------------------------
  // The invariant
  // ------------------------------------------------------------------

  /** The response that has been stored for, or returned to, call `s`. */
  function Held(st: State, s: int): Option<Response> {
    if s in st.tables.responses then Some(st.tables.responses[s])
    else if s in st.calls && st.calls[s].Returned? then st.calls[s].result
    else None
  }

  ghost predicate NumbersInv(st: State) {
    && (forall s :: s in st.calls ==> 0 < s <= st.tables.number)
    && (forall s :: s in st.fired ==> 0 < s <= st.tables.number && s !in st.calls)
  }

  ghost predicate TablesInv(st: State) {
    && (forall s :: s in st.tables.pending ==> s in st.calls && s !in st.tables.responses && !st.calls[s].Numbered?)
    && (forall s :: s in st.tables.responses ==> s in st.calls && !st.calls[s].Numbered?)
    && (forall s :: s in st.calls && st.calls[s].Returned? && st.calls[s].result.Some? ==>
          s !in st.tables.pending && s !in st.tables.responses)
  }

  ghost predicate HeldInv(st: State) {
    && (forall s :: Held(st, s).Some? ==> Held(st, s).value.requestSeq == s && Held(st, s).value.serial < st.received)
    && (forall s, t :: Held(st, s).Some? && Held(st, t).Some? && s != t ==> Held(st, s).value.serial != Held(st, t).value.serial)
  }

  /** Before the receive loop ends, being woken means that the response is there; after it, nobody who
      was registered in time is left unwoken. */
  ghost predicate WokenInv(st: State) {
    && (forall s :: s in st.tables.woken ==> s in st.calls && !st.calls[s].Numbered?)
    && (!st.exited ==> forall s :: s in st.tables.woken && !st.calls[s].Returned? ==> s in st.tables.responses)
    && (!st.exited ==> forall s :: s in st.calls && st.calls[s] == Leaving(false) ==> s in st.tables.woken)
  }

  ghost predicate Inv(st: State) {
    NumbersInv(st) && TablesInv(st) && HeldInv(st) && WokenInv(st)
  }

  lemma DispatchHolds(st: State, requestSeq: int)
    requires Inv(st) && !st.exited
    ensures Inv(Do(st, Receive(requestSeq)).value)
  {
    var t := Do(st, Receive(requestSeq)).value;
    var r := Response(requestSeq, st.received);
    if requestSeq in st.tables.pending {
      assert Held(t, requestSeq) == Some(r);
    }
    forall s | s != requestSeq || requestSeq !in st.tables.pending ensures Held(t, s) == Held(st, s) {}
  }

  lemma CollectHolds(st: State, s: int)
    requires Inv(st) && At(st.calls, s).Some? && At(st.calls, s).value.Leaving?
    ensures Inv(Do(st, Collect(s)).value)
  {
    var t := Do(st, Collect(s)).value;
    forall u ensures Held(t, u) == Held(st, u) {}
  }

  lemma StepKeeps(st: State, step: Step, t: State)
    requires Inv(st) && Do(st, step) == Some(t)
    ensures Inv(t)
  {
    match step
    case Receive(requestSeq) => DispatchHolds(st, requestSeq);
    case Collect(s) => CollectHolds(st, s);
    case _ => QuietStepKeeps(st, step, t);
  }

  /** The steps that move no response. */
  lemma QuietStepKeeps(st: State, step: Step, t: State)
    requires Inv(st) && Do(st, step) == Some(t) && !step.Receive? && !step.Collect?
    ensures Inv(t)
  {
    assert t.tables.responses == st.tables.responses && st.received <= t.received;
    forall u ensures Held(t, u) == Held(st, u) {}
    QuietStepCounts(st, step, t);
    hide Do;
  }

  lemma QuietStepCounts(st: State, step: Step, t: State)
    requires NumbersInv(st) && TablesInv(st) && WokenInv(st) && Do(st, step) == Some(t) && !step.Receive? && !step.Collect?
    ensures NumbersInv(t) && TablesInv(t) && WokenInv(t)
  {
  }

  lemma {:induction false} RunKeeps(steps: seq<Step>)
    ensures Execute(steps).Some? ==> Inv(Execute(steps).value)
  {
    if steps != [] {
      var front := steps[..|steps| - 1];
      RunKeeps(front);
      if Execute(front).Some? && Execute(steps).Some? {
        StepKeeps(Execute(front).value, steps[|steps| - 1], Execute(steps).value);
      }
    }
  }

  lemma ExecuteSnoc(steps: seq<Step>, step: Step)
    ensures Execute(steps + [step]) == match Execute(steps) case None => None case Some(st) => Do(st, step)
  {
    assert (steps + [step])[..|steps|] == steps;
  }

  // ------------------------------------------------------------------
  // Main results
  // ------------------------------------------------------------------

  /** In every interleaving the tables have disjoint keys, and `send` returns nothing or a response to its
      own request, which no other call holds or has returned. */
  lemma Correlated(steps: seq<Step>, s: int, t: int)
    requires Execute(steps).Some?
    ensures var st := Execute(steps).value;
            && !(s in st.tables.pending && s in st.tables.responses)
            && (At(st.calls, s).Some? && st.calls[s].Returned? && st.calls[s].result.Some? ==>
                  && st.calls[s].result.value.requestSeq == s
                  && st.calls[s].result.value.serial < st.received
                  && s !in st.tables.responses
                  && (Held(st, t) == Some(st.calls[s].result.value) ==> s == t))
  {
    RunKeeps(steps);
    var st := Execute(steps).value;
    if At(st.calls, s).Some? && st.calls[s].Returned? && st.calls[s].result.Some? {
      assert Held(st, s) == st.calls[s].result;
    }
  }

  /** A sequence number is new to both `send` and `fire` when it is handed out. */
  lemma NumbersAreFresh(steps: seq<Step>, step: Step)
    requires Execute(steps + [step]).Some? && (step.Begin? || step.Fire?)
    ensures Execute(steps).Some?
    ensures var before, after := Execute(steps).value, Execute(steps + [step]).value;
            && after.tables.number !in before.calls && after.tables.number !in before.fired
            && (after.tables.number in after.calls <==> step.Begin?) && (after.tables.number in after.fired <==> step.Fire?)
  {
    ExecuteSnoc(steps, step);
    RunKeeps(steps);
  }

  /** A response to a `fire`, to a number never used, or to a request already answered changes nothing. */
  lemma UnexpectedResponseDropped(steps: seq<Step>, requestSeq: int)
    requires Execute(steps + [Receive(requestSeq)]).Some? && Execute(steps).Some?
    requires requestSeq in Execute(steps).value.fired || requestSeq !in Execute(steps).value.calls
             || Held(Execute(steps).value, requestSeq).Some?
    ensures Execute(steps + [Receive(requestSeq)]).value.tables == Execute(steps).value.tables
  {
    ExecuteSnoc(steps, Receive(requestSeq));
    RunKeeps(steps);
  }

  /** A call that has returned and is no longer waited for. */
  ghost predicate Forgotten(st: State, s: int) {
    s in st.calls && st.calls[s].Returned? && s !in st.tables.pending
  }

  /** A `send` whose `sendall` raised is forgotten for good: whatever happens afterwards, a response to its number
      changes nothing. */
  lemma {:induction false} FailedSendIsForgotten(steps: seq<Step>, s: int, later: seq<Step>)
    requires Execute(steps + [SendFails(s)] + later).Some?
    ensures var st := Execute(steps + [SendFails(s)] + later).value;
            && Forgotten(st, s)
            && forall t :: Do(st, Receive(s)) == Some(t) ==> t.tables == st.tables
  {
    var run := steps + [SendFails(s)];
    if later == [] {
      assert run + later == run;
      ExecuteSnoc(steps, SendFails(s));
    } else {
      var front, step := later[..|later| - 1], later[|later| - 1];
      assert run + later == (run + front) + [step];
      ExecuteSnoc(run + front, step);
      FailedSendIsForgotten(steps, s, front);
      RunKeeps(run + front);
      ForgottenStays(Execute(run + front).value, step, s);
    }
  }

  lemma ForgottenStays(st: State, step: Step, s: int)
    requires Forgotten(st, s) && Do(st, step).Some? && s <= st.tables.number
    ensures Forgotten(Do(st, step).value, s)
  {
  }

  /** While the receive loop runs, a `send` that its event has woken returns its response, whatever the other threads
      do in between. */
  lemma WokenSendIsAnswered(steps: seq<Step>, s: int, between: seq<Step>)
    requires Execute(steps + [Wake(s)] + between + [Collect(s)]).Some?
    requires Execute(steps + [Wake(s)] + between).Some? && !Execute(steps + [Wake(s)] + between).value.exited
    ensures var after := Execute(steps + [Wake(s)] + between + [Collect(s)]).value;
            ResultOf(after, s).Some? && ResultOf(after, s).value.requestSeq == s
  {
    var before := steps + [Wake(s)] + between;
    hide Do;
    WokenStaysWoken(steps, s, between);
    RunKeeps(before);
    ExecuteSnoc(before, Collect(s));
    CollectsWoken(Execute(before).value, s);
  }

  lemma CollectsWoken(st: State, s: int)
    requires Inv(st) && !st.exited && At(st.calls, s).Some? && (st.calls[s] == Leaving(false) || st.calls[s].Returned?)
    requires Do(st, Collect(s)).Some?
    ensures var after := Do(st, Collect(s)).value;
            ResultOf(after, s).Some? && ResultOf(after, s).value.requestSeq == s
  {
    assert Held(st, s) == Some(st.tables.responses[s]);
  }

  lemma {:induction false} WokenStaysWoken(steps: seq<Step>, s: int, later: seq<Step>)
    requires Execute(steps + [Wake(s)] + later).Some?
    ensures var st := Execute(steps + [Wake(s)] + later).value;
            At(st.calls, s).Some? && (st.calls[s] == Leaving(false) || st.calls[s].Returned?)
  {
    var run := steps + [Wake(s)];
    if later == [] {
      assert run + later == run;
      ExecuteSnoc(steps, Wake(s));
    } else {
      var front, step := later[..|later| - 1], later[|later| - 1];
      assert run + later == (run + front) + [step];
      ExecuteSnoc(run + front, step);
      WokenStaysWoken(steps, s, front);
      RunKeeps(run + front);
      LeavingStays(Execute(run + front).value, step, s);
    }
  }

  lemma LeavingStays(st: State, step: Step, s: int)
    requires At(st.calls, s).Some? && (st.calls[s] == Leaving(false) || st.calls[s].Returned?)
    requires Do(st, step).Some? && s <= st.tables.number
    ensures var t := Do(st, step).value;
            At(t.calls, s).Some? && (t.calls[s] == Leaving(false) || t.calls[s].Returned?)
  {
  }

  function ResultOf(st: State, s: int): Option<Response> {
    if s in st.calls && st.calls[s].Returned? then st.calls[s].result else None
  }

  /** When the receive loop ends every registered caller has been woken, one that is still sending
      included. */
  lemma ExitWakesAll(steps: seq<Step>, s: int)
    requires Execute(steps + [Exit]).Some?
    ensures var st := Execute(steps + [Exit]).value;
            s in st.calls && (st.calls[s].Registered? || st.calls[s].Waiting?) ==> s in st.tables.woken
  {
    ExecuteSnoc(steps, Exit);
    RunKeeps(steps);
    WaitersArePendingOrWoken(steps);
  }

  predicate IsMessage(step: Step) {
    step.Receive? || step.ReceiveOther?
  }

  function Messages(steps: seq<Step>): nat {
    if steps == [] then 0 else Messages(steps[..|steps| - 1]) + if IsMessage(steps[|steps| - 1]) then 1 else 0
  }

  /** Messages are counted one by one, sequence numbers are handed out one by one, and once the receive loop has ended
      it receives nothing more. */
  lemma {:induction false} Counts(steps: seq<Step>, k: nat)
    requires Execute(steps).Some?
    ensures Execute(steps).value.received == Messages(steps)
    ensures Execute(steps).value.exited <==> exists m :: 0 <= m < |steps| && steps[m].Exit?
    ensures k < |steps| && steps[k].Exit? ==> forall m :: k < m < |steps| ==> !IsMessage(steps[m]) && !steps[m].Exit?
  {
    if steps != [] {
      Counts(steps[..|steps| - 1], k);
    }
  }

  /** The numbers handed out are 1, 2, 3 and so on: as many as calls were begun and requests fired. */
  lemma {:induction false} NumbersCount(steps: seq<Step>)
    requires Execute(steps).Some?
    ensures Execute(steps).value.tables.number == Begun(steps)
  {
    if steps != [] {
      NumbersCount(steps[..|steps| - 1]);
    }
  }

  function Begun(steps: seq<Step>): nat {
    if steps == [] then 0
    else Begun(steps[..|steps| - 1]) + if steps[|steps| - 1].Begin? || steps[|steps| - 1].Fire? then 1 else 0
  }

  ghost predicate WaitersAccounted(st: State) {
    forall s :: s in st.calls && (st.calls[s].Registered? || st.calls[s].Waiting?) ==>
      s in st.tables.pending || s in st.tables.woken
  }

  lemma {:induction false} WaitersArePendingOrWoken(steps: seq<Step>)
    ensures Execute(steps).Some? ==> WaitersAccounted(Execute(steps).value)
  {
    if steps != [] {
      WaitersArePendingOrWoken(steps[..|steps| - 1]);
    }
  }

  /** A `send` that came too late: nothing will wake it, and it has no response. */
  ghost predicate Orphan(st: State, s: int) {
    && st.exited && s in st.calls && s !in st.tables.woken && s !in st.tables.responses
    && (st.calls[s].Leaving? ==> st.calls[s].timedOut)
    && (st.calls[s].Returned? ==> st.calls[s].result.None?)
  }

  /** A `send` that registers after the receive loop has ended is never woken and returns nothing. */
  lemma {:induction false} LateSendTimesOut(steps: seq<Step>, s: int, later: seq<Step>)
    requires Execute(steps).Some? && Execute(steps).value.exited && At(Execute(steps).value.calls, s) == Some(Numbered)
    requires Execute(steps + later).Some?
    ensures Orphan(Execute(steps + later).value, s)
  {
    if later == [] {
      assert steps + later == steps;
      RunKeeps(steps);
    } else {
      var front, step := later[..|later| - 1], later[|later| - 1];
      assert steps + later == (steps + front) + [step];
      ExecuteSnoc(steps + front, step);
      LateSendTimesOut(steps, s, front);
      RunKeeps(steps + front);
      OrphanStays(Execute(steps + front).value, step, s);
    }
  }

  lemma OrphanStays(st: State, step: Step, s: int)
    requires Orphan(st, s) && Do(st, step).Some? && s <= st.tables.number
    ensures Orphan(Do(st, step).value, s)
  {
  }

  // ------------------------------------------------------------------
  // Where a response is lost
  // ------------------------------------------------------------------

  /** A response is stored whose `send` has returned without one. */
  ghost predicate Stranded(st: State, s: int) {
    s in st.calls && st.calls[s] == Returned(None) && s in st.tables.responses
  }

  /** The two ways it comes to that: a response arrives for a `send` that has timed out, whose number is
      still registered; or `sendall` raises after the response has already been stored. */
  ghost predicate Strands(st: State, step: Step, s: int) {
    || (step == Receive(s) && s in st.tables.pending && At(st.calls, s) == Some(Returned(None)))
    || (step == SendFails(s) && s in st.tables.responses)
  }

  lemma StrandingStep(st: State, step: Step, s: int)
    requires Inv(st) && Do(st, step).Some?
    ensures Stranded(Do(st, step).value, s) <==> Stranded(st, s) || Strands(st, step, s)
  {
  }

  /** Step `k` of a run strands the response to `s`. */
  ghost predicate StrandsAt(steps: seq<Step>, k: nat, s: int) {
    k < |steps| && Execute(steps[..k]).Some? && Strands(Execute(steps[..k]).value, steps[k], s)
  }

  lemma StrandsAtFront(steps: seq<Step>, k: nat, s: int)
    requires k + 1 < |steps|
    ensures StrandsAt(steps, k, s) <==> StrandsAt(steps[..|steps| - 1], k, s)
  {
    assert steps[..|steps| - 1][..k] == steps[..k];
  }

  /** A response is left in the table by a run exactly if one of its steps strands it; nothing ever takes
      it out again. */
  lemma {:induction false} StrandedExactly(steps: seq<Step>, s: int)
    requires Execute(steps).Some?
    ensures Stranded(Execute(steps).value, s) <==> exists k :: StrandsAt(steps, k, s)
  {
    if steps != [] {
      var n := |steps| - 1;
      var front := steps[..n];
      RunKeeps(front);
      StrandedExactly(front, s);
      StrandingStep(Execute(front).value, steps[n], s);
      assert StrandsAt(steps, n, s) <==> Strands(Execute(front).value, steps[n], s);
      if k :| StrandsAt(front, k, s) {
        StrandsAtFront(steps, k, s);
      }
      forall k | StrandsAt(steps, k, s) && k != n ensures StrandsAt(front, k, s) {
        StrandsAtFront(steps, k, s);
      }
    }
  }

  /** Once stranded, a response stays in every continuation. */
  lemma LateResponseStays(steps: seq<Step>, s: int, later: seq<Step>)
    requires Execute(steps).Some? && Stranded(Execute(steps).value, s)
    requires Execute(steps + later).Some?
    ensures Stranded(Execute(steps + later).value, s)
  {
    StrandedExactly(steps, s);
    var k: nat :| StrandsAt(steps, k, s);
    assert (steps + later)[..k] == steps[..k];
    assert StrandsAt(steps + later, k, s);
    StrandedExactly(steps + later, s);
  }

  /** A run with a response that comes after its `send` timed out. */
  lemma LateResponseIsStored()
    ensures var steps := [Begin, Register(1), SendOk(1), TimeOut(1), Collect(1), Receive(1)];
            Execute(steps).Some? && Stranded(Execute(steps).value, 1)
  {
    var p2 := RegisteredRun();
    ExecuteSnoc(p2, SendOk(1));
    ExecuteSnoc(p2 + [SendOk(1)], TimeOut(1));
    ExecuteSnoc(p2 + [SendOk(1)] + [TimeOut(1)], Collect(1));
    ExecuteSnoc(p2 + [SendOk(1)] + [TimeOut(1)] + [Collect(1)], Receive(1));
    assert p2 + [SendOk(1)] + [TimeOut(1)] + [Collect(1)] + [Receive(1)]
        == [Begin, Register(1), SendOk(1), TimeOut(1), Collect(1), Receive(1)];
  }

  lemma RegisteredRun() returns (run: seq<Step>)
    ensures run == [Begin, Register(1)]
    ensures Execute(run) == Some(State(Tables(1, {1}, map[], {}), map[1 := Registered], {}, 0, false))
  {
    ExecuteSnoc([], Begin);
    assert [] + [Begin] == [Begin];
    ExecuteSnoc([Begin], Register(1));
    run := [Begin] + [Register(1)];
    var st := Execute(run).value;
    assert st.tables.pending == {1} && st.calls == map[1 := Registered];
  }

  /** A run without any timeout: the answer is there before `sendall` raises. */
  lemma AnsweredSendFails()
    ensures var steps := [Begin, Register(1), Receive(1), SendFails(1)];
            Execute(steps).Some? && Stranded(Execute(steps).value, 1)
  {
    var p2 := RegisteredRun();
    ExecuteSnoc(p2, Receive(1));
    ExecuteSnoc(p2 + [Receive(1)], SendFails(1));
    assert p2 + [Receive(1)] + [SendFails(1)] == [Begin, Register(1), Receive(1), SendFails(1)];
  }
}
