/** The coalescing background refresher of the kernel debug state: any number of schedulers and
    workers share one lock, one `running` flag, one request slot and a sequence number. */
module Refresher {
  import opened Common

  datatype Request = Request(number: nat, active: string, hasSnapshot: bool)

  /** What the lock protects. */
  datatype Shared = Shared(running: bool, request: Option<Request>, number: nat)

  // ------------------------------------------------------------------
  // The critical sections
  // ------------------------------------------------------------------

  /** A scheduler replaces whatever request is waiting and claims the worker if there is none. */
  function ScheduleSection(sh: Shared, active: string, hasSnapshot: bool): Shared {
    Shared(true, Some(Request(sh.number + 1, active, hasSnapshot)), sh.number + 1)
  }

  function TakeSection(sh: Shared): Shared {
    sh.(request := None)
  }

  /** The worker retires if no request is waiting. */
  function RetireSection(sh: Shared): Shared {
    if sh.request.None? then sh.(running := false) else sh
  }

  /** No newer request has been scheduled since the one with this number. */
  predicate CurrentSection(sh: Shared, number: nat) {
    number == sh.number
  }

  class RefreshState {
    var running: bool
    var request: Option<Request>
    var number: nat

    ghost function View(): Shared
      reads this
    {
      Shared(running, request, number)
    }

    constructor ()
      ensures View() == Shared(false, None, 0)
    {
      running, request, number := false, None, 0;
    }

    method Schedule(active: string, hasSnapshot: bool) returns (spawn: bool)
      modifies this
      ensures View() == ScheduleSection(old(View()), active, hasSnapshot)
      ensures spawn == !old(running)
    {
      number := number + 1;
      request := Some(Request(number, active, hasSnapshot));
      if running {
        return false;
      }
      running := true;
      return true;
    }

    method Take() returns (taken: Option<Request>)
      modifies this
      ensures View() == TakeSection(old(View())) && taken == old(request)
    {
      taken := request;
      request := None;
    }

    method Retire() returns (retired: bool)
      modifies this
      ensures View() == RetireSection(old(View())) && retired == old(request).None?
    {
      if request.None? {
        running := false;
        return true;
      }
      return false;
    }

    /** The check a sweep makes before and after it asks for a snapshot. */
    method IsCurrent(reqSeq: nat) returns (current: bool)
      ensures current == CurrentSection(View(), reqSeq)
    {
      current := reqSeq == number;
    }
  }

  // ------------------------------------------------------------------
  // The threads
  // ------------------------------------------------------------------

  /** Where a worker thread stands; `todo` are the kernels its sweep has still to visit. */
  datatype Worker =
    | Taking
    | Empty
    | Sweeping(req: Request, todo: seq<string>)
    | Snapshotting(req: Request, todo: seq<string>)
    | Checking(req: Request, todo: seq<string>)
    | Applying(req: Request, todo: seq<string>)
    | Finishing
    | Gone
    | Dead

  predicate Live(w: Worker) {
    !w.Gone? && !w.Dead?
  }

  datatype Outcome = Skipped(kernel: string) | Failed(kernel: string) | Applied(kernel: string)

  /** The last request taken, the kernels its sweep was to visit, what became of each so far, and
      whether the sweep was cut short. */
  datatype Sweep = Sweep(req: Request, kernels: seq<string>, outcomes: seq<Outcome>, cut: bool)

  datatype State = State(shared: Shared, workers: seq<Worker>, last: Option<Sweep>)

  const INIT: State := State(Shared(false, None, 0), [], None)

  datatype Step =
    | Schedule(active: string, hasSnapshot: bool)
    | Take(w: nat, kernels: seq<string>)
    | Recheck(w: nat)
    | Visit(w: nat)
    | Snapshot(w: nat, ok: bool)
    | Check(w: nat)
    | Apply(w: nat)
    | Finish(w: nat)
    | Crash(w: nat)

  predicate SkipsKernel(req: Request, kernel: string) {
    kernel == "" || (kernel == req.active && req.hasSnapshot)
  }

  function Move(s: State, w: nat, to: Worker): State
    requires w < |s.workers|
  {
    s.(workers := s.workers[w := to])
  }

  function Log(s: State, o: Outcome): State {
    match s.last
    case None => s
    case Some(sweep) => s.(last := Some(sweep.(outcomes := sweep.outcomes + [o])))
  }

  function CutShort(s: State): State {
    match s.last
    case None => s
    case Some(sweep) => s.(last := Some(sweep.(cut := true)))
  }

  /** One atomic step of one thread, or None where that thread cannot take it. */
  function Do(s: State, step: Step): Option<State> {
    match step
    case Schedule(active, hasSnapshot) =>
      var workers := if s.shared.running then s.workers else s.workers + [Taking];
      Some(State(ScheduleSection(s.shared, active, hasSnapshot), workers, s.last))
    case Take(w, kernels) =>
      if w >= |s.workers| || !s.workers[w].Taking? then None
      else
        var s1 := s.(shared := TakeSection(s.shared));
        (match s.shared.request
         case None => Some(Move(s1, w, Empty))
         case Some(req) => Some(Move(s1, w, Sweeping(req, kernels)).(last := Some(Sweep(req, kernels, [], false)))))
    case Recheck(w) =>
      if w >= |s.workers| || !s.workers[w].Empty? then None
      else Some(Move(s.(shared := RetireSection(s.shared)), w, if s.shared.request.None? then Gone else Taking))
    case Visit(w) =>
      if w >= |s.workers| || !s.workers[w].Sweeping? then None
      else
        var req, todo := s.workers[w].req, s.workers[w].todo;
        if todo == [] then Some(Move(s, w, Finishing))
        else if SkipsKernel(req, todo[0]) then Some(Log(Move(s, w, Sweeping(req, todo[1..])), Skipped(todo[0])))
        else if !CurrentSection(s.shared, req.number) then Some(CutShort(Move(s, w, Finishing)))
        else Some(Move(s, w, Snapshotting(req, todo)))
    case Snapshot(w, ok) =>
      if w >= |s.workers| || !s.workers[w].Snapshotting? || s.workers[w].todo == [] then None
      else
        var req, todo := s.workers[w].req, s.workers[w].todo;
        if ok then Some(Move(s, w, Checking(req, todo)))
        else Some(Log(Move(s, w, Sweeping(req, todo[1..])), Failed(todo[0])))
    case Check(w) =>
      if w >= |s.workers| || !s.workers[w].Checking? then None
      else if !CurrentSection(s.shared, s.workers[w].req.number) then Some(CutShort(Move(s, w, Finishing)))
      else Some(Move(s, w, Applying(s.workers[w].req, s.workers[w].todo)))
    case Apply(w) =>
      if w >= |s.workers| || !s.workers[w].Applying? || s.workers[w].todo == [] then None
      else
        var req, todo := s.workers[w].req, s.workers[w].todo;
        Some(Log(Move(s, w, Sweeping(req, todo[1..])), Applied(todo[0])))
    case Finish(w) =>
      if w >= |s.workers| || !s.workers[w].Finishing? then None
      else Some(Move(s.(shared := RetireSection(s.shared)), w, if s.shared.request.None? then Gone else Taking))
    case Crash(w) =>
      // a sweep call outside the inner `try` raises: the thread ends without touching the flag
      if w >= |s.workers| || !(s.workers[w].Sweeping? || s.workers[w].Applying?) then None
      else Some(Move(s, w, Dead))
  }

  /** The state after a whole interleaving, or None if some step was not possible. */
  function Execute(steps: seq<Step>): Option<State> {
    if steps == [] then Some(INIT)
    else
      match Execute(steps[..|steps| - 1])
      case None => None
      case Some(s) => Do(s, steps[|steps| - 1])
  }

  // ------------------------------------------------------------------
  // The invariant
  // ------------------------------------------------------------------

  function Kernels(outcomes: seq<Outcome>): (r: seq<string>)
    ensures |r| == |outcomes|
  {
    seq(|outcomes|, i requires 0 <= i < |outcomes| => outcomes[i].kernel)
  }

  ghost predicate AtMostOneLive(s: State) {
    forall i, j :: 0 <= i < |s.workers| && 0 <= j < |s.workers| && Live(s.workers[i]) && Live(s.workers[j]) ==> i == j
  }

  ghost predicate Idle(s: State) {
    !s.shared.running
  }

  /** The waiting request is the newest; a taken one that is not the newest has been superseded by a
      waiting one; a cut sweep has been superseded. */
  ghost predicate SlotInv(s: State) {
    && (s.shared.request.Some? ==> s.shared.running && s.shared.request.value.number == s.shared.number)
    && (s.last.Some? ==> s.last.value.req.number <= s.shared.number)
    && (s.shared.request.None? && s.shared.number > 0 ==> s.last.Some? && s.last.value.req.number == s.shared.number)
    && (s.last.Some? && s.last.value.cut ==> s.last.value.req.number < s.shared.number)
    && (s.last.Some? ==> RightlySkipped(s.last.value))
  }

  /** What a worker's position says about the last sweep. */
  ghost predicate WorkerInv(s: State, w: Worker) {
    match w
    case Taking => s.shared.running && s.shared.request.Some?
    case Empty => false
    case Sweeping(req, todo) => s.shared.running && InSweep(s, req, todo)
    case Snapshotting(req, todo) => s.shared.running && InSweep(s, req, todo) && BusyWith(req, todo)
    case Checking(req, todo) => s.shared.running && InSweep(s, req, todo) && BusyWith(req, todo)
    case Applying(req, todo) => s.shared.running && InSweep(s, req, todo) && BusyWith(req, todo)
    case Finishing => s.shared.running && s.last.Some? && (s.last.value.cut || SweptAll(s.last.value))
    case Gone => true
    case Dead => s.shared.running
  }

  ghost predicate InSweep(s: State, req: Request, todo: seq<string>) {
    s.last.Some? && s.last.value.req == req && !s.last.value.cut
    && Kernels(s.last.value.outcomes) + todo == s.last.value.kernels
  }

  /** A kernel is skipped exactly when the request says so. */
  ghost predicate RightlySkipped(sweep: Sweep) {
    forall i :: 0 <= i < |sweep.outcomes| ==>
      (sweep.outcomes[i].Skipped? <==> SkipsKernel(sweep.req, sweep.outcomes[i].kernel))
  }

  /** The kernel a sweep is busy with is one it must not skip. */
  ghost predicate BusyWith(req: Request, todo: seq<string>) {
    todo != [] && !SkipsKernel(req, todo[0])
  }

  ghost predicate SweptAll(sweep: Sweep) {
    Kernels(sweep.outcomes) == sweep.kernels
  }

  ghost predicate Inv(s: State) {
    && AtMostOneLive(s)
    && SlotInv(s)
    && (forall i :: 0 <= i < |s.workers| ==> WorkerInv(s, s.workers[i]))
    && (Idle(s) && s.last.Some? ==> SweptAll(s.last.value) && !s.last.value.cut)
    && (forall i, j :: 0 <= i < |s.workers| && 0 <= j < |s.workers| && s.workers[i].Dead? ==> !Live(s.workers[j]))
    && (s.shared.running ==> exists i :: 0 <= i < |s.workers| && !s.workers[i].Gone?)
  }

  /** No worker has died of an exception. */
  ghost predicate NoneDead(s: State) {
    forall i :: 0 <= i < |s.workers| ==> !s.workers[i].Dead?
  }

  lemma KernelsSnoc(outcomes: seq<Outcome>, o: Outcome)
    ensures Kernels(outcomes + [o]) == Kernels(outcomes) + [o.kernel]
  {
  }

  lemma ScheduleKeeps(s: State, step: Step, t: State)
    requires Inv(s) && step.Schedule? && Do(s, step) == Some(t)
    ensures Inv(t)
  {
    if s.shared.running {
      forall i | 0 <= i < |t.workers| ensures WorkerInv(t, t.workers[i]) {
        assert WorkerInv(s, s.workers[i]);
      }
    } else {
      forall i | 0 <= i < |s.workers| ensures s.workers[i].Gone? {
        assert WorkerInv(s, s.workers[i]);
      }
      assert !t.workers[|s.workers|].Gone?;
    }
  }

  /** A step of worker `w` that leaves it at `to`, the others where they were. */
  lemma MoveKeeps(s: State, w: nat, t: State)
    requires Inv(s) && w < |s.workers| && Live(s.workers[w])
    requires |t.workers| == |s.workers| && t.workers == s.workers[w := t.workers[w]]
    requires SlotInv(t) && WorkerInv(t, t.workers[w])
    requires Idle(t) ==> t.workers[w].Gone? && (t.last.Some? ==> SweptAll(t.last.value) && !t.last.value.cut)
    requires t.shared.running ==> !t.workers[w].Gone?
    ensures Inv(t)
  {
    forall i | 0 <= i < |s.workers| && i != w ensures s.workers[i].Gone? && WorkerInv(t, t.workers[i]) {
      assert !Live(s.workers[i]);
      assert !s.workers[i].Dead?;
    }
  }

  lemma WorkerStepKeeps(s: State, step: Step, t: State)
    requires Inv(s) && !step.Schedule? && Do(s, step) == Some(t)
    ensures Inv(t)
  {
    hide AtMostOneLive;
    var w := step.w;
    assert WorkerInv(s, s.workers[w]);
    WorkerStands(s, step, t);
    hide Do, SlotInv, WorkerInv;
    MoveKeeps(s, w, t);
  }

  /** The worker that moved stands where the invariant wants it. */
  lemma WorkerStands(s: State, step: Step, t: State)
    requires !step.Schedule? && Do(s, step) == Some(t) && SlotInv(s) && step.w < |s.workers| && WorkerInv(s, s.workers[step.w])
    ensures Live(s.workers[step.w]) && |t.workers| == |s.workers| && t.workers == s.workers[step.w := t.workers[step.w]]
    ensures SlotInv(t) && WorkerInv(t, t.workers[step.w])
    ensures Idle(t) ==> t.workers[step.w].Gone? && (t.last.Some? ==> SweptAll(t.last.value) && !t.last.value.cut)
    ensures t.shared.running ==> !t.workers[step.w].Gone?
  {
    var worker := s.workers[step.w];
    if worker.Sweeping? || worker.Snapshotting? || worker.Applying? {
      SweepStands(s, step, t);
    }
  }

  lemma SweepStands(s: State, step: Step, t: State)
    requires !step.Schedule? && Do(s, step) == Some(t) && SlotInv(s) && step.w < |s.workers| && WorkerInv(s, s.workers[step.w])
    requires s.workers[step.w].Sweeping? || s.workers[step.w].Snapshotting? || s.workers[step.w].Applying?
    ensures t.workers == s.workers[step.w := t.workers[step.w]] && t.shared == s.shared
    ensures SlotInv(t) && WorkerInv(t, t.workers[step.w])
  {
    var todo := s.workers[step.w].todo;
    if todo != [] {
      var k, out := todo[0], s.last.value.outcomes;
      KernelsSnoc(out, Skipped(k));
      KernelsSnoc(out, Failed(k));
      KernelsSnoc(out, Applied(k));
      assert Kernels(out) + todo == Kernels(out) + [k] + todo[1..];
      hide Kernels;
    }
  }

  lemma StepKeeps(s: State, step: Step, t: State)
    requires Inv(s) && Do(s, step) == Some(t)
    ensures Inv(t)
  {
    if step.Schedule? {
      ScheduleKeeps(s, step, t);
    } else {
      WorkerStepKeeps(s, step, t);
    }
  }

  /** Every interleaving of any number of schedulers and workers keeps the invariant. */
  lemma {:induction false} RunKeeps(steps: seq<Step>)
    ensures Execute(steps).Some? ==> Inv(Execute(steps).value)
  {
    if steps != [] {
      var front := steps[..|steps| - 1];
      RunKeeps(front);
      if Execute(front).Some? && Execute(steps).Some? {
        StepKeeps(Execute(front).value, steps[|steps| - 1], Execute(steps).value);
      }
    }
  }

  lemma ExecuteSnoc(steps: seq<Step>, step: Step)
    requires Execute(steps + [step]).Some?
    ensures Execute(steps).Some? && Execute(steps + [step]) == Do(Execute(steps).value, step)
  {
    assert (steps + [step])[..|steps|] == steps;
  }

  // ------------------------------------------------------------------
  // Main results
  // ------------------------------------------------------------------

  /** At most one worker is live, and a waiting request means one is claimed. */
  lemma OneWorker(steps: seq<Step>, i: nat, j: nat)
    requires Execute(steps).Some?
    ensures var s := Execute(steps).value;
            && (i < |s.workers| && j < |s.workers| && Live(s.workers[i]) && Live(s.workers[j]) ==> i == j)
            && (s.shared.request.Some? ==> s.shared.running)
            && (i < |s.workers| && Live(s.workers[i]) ==> s.shared.running)
            && (i < |s.workers| ==> !s.workers[i].Empty?)
  {
    RunKeeps(steps);
    var s := Execute(steps).value;
    if i < |s.workers| {
      assert WorkerInv(s, s.workers[i]);
    }
  }

  // --- where a request comes from ---

  ghost function Schedules(steps: seq<Step>): nat {
    if steps == [] then 0 else Schedules(steps[..|steps| - 1]) + if steps[|steps| - 1].Schedule? then 1 else 0
  }

  /** Step `k` of the run scheduled this request, as the `req.number`-th of the run. */
  ghost predicate AskedAt(steps: seq<Step>, k: nat, req: Request) {
    k < |steps| && steps[k] == Schedule(req.active, req.hasSnapshot) && Schedules(steps[..k]) + 1 == req.number
  }

  ghost predicate Holds(s: State, req: Request) {
    s.shared.request == Some(req) || (s.last.Some? && s.last.value.req == req)
  }

  lemma NumberStep(s: State, step: Step, t: State)
    requires Do(s, step) == Some(t)
    ensures t.shared.number == s.shared.number + if step.Schedule? then 1 else 0
    ensures forall req :: Holds(t, req) ==> Holds(s, req) || (step == Schedule(req.active, req.hasSnapshot) && req.number == t.shared.number)
  {
  }

  lemma {:induction false} NumberCounts(steps: seq<Step>)
    requires Execute(steps).Some?
    ensures Execute(steps).value.shared.number == Schedules(steps)
  {
    hide Do;
    if steps != [] {
      var n := |steps| - 1;
      NumberCounts(steps[..n]);
      NumberStep(Execute(steps[..n]).value, steps[n], Execute(steps).value);
    }
  }

  /** Every request waiting, or taken last, is one that a step of the run scheduled. */
  lemma {:induction false} RequestWasAsked(steps: seq<Step>, req: Request) returns (k: nat)
    requires Execute(steps).Some? && Holds(Execute(steps).value, req)
    ensures AskedAt(steps, k, req)
  {
    hide Do;
    var n := |steps| - 1;
    var front := steps[..n];
    NumberCounts(front);
    NumberStep(Execute(front).value, steps[n], Execute(steps).value);
    if Holds(Execute(front).value, req) {
      k := RequestWasAsked(front, req);
      assert front[..k] == steps[..k];
    } else {
      k := n;
    }
  }

  lemma {:induction false} NoneAfter(steps: seq<Step>, k: nat)
    requires k < |steps| && steps[k].Schedule? && Schedules(steps) <= Schedules(steps[..k]) + 1
    ensures Schedules(steps) == Schedules(steps[..k]) + 1
    ensures forall m :: k < m < |steps| ==> !steps[m].Schedule?
  {
    var n := |steps| - 1;
    if k < n {
      assert steps[..n][..k] == steps[..k];
      NoneAfter(steps[..n], k);
    }
  }

  /** Step `k` is the newest of the run that schedules. */
  ghost predicate NewestAt(steps: seq<Step>, k: nat) {
    k < |steps| && steps[k].Schedule? && forall m :: k < m < |steps| ==> !steps[m].Schedule?
  }

  /** No request is lost: whenever `running` is false and anything was ever scheduled, the slot is empty and the
      last request taken is the one the newest `Schedule` step of the run brought. Its sweep has dealt with every
      kernel, and skipped exactly the unnamed ones and the one whose snapshot came with that step. */
  lemma NoRequestLost(steps: seq<Step>) returns (k: nat)
    requires Execute(steps).Some? && !Execute(steps).value.shared.running
    requires exists m :: 0 <= m < |steps| && steps[m].Schedule?
    ensures NewestAt(steps, k)
    ensures var s := Execute(steps).value;
            && s.shared.request.None? && s.last.Some? && !s.last.value.cut
            && var outcomes, kernels := s.last.value.outcomes, s.last.value.kernels;
               && |outcomes| == |kernels|
               && forall i :: 0 <= i < |outcomes| ==>
                    && outcomes[i].kernel == kernels[i]
                    && (outcomes[i].Skipped? <==> kernels[i] == "" || (kernels[i] == steps[k].active && steps[k].hasSnapshot))
  {
    RunKeeps(steps);
    NumberCounts(steps);
    var m :| 0 <= m < |steps| && steps[m].Schedule?;
    SomeScheduled(steps, m);
    var s := Execute(steps).value;
    k := RequestWasAsked(steps, s.last.value.req);
    NoneAfter(steps, k);
    var outcomes := s.last.value.outcomes;
    forall i | 0 <= i < |outcomes| ensures outcomes[i].kernel == s.last.value.kernels[i] {
      assert Kernels(outcomes)[i] == outcomes[i].kernel;
    }
  }

  lemma {:induction false} SomeScheduled(steps: seq<Step>, m: nat)
    requires m < |steps| && steps[m].Schedule?
    ensures Schedules(steps) > 0
  {
    var n := |steps| - 1;
    if m < n {
      SomeScheduled(steps[..n], m);
    }
  }

  predicate IsStepOf(step: Step, w: nat) {
    !step.Schedule? && step.w == w
  }

  /** Worker `w` finds its own request the newest, and so goes on: before its sweep asks for a snapshot, and
      again when the snapshot has arrived and is to be shown. */
  ghost predicate Passes(s: State, step: Step, w: nat, worker: Worker) {
    && w < |s.workers|
    && match worker
       case Snapshotting(req, todo) => step == Visit(w) && s.workers[w] == Sweeping(req, todo) && s.shared.number == req.number
       case Applying(req, todo) => step == Check(w) && s.workers[w] == Checking(req, todo) && s.shared.number == req.number
       case _ => false
  }

  /** Step `k` of a run is such a check, and the last step of `w`. */
  ghost predicate CheckedAt(steps: seq<Step>, k: nat, w: nat, worker: Worker) {
    && k < |steps| && Execute(steps[..k]).Some? && Passes(Execute(steps[..k]).value, steps[k], w, worker)
    && forall m :: k < m < |steps| ==> !IsStepOf(steps[m], w)
  }

  lemma PassesOrStays(s: State, step: Step, t: State, w: nat)
    requires Do(s, step) == Some(t) && w < |t.workers| && (t.workers[w].Snapshotting? || t.workers[w].Applying?)
    ensures || Passes(s, step, w, t.workers[w])
            || (!IsStepOf(step, w) && w < |s.workers| && s.workers[w] == t.workers[w])
  {
  }

  /** In every run a worker that is about to ask for a snapshot, or to show one, has found its own request the
      newest at its last step: a superseded request is never asked for again, nor shown. */
  lemma {:induction false} ShownOnlyIfCurrent(steps: seq<Step>, w: nat) returns (k: nat)
    requires Execute(steps).Some? && w < |Execute(steps).value.workers|
    requires Execute(steps).value.workers[w].Snapshotting? || Execute(steps).value.workers[w].Applying?
    ensures CheckedAt(steps, k, w, Execute(steps).value.workers[w])
  {
    hide Do;
    var n := |steps| - 1;
    var front := steps[..n];
    var s, t := Execute(front).value, Execute(steps).value;
    PassesOrStays(s, steps[n], t, w);
    if Passes(s, steps[n], w, t.workers[w]) {
      k := n;
    } else {
      k := ShownOnlyIfCurrent(front, w);
      assert front[..k] == steps[..k];
    }
  }

  // --- where an outcome comes from ---

  /** Worker `w` stands at `worker` before step `p`, which is `step`, its last of the run. */
  ghost predicate LastStepAt(steps: seq<Step>, p: nat, w: nat, step: Step, worker: Worker) {
    && p < |steps| && steps[p] == step && Execute(steps[..p]).Some?
    && w < |Execute(steps[..p]).value.workers| && Execute(steps[..p]).value.workers[w] == worker
    && forall m :: p < m < |steps| ==> !IsStepOf(steps[m], w)
  }

  lemma LastStepStays(steps: seq<Step>, p: nat, w: nat, step: Step, worker: Worker)
    requires |steps| > 0 && LastStepAt(steps[..|steps| - 1], p, w, step, worker) && !IsStepOf(steps[|steps| - 1], w)
    ensures LastStepAt(steps, p, w, step, worker)
  {
    assert steps[..|steps| - 1][..p] == steps[..p];
  }

  lemma EntersOrStays(s: State, step: Step, t: State, w: nat)
    requires Do(s, step) == Some(t) && w < |t.workers| && (t.workers[w].Checking? || t.workers[w].Applying?)
    ensures w < |s.workers|
    ensures || (!IsStepOf(step, w) && s.workers[w] == t.workers[w])
            || match t.workers[w]
               case Checking(req, todo) => step == Snapshot(w, true) && s.workers[w] == Snapshotting(req, todo)
               case Applying(req, todo) => step == Check(w) && s.workers[w] == Checking(req, todo)
               case _ => false
  {
  }

  /** A worker that checks or applies has got there by its last step: it checks what a snapshot call has
      brought, and applies what it has checked. */
  lemma {:induction false} HowItGotThere(steps: seq<Step>, w: nat) returns (p: nat)
    requires Execute(steps).Some? && w < |Execute(steps).value.workers|
    requires Execute(steps).value.workers[w].Checking? || Execute(steps).value.workers[w].Applying?
    ensures match Execute(steps).value.workers[w]
            case Checking(req, todo) => LastStepAt(steps, p, w, Snapshot(w, true), Snapshotting(req, todo))
            case Applying(req, todo) => LastStepAt(steps, p, w, Check(w), Checking(req, todo))
            case _ => false
  {
    hide Do;
    var n := |steps| - 1;
    var front := steps[..n];
    var s, t := Execute(front).value, Execute(steps).value;
    EntersOrStays(s, steps[n], t, w);
    if !IsStepOf(steps[n], w) && s.workers[w] == t.workers[w] {
      p := HowItGotThere(front, w);
      match t.workers[w]
      case Checking(req, todo) => LastStepStays(steps, p, w, Snapshot(w, true), Snapshotting(req, todo));
      case Applying(req, todo) => LastStepStays(steps, p, w, Check(w), Checking(req, todo));
    } else {
      p := n;
    }
  }

  /** The steps behind an outcome: step `at` of worker `w` logged it; `checked` and `fetched` are the two steps of
      `w` before that, where something was shown. */
  datatype Evidence = Evidence(at: nat, w: nat, checked: nat, fetched: nat)

  /** A kernel skipped was skipped on the visit; one that failed had its snapshot call fail; one that was shown had
      its snapshot call succeed, was checked next, and applied next. */
  ghost predicate Explains(steps: seq<Step>, e: Evidence, req: Request, o: Outcome) {
    && e.at < |steps| && Execute(steps[..e.at]).Some? && e.w < |Execute(steps[..e.at]).value.workers|
    && var worker := Execute(steps[..e.at]).value.workers[e.w];
       match o
       case Skipped(k) => steps[e.at] == Visit(e.w) && HasNext(worker, req, k) && worker.Sweeping?
       case Failed(k) => steps[e.at] == Snapshot(e.w, false) && HasNext(worker, req, k) && worker.Snapshotting?
       case Applied(k) =>
         && steps[e.at] == Apply(e.w) && HasNext(worker, req, k) && worker.Applying?
         && LastStepAt(steps[..e.at], e.checked, e.w, Check(e.w), Checking(req, worker.todo))
         && LastStepAt(steps[..e.at][..e.checked], e.fetched, e.w, Snapshot(e.w, true), Snapshotting(req, worker.todo))
  }

  ghost predicate HasNext(worker: Worker, req: Request, kernel: string) {
    && (worker.Sweeping? || worker.Snapshotting? || worker.Applying?)
    && worker.req == req && worker.todo != [] && worker.todo[0] == kernel
  }

  /** A step of the run logs one outcome of the sweep, or none, or starts a new sweep. */
  lemma LogStep(s: State, step: Step, t: State)
    requires Inv(s) && Do(s, step) == Some(t) && t.last.Some?
    ensures || t.last.value.outcomes == []
            || (s.last.Some? && s.last.value.req == t.last.value.req && s.last.value.outcomes == t.last.value.outcomes)
            || (s.last.Some? && s.last.value.req == t.last.value.req && !step.Schedule? && step.w < |s.workers| && Logs(s, step, t))
  {
    if !step.Schedule? {
      assert WorkerInv(s, s.workers[step.w]);
    }
  }

  ghost predicate Logs(s: State, step: Step, t: State)
    requires t.last.Some? && s.last.Some? && !step.Schedule? && step.w < |s.workers|
  {
    var worker, before, after := s.workers[step.w], s.last.value.outcomes, t.last.value.outcomes;
    && |after| == |before| + 1 && after[..|before|] == before
    && HasNext(worker, t.last.value.req, after[|before|].kernel)
    && match after[|before|]
       case Skipped(k) => step.Visit? && worker.Sweeping?
       case Failed(k) => step.Snapshot? && !step.ok && worker.Snapshotting?
       case Applied(k) => step.Apply? && worker.Applying?
  }

  /** In every run each outcome of the last sweep has its steps behind it. */
  lemma {:induction false} OutcomeExplained(steps: seq<Step>, i: nat) returns (e: Evidence)
    requires Execute(steps).Some? && Execute(steps).value.last.Some? && i < |Execute(steps).value.last.value.outcomes|
    ensures Explains(steps, e, Execute(steps).value.last.value.req, Execute(steps).value.last.value.outcomes[i])
  {
    hide Do, Inv, LastStepAt, HasNext;
    var n := |steps| - 1;
    var front := steps[..n];
    var s, t := Execute(front).value, Execute(steps).value;
    RunKeeps(front);
    LogStep(s, steps[n], t);
    if i < |s.last.value.outcomes| {
      e := OutcomeExplained(front, i);
      assert s.last.value.outcomes[i] == t.last.value.outcomes[i];
      assert front[..e.at] == steps[..e.at];
    } else {
      e := LoggedNow(steps, s, t);
    }
  }

  lemma LoggedNow(steps: seq<Step>, s: State, t: State) returns (e: Evidence)
    requires steps != [] && Execute(steps[..|steps| - 1]) == Some(s) && s.last.Some? && t.last.Some?
    requires var step := steps[|steps| - 1]; !step.Schedule? && step.w < |s.workers| && Logs(s, step, t)
    ensures Explains(steps, e, t.last.value.req, t.last.value.outcomes[|s.last.value.outcomes|])
  {
    hide Do, LastStepAt;
    var n := |steps| - 1;
    var front, w := steps[..n], steps[n].w;
    e := Evidence(n, w, 0, 0);
    if t.last.value.outcomes[|s.last.value.outcomes|].Applied? {
      var q := HowItGotThere(front, w);
      var p := BeforeThat(front, q, w, s.workers[w].req, s.workers[w].todo);
      e := Evidence(n, w, q, p);
    }
  }

  lemma BeforeThat(steps: seq<Step>, q: nat, w: nat, req: Request, todo: seq<string>) returns (p: nat)
    requires LastStepAt(steps, q, w, Check(w), Checking(req, todo))
    ensures q < |steps| && LastStepAt(steps[..q], p, w, Snapshot(w, true), Snapshotting(req, todo))
  {
    p := HowItGotThere(steps[..q], w);
  }

  /** A sweep is given up only for a newer request, which is then waiting or has been taken. */
  lemma CutOnlyIfSuperseded(steps: seq<Step>)
    requires Execute(steps).Some? && Execute(steps).value.last.Some? && Execute(steps).value.last.value.cut
    ensures var s := Execute(steps).value;
            s.last.value.req.number < s.shared.number && s.shared.running
            && s.shared.request.Some? && s.shared.request.value.number == s.shared.number
  {
    RunKeeps(steps);
  }

  /** While `running` holds and no sweep call has raised, some worker can move: the refresher never
      blocks with a request outstanding. */
  lemma WorkerCanMove(steps: seq<Step>) returns (step: Step)
    requires Execute(steps).Some? && Execute(steps).value.shared.running && NoneDead(Execute(steps).value)
    ensures Do(Execute(steps).value, step).Some? && !step.Schedule? && !step.Crash?
  {
    RunKeeps(steps);
    var s := Execute(steps).value;
    var w: nat :| w < |s.workers| && !s.workers[w].Gone?;
    var worker := s.workers[w];
    assert WorkerInv(s, worker);
    step := if worker.Taking? then Take(w, [])
            else if worker.Sweeping? then Visit(w)
            else if worker.Snapshotting? then Snapshot(w, true)
            else if worker.Checking? then Check(w)
            else if worker.Applying? then Apply(w)
            else Finish(w);
  }

  /** How much a worker has left to do on the request it holds. */
  function Todo(w: Worker): nat {
    match w
    case Sweeping(_, todo) => 4 * |todo| + 2
    case Snapshotting(_, todo) => 4 * |todo| + 1
    case Checking(_, todo) => 4 * |todo|
    case Applying(_, todo) => if |todo| == 0 then 0 else 4 * |todo| - 1
    case Finishing => 1
    case _ => 0
  }

  /** Every worker step takes the waiting request, or lowers the work left on the request held. */
  lemma WorkerProgresses(steps: seq<Step>, step: Step)
    requires Execute(steps).Some? && !step.Schedule? && !step.Crash? && Do(Execute(steps).value, step).Some?
    ensures var s, t := Execute(steps).value, Do(Execute(steps).value, step).value;
            || (s.shared.request.Some? && t.shared.request.None?)
            || (t.shared.request == s.shared.request && Todo(t.workers[step.w]) < Todo(s.workers[step.w]))
  {
    RunKeeps(steps);
    var s := Execute(steps).value;
    assert WorkerInv(s, s.workers[step.w]);
  }

  /** The work left on the requests that all workers hold. */
  function Work(workers: seq<Worker>): nat {
    if workers == [] then 0 else Work(workers[..|workers| - 1]) + Todo(workers[|workers| - 1])
  }

  lemma {:induction false} WorkChange(workers: seq<Worker>, w: nat, to: Worker)
    requires w < |workers|
    ensures Work(workers[w := to]) == Work(workers) - Todo(workers[w]) + Todo(to)
  {
    var n := |workers| - 1;
    if w < n {
      WorkChange(workers[..n], w, to);
      assert workers[w := to][..n] == workers[..n][w := to];
    } else {
      assert workers[w := to][..n] == workers[..n];
    }
  }

  /** The work a step takes on: none, unless it takes a request with a list of kernels to sweep. */
  function TakenOn(step: Step): nat {
    if step.Take? then 4 * |step.kernels| + 3 else 0
  }

  function AllTakenOn(steps: seq<Step>): nat {
    if steps == [] then 0 else AllTakenOn(steps[..|steps| - 1]) + TakenOn(steps[|steps| - 1])
  }

  function Takes(steps: seq<Step>): nat {
    if steps == [] then 0 else Takes(steps[..|steps| - 1]) + if steps[|steps| - 1].Take? then 1 else 0
  }

  ghost predicate OnlyWork(steps: seq<Step>) {
    forall k :: 0 <= k < |steps| ==> !steps[k].Schedule? && !steps[k].Crash?
  }

  function Waiting(s: State): nat {
    if s.shared.request.Some? then 1 else 0
  }

  lemma WorkStep(s: State, step: Step, t: State)
    requires Inv(s) && !step.Schedule? && !step.Crash? && Do(s, step) == Some(t)
    ensures Work(t.workers) + 1 <= Work(s.workers) + TakenOn(step)
    ensures Waiting(t) + (if step.Take? then 1 else 0) == Waiting(s)
  {
    OneMoves(s, step, t);
    hide Do, Inv, Todo;
    WorkChange(s.workers, step.w, t.workers[step.w]);
  }

  /** A worker step moves that worker only, and does or takes on some of its work. */
  lemma OneMoves(s: State, step: Step, t: State)
    requires Inv(s) && !step.Schedule? && !step.Crash? && Do(s, step) == Some(t)
    ensures step.w < |s.workers| && |t.workers| == |s.workers| && t.workers == s.workers[step.w := t.workers[step.w]]
    ensures Todo(t.workers[step.w]) + 1 <= Todo(s.workers[step.w]) + TakenOn(step)
    ensures Waiting(t) + (if step.Take? then 1 else 0) == Waiting(s)
  {
    assert WorkerInv(s, s.workers[step.w]);
  }

  /** Without further scheduling the refresher comes to rest: as long as no sweep call raises, a continuation
      takes at most the one waiting request, and has at most as many steps as there is work left and taken on. */
  lemma {:induction false} ComesToRest(steps: seq<Step>, more: seq<Step>)
    requires Execute(steps + more).Some? && OnlyWork(more)
    ensures Execute(steps).Some?
    ensures var s, t := Execute(steps).value, Execute(steps + more).value;
            && |more| + Work(t.workers) <= Work(s.workers) + AllTakenOn(more)
            && Takes(more) + Waiting(t) == Waiting(s)
  {
    hide Do, Inv, Work, Waiting;
    if more == [] {
      assert steps + more == steps;
    } else {
      var n := |more| - 1;
      assert steps + more == (steps + more[..n]) + [more[n]];
      ExecuteSnoc(steps + more[..n], more[n]);
      ComesToRest(steps, more[..n]);
      RunKeeps(steps + more[..n]);
      WorkStep(Execute(steps + more[..n]).value, more[n], Execute(steps + more).value);
    }
  }

  // ------------------------------------------------------------------
  // What an exception in the sweep does
  // ------------------------------------------------------------------

  ghost predicate Wedged(s: State) {
    s.shared.running && forall i :: 0 <= i < |s.workers| ==> !Live(s.workers[i])
  }

  lemma WedgedStays(s: State, step: Step, t: State)
    requires Wedged(s) && Do(s, step) == Some(t)
    ensures Wedged(t) && t.last == s.last && t.workers == s.workers
  {
    assert step.Schedule? || step.w >= |s.workers| || !Live(s.workers[step.w]);
  }

  lemma CrashingWedges(s: State, step: Step, t: State)
    requires Inv(s) && step.Crash? && Do(s, step) == Some(t)
    ensures Wedged(t) && t.last == s.last
  {
    assert WorkerInv(s, s.workers[step.w]);
  }

  /** A worker is dead exactly if some sweep call of the run has raised. */
  lemma {:induction false} DeadExactlyAfterCrash(steps: seq<Step>)
    requires Execute(steps).Some?
    ensures NoneDead(Execute(steps).value) <==> forall k :: 0 <= k < |steps| ==> !steps[k].Crash?
  {
    hide Do, NoneDead;
    if steps == [] {
      AllAlive();
    } else {
      var n := |steps| - 1;
      DeadExactlyAfterCrash(steps[..n]);
      DeathIsCrash(Execute(steps[..n]).value, steps[n], Execute(steps).value);
    }
  }

  lemma AllAlive()
    ensures NoneDead(INIT)
  {
  }

  lemma DeathIsCrash(s: State, step: Step, t: State)
    requires Do(s, step) == Some(t)
    ensures NoneDead(t) <==> NoneDead(s) && !step.Crash?
  {
    if NoneDead(t) {
      forall i | 0 <= i < |s.workers| ensures !s.workers[i].Dead? {
        assert !t.workers[i].Dead?;
      }
    }
    if step.Crash? {
      assert t.workers[step.w].Dead?;
    }
  }

  /** In a state with `running` set some worker can move exactly if no sweep call has raised. */
  lemma MovesExactlyWhileAlive(steps: seq<Step>)
    requires Execute(steps).Some? && Execute(steps).value.shared.running
    ensures (exists step :: Do(Execute(steps).value, step).Some? && !step.Schedule? && !step.Crash?)
            <==> NoneDead(Execute(steps).value)
  {
    RunKeeps(steps);
    var s := Execute(steps).value;
    if NoneDead(s) {
      var step := WorkerCanMove(steps);
    } else {
      var d :| 0 <= d < |s.workers| && s.workers[d].Dead?;
      forall step ensures Do(s, step).Some? ==> step.Schedule? {
        assert !step.Schedule? && step.w < |s.workers| ==> !Live(s.workers[step.w]);
      }
    }
  }

  /** A run in which the sweep of the first request raises. */
  lemma CrashingRun()
    ensures var steps := [Schedule("", false), Take(0, ["k"]), Crash(0)];
            Execute(steps).Some? && Wedged(Execute(steps).value)
  {
    var p1 := [Schedule("", false)];
    assert p1[..0] == [];
    var p2 := p1 + [Take(0, ["k"])];
    assert p2[..1] == p1;
    var p3 := p2 + [Crash(0)];
    assert p3[..2] == p2;
    assert p3 == [Schedule("", false), Take(0, ["k"]), Crash(0)];
  }

  /** After a sweep call has raised, the flag stays set and no worker is ever started or moves again, so
      no later request is taken. */
  lemma {:induction false} CrashWedges(steps: seq<Step>, crash: Step, later: seq<Step>)
    requires crash.Crash? && Execute(steps + [crash] + later).Some?
    ensures Execute(steps).Some? && Wedged(Execute(steps + [crash] + later).value)
    ensures Execute(steps).value.last == Execute(steps + [crash] + later).value.last
  {
    hide Do, Wedged, Inv;
    if later == [] {
      assert steps + [crash] + later == steps + [crash];
      ExecuteSnoc(steps, crash);
      RunKeeps(steps);
      CrashingWedges(Execute(steps).value, crash, Execute(steps + [crash]).value);
    } else {
      var front, step := later[..|later| - 1], later[|later| - 1];
      var before := steps + [crash] + front;
      assert steps + [crash] + later == before + [step];
      ExecuteSnoc(before, step);
      CrashWedges(steps, crash, front);
      WedgedStays(Execute(before).value, step, Execute(before + [step]).value);
    }
  }
}
