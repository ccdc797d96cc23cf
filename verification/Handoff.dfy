/** The hand-off between `execute_one` and its worker threads (repros/repro4.c),
    as interleaved atomic steps under sequential consistency. One step is one
    access to shared memory. */
module Handoff {

  const THREADS: nat := 16
  const CALLS: nat := 15

  /** Where a worker is in `thr`. `Off`: not started. */
  datatype WorkerPc =
    | Off
    | Wait     // event_wait(&th->ready)
    | Reset    // event_reset(&th->ready)
    | Begin    // read th->call, enter execute_call
    | End      // execute_call returns
    | Dec      // running--
    | Check    // event_set(&th->done): test
    | Store    // event_set(&th->done): store

  /** Where the dispatcher is in `execute_one`. */
  datatype DispatcherPc =
    | Look       // test th->created
    | InitReady | InitDone | FirstCheck | FirstStore | Start
    | IsSet      // event_isset(&th->done)
    | ResetDone | SetCall | Inc | ReadyCheck | ReadyStore
    | TimedWait  // event_timedwait(&th->done, 50)
    | Final      // the loop that waits for running == 0
    | Exit

  /** `owed` and `arg` are history: the call dispatched last, and the call
      the worker read. */
  datatype Thread = Thread(created: bool, call: int, ready: bool, done: bool,
                           pc: WorkerPc, owed: int, arg: int)

  /** `sent`, `begun` and `returned` are history: call -> thread it was counted
      in for, calls in the order in which execute_call was entered, and calls it
      has returned from. `failed`: some event_set found its event set and exited.
      `dropped`: a call found no thread. `sawZero`: the final loop read 0. */
  datatype State = State(threads: seq<Thread>, running: int, d: DispatcherPc, call: nat, thread: nat,
                         sent: map<int, int>, begun: seq<int>, returned: set<int>,
                         failed: bool, dropped: bool, sawZero: bool)

  /** The scheduler's choice: the dispatcher moves (with a time-out or not), or
      worker t does. A step that is blocked changes nothing. */
  datatype Event = Dispatcher(timeout: bool) | Worker(t: nat)

  function Init(): State {
    State(seq(THREADS, _ => Thread(false, 0, false, false, Off, 0, 0)), 0, Look, 0, 0,
          map[], [], {}, false, false, false)
  }

  function WithThread(s: State, t: nat, th: Thread): State
    requires t < |s.threads|
  {
    s.(threads := s.threads[t := th])
  }

  /** The inner loop's `thread++`, and the outer `call++` if no thread is left. */
  function NextThread(s: State): (r: State)
    ensures s.thread < THREADS ==> r.thread < THREADS
    ensures r.threads == s.threads && r.running == s.running
    ensures r.sent == s.sent && r.begun == s.begun && r.returned == s.returned
  {
    if s.thread + 1 < THREADS then s.(d := Look, thread := s.thread + 1)
    else NextCall(s.(dropped := true))
  }

  function NextCall(s: State): (r: State)
    ensures s.thread < THREADS ==> r.thread < THREADS
    ensures r.threads == s.threads && r.running == s.running
    ensures r.sent == s.sent && r.begun == s.begun && r.returned == s.returned
  {
    if s.call + 1 < CALLS then s.(d := Look, call := s.call + 1, thread := 0)
    else s.(d := Final)
  }

  function DispatcherStep(s: State, timeout: bool): (r: State)
    requires |s.threads| == THREADS && s.thread < THREADS
    ensures |r.threads| == THREADS && r.thread < THREADS
    ensures !s.d.Inc? ==> r.running == s.running && r.sent == s.sent
    ensures r.begun == s.begun && r.returned == s.returned
  {
    var t := s.thread;
    var th := s.threads[t];
    match s.d
    case Look => if th.created then s.(d := IsSet) else WithThread(s, t, th.(created := true)).(d := InitReady)
    case InitReady => WithThread(s, t, th.(ready := false)).(d := InitDone)
    case InitDone => WithThread(s, t, th.(done := false)).(d := FirstCheck)
    case FirstCheck => if th.done then s.(failed := true, d := Exit) else s.(d := FirstStore)
    case FirstStore => WithThread(s, t, th.(done := true)).(d := Start)
    case Start => WithThread(s, t, th.(pc := Wait)).(d := IsSet)
    case IsSet => if th.done then s.(d := ResetDone) else NextThread(s)
    case ResetDone => WithThread(s, t, th.(done := false)).(d := SetCall)
    case SetCall => WithThread(s, t, th.(call := s.call, owed := s.call)).(d := Inc)
    case Inc => s.(running := s.running + 1, sent := s.sent[s.call := t], d := ReadyCheck)
    case ReadyCheck => if th.ready then s.(failed := true, d := Exit) else s.(d := ReadyStore)
    case ReadyStore => WithThread(s, t, th.(ready := true)).(d := TimedWait)
    case TimedWait => if th.done || timeout then NextCall(s) else s
    case Final => if s.running == 0 then s.(sawZero := true, d := Exit) else if timeout then s.(d := Exit) else s
    case Exit => s
  }

  function WorkerStep(s: State, t: nat): (r: State)
    requires t < |s.threads|
    ensures |r.threads| == |s.threads| && r.thread == s.thread && r.call == s.call
    ensures r.sent == s.sent && r.dropped == s.dropped
  {
    var th := s.threads[t];
    match th.pc
    case Off => s
    case Wait => if th.ready then WithThread(s, t, th.(pc := Reset)) else s
    case Reset => WithThread(s, t, th.(ready := false, pc := Begin))
    case Begin => WithThread(s, t, th.(arg := th.call, pc := End)).(begun := s.begun + [th.call])
    case End => WithThread(s, t, th.(pc := Dec)).(returned := s.returned + {th.arg})
    case Dec => WithThread(s, t, th.(pc := Check)).(running := s.running - 1)
    case Check => if th.done then s.(failed := true, d := Exit) else WithThread(s, t, th.(pc := Store))
    case Store => WithThread(s, t, th.(done := true, pc := Wait))
  }

  function Next(s: State, e: Event): (r: State)
    requires |s.threads| == THREADS && s.thread < THREADS
    ensures |r.threads| == THREADS && r.thread < THREADS
  {
    match e
    case Dispatcher(timeout) => DispatcherStep(s, timeout)
    case Worker(t) => if t < THREADS then WorkerStep(s, t) else s
  }

  // ---- the invariant ----

  /** The dispatcher has claimed thread t and not yet made it ready. */
  predicate Claimed(s: State, t: nat) {
    s.thread == t && (s.d.SetCall? || s.d.Inc? || s.d.ReadyCheck? || s.d.ReadyStore?)
  }

  /** The dispatcher is setting thread t up. */
  predicate SettingUp(s: State, t: nat) {
    s.thread == t && (s.d.InitReady? || s.d.InitDone? || s.d.FirstCheck? || s.d.FirstStore? || s.d.Start?)
  }

  /** Counted in and not yet counted out. */
  predicate Counted(s: State, t: nat)
    requires t < |s.threads|
  {
    var th := s.threads[t];
    || (s.thread == t && (s.d.ReadyCheck? || s.d.ReadyStore?))
    || (th.pc.Wait? && th.ready) || th.pc.Reset? || th.pc.Begin? || th.pc.End? || th.pc.Dec?
  }

  /** Counted in, and its call has not returned. */
  predicate Pending(s: State, t: nat)
    requires t < |s.threads|
  {
    Counted(s, t) && !s.threads[t].pc.Dec?
  }

  ghost predicate EventsOk(s: State, t: nat)
    requires t < |s.threads|
  {
    var th := s.threads[t];
    (s.thread == t && s.d.ResetDone? ==> th.done) &&
    match th.pc
    case Off =>
      && (th.created <==> SettingUp(s, t)) && !Claimed(s, t)
      && (s.thread == t && s.d.InitDone? ==> !th.ready)
      && (s.thread == t && s.d.FirstCheck? ==> !th.ready && !th.done)
      && (s.thread == t && s.d.FirstStore? ==> !th.ready && !th.done)
      && (s.thread == t && s.d.Start? ==> !th.ready && th.done)
    case Wait =>
      && th.created && !SettingUp(s, t)
      && (if Claimed(s, t) then !th.ready && !th.done else th.ready != th.done)
    case Reset => th.created && !SettingUp(s, t) && !Claimed(s, t) && th.ready && !th.done
    case _ => th.created && !SettingUp(s, t) && !Claimed(s, t) && !th.ready && !th.done
  }

  /** The call slot holds the dispatched call for as long as it is pending. */
  ghost predicate CallOk(s: State, t: nat)
    requires t < |s.threads|
  {
    var th := s.threads[t];
    && (s.thread == t && s.d.Inc? ==> th.call == th.owed == s.call)
    && (Counted(s, t) ==>
          && th.owed in s.sent && s.sent[th.owed] == t && th.call == th.owed
          && (th.pc.Dec? <==> th.owed in s.returned)
          && (th.pc.End? ==> th.arg == th.owed)
          && (th.pc.End? || th.pc.Dec? <==> th.owed in s.begun))
  }

  ghost predicate HistoryOk(s: State) {
    && (forall k :: k in s.sent ==>
          && 0 <= k < CALLS && 0 <= s.sent[k] < |s.threads| && s.sent[k] <= k
          && (k in s.returned || (Pending(s, s.sent[k]) && s.threads[s.sent[k]].owed == k)))
    && (forall k :: k in s.returned ==> k in s.sent && k in s.begun)
    && (forall k :: k in s.begun ==> k in s.sent)
    && (forall i, j :: 0 <= i < j < |s.begun| ==> s.begun[i] != s.begun[j])
  }

  ghost function Busy(s: State): set<int> {
    set t | 0 <= t < |s.threads| && Counted(s, t)
  }

  /** Calls counted in so far: exactly 0 .. call - 1, and the current one from
      Inc on. */
  ghost predicate ProgressOk(s: State) {
    && s.call < CALLS && s.thread < THREADS
    && (forall k :: k in s.sent <==> 0 <= k < CountedIn(s))
  }

  function CountedIn(s: State): nat {
    if s.d.ReadyCheck? || s.d.ReadyStore? || s.d.TimedWait? || s.d.Final? || s.d.Exit? then s.call + 1 else s.call
  }

  /** Threads are created in order, at most one for each call. */
  ghost predicate CreationOk(s: State) {
    && (forall t, u :: 0 <= t < u < |s.threads| && s.threads[u].created ==> s.threads[t].created)
    && (forall t :: 0 <= t < |s.threads| && s.threads[t].created ==> t <= s.call)
    // a thread created for the current call is the one the call goes to
    && (s.call < |s.threads| && s.threads[s.call].created ==>
          s.thread == s.call && !s.d.Look? && (s.d.IsSet? ==> s.threads[s.call].done))
    && (forall t :: 0 <= t < s.thread < |s.threads| ==> s.threads[t].created)
    && (!s.d.Look? ==> s.thread < |s.threads| && s.threads[s.thread].created)
    && !s.dropped
  }

  ghost predicate Inv(s: State) {
    && |s.threads| == THREADS && !s.failed
    && ProgressOk(s) && CreationOk(s) && HistoryOk(s)
    && (forall t :: 0 <= t < THREADS ==> EventsOk(s, t))
    && (forall t :: 0 <= t < THREADS ==> CallOk(s, t))
    && s.running == |Busy(s)|
    && (s.sawZero ==> s.d.Exit? && s.returned == s.sent.Keys)
    && (s.d.Final? || s.d.Exit? ==> s.call + 1 == CALLS)
  }

  lemma {:induction false} InitInv()
    ensures Inv(Init())
  {
    var s := Init();
    assert Busy(s) == {};
  }

  // ---- what a step does to a thread ----

  function DispatcherThread(th: Thread, d: DispatcherPc, call: nat): Thread {
    match d
    case Look => th.(created := true)
    case InitReady => th.(ready := false)
    case InitDone => th.(done := false)
    case FirstStore => th.(done := true)
    case Start => th.(pc := Wait)
    case ResetDone => th.(done := false)
    case SetCall => th.(call := call, owed := call)
    case ReadyStore => th.(ready := true)
    case _ => th
  }

  function WorkerThread(th: Thread): Thread {
    match th.pc
    case Off => th
    case Wait => if th.ready then th.(pc := Reset) else th
    case Reset => th.(ready := false, pc := Begin)
    case Begin => th.(arg := th.call, pc := End)
    case End => th.(pc := Dec)
    case Dec => th.(pc := Check)
    case Check => if th.done then th else th.(pc := Store)
    case Store => th.(done := true, pc := Wait)
  }

  predicate Early(d: DispatcherPc) {
    d.Look? || d.InitReady? || d.InitDone? || d.FirstCheck? || d.FirstStore? || d.Start?
  }

  lemma {:induction false} EarlyTouches(s: State, timeout: bool)
    requires |s.threads| == THREADS && s.thread < THREADS && Early(s.d)
    ensures DispatcherStep(s, timeout).threads ==
            s.threads[s.thread := DispatcherThread(s.threads[s.thread], s.d, s.call)]
  {
  }

  lemma {:induction false} LateTouches(s: State, timeout: bool)
    requires |s.threads| == THREADS && s.thread < THREADS && !Early(s.d)
    ensures DispatcherStep(s, timeout).threads ==
            s.threads[s.thread := DispatcherThread(s.threads[s.thread], s.d, s.call)]
  {
  }

  lemma {:induction false} DispatcherTouches(s: State, timeout: bool)
    requires |s.threads| == THREADS && s.thread < THREADS
    ensures DispatcherStep(s, timeout).threads ==
            s.threads[s.thread := DispatcherThread(s.threads[s.thread], s.d, s.call)]
  {
    hide DispatcherStep, DispatcherThread;
    if Early(s.d) { EarlyTouches(s, timeout); } else { LateTouches(s, timeout); }
  }

  lemma {:induction false} WorkerTouches(s: State, t: nat)
    requires t < |s.threads|
    ensures WorkerStep(s, t).threads == s.threads[t := WorkerThread(s.threads[t])]
  {
  }

  /** A step that changes only whether t is counted. */
  lemma {:induction false} BusyStep(s: State, s': State, t: int)
    requires |s.threads| == |s'.threads| && 0 <= t < |s.threads|
    requires forall u :: 0 <= u < |s.threads| && u != t ==> (Counted(s, u) <==> Counted(s', u))
    ensures Counted(s, t) == Counted(s', t) ==> |Busy(s')| == |Busy(s)|
    ensures Counted(s, t) && !Counted(s', t) ==> |Busy(s')| == |Busy(s)| - 1
    ensures !Counted(s, t) && Counted(s', t) ==> |Busy(s')| == |Busy(s)| + 1
  {
    if Counted(s, t) == Counted(s', t) {
      assert Busy(s') == Busy(s);
    } else if Counted(s, t) {
      assert Busy(s') == Busy(s) - {t};
    } else {
      assert Busy(s') == Busy(s) + {t};
    }
  }

  // ---- worker steps ----

  lemma {:induction false} WorkerEvents(s: State, t: nat, u: nat)
    requires Inv(s) && t < THREADS && u < THREADS
    ensures var s' := WorkerStep(s, t); |s'.threads| == THREADS && !s'.failed && EventsOk(s', u)
  {
    assert EventsOk(s, t) && EventsOk(s, u);
  }

  lemma {:induction false} WorkerCalls(s: State, t: nat, u: nat)
    requires Inv(s) && t < THREADS && u < THREADS
    ensures var s' := WorkerStep(s, t); |s'.threads| == THREADS && CallOk(s', u)
  {
    assert EventsOk(s, t) && EventsOk(s, u) && CallOk(s, t) && CallOk(s, u);
    hide Inv, HistoryOk, ProgressOk, CreationOk, Busy;
    if t == u { OwnCall(s, t); } else { OtherCall(s, t, u); }
  }

  /** What a step of a worker does to the history. */
  lemma {:induction false} WorkerRecords(s: State, t: nat)
    requires t < |s.threads|
    ensures var s', th := WorkerStep(s, t), s.threads[t];
            && s'.begun == (if th.pc.Begin? then s.begun + [th.call] else s.begun)
            && s'.returned == (if th.pc.End? then s.returned + {th.arg} else s.returned)
            && (!(th.pc.Check? && th.done) ==> s'.d == s.d)
  {
  }

  lemma {:induction false} OwnCall(s: State, t: nat)
    requires t < |s.threads| && EventsOk(s, t) && CallOk(s, t)
    ensures CallOk(WorkerStep(s, t), t)
  {
    WorkerTouches(s, t);
    WorkerRecords(s, t);
    hide WorkerStep;
  }

  lemma {:induction false} OtherCall(s: State, t: nat, u: nat)
    requires t < |s.threads| && u < |s.threads| && t != u
    requires EventsOk(s, t) && CallOk(s, t) && CallOk(s, u) && !(s.threads[t].pc.Check? && s.threads[t].done)
    ensures CallOk(WorkerStep(s, t), u)
  {
    WorkerTouches(s, t);
    WorkerRecords(s, t);
    hide WorkerStep, WorkerThread;
  }

  lemma {:induction false} WorkerHistory(s: State, t: nat)
    requires Inv(s) && t < THREADS
    ensures var s' := WorkerStep(s, t); |s'.threads| == THREADS && HistoryOk(s')
  {
    assert EventsOk(s, t) && CallOk(s, t) && !s.failed;
    WorkerRecords(s, t);
    var s' := WorkerStep(s, t);
    forall u | 0 <= u < THREADS && Pending(s, u)
      ensures (u == t && s.threads[t].pc.End?) || (Pending(s', u) && s'.threads[u].owed == s.threads[u].owed)
    {
      WorkerPending(s, t, u);
    }
    hide WorkerStep, Inv, ProgressOk, CreationOk, Busy, EventsOk;
  }

  lemma {:induction false} WorkerPending(s: State, t: nat, u: nat)
    requires t < |s.threads| && u < |s.threads| && Pending(s, u) && !s.failed
    requires !(s.threads[t].pc.Check? && s.threads[t].done)
    ensures var s' := WorkerStep(s, t);
            (u == t && s.threads[t].pc.End?) || (Pending(s', u) && s'.threads[u].owed == s.threads[u].owed)
  {
    WorkerTouches(s, t);
    WorkerRecords(s, t);
    hide WorkerStep;
  }

  lemma {:induction false} WorkerBusy(s: State, t: nat)
    requires Inv(s) && t < THREADS
    ensures var s' := WorkerStep(s, t); s'.running == |Busy(s')|
  {
    assert EventsOk(s, t);
    BusyStep(s, WorkerStep(s, t), t);
  }

  /** A step that creates nothing, moves no thread index and resets no `done`. */
  ghost predicate SameSearch(s: State, s': State) {
    && |s'.threads| == |s.threads| && s'.d == s.d && s'.call == s.call && s'.thread == s.thread
    && s'.sent == s.sent && s'.dropped == s.dropped
    && (forall t :: 0 <= t < |s.threads| ==> SameEvents(s.threads[t], s'.threads[t]))
  }

  predicate SameEvents(th: Thread, th': Thread) {
    th'.created == th.created && (th.done ==> th'.done)
  }

  lemma {:induction false} SearchKept(s: State, s': State)
    requires SameSearch(s, s') && CreationOk(s) && ProgressOk(s)
    ensures CreationOk(s') && ProgressOk(s')
  {
    assert forall t :: 0 <= t < |s.threads| ==> s'.threads[t].created == s.threads[t].created by {
      forall t | 0 <= t < |s.threads| ensures s'.threads[t].created == s.threads[t].created {
        assert SameEvents(s.threads[t], s'.threads[t]);
      }
    }
    if s.call < |s.threads| { assert SameEvents(s.threads[s.call], s'.threads[s.call]); }
  }

  lemma {:induction false} WorkerSearch(s: State, t: nat)
    requires t < |s.threads| && !(s.threads[t].pc.Check? && s.threads[t].done)
    ensures SameSearch(s, WorkerStep(s, t))
  {
    WorkerFields(s, t);
    WorkerTouches(s, t);
    hide WorkerStep;
    forall u | 0 <= u < |s.threads| ensures SameEvents(s.threads[u], WorkerStep(s, t).threads[u]) {
    }
  }

  lemma {:induction false} WorkerFields(s: State, t: nat)
    requires t < |s.threads| && !(s.threads[t].pc.Check? && s.threads[t].done)
    ensures WorkerStep(s, t).d == s.d
  {
  }

  lemma {:induction false} WorkerCreation(s: State, t: nat)
    requires Inv(s) && t < THREADS
    ensures var s' := WorkerStep(s, t); CreationOk(s') && ProgressOk(s')
  {
    assert EventsOk(s, t);
    WorkerSearch(s, t);
    hide WorkerStep, SameSearch, EventsOk, CallOk, HistoryOk, Busy, CreationOk, ProgressOk;
    SearchKept(s, WorkerStep(s, t));
  }

  lemma {:induction false} WorkerInv(s: State, t: nat)
    requires Inv(s) && t < THREADS
    ensures Inv(WorkerStep(s, t))
  {
    var s' := WorkerStep(s, t);
    forall u | 0 <= u < THREADS ensures EventsOk(s', u) && CallOk(s', u) {
      WorkerEvents(s, t, u);
      WorkerCalls(s, t, u);
    }
    WorkerHistory(s, t);
    WorkerBusy(s, t);
    WorkerCreation(s, t);
    assert EventsOk(s, t) && CallOk(s, t);
  }

  // ---- dispatcher steps ----

  /** The search never runs past the last thread. */
  lemma {:induction false} SearchGoesOn(s: State)
    requires Inv(s) && s.d.IsSet? && !s.threads[s.thread].done
    ensures s.thread < s.call && NextThread(s) == s.(d := Look, thread := s.thread + 1)
  {
  }

  predicate SetupStep(d: DispatcherPc) {
    d.InitReady? || d.InitDone? || d.FirstCheck? || d.FirstStore? || d.Start?
  }

  predicate ClaimStep(d: DispatcherPc) {
    d.ResetDone? || d.SetCall? || d.Inc? || d.ReadyCheck? || d.ReadyStore?
  }

  /** The other steps only move the dispatcher, or mark a thread created. */
  lemma {:induction false} ControlEvents(s: State, timeout: bool, u: nat)
    requires Inv(s) && u < THREADS && !SetupStep(s.d) && !ClaimStep(s.d)
    ensures var s' := DispatcherStep(s, timeout); !s'.failed && EventsOk(s', u) && CallOk(s', u)
  {
    assert EventsOk(s, s.thread) && EventsOk(s, u) && CallOk(s, u) && !s.failed;
    if s.d.IsSet? && !s.threads[s.thread].done { SearchGoesOn(s); }
    hide Inv, HistoryOk, ProgressOk, CreationOk, Busy;
    ControlOnly(s, timeout, u);
    ControlCall(s, timeout, u);
  }

  lemma {:induction false} ControlOnly(s: State, timeout: bool, u: nat)
    requires |s.threads| == THREADS && s.thread < THREADS && u < THREADS && !SetupStep(s.d) && !ClaimStep(s.d)
    requires EventsOk(s, u) && EventsOk(s, s.thread) && !s.failed
    requires s.d.IsSet? && !s.threads[s.thread].done ==> NextThread(s) == s.(d := Look, thread := s.thread + 1)
    ensures var s' := DispatcherStep(s, timeout); !s'.failed && EventsOk(s', u)
  {
    hide CallOk;
  }

  lemma {:induction false} ControlCall(s: State, timeout: bool, u: nat)
    requires |s.threads| == THREADS && s.thread < THREADS && u < THREADS && !SetupStep(s.d) && !ClaimStep(s.d)
    requires CallOk(s, u)
    ensures CallOk(DispatcherStep(s, timeout), u)
  {
    ControlPlace(s, timeout);
    DispatcherTouches(s, timeout);
    hide EventsOk, DispatcherStep;
  }

  lemma {:induction false} ControlPlace(s: State, timeout: bool)
    requires |s.threads| == THREADS && s.thread < THREADS && !SetupStep(s.d) && !ClaimStep(s.d)
    ensures var d := DispatcherStep(s, timeout).d; !d.Inc? && !d.ReadyCheck? && !d.ReadyStore?
  {
  }

  lemma {:induction false} SetupEvents(s: State, timeout: bool, u: nat)
    requires Inv(s) && u < THREADS && SetupStep(s.d)
    ensures var s' := DispatcherStep(s, timeout); !s'.failed && EventsOk(s', u) && CallOk(s', u)
  {
    assert EventsOk(s, s.thread) && EventsOk(s, u) && CallOk(s, u);
  }

  lemma {:induction false} ClaimEvents(s: State, timeout: bool, u: nat)
    requires Inv(s) && u < THREADS && ClaimStep(s.d)
    ensures var s' := DispatcherStep(s, timeout); !s'.failed && EventsOk(s', u)
  {
    assert EventsOk(s, s.thread) && EventsOk(s, u);
  }

  lemma {:induction false} ClaimCalls(s: State, timeout: bool, u: nat)
    requires Inv(s) && u < THREADS && ClaimStep(s.d)
    ensures CallOk(DispatcherStep(s, timeout), u)
  {
    assert EventsOk(s, s.thread) && EventsOk(s, u) && CallOk(s, s.thread) && CallOk(s, u);
    if s.d.Inc? { NotYetSent(s, u); }
  }

  /** The current call has not been counted in before Inc. */
  lemma {:induction false} NotYetSent(s: State, u: nat)
    requires Inv(s) && s.d.Inc? && u < THREADS
    ensures s.call !in s.sent && s.call !in s.returned && s.call !in s.begun
    ensures Counted(s, u) ==> s.threads[u].owed != s.call
  {
    assert CallOk(s, u);
  }

  /** Steps that change no history and keep what is pending. */
  lemma {:induction false} SameHistory(s: State, s': State)
    requires HistoryOk(s) && |s'.threads| == |s.threads|
    requires s'.sent == s.sent && s'.begun == s.begun && s'.returned == s.returned
    requires forall t :: 0 <= t < |s.threads| && Pending(s, t) ==> Pending(s', t) && s'.threads[t].owed == s.threads[t].owed
    ensures HistoryOk(s')
  {
  }

  lemma {:induction false} IncHistory(s: State)
    requires Inv(s) && s.d.Inc?
    ensures HistoryOk(DispatcherStep(s, false))
  {
    assert EventsOk(s, s.thread) && CallOk(s, s.thread);
    NotYetSent(s, s.thread);
  }

  lemma {:induction false} DispatcherPending(s: State, timeout: bool, t: nat)
    requires Inv(s) && t < THREADS && Pending(s, t)
    ensures var s' := DispatcherStep(s, timeout); Pending(s', t) && s'.threads[t].owed == s.threads[t].owed
  {
    assert EventsOk(s, s.thread) && EventsOk(s, t);
    if s.d.IsSet? && !s.threads[s.thread].done { SearchGoesOn(s); }
  }

  lemma {:induction false} DispatcherHistory(s: State, timeout: bool)
    requires Inv(s)
    ensures HistoryOk(DispatcherStep(s, timeout))
  {
    if s.d.Inc? {
      IncHistory(s);
      assert DispatcherStep(s, timeout) == DispatcherStep(s, false);
    } else {
      var s' := DispatcherStep(s, timeout);
      hide DispatcherStep, Pending, EventsOk, CallOk, CreationOk, ProgressOk, HistoryOk, Busy;
      forall t | 0 <= t < THREADS && Pending(s, t) ensures Pending(s', t) && s'.threads[t].owed == s.threads[t].owed {
        DispatcherPending(s, timeout, t);
      }
      SameHistory(s, s');
    }
  }

  lemma {:induction false} DispatcherBusy(s: State, timeout: bool)
    requires Inv(s)
    ensures var s' := DispatcherStep(s, timeout); s'.running == |Busy(s')|
  {
    var s' := DispatcherStep(s, timeout);
    ThisCounted(s, timeout);
    forall u | 0 <= u < |s.threads| && u != s.thread ensures Counted(s, u) <==> Counted(s', u) {
      OtherCounted(s, timeout, u);
    }
    hide DispatcherStep, EventsOk, CallOk, CreationOk, ProgressOk, HistoryOk, Counted, Busy;
    BusyStep(s, s', s.thread);
  }

  lemma {:induction false} OtherCounted(s: State, timeout: bool, u: nat)
    requires Inv(s) && u < THREADS && u != s.thread
    ensures Counted(s, u) <==> Counted(DispatcherStep(s, timeout), u)
  {
    DispatcherTouches(s, timeout);
    ReadyPlace(s, timeout);
    hide DispatcherStep, DispatcherThread, Inv;
  }

  /** The dispatcher is between counting in and `ready` only with the thread it
      had before. */
  lemma {:induction false} ReadyPlace(s: State, timeout: bool)
    requires |s.threads| == THREADS && s.thread < THREADS
    ensures var s' := DispatcherStep(s, timeout);
            && (s'.d.ReadyCheck? || s'.d.ReadyStore? ==> s'.thread == s.thread)
            && (s.d.ReadyCheck? || s.d.ReadyStore? ==> s'.thread == s.thread)
  {
    BeforeReady(s, timeout);
    hide DispatcherStep;
    if s.d.Inc? || s.d.ReadyCheck? || s.d.ReadyStore? { SameThread(s, timeout); }
  }

  lemma {:induction false} BeforeReady(s: State, timeout: bool)
    requires |s.threads| == THREADS && s.thread < THREADS
    ensures var d := DispatcherStep(s, timeout).d; d.ReadyCheck? || d.ReadyStore? ==> s.d.Inc? || s.d.ReadyCheck?
  {
  }

  lemma {:induction false} SameThread(s: State, timeout: bool)
    requires |s.threads| == THREADS && s.thread < THREADS && (s.d.Inc? || s.d.ReadyCheck? || s.d.ReadyStore?)
    ensures DispatcherStep(s, timeout).thread == s.thread
  {
  }

  lemma {:induction false} ThisCounted(s: State, timeout: bool)
    requires Inv(s)
    ensures var s' := DispatcherStep(s, timeout);
            && (s.d.Inc? ==> !Counted(s, s.thread) && Counted(s', s.thread) && s'.running == s.running + 1)
            && (!s.d.Inc? ==> (Counted(s, s.thread) <==> Counted(s', s.thread)) && s'.running == s.running)
  {
    hide CallOk, HistoryOk, Busy;
    assert EventsOk(s, s.thread);
    if s.d.IsSet? && !s.threads[s.thread].done { SearchGoesOn(s); }
  }

  lemma {:induction false} DispatcherProgress(s: State, timeout: bool)
    requires Inv(s)
    ensures ProgressOk(DispatcherStep(s, timeout))
  {
    if s.d.IsSet? && !s.threads[s.thread].done { SearchGoesOn(s); }
    if !s.d.Exit? { NeverFails(s, timeout); }
    assert ProgressOk(s) && |s.threads| == THREADS && !s.failed && (s.d.Final? || s.d.Exit? ==> s.call + 1 == CALLS);
    hide Inv, CreationOk, HistoryOk, EventsOk, CallOk, Busy;
    if Early(s.d) { EarlyProgress(s, timeout); } else { LateProgress(s, timeout); }
    hide ProgressOk, DispatcherStep;
  }

  lemma {:induction false} EarlyProgress(s: State, timeout: bool)
    requires |s.threads| == THREADS && ProgressOk(s) && Early(s.d) && !DispatcherStep(s, timeout).failed
    ensures ProgressOk(DispatcherStep(s, timeout))
  {
  }

  lemma {:induction false} LateProgress(s: State, timeout: bool)
    requires |s.threads| == THREADS && ProgressOk(s) && !Early(s.d)
    requires s.d.Exit? || !DispatcherStep(s, timeout).failed
    requires s.d.Final? || s.d.Exit? ==> s.call + 1 == CALLS
    requires s.d.IsSet? && !s.threads[s.thread].done ==> NextThread(s) == s.(d := Look, thread := s.thread + 1)
    ensures ProgressOk(DispatcherStep(s, timeout))
  {
  }

  lemma {:induction false} DispatcherCreation(s: State, timeout: bool)
    requires Inv(s)
    ensures CreationOk(DispatcherStep(s, timeout))
  {
    if s.d.Look? {
      LookCreation(s);
    } else if s.d.IsSet? || s.d.TimedWait? {
      SearchCreation(s, timeout);
    } else {
      LaterCreation(s, timeout);
    }
  }

  lemma {:induction false} SearchCreation(s: State, timeout: bool)
    requires Inv(s) && (s.d.IsSet? || s.d.TimedWait?)
    ensures CreationOk(DispatcherStep(s, timeout))
  {
    hide CallOk, HistoryOk, Busy;
    if s.d.IsSet? && !s.threads[s.thread].done { SearchGoesOn(s); }
  }

  lemma {:induction false} LookCreation(s: State)
    requires Inv(s) && s.d.Look?
    ensures CreationOk(DispatcherStep(s, false)) && DispatcherStep(s, true) == DispatcherStep(s, false)
  {
  }

  lemma {:induction false} LaterCreation(s: State, timeout: bool)
    requires Inv(s) && !s.d.Look? && !s.d.IsSet? && !s.d.TimedWait?
    ensures CreationOk(DispatcherStep(s, timeout))
  {
    assert EventsOk(s, s.thread);
    LaterFields(s, timeout);
    var s' := DispatcherStep(s, timeout);
    assert s'.d.IsSet? ==> s'.threads[s.thread].done;
    hide DispatcherStep, EventsOk, CallOk, HistoryOk, Busy;
    CreationKept(s, s');
  }

  lemma {:induction false} LaterFields(s: State, timeout: bool)
    requires |s.threads| == THREADS && s.thread < THREADS && !s.dropped
    requires !s.d.Look? && !s.d.IsSet? && !s.d.TimedWait?
    ensures var s' := DispatcherStep(s, timeout);
            && s'.call == s.call && s'.thread == s.thread && !s'.d.Look? && !s'.dropped
            && forall t :: 0 <= t < THREADS ==> s'.threads[t].created == s.threads[t].created
  {
    LaterPlace(s, timeout);
    DispatcherTouches(s, timeout);
    hide DispatcherStep;
  }

  lemma {:induction false} LaterPlace(s: State, timeout: bool)
    requires |s.threads| == THREADS && s.thread < THREADS && !s.dropped
    requires !s.d.Look? && !s.d.IsSet? && !s.d.TimedWait?
    ensures var s' := DispatcherStep(s, timeout);
            s'.call == s.call && s'.thread == s.thread && !s'.d.Look? && !s'.dropped
  {
  }

  lemma {:induction false} CreationKept(s: State, s': State)
    requires CreationOk(s) && |s'.threads| == |s.threads| && s'.call == s.call && s'.thread == s.thread
    requires !s.d.Look? && !s'.d.Look? && !s'.dropped
    requires forall t :: 0 <= t < |s.threads| ==> s'.threads[t].created == s.threads[t].created
    requires s'.d.IsSet? ==> s.thread < |s.threads| && s'.threads[s.thread].done
    ensures CreationOk(s')
  {
  }

  /** Nothing is in flight once the counter is zero. */
  lemma {:induction false} ZeroMeansReturned(s: State)
    requires Inv(s) && s.running == 0
    ensures s.returned == s.sent.Keys
  {
    assert Busy(s) == {};
    forall k | k in s.sent.Keys ensures k in s.returned {
      var t := s.sent[k];
      assert 0 <= t < |s.threads|;
      assert Counted(s, t) ==> t in Busy(s);
    }
    forall k | k in s.returned ensures k in s.sent.Keys {
    }
  }

  /** No event_set of the dispatcher finds its event already set. */
  lemma {:induction false} NeverFails(s: State, timeout: bool)
    requires Inv(s)
    ensures !DispatcherStep(s, timeout).failed
  {
    assert EventsOk(s, s.thread);
  }

  lemma {:induction false} DispatcherInv(s: State, timeout: bool)
    requires Inv(s)
    ensures Inv(DispatcherStep(s, timeout))
  {
    var s' := DispatcherStep(s, timeout);
    forall u | 0 <= u < THREADS ensures EventsOk(s', u) && CallOk(s', u) {
      if SetupStep(s.d) {
        SetupEvents(s, timeout, u);
      } else if ClaimStep(s.d) {
        ClaimEvents(s, timeout, u);
        ClaimCalls(s, timeout, u);
      } else {
        ControlEvents(s, timeout, u);
      }
    }
    DispatcherHistory(s, timeout);
    DispatcherBusy(s, timeout);
    DispatcherProgress(s, timeout);
    NeverFails(s, timeout);
    DispatcherCreation(s, timeout);
    if s.running == 0 { ZeroMeansReturned(s); }
    DispatcherEnd(s, timeout);
  }

  lemma {:induction false} DispatcherEnd(s: State, timeout: bool)
    requires Inv(s) && (s.running == 0 ==> s.returned == s.sent.Keys)
    ensures var s' := DispatcherStep(s, timeout);
            && (s'.sawZero ==> s'.d.Exit? && s'.returned == s'.sent.Keys)
            && (s'.d.Final? || s'.d.Exit? ==> s'.call + 1 == CALLS)
  {
    assert EventsOk(s, s.thread);
    if s.d.IsSet? && !s.threads[s.thread].done { SearchGoesOn(s); }
  }

  // ---- runs ----

  function Run(events: seq<Event>): (s: State)
    ensures |s.threads| == THREADS && s.thread < THREADS
  {
    if events == [] then Init()
    else Next(Run(events[..|events| - 1]), events[|events| - 1])
  }

  /** Every reachable state satisfies the invariant. */
  lemma {:induction false} RunInv(events: seq<Event>)
    ensures Inv(Run(events))
  {
    if events == [] {
      InitInv();
    } else {
      var s, e := Run(events[..|events| - 1]), events[|events| - 1];
      RunInv(events[..|events| - 1]);
      match e
      case Dispatcher(timeout) => DispatcherInv(s, timeout);
      case Worker(t) => if t < THREADS { WorkerInv(s, t); }
    }
  }

  // ---- what every run guarantees ----

  /** No event_set finds its event already set; every call finds a thread, of
      index at most its own number; no call is entered twice, and only calls that
      were sent are entered. */
  lemma {:induction false} RunIsSafe(events: seq<Event>)
    ensures var s := Run(events);
            && !s.failed && !s.dropped
            && (forall k :: k in s.sent ==> 0 <= s.sent[k] <= k)
            && (forall i, j :: 0 <= i < j < |s.begun| ==> s.begun[i] != s.begun[j])
            && (forall k :: k in s.begun ==> k in s.sent)
  {
    RunInv(events);
  }

  /** The calls counted in and not counted out. */
  ghost function InFlight(s: State): set<int> {
    OwedBy(s, Busy(s))
  }

  ghost function OwedBy(s: State, ts: set<int>): set<int> {
    set t | t in ts && 0 <= t < |s.threads| :: s.threads[t].owed
  }

  /** Two threads that are counted owe different calls. */
  lemma {:induction false} DistinctCalls(events: seq<Event>, t: nat, u: nat)
    requires t < u < THREADS && Counted(Run(events), t) && Counted(Run(events), u)
    ensures Run(events).threads[t].owed != Run(events).threads[u].owed
  {
    RunInv(events);
    assert CallOk(Run(events), t) && CallOk(Run(events), u);
  }

  lemma {:induction false} OwedCount(events: seq<Event>, ts: set<int>)
    requires ts <= Busy(Run(events))
    ensures |OwedBy(Run(events), ts)| == |ts|
  {
    hide Run, Counted;
    var s := Run(events);
    if ts == {} {
      assert OwedBy(s, ts) == {};
    } else {
      var t :| t in ts;
      OwedCount(events, ts - {t});
      assert t in Busy(s);
      var k := s.threads[t].owed;
      forall u | u in ts - {t} ensures s.threads[u].owed != k {
        assert u in Busy(s);
        if t < u { DistinctCalls(events, t, u); } else { DistinctCalls(events, u, t); }
      }
      assert OwedBy(s, ts) == OwedBy(s, ts - {t}) + {k};
    }
  }

  /** The counter is the number of calls that were counted in and have not been
      counted out: each is in flight on the one thread it was sent to. */
  lemma {:induction false} RunningCounts(events: seq<Event>)
    ensures var s := Run(events);
            && s.running == |InFlight(s)|
            && forall k :: k in InFlight(s) <==>
                 k in s.sent && 0 <= s.sent[k] < THREADS && Counted(s, s.sent[k]) && s.threads[s.sent[k]].owed == k
  {
    var s := Run(events);
    RunInv(events);
    OwedCount(events, Busy(s));
    hide Run, Counted;
    forall k | k in InFlight(s) ensures k in s.sent && s.sent[k] in Busy(s) && s.threads[s.sent[k]].owed == k {
      var t :| t in Busy(s) && s.threads[t].owed == k;
      assert CallOk(s, t);
    }
    forall k | k in s.sent && 0 <= s.sent[k] < THREADS && Counted(s, s.sent[k]) && s.threads[s.sent[k]].owed == k
      ensures k in InFlight(s)
    {
      assert s.sent[k] in Busy(s);
    }
  }

  /** A worker that enters execute_call does so with the call of its current
      dispatch, for the first time. */
  lemma {:induction false} ExecutesItsCall(events: seq<Event>, t: nat)
    requires t < THREADS && Run(events).threads[t].pc.Begin?
    ensures var s, s' := Run(events), Next(Run(events), Worker(t));
            var k := s.threads[t].owed;
            && k in s.sent && s.sent[k] == t && k !in s.begun
            && s'.begun == s.begun + [k] && s'.threads[t].arg == k
  {
    RunInv(events);
    assert CallOk(Run(events), t);
  }

  /** From the moment a call is counted in until `done` is set again, no step of
      any thread overwrites its slot. */
  lemma {:induction false} SlotIsStable(events: seq<Event>, e: Event, t: nat)
    requires t < THREADS
    requires Counted(Run(events), t) || Run(events).threads[t].pc.Check? || Run(events).threads[t].pc.Store?
    ensures Next(Run(events), e).threads[t].call == Run(events).threads[t].call
  {
    var s := Run(events);
    RunInv(events);
    assert EventsOk(s, t);
    hide Run, Inv, CallOk;
    match e
    case Dispatcher(timeout) => DispatcherSlot(s, timeout, t);
    case Worker(u) => if u < THREADS { WorkerSlot(s, u, t); }
  }

  lemma {:induction false} WorkerSlot(s: State, u: nat, t: nat)
    requires |s.threads| == THREADS && u < THREADS && t < THREADS
    ensures WorkerStep(s, u).threads[t].call == s.threads[t].call
  {
    WorkerTouches(s, u);
    hide WorkerStep;
  }

  lemma {:induction false} DispatcherSlot(s: State, timeout: bool, t: nat)
    requires |s.threads| == THREADS && s.thread < THREADS && t < THREADS && EventsOk(s, t)
    requires Counted(s, t) || s.threads[t].pc.Check? || s.threads[t].pc.Store?
    ensures DispatcherStep(s, timeout).threads[t].call == s.threads[t].call
  {
    DispatcherTouches(s, timeout);
    hide DispatcherStep;
  }

  /** If the final loop read zero, all fifteen calls have returned. */
  lemma {:induction false} ZeroAtTheEnd(events: seq<Event>)
    ensures Run(events).sawZero ==> forall k :: 0 <= k < CALLS ==> k in Run(events).returned
  {
    var s := Run(events);
    RunInv(events);
    if s.sawZero {
      forall k | 0 <= k < CALLS ensures k in s.returned {
        assert k in s.sent;
      }
    }
  }

  /** Once the dispatcher reaches the final loop all calls have been sent. */
  lemma {:induction false} AllSent(events: seq<Event>)
    requires Run(events).d.Final? || Run(events).d.Exit?
    ensures forall k :: k in Run(events).sent <==> 0 <= k < CALLS
  {
    RunInv(events);
  }

  // ---- no state before the exit is a dead end ----

  /** How far a worker is from waiting for its next call. */
  function Left(th: Thread): nat {
    match th.pc
    case Off => 0
    case Wait => if th.ready then 7 else 0
    case Reset => 6
    case Begin => 5
    case End => 4
    case Dec => 3
    case Check => 2
    case Store => 1
  }

  function Work(threads: seq<Thread>): nat {
    if threads == [] then 0 else Left(threads[0]) + Work(threads[1..])
  }

  lemma {:induction false} WorkUpdate(threads: seq<Thread>, t: nat, th: Thread)
    requires t < |threads|
    ensures Work(threads[t := th]) == Work(threads) - Left(threads[t]) + Left(th)
  {
    hide Left;
    var after := threads[t := th];
    if t == 0 {
      assert after[1..] == threads[1..];
    } else {
      assert after[1..] == threads[1..][t - 1 := th];
      WorkUpdate(threads[1..], t - 1, th);
    }
  }

  /** How far the dispatcher is from the end of the inner loop's body. */
  function Rank(d: DispatcherPc): nat {
    match d
    case Look => 13
    case InitReady => 12
    case InitDone => 11
    case FirstCheck => 10
    case FirstStore => 9
    case Start => 8
    case IsSet => 7
    case ResetDone => 6
    case SetCall => 5
    case Inc => 4
    case ReadyCheck => 3
    case ReadyStore => 2
    case TimedWait => 1
    case Final => 0
    case Exit => 0
  }

  /** Before the final loop each step of the dispatcher gets it further, if a wait
      for `done` may time out. */
  lemma {:induction false} DispatcherAdvances(s: State)
    requires Inv(s) && !s.d.Final? && !s.d.Exit?
    ensures var s' := DispatcherStep(s, true);
            && !s'.d.Exit? && s'.call <= CALLS && s'.thread <= THREADS
            && (s'.call > s.call || (s'.call == s.call &&
                  (s'.thread > s.thread || (s'.thread == s.thread && Rank(s'.d) < Rank(s.d)))))
  {
    NeverFails(s, true);
    if s.d.IsSet? && !s.threads[s.thread].done { SearchGoesOn(s); }
    hide Inv, EventsOk, CallOk, HistoryOk, CreationOk;
  }

  /** In the final loop a worker that is counted can move. */
  lemma {:induction false} WorkerAdvances(s: State, t: nat)
    requires Inv(s) && s.d.Final? && t < THREADS && Counted(s, t)
    ensures var s' := WorkerStep(s, t);
            s'.d == s.d && s'.call == s.call && s'.thread == s.thread && Work(s'.threads) < Work(s.threads)
  {
    WorkerTouches(s, t);
    WorkUpdate(s.threads, t, WorkerThread(s.threads[t]));
  }

  /** Running on from a state. */
  function After(s: State, events: seq<Event>): (r: State)
    requires |s.threads| == THREADS && s.thread < THREADS
    ensures |r.threads| == THREADS && r.thread < THREADS
  {
    if events == [] then s
    else Next(After(s, events[..|events| - 1]), events[|events| - 1])
  }

  lemma {:induction false} AfterFirst(s: State, e: Event, events: seq<Event>)
    requires |s.threads| == THREADS && s.thread < THREADS
    ensures After(s, [e] + events) == After(Next(s, e), events)
    decreases |events|
  {
    hide Next;
    if events == [] {
      assert ([e] + events)[..0] == [];
      assert After(s, []) == s;
    } else {
      var n := |events| - 1;
      AfterFirst(s, e, events[..n]);
      assert ([e] + events)[..n + 1] == [e] + events[..n];
    }
  }

  lemma {:induction false} RunAfter(events: seq<Event>, more: seq<Event>)
    ensures Run(events + more) == After(Run(events), more)
    decreases |more|
  {
    hide Next;
    if more == [] {
      assert events + more == events;
    } else {
      var n := |more| - 1;
      RunAfter(events, more[..n]);
      assert (events + more)[..|events| + n] == events + more[..n];
    }
  }

  /** A schedule that leads to the exit with all calls returned. */
  lemma {:induction false} Finish(s: State) returns (more: seq<Event>)
    requires Inv(s) && !s.d.Exit?
    ensures After(s, more).sawZero
    decreases CALLS - s.call, THREADS - s.thread, Rank(s.d), Work(s.threads)
  {
    hide Inv, After, Work, Rank;
    var e, s' := ChooseStep(s);
    if s'.sawZero {
      more := [e];
      OneStep(s, e);
    } else {
      var rest := Finish(s');
      more := [e] + rest;
      AfterFirst(s, e, rest);
    }
  }

  lemma {:induction false} OneStep(s: State, e: Event)
    requires |s.threads| == THREADS && s.thread < THREADS
    ensures After(s, [e]) == Next(s, e)
  {
    assert [e][..0] == [];
  }

  /** A step that gets closer to the exit, or takes it. */
  lemma {:induction false} ChooseStep(s: State) returns (e: Event, s': State)
    requires Inv(s) && !s.d.Exit?
    ensures |s.threads| == THREADS && s.thread < THREADS && s' == Next(s, e) && Inv(s')
    ensures s.call <= CALLS
    ensures s'.sawZero || (!s'.d.Exit? && s'.call <= CALLS && s'.thread <= THREADS &&
              (s'.call > s.call || (s'.call == s.call &&
                (s'.thread > s.thread || (s'.thread == s.thread &&
                  (Rank(s'.d) < Rank(s.d) || (Rank(s'.d) == Rank(s.d) && Work(s'.threads) < Work(s.threads))))))))
  {
    if !s.d.Final? {
      e := Dispatcher(true);
      DispatcherAdvances(s);
      DispatcherInv(s, true);
    } else if s.running == 0 {
      e := Dispatcher(true);
      DispatcherInv(s, true);
    } else {
      var t := SomeBusy(s);
      e := Worker(t);
      WorkerAdvances(s, t);
      WorkerInv(s, t);
    }
    s' := Next(s, e);
    hide Inv, Work, Rank, WorkerStep;
  }

  lemma {:induction false} SomeBusy(s: State) returns (t: nat)
    requires Inv(s) && s.running != 0
    ensures t < THREADS && Counted(s, t)
  {
    assert Busy(s) != {};
    var u :| u in Busy(s);
    t := u;
  }

  /** No deadlock: from every reachable state in which the dispatcher has not left,
      some continuation lets it see that all fifteen calls have returned. */
  lemma {:induction false} ZeroIsReachable(events: seq<Event>)
    ensures !Run(events).d.Exit? ==> exists more: seq<Event> :: AllDone(Run(events + more))
  {
    hide Run;
    RunInv(events);
    if !Run(events).d.Exit? {
      var more := Finish(Run(events));
      RunAfter(events, more);
      ZeroAtTheEnd(events + more);
      assert AllDone(Run(events + more));
    }
  }

  ghost predicate AllDone(s: State) {
    s.sawZero && forall k :: 0 <= k < CALLS ==> k in s.returned
  }
}
