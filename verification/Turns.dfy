/** What the 50 ms wait for `done` buys in `execute_one`: without a time-out the
    calls run one at a time on thread 0; with time-outs they may all overlap. */
module Turns {
  import opened Handoff

  /** Neither the wait for `done` nor the final loop gives up. */
  ghost predicate NoTimeouts(events: seq<Event>) {
    forall i :: 0 <= i < |events| ==> events[i] != Dispatcher(true)
  }

  /** The call before s.call, if there is one, is over: thread 0 waits. */
  predicate Between(d: DispatcherPc) {
    d.Look? || d.IsSet? || d.Final? || d.Exit?
  }

  /** Calls are entered in order, and those before the current one have returned. */
  ghost predicate Ordered(s: State) {
    && (forall i :: 0 <= i < |s.begun| ==> s.begun[i] == i)
    && |s.begun| >= s.call
    && (forall k :: 0 <= k < s.call ==> k in s.returned)
  }

  ghost predicate OnlyFirst(s: State) {
    && |s.threads| == THREADS && s.thread == 0
    && (forall t :: 0 < t < THREADS ==> !s.threads[t].created)
    && (forall k :: k in s.sent ==> s.sent[k] == 0)
  }

  ghost predicate InTurn(s: State) {
    && Inv(s) && OnlyFirst(s) && Ordered(s)
    && (s.threads[0].created && Between(s.d) ==> s.threads[0].done)
    && (s.d.Exit? ==> s.sawZero)
  }

  /** While `done` is set no call is in flight. */
  lemma {:induction false} DoneMeansReturned(s: State)
    requires Inv(s) && OnlyFirst(s) && s.threads[0].done && !s.d.ReadyCheck? && !s.d.ReadyStore?
    ensures !Counted(s, 0) && s.running == 0
    ensures forall k :: k in s.sent ==> k in s.returned && k in s.begun
  {
    assert EventsOk(s, 0);
    forall t | 0 <= t < THREADS ensures !Counted(s, t) {
      assert EventsOk(s, t);
    }
    assert Busy(s) == {};
    hide EventsOk, CallOk, CreationOk, ProgressOk, Counted;
    forall k | k in s.sent ensures k in s.returned {
      assert s.sent[k] == 0 && !Pending(s, 0);
    }
  }

  /** At most thread 0 is counted. */
  lemma {:induction false} AtMostOne(s: State)
    requires Inv(s) && OnlyFirst(s)
    ensures s.running <= 1
  {
    forall t | 0 < t < THREADS ensures !Counted(s, t) {
      assert EventsOk(s, t);
    }
    hide EventsOk, CallOk, CreationOk, ProgressOk, HistoryOk, Counted;
    if 0 in Busy(s) {
      assert Busy(s) == {0};
    } else {
      assert Busy(s) == {};
    }
  }

  // ---- steps without a time-out ----

  lemma {:induction false} InPrefix(b: seq<int>, k: nat)
    requires forall i :: 0 <= i < |b| ==> b[i] == i
    ensures k in b <==> k < |b|
  {
    if k < |b| { assert b[k] == k; }
  }

  lemma {:induction false} WorkerOrdered(s: State)
    requires Inv(s) && OnlyFirst(s) && Ordered(s)
    ensures Ordered(WorkerStep(s, 0))
  {
    WorkerRecords(s, 0);
    assert EventsOk(s, 0) && CallOk(s, 0);
    var k := s.threads[0].owed;
    if s.threads[0].pc.Begin? {
      assert k in s.sent && k !in s.begun;
      assert k !in s.returned;
      assert k == s.call;
      InPrefix(s.begun, k);
    }
    hide WorkerStep, Inv, EventsOk, CallOk;
  }

  lemma {:induction false} WorkerInTurn(s: State, t: nat)
    requires InTurn(s) && t < THREADS
    ensures InTurn(WorkerStep(s, t))
  {
    assert EventsOk(s, t);
    if t > 0 {
      assert WorkerStep(s, t) == s;
    } else {
      WorkerInv(s, t);
      WorkerOrdered(s);
      WorkerKeeps(s);
    }
  }

  lemma {:induction false} WorkerKeeps(s: State)
    requires |s.threads| == THREADS && !(s.threads[0].pc.Check? && s.threads[0].done)
    ensures var s' := WorkerStep(s, 0);
            && s'.d == s.d && s'.sawZero == s.sawZero && s'.threads[0].created == s.threads[0].created
            && (s.threads[0].done ==> s'.threads[0].done)
            && forall t :: 0 < t < THREADS ==> s'.threads[t] == s.threads[t]
  {
    WorkerTouches(s, 0);
    WorkerPlace(s);
    hide WorkerStep;
  }

  lemma {:induction false} WorkerPlace(s: State)
    requires |s.threads| == THREADS && !(s.threads[0].pc.Check? && s.threads[0].done)
    ensures WorkerStep(s, 0).d == s.d && WorkerStep(s, 0).sawZero == s.sawZero
  {
  }

  lemma {:induction false} DispatcherFirst(s: State)
    requires OnlyFirst(s) && (s.d.IsSet? ==> s.threads[0].done)
    ensures OnlyFirst(DispatcherStep(s, false))
  {
    DispatcherTouches(s, false);
    DispatcherMoves(s);
    hide DispatcherStep;
  }

  lemma {:induction false} DispatcherMoves(s: State)
    requires |s.threads| == THREADS && s.thread == 0 && (s.d.IsSet? ==> s.threads[0].done)
    ensures var s' := DispatcherStep(s, false);
            && s'.thread == 0 && s'.begun == s.begun && s'.returned == s.returned
            && s'.sent == (if s.d.Inc? then s.sent[s.call := 0] else s.sent)
            && (s'.call == s.call || (s.d.TimedWait? && s.threads[0].done && s'.call == s.call + 1))
  {
    if s.d.TimedWait? { WaitMoves(s); } else { OthersMove(s); }
    hide DispatcherStep;
  }

  lemma {:induction false} WaitMoves(s: State)
    requires |s.threads| == THREADS && s.thread == 0 && s.d.TimedWait?
    ensures var s' := DispatcherStep(s, false);
            && s'.thread == 0 && s'.sent == s.sent
            && (s'.call == s.call || (s.threads[0].done && s'.call == s.call + 1))
  {
  }

  lemma {:induction false} OthersMove(s: State)
    requires |s.threads| == THREADS && s.thread == 0 && !s.d.TimedWait? && (s.d.IsSet? ==> s.threads[0].done)
    ensures var s' := DispatcherStep(s, false);
            && s'.thread == 0 && s'.call == s.call && s'.sent == (if s.d.Inc? then s.sent[s.call := 0] else s.sent)
  {
    hide NextThread, NextCall;
  }

  lemma {:induction false} DispatcherOrdered(s: State)
    requires InTurn(s) && (s.d.IsSet? ==> s.threads[0].done)
    ensures Ordered(DispatcherStep(s, false))
  {
    DispatcherMoves(s);
    hide DispatcherStep;
    if s.d.TimedWait? && s.threads[0].done {
      DoneMeansReturned(s);
      assert s.call in s.sent;
      InPrefix(s.begun, s.call);
    }
    hide HistoryOk, EventsOk, CallOk, CreationOk, Busy, Inv;
  }

  /** At the places between two calls `done` is set. */
  lemma {:induction false} DispatcherBetween(s: State)
    requires InTurn(s) && (s.d.IsSet? ==> s.threads[0].done) && (s.d.Final? ==> s.running == 0)
    requires s.d.Start? ==> s.threads[0].done
    requires s.d.FirstCheck? ==> !s.threads[0].done
    requires s.d.ReadyCheck? ==> !s.threads[0].ready
    ensures var s' := DispatcherStep(s, false);
            && (s'.threads[0].created && Between(s'.d) ==> s'.threads[0].done)
            && (s'.d.Exit? ==> s'.sawZero)
  {
    hide Inv, Ordered;
    if Early(s.d) { EarlyBetween(s); } else { LateBetween(s); }
    hide DispatcherStep;
  }

  lemma {:induction false} EarlyBetween(s: State)
    requires |s.threads| == THREADS && s.thread == 0 && Early(s.d)
    requires s.d.Look? && s.threads[0].created ==> s.threads[0].done
    requires s.d.Start? ==> s.threads[0].done
    requires s.d.FirstCheck? ==> !s.threads[0].done
    ensures var s' := DispatcherStep(s, false);
            !s'.d.Exit? && (Between(s'.d) ==> s'.threads[0].done)
  {
  }

  lemma {:induction false} LateBetween(s: State)
    requires |s.threads| == THREADS && s.thread == 0 && !Early(s.d) && (s.d.Exit? ==> s.sawZero)
    requires s.threads[0].created && Between(s.d) ==> s.threads[0].done
    requires (s.d.IsSet? ==> s.threads[0].done) && (s.d.Final? ==> s.running == 0)
    requires s.d.ReadyCheck? ==> !s.threads[0].ready
    ensures var s' := DispatcherStep(s, false);
            && (s'.threads[0].created && Between(s'.d) ==> s'.threads[0].done)
            && (s'.d.Exit? ==> s'.sawZero)
  {
  }

  lemma {:induction false} DispatcherInTurn(s: State)
    requires InTurn(s)
    ensures InTurn(DispatcherStep(s, false))
  {
    DispatcherInv(s, false);
    assert EventsOk(s, 0);
    assert !s.d.Look? ==> s.threads[0].created;
    if s.d.Final? { DoneMeansReturned(s); }
    DispatcherFirst(s);
    DispatcherOrdered(s);
    DispatcherBetween(s);
    hide Inv, EventsOk, CallOk, HistoryOk, Busy, Ordered, OnlyFirst, DispatcherStep;
  }

  // ---- runs without a time-out ----

  lemma {:induction false} TurnsKept(events: seq<Event>)
    requires NoTimeouts(events)
    ensures InTurn(Run(events))
  {
    if events == [] {
      InitInv();
    } else {
      var n := |events| - 1;
      var s, e := Run(events[..n]), events[n];
      TurnsKept(events[..n]);
      hide InTurn;
      match e
      case Dispatcher(timeout) => DispatcherInTurn(s);
      case Worker(t) => if t < THREADS { WorkerInTurn(s, t); }
    }
  }

  /** In a run without a time-out at most one call is in flight, every call goes to
      thread 0, no other thread is created, calls are entered in order, each after
      its predecessor has returned, and the dispatcher leaves only when all have. */
  lemma {:induction false} OneAtATime(events: seq<Event>)
    requires NoTimeouts(events)
    ensures var s := Run(events);
            && s.running <= 1 && |InFlight(s)| <= 1
            && (forall k :: k in s.sent ==> s.sent[k] == 0)
            && (forall t :: 0 < t < THREADS ==> !s.threads[t].created)
            && (forall i :: 0 <= i < |s.begun| ==> s.begun[i] == i)
            && (forall j, k :: j in s.sent && k in s.sent && j < k ==> j in s.returned)
            && (s.d.Exit? ==> AllDone(s))
  {
    var s := Run(events);
    TurnsKept(events);
    AtMostOne(s);
    RunningCounts(events);
    ZeroAtTheEnd(events);
    assert forall k :: k in s.sent ==> 0 <= k <= s.call;
    hide Run, EventsOk, CallOk, HistoryOk, CreationOk, Busy;
  }

  /** The step that gets such a run on: the dispatcher's, unless it waits for
      `done`; then that of thread 0. */
  lemma {:induction false} NextInTurn(s: State) returns (e: Event, s': State)
    requires InTurn(s) && !s.d.Exit?
    ensures e != Dispatcher(true) && s' == Next(s, e) && InTurn(s')
    ensures s.call <= CALLS && s'.call <= CALLS
    ensures s'.sawZero || (!s'.d.Exit? && (s'.call > s.call || (s'.call == s.call &&
              (Rank(s'.d) < Rank(s.d) || (s'.d == s.d && Left(s'.threads[0]) < Left(s.threads[0]))))))
  {
    if s.d.TimedWait? && !s.threads[0].done {
      e := Worker(0);
      WorkerInTurn(s, 0);
      WaitedFor(s);
    } else {
      e := Dispatcher(false);
      DispatcherInTurn(s);
      DispatcherGoesOn(s);
    }
    s' := Next(s, e);
    assert Inv(s');
    hide Inv, Ordered, OnlyFirst, WorkerStep, DispatcherStep, Left, Rank;
  }

  lemma {:induction false} WaitedFor(s: State)
    requires InTurn(s) && s.d.TimedWait? && !s.threads[0].done
    ensures var s' := WorkerStep(s, 0);
            s'.d == s.d && s'.call == s.call && Left(s'.threads[0]) < Left(s.threads[0])
  {
    assert EventsOk(s, 0) && s.threads[0].created;
    WorkerTouches(s, 0);
    WorkerPlace(s);
    hide Inv, WorkerStep;
  }

  lemma {:induction false} DispatcherGoesOn(s: State)
    requires InTurn(s) && !s.d.Exit? && (s.d.TimedWait? ==> s.threads[0].done)
    ensures var s' := DispatcherStep(s, false);
            s'.sawZero || (!s'.d.Exit? && (s'.call > s.call || (s'.call == s.call && Rank(s'.d) < Rank(s.d))))
  {
    NeverFails(s, false);
    if s.d.Final? { DoneMeansReturned(s); }
    assert !s.d.Look? ==> s.threads[0].created;
    hide Inv, Ordered;
  }

  lemma {:induction false} FinishInTurn(s: State) returns (more: seq<Event>)
    requires InTurn(s) && !s.d.Exit?
    ensures NoTimeouts(more) && After(s, more).sawZero
    decreases CALLS - s.call, Rank(s.d), Left(s.threads[0])
  {
    assert |s.threads| == THREADS && s.thread == 0;
    hide InTurn, After, Left, Rank, Next;
    var e, s' := NextInTurn(s);
    if s'.sawZero {
      more := [e];
      OneStep(s, e);
    } else {
      var rest := FinishInTurn(s');
      more := [e] + rest;
      AfterFirst(s, e, rest);
    }
  }

  /** Waiting suffices: from every state that a run without a time-out reaches, if
      the dispatcher has not left, some continuation without a time-out lets it see
      that all fifteen calls have returned. */
  lemma {:induction false} DoneWithoutTimeout(events: seq<Event>)
    requires NoTimeouts(events)
    ensures !Run(events).d.Exit? ==> exists more: seq<Event> :: NoTimeouts(more) && AllDone(Run(events + more))
  {
    hide Run;
    TurnsKept(events);
    if !Run(events).d.Exit? {
      var more := FinishInTurn(Run(events));
      RunAfter(events, more);
      ZeroAtTheEnd(events + more);
      assert AllDone(Run(events + more));
    }
  }

  // ---- every fair run without a time-out ----

  /** A bound on the steps that are left. */
  function Measure(s: State): int
    requires |s.threads| == THREADS
  {
    (CALLS - s.call) * 112 + 8 * Rank(s.d) + Left(s.threads[0]) + if s.d.Exit? then 0 else 1
  }

  /** Each step of thread 0 changes nothing or takes it closer to its wait. */
  lemma {:induction false} WorkerFalls(s: State)
    requires |s.threads| == THREADS && !(s.threads[0].pc.Check? && s.threads[0].done)
    requires s.threads[0].pc.Store? ==> !s.threads[0].ready
    ensures var s' := WorkerStep(s, 0);
            s' == s || (s'.d == s.d && s'.call == s.call && Left(s'.threads[0]) < Left(s.threads[0]))
  {
    WorkerStays(s);
    WorkerTouches(s, 0);
    WorkerPlace(s);
    hide WorkerStep;
  }

  lemma {:induction false} WorkerStays(s: State)
    requires |s.threads| == THREADS
    ensures s.threads[0].pc.Off? || (s.threads[0].pc.Wait? && !s.threads[0].ready) ==> WorkerStep(s, 0) == s
  {
  }

  lemma {:induction false} LeftBound(th: Thread)
    ensures 0 <= Left(th) <= 7
  {
  }

  lemma {:induction false} RankBound(d: DispatcherPc)
    ensures 0 <= Rank(d) <= 13 && (d.TimedWait? ==> Rank(d) == 1) && (d.Final? || d.Exit? ==> Rank(d) == 0)
  {
  }

  lemma {:induction false} DispatcherFalls(s: State)
    requires InTurn(s)
    ensures var s' := DispatcherStep(s, false);
            |s'.threads| == THREADS && (s' == s || Measure(s') < Measure(s))
    ensures !s.d.Exit? && (s.d.TimedWait? ==> s.threads[0].done) ==> Measure(DispatcherStep(s, false)) < Measure(s)
  {
    var s' := DispatcherStep(s, false);
    LeftBound(s.threads[0]);
    LeftBound(s'.threads[0]);
    RankBound(s.d);
    RankBound(s'.d);
    if s.d.Exit? || (s.d.TimedWait? && !s.threads[0].done) {
      assert s' == s;
    } else {
      DispatcherGoesOn(s);
      DispatcherMoves(s);
      DispatcherRanks(s);
      hide Inv, Ordered, OnlyFirst, DispatcherStep, Rank, Left;
    }
  }

  /** What the ranks of one step are. */
  lemma {:induction false} DispatcherRanks(s: State)
    requires InTurn(s) && !s.d.Exit? && (s.d.TimedWait? ==> s.threads[0].done)
    ensures var s' := DispatcherStep(s, false);
            && (s'.d.Exit? ==> s.d.Final?) && (s'.call > s.call ==> s.d.TimedWait?)
  {
    NeverFails(s, false);
    assert !s.d.Look? ==> s.threads[0].created;
    hide Inv, Ordered;
  }

  lemma {:induction false} StepFalls(s: State, e: Event)
    requires InTurn(s) && e != Dispatcher(true)
    ensures InTurn(Next(s, e)) && (Next(s, e) == s || Measure(Next(s, e)) < Measure(s))
    ensures s.d.Exit? ==> Next(s, e).d.Exit?
  {
    match e
    case Dispatcher(timeout) =>
      DispatcherInTurn(s);
      DispatcherFalls(s);
    case Worker(t) =>
      if t < THREADS {
        WorkerInTurn(s, t);
        assert EventsOk(s, t);
        if t == 0 { WorkerFalls(s); } else { assert WorkerStep(s, t) == s; }
      }
  }

  /** Before the exit the dispatcher or thread 0 can move. */
  lemma {:induction false} OneCanMove(s: State)
    requires InTurn(s) && !s.d.Exit?
    ensures Next(s, Dispatcher(false)) != s || Next(s, Worker(0)) != s
  {
    if s.d.TimedWait? && !s.threads[0].done {
      WaitedFor(s);
    } else {
      DispatcherFalls(s);
    }
    hide Inv, Ordered, OnlyFirst, DispatcherStep, WorkerStep, Rank;
  }

  /** A stretch of a schedule in which neither of the two is left out. */
  ghost predicate Round(events: seq<Event>) {
    NoTimeouts(events) && Dispatcher(false) in events && Worker(0) in events
  }

  ghost predicate Rounds(blocks: seq<seq<Event>>) {
    forall i :: 0 <= i < |blocks| ==> Round(blocks[i])
  }

  function Flat(blocks: seq<seq<Event>>): seq<Event> {
    if blocks == [] then [] else Flat(blocks[..|blocks| - 1]) + blocks[|blocks| - 1]
  }

  /** A stretch that does not lower the measure changes nothing at any step. */
  lemma {:induction false} MeasureFalls(s: State, events: seq<Event>)
    requires InTurn(s) && NoTimeouts(events)
    ensures var r := After(s, events);
            && InTurn(r) && Measure(r) <= Measure(s) && (s.d.Exit? ==> r.d.Exit?)
            && (Measure(r) == Measure(s) ==> r == s && forall e :: e in events ==> Next(s, e) == s)
  {
    assert |s.threads| == THREADS && s.thread == 0;
    hide InTurn, Measure, Next;
    if events != [] {
      var n := |events| - 1;
      MeasureFalls(s, events[..n]);
      StepFalls(After(s, events[..n]), events[n]);
      assert events == events[..n] + [events[n]];
    }
  }

  lemma {:induction false} RoundFalls(s: State, events: seq<Event>)
    requires InTurn(s) && Round(events)
    ensures var r := After(s, events);
            InTurn(r) && (s.d.Exit? ==> r.d.Exit?) && (!s.d.Exit? ==> Measure(r) < Measure(s))
  {
    MeasureFalls(s, events);
    if !s.d.Exit? { OneCanMove(s); }
    hide InTurn, After, Measure, Next;
  }

  lemma {:induction false} RoundsFall(blocks: seq<seq<Event>>)
    requires Rounds(blocks)
    ensures var s := Run(Flat(blocks));
            InTurn(s) && (s.d.Exit? || Measure(s) <= Measure(Init()) - |blocks|)
  {
    hide InTurn, Measure, Round, After, Next, Init;
    if blocks == [] {
      TurnsKept([]);
      assert Run([]) == Init();
    } else {
      var n := |blocks| - 1;
      RoundsFall(blocks[..n]);
      RunAfter(Flat(blocks[..n]), blocks[n]);
      RoundFalls(Run(Flat(blocks[..n])), blocks[n]);
    }
  }

  const ENOUGH: nat := 1785

  lemma {:induction false} MeasureBounds(s: State)
    requires InTurn(s)
    ensures Measure(Init()) == ENOUGH && (!s.d.Exit? ==> Measure(s) > 0)
  {
  }

  /** Every fair run without a time-out ends: however the steps are interleaved, once
      the dispatcher and thread 0 have both been scheduled often enough, all fifteen
      calls have returned and the dispatcher has seen it. */
  lemma {:induction false} FairRunsEnd(blocks: seq<seq<Event>>)
    requires Rounds(blocks) && |blocks| >= ENOUGH
    ensures AllDone(Run(Flat(blocks)))
  {
    var s := Run(Flat(blocks));
    RoundsFall(blocks);
    MeasureBounds(s);
    ZeroAtTheEnd(Flat(blocks));
    assert s.d.Exit? ==> s.sawZero;
    hide InTurn, Measure, Run, Flat;
  }

  // ---- a run in which every wait times out ----

  function Waiting(k: nat): Thread {
    Thread(true, k, true, false, Wait, k, 0)
  }

  /** Calls 0 .. c - 1 are in flight, each on the thread of its number; call c is
      looking for a thread and has come to thread t. */
  function Spread(c: nat, t: nat): (s: State)
    ensures |s.threads| == THREADS && s.thread == t
  {
    State(seq(THREADS, (u: nat) => if u < c then Waiting(u) else Thread(false, 0, false, false, Off, 0, 0)),
          c, Look, c, t, Same(c), [], {}, false, false, false)
  }

  function Same(c: nat): (m: map<int, int>)
    ensures forall k :: k in m <==> 0 <= k < c
    ensures forall k :: k in m ==> m[k] == k
  {
    if c == 0 then map[] else Same(c - 1)[c - 1 := c - 1]
  }

  function TimedOut(s: State): (r: State)
    requires |s.threads| == THREADS && s.thread < THREADS
    ensures |r.threads| == THREADS && r.thread < THREADS
  {
    DispatcherStep(s, true)
  }

  lemma {:induction false} RunTimesOut(events: seq<Event>)
    ensures Run(events + [Dispatcher(true)]) == TimedOut(Run(events))
  {
    assert (events + [Dispatcher(true)])[..|events|] == events;
    hide DispatcherStep;
  }

  ghost function Times(s: State, n: nat): (r: State)
    requires |s.threads| == THREADS && s.thread < THREADS
    ensures |r.threads| == THREADS && r.thread < THREADS
  {
    if n == 0 then s else TimedOut(Times(s, n - 1))
  }

  lemma {:induction false} RunTimes(events: seq<Event>, n: nat) returns (events': seq<Event>)
    ensures Run(events') == Times(Run(events), n)
  {
    hide TimedOut, Run;
    if n == 0 {
      events' := events;
    } else {
      var before := RunTimes(events, n - 1);
      RunTimesOut(before);
      events' := before + [Dispatcher(true)];
    }
  }

  lemma {:induction false} TimesAdd(s: State, m: nat, n: nat)
    requires |s.threads| == THREADS && s.thread < THREADS
    ensures Times(Times(s, m), n) == Times(s, m + n)
  {
    hide TimedOut;
    if n > 0 { TimesAdd(s, m, n - 1); }
  }

  lemma {:induction false} TimesNone(s: State)
    requires |s.threads| == THREADS && s.thread < THREADS
    ensures Times(s, 0) == s
  {
  }

  lemma {:induction false} TimesNext(s: State, n: nat)
    requires |s.threads| == THREADS && s.thread < THREADS
    ensures Times(s, n + 1) == TimedOut(Times(s, n))
  {
    hide TimedOut;
  }

  lemma {:induction false} TimesFew(s: State)
    requires |s.threads| == THREADS && s.thread < THREADS
    ensures Times(s, 2) == TimedOut(TimedOut(s)) && Times(s, 3) == TimedOut(TimedOut(TimedOut(s)))
    ensures Times(Times(s, 3), 3) == Times(s, 6)
  {
    hide TimedOut;
    assert Times(s, 1) == TimedOut(Times(s, 0));
    TimesAdd(s, 3, 3);
  }

  lemma {:induction false} LookOn(c: nat, t: nat)
    requires t < c < CALLS
    ensures Times(Spread(c, t), 2) == Spread(c, t + 1)
  {
    TimesFew(Spread(c, t));
    hide Times;
  }

  /** Creating a thread. */
  lemma {:induction false} CreateThread(s: State)
    requires |s.threads| == THREADS && s.thread < THREADS && s.d.Look? && !s.threads[s.thread].created
    ensures TimedOut(TimedOut(TimedOut(s)))
            == WithThread(s, s.thread, s.threads[s.thread].(created := true, ready := false, done := false)).(d := FirstCheck)
  {
    var t, th := s.thread, s.threads[s.thread];
    var s1 := TimedOut(s);
    assert s1 == WithThread(s, t, th.(created := true)).(d := InitReady);
    var s2 := TimedOut(s1);
    assert s2 == WithThread(s, t, th.(created := true, ready := false)).(d := InitDone);
  }

  /** Setting its event and starting it. */
  lemma {:induction false} StartThread(s: State)
    requires |s.threads| == THREADS && s.thread < THREADS && s.d.FirstCheck? && !s.threads[s.thread].done
    ensures TimedOut(TimedOut(TimedOut(s)))
            == WithThread(s, s.thread, s.threads[s.thread].(done := true, pc := Wait)).(d := IsSet)
  {
    var t, th := s.thread, s.threads[s.thread];
    var s1 := TimedOut(s);
    assert s1 == s.(d := FirstStore);
    var s2 := TimedOut(s1);
    assert s2 == WithThread(s, t, th.(done := true)).(d := Start);
  }

  /** Claiming it, and the call slot. */
  lemma {:induction false} ClaimThread(s: State)
    requires |s.threads| == THREADS && s.thread < THREADS && s.d.IsSet? && s.threads[s.thread].done
    ensures TimedOut(TimedOut(TimedOut(s)))
            == WithThread(s, s.thread, s.threads[s.thread].(done := false, call := s.call, owed := s.call)).(d := Inc)
  {
    var t, th := s.thread, s.threads[s.thread];
    var s1 := TimedOut(s);
    assert s1 == s.(d := ResetDone);
    var s2 := TimedOut(s1);
    assert s2 == WithThread(s, t, th.(done := false)).(d := SetCall);
  }

  /** Counting the call in and making the thread ready, up to the wait. */
  lemma {:induction false} CountIn(s: State)
    requires |s.threads| == THREADS && s.thread < THREADS && s.d.Inc? && !s.threads[s.thread].ready
    ensures TimedOut(TimedOut(TimedOut(s)))
            == WithThread(s, s.thread, s.threads[s.thread].(ready := true))
               .(running := s.running + 1, sent := s.sent[s.call := s.thread], d := TimedWait)
  {
    var s1 := TimedOut(s);
    assert s1 == s.(running := s.running + 1, sent := s.sent[s.call := s.thread], d := ReadyCheck);
    var s2 := TimedOut(s1);
    assert s2 == s1.(d := ReadyStore);
  }

  /** Call c passes the threads that are still at work. */
  lemma {:induction false} SearchOn(c: nat, t: nat)
    requires t <= c < CALLS
    ensures Times(Spread(c, 0), 2 * t) == Spread(c, t)
  {
    hide Spread, TimedOut, Times;
    if t == 0 {
      TimesNone(Spread(c, 0));
    } else {
      SearchOn(c, t - 1);
      LookOn(c, t - 1);
      TimesAdd(Spread(c, 0), 2 * (t - 1), 2);
    }
  }

  /** Call c on the thread th, with the dispatcher at d. */
  function Stage(c: nat, th: Thread, d: DispatcherPc): (s: State)
    requires c < CALLS
    ensures |s.threads| == THREADS && s.thread == c
  {
    WithThread(Spread(c, c), c, th).(d := d)
  }

  lemma {:induction false} StageAgain(c: nat, th: Thread, th': Thread, d: DispatcherPc)
    requires c < CALLS
    ensures WithThread(Stage(c, th, d), c, th') == Stage(c, th', d)
  {
  }

  lemma {:induction false} StagesSetUp(c: nat)
    requires c < CALLS
    ensures Times(Spread(c, c), 6) == Stage(c, Thread(true, 0, false, true, Wait, 0, 0), IsSet)
  {
    var a, b := Thread(true, 0, false, false, Off, 0, 0), Thread(true, 0, false, true, Wait, 0, 0);
    CreateThread(Spread(c, c));
    StartThread(Stage(c, a, FirstCheck));
    StageAgain(c, a, b, FirstCheck);
    TimesFew(Spread(c, c));
    TimesFew(Stage(c, a, FirstCheck));
    hide TimedOut, Times, Spread;
  }

  lemma {:induction false} StagesClaim(c: nat)
    requires c < CALLS
    ensures Times(Stage(c, Thread(true, 0, false, true, Wait, 0, 0), IsSet), 6)
            == Stage(c, Waiting(c), TimedWait).(running := c + 1, sent := Same(c + 1))
  {
    var b, e := Thread(true, 0, false, true, Wait, 0, 0), Thread(true, c, false, false, Wait, c, 0);
    ClaimThread(Stage(c, b, IsSet));
    StageAgain(c, b, e, IsSet);
    CountIn(Stage(c, e, Inc));
    StageAgain(c, e, Waiting(c), Inc);
    TimesFew(Stage(c, b, IsSet));
    TimesFew(Stage(c, e, Inc));
    hide TimedOut, Times;
  }

  /** Call c is dispatched and its wait times out. */
  lemma {:induction false} Dispatched(c: nat)
    requires c < CALLS
    ensures Times(Spread(c, 0), 2 * c + 13) ==
            if c + 1 < CALLS then Spread(c + 1, 0) else Spread(c + 1, c).(d := Final, call := c)
  {
    hide Times, TimedOut, Spread, Stage, Same, Waiting;
    SearchOn(c, c);
    StagesSetUp(c);
    StagesClaim(c);
    TimesAdd(Spread(c, 0), 2 * c, 6);
    TimesAdd(Spread(c, 0), 2 * c + 6, 6);
    TimesNext(Spread(c, 0), 2 * c + 12);
    NextSpread(c, Times(Spread(c, 0), 2 * c + 12));
  }

  lemma {:induction false} NextSpread(c: nat, s: State)
    requires c < CALLS && s == Stage(c, Waiting(c), TimedWait).(running := c + 1, sent := Same(c + 1))
    ensures TimedOut(s) == if c + 1 < CALLS then Spread(c + 1, 0) else Spread(c + 1, c).(d := Final, call := c)
  {
    assert s.threads == Spread(c + 1, 0).threads;
  }

  lemma {:induction false} NobodyYet()
    ensures Run([]) == Spread(0, 0)
  {
  }

  lemma {:induction false} SpreadOut(c: nat) returns (events: seq<Event>)
    requires c < CALLS
    ensures Run(events) == Spread(c, 0)
  {
    hide Run, Times, TimedOut, Spread;
    if c == 0 {
      events := [];
      NobodyYet();
    } else {
      var before := SpreadOut(c - 1);
      events := RunTimes(before, 2 * (c - 1) + 13);
      Dispatched(c - 1);
    }
  }

  /** If every wait times out the dispatcher leaves while all fifteen calls are in
      flight, each on a thread of its own. */
  lemma {:induction false} AllAtOnce()
    ensures exists events: seq<Event> :: AllInFlight(Run(events))
  {
    hide Run, Times, TimedOut, Spread, AllInFlight;
    var last := CALLS - 1;
    var before := SpreadOut(last);
    var all := RunTimes(before, 2 * last + 13);
    Dispatched(last);
    RunTimesOut(all);
    LeavesThem();
    assert AllInFlight(Run(all + [Dispatcher(true)]));
  }

  lemma {:induction false} LeavesThem()
    ensures AllInFlight(TimedOut(Spread(CALLS, CALLS - 1).(d := Final, call := CALLS - 1)))
  {
  }

  ghost predicate AllInFlight(s: State) {
    && s.d.Exit? && !s.sawZero && s.running == CALLS && s.begun == [] && s.returned == {}
    && forall k :: 0 <= k < CALLS ==> k in s.sent && s.sent[k] == k
  }
}
