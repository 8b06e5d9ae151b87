/**
 The thread server's hand-off: one dispatcher that scans the workers' busy flags one load at a time,
 and workers that spin on them, interleaved at single loads and stores. Clients are numbered in the
 order in which they are accepted.
 */
module HandOff {
  import opened Bytes

  /**
   The thread of a worker: not created yet, spinning, serving the client it read from its parameters, or
   leaving it: the client's line is in the log and the busy flag still up.
   */
  datatype Thread = Absent | Spinning | Serving(client: nat) | Leaving(client: nat)

  /** worker_params, and the thread that shares it with the dispatcher. */
  datatype Worker = Worker(busy: bool, client: nat, thread: Thread)

  /** The dispatcher's next action; `c` is the client in its hands. */
  datatype Dispatcher =
    | Accepting
    | Scanning(c: nat, i: nat)    // about to load list[i]->busy, or i == size
    | Writing(c: nat, i: nat)     // found worker i idle
    | Raising(c: nat, i: nat)     // has written list[i]->client
    | Pushed(c: nat)              // has pushed fresh parameters
    | Filling(c: nat)             // has set their busy flag
    | Starting(c: nat)            // has set their client
    | Counting                    // add_client has returned

  /** History of a dispatched client: the worker that holds it, and its line in the log once it has one. */
  datatype Place = With(worker: nat, line: Option<nat>) | Released(index: nat) {
    function Line(): Option<nat> {
      match this
      case With(_, line) => line
      case Released(index) => Some(index)
    }
  }

  datatype Entry = Entry(worker: nat, client: nat)

  datatype State = State(
    workers: seq<Worker>, dispatcher: Dispatcher, accepted: nat,
    totalServed: nat, maxConcurrent: nat,
    places: seq<Place>, log: seq<Entry>)

  datatype Step =
    | Accept
    | Scan(busy: bool, client: nat)   // the values malloc'ed memory holds, should the scan fail
    | WriteClient
    | RaiseBusy
    | FillBusy
    | FillClient
    | Start
    | Count
    | Observe(w: nat)
    | LogLine(w: nat)
    | Clear(w: nat)

  predicate Enabled(s: State, step: Step) {
    match step
    case Accept => s.dispatcher.Accepting?
    case Scan(_, _) => s.dispatcher.Scanning?
    case WriteClient => s.dispatcher.Writing? && s.dispatcher.i < |s.workers|
    case RaiseBusy => s.dispatcher.Raising? && s.dispatcher.i < |s.workers|
    case FillBusy => s.dispatcher.Pushed? && s.workers != []
    case FillClient => s.dispatcher.Filling? && s.workers != []
    case Start => s.dispatcher.Starting? && s.workers != []
    case Count => s.dispatcher.Counting?
    case Observe(w) => w < |s.workers| && s.workers[w].thread.Spinning? && s.workers[w].busy
    case LogLine(w) => w < |s.workers| && s.workers[w].thread.Serving?
    case Clear(w) => w < |s.workers| && s.workers[w].thread.Leaving?
  }

  function SetWorker(s: State, w: nat, v: Worker): State
    requires w < |s.workers|
  {
    s.(workers := s.workers[w := v])
  }

  function Last(s: State): nat
    requires s.workers != []
  {
    |s.workers| - 1
  }

  function Next(s: State, step: Step): State
    requires Enabled(s, step)
  {
    match step
    case Accept => s.(dispatcher := Scanning(s.accepted, 0), accepted := s.accepted + 1)
    case Scan(busy, client) =>
      var c, i := s.dispatcher.c, s.dispatcher.i;
      if i < |s.workers| then
        s.(dispatcher := if s.workers[i].busy then Scanning(c, i + 1) else Writing(c, i))
      else
        s.(workers := s.workers + [Worker(busy, client, Absent)], dispatcher := Pushed(c))
    case WriteClient =>
      var c, i := s.dispatcher.c, s.dispatcher.i;
      SetWorker(s, i, s.workers[i].(client := c)).(dispatcher := Raising(c, i))
    case RaiseBusy =>
      var i := s.dispatcher.i;
      SetWorker(s, i, s.workers[i].(busy := true)).(dispatcher := Counting, places := s.places + [With(i, None)])
    case FillBusy =>
      SetWorker(s, Last(s), s.workers[Last(s)].(busy := true)).(dispatcher := Filling(s.dispatcher.c))
    case FillClient =>
      SetWorker(s, Last(s), s.workers[Last(s)].(client := s.dispatcher.c)).(dispatcher := Starting(s.dispatcher.c))
    case Start =>
      SetWorker(s, Last(s), s.workers[Last(s)].(thread := Spinning)).(
      dispatcher := Counting, places := s.places + [With(Last(s), None)])
    case Count =>
      s.(dispatcher := Accepting, totalServed := s.totalServed + 1,
      maxConcurrent := if |s.workers| > s.maxConcurrent then |s.workers| else s.maxConcurrent)
    case Observe(w) =>
      SetWorker(s, w, s.workers[w].(thread := Serving(s.workers[w].client)))
    case LogLine(w) =>
      // log_msg; the line is made from params->client, which is read once more
      var c := s.workers[w].client;
      SetWorker(s, w, s.workers[w].(thread := Leaving(c))).(
      log := s.log + [Entry(w, c)],
      places := if c < |s.places| then s.places[c := With(w, Some(|s.log|))] else s.places)
    case Clear(w) =>
      var c := s.workers[w].thread.client;
      SetWorker(s, w, s.workers[w].(busy := false, thread := Spinning)).(
      places := if c < |s.places| && s.places[c].Line().Some? then s.places[c := Released(s.places[c].Line().value)]
                else s.places)
  }

  const WORKER_POOL_SIZE := 200

  predicate Init(s: State) {
    && |s.workers| == WORKER_POOL_SIZE && s.dispatcher == Accepting && s.accepted == 0
    && s.totalServed == s.maxConcurrent == 0 && s.places == [] && s.log == []
    && forall w <- s.workers :: !w.busy && w.thread == Spinning
  }

  // ---------------------------------------------------------------------------------------------
  // Invariant
  // ---------------------------------------------------------------------------------------------

  /** The worker's flag is up and its thread can see it. */
  predicate Engaged(v: Worker) {
    v.busy && !v.thread.Absent?
  }

  const ENGAGED: Worker -> nat := (v: Worker) => if Engaged(v) then 1 else 0
  const RELEASED: Place -> nat := (p: Place) => if p.Released? then 1 else 0
  const LINED: Place -> nat := (p: Place) => if p.Line().Some? then 1 else 0
  const ONE: Place -> nat := (p: Place) => 1

  /** How many workers hold a client. */
  function EngagedCount(workers: seq<Worker>): nat {
    Total(workers, ENGAGED)
  }

  /** How many clients their workers have let go of. */
  function Completed(places: seq<Place>): nat {
    Total(places, RELEASED)
  }

  predicate WorkerOk(s: State, w: nat)
    requires w < |s.workers|
  {
    var v := s.workers[w];
    && (v.thread.Serving? || v.thread.Leaving? ==> v.busy && v.client == v.thread.client)
    && (Engaged(v) ==>
          && v.client < |s.places| && s.places[v.client].With? && s.places[v.client].worker == w
          && (s.places[v.client].line.Some? <==> v.thread.Leaving?))
    && (v.thread.Absent? ==> w == Last(s) && (s.dispatcher.Pushed? || s.dispatcher.Filling? || s.dispatcher.Starting?))
  }

  predicate PlaceOk(s: State, c: nat)
    requires c < |s.places|
  {
    var p := s.places[c];
    && (p.With? ==> p.worker < |s.workers| && Engaged(s.workers[p.worker]) && s.workers[p.worker].client == c)
    && (p.Line().Some? ==> p.Line().value < |s.log| && s.log[p.Line().value].client == c)
  }

  predicate EntryOk(s: State, i: nat)
    requires i < |s.log|
  {
    s.log[i].client < |s.places| && s.places[s.log[i].client].Line() == Some(i)
  }

  /** The client in the dispatcher's hands, if any, is the next one; what it is about to write is nobody's. */
  predicate DispatcherOk(s: State) {
    match s.dispatcher
    case Accepting => |s.places| == s.accepted == s.totalServed
    case Counting => |s.places| == s.accepted == s.totalServed + 1
    case Scanning(c, i) => InHand(s, c) && i <= |s.workers|
    case Writing(c, i) => InHand(s, c) && Idle(s, i)
    case Raising(c, i) => InHand(s, c) && Idle(s, i) && s.workers[i].client == c
    case Pushed(c) => InHand(s, c) && LastAbsent(s)
    case Filling(c) => InHand(s, c) && LastAbsent(s) && s.workers[Last(s)].busy
    case Starting(c) => InHand(s, c) && LastAbsent(s) && s.workers[Last(s)].busy && s.workers[Last(s)].client == c
  }

  /** The dispatcher holds the client it has accepted last, and nobody else does. */
  predicate InHand(s: State, c: nat) {
    c == |s.places| == s.totalServed && s.accepted == c + 1
  }

  predicate Idle(s: State, i: nat) {
    i < |s.workers| && !s.workers[i].busy && s.workers[i].thread.Spinning?
  }

  predicate LastAbsent(s: State) {
    s.workers != [] && s.workers[Last(s)].thread.Absent?
  }

  /** Fresh parameters have been pushed, or the counters are about to be updated. */
  predicate Growing(s: State) {
    s.dispatcher.Pushed? || s.dispatcher.Filling? || s.dispatcher.Starting? || s.dispatcher.Counting?
  }

  predicate CountsOk(s: State) {
    && EngagedCount(s.workers) + Completed(s.places) == |s.places|
    && |s.log| == Total(s.places, LINED)
    && s.maxConcurrent <= |s.workers|
    && (s.totalServed == 0 ==> s.maxConcurrent == 0)
    && (0 < s.totalServed && !Growing(s) ==> s.maxConcurrent == |s.workers|)
  }

  predicate Inv(s: State) {
    && DispatcherOk(s) && CountsOk(s)
    && (forall w | 0 <= w < |s.workers| :: WorkerOk(s, w))
    && (forall c | 0 <= c < |s.places| :: PlaceOk(s, c))
    && (forall i | 0 <= i < |s.log| :: EntryOk(s, i))
  }

  lemma {:induction false} CountBound(workers: seq<Worker>)
    ensures EngagedCount(workers) <= |workers|
  {
    if workers == [] {
      assert EngagedCount(workers) == 0;
    } else {
      CountBound(workers[1..]);
    }
  }

  lemma {:induction false} CountNone(workers: seq<Worker>)
    requires forall w | 0 <= w < |workers| :: !Engaged(workers[w])
    ensures EngagedCount(workers) == 0
  {
    if workers == [] {
      assert EngagedCount(workers) == 0;
    } else {
      CountNone(workers[1..]);
    }
  }

  /** Lines in the log: one for every client that has been let go of, and for some that are still held. */
  lemma LinesBounds(places: seq<Place>)
    ensures Completed(places) <= Total(places, LINED) <= |places|
  {
    TotalBounds(places, RELEASED, LINED);
    TotalBounds(places, LINED, ONE);
    TotalOfOnes(places, ONE);
  }

  lemma InvInit(s: State)
    requires Init(s)
    ensures Inv(s)
  {
    assert forall w | 0 <= w < |s.workers| :: s.workers[w] in s.workers;
    CountNone(s.workers);
  }

  /** A step that changes worker w only and hands nothing over. */
  lemma InvWorker(s: State, t: State, w: nat)
    requires Inv(s) && w < |s.workers| && w < |t.workers| && t.workers == s.workers[w := t.workers[w]]
    requires t.places == s.places && t.log == s.log && t.totalServed == s.totalServed
    requires t.maxConcurrent == s.maxConcurrent
    requires DispatcherOk(t) && WorkerOk(t, w) && Engaged(t.workers[w]) == Engaged(s.workers[w])
    requires Engaged(s.workers[w]) ==> t.workers[w].client == s.workers[w].client
    requires t.dispatcher == s.dispatcher || t.dispatcher.Raising? || t.dispatcher.Filling? || t.dispatcher.Starting?
    requires t.dispatcher.Raising? ==> s.dispatcher.Writing? || s.dispatcher == t.dispatcher
    requires t.dispatcher != s.dispatcher && (t.dispatcher.Filling? || t.dispatcher.Starting?) ==> w == Last(s)
    ensures Inv(t)
  {
    TotalUpdate(s.workers, w, t.workers[w], ENGAGED);
    forall v | 0 <= v < |t.workers| ensures WorkerOk(t, v) {
      assert WorkerOk(s, v);
    }
    forall c | 0 <= c < |t.places| ensures PlaceOk(t, c) {
      assert PlaceOk(s, c);
    }
    forall i | 0 <= i < |t.log| ensures EntryOk(t, i) {
      assert EntryOk(s, i);
    }
  }

  lemma InvScan(s: State, busy: bool, client: nat)
    requires Inv(s) && Enabled(s, Scan(busy, client))
    ensures Inv(Next(s, Scan(busy, client)))
  {
    var t := Next(s, Scan(busy, client));
    if s.dispatcher.i == |s.workers| { TotalPush(s.workers, t.workers[|s.workers|], ENGAGED); }
    assert s.dispatcher.i < |s.workers| ==> WorkerOk(s, s.dispatcher.i);
    forall w | 0 <= w < |t.workers| ensures WorkerOk(t, w) {
      if w < |s.workers| { assert WorkerOk(s, w); }
    }
    forall c | 0 <= c < |t.places| ensures PlaceOk(t, c) {
      assert PlaceOk(s, c);
    }
    forall i | 0 <= i < |t.log| ensures EntryOk(t, i) {
      assert EntryOk(s, i);
    }
  }

  /** The busy store of the dispatcher, or the creation of the thread, hands the client over to worker w. */
  lemma InvHandOver(s: State, t: State, w: nat)
    requires Inv(s) && w < |s.workers| && w < |t.workers| && t.workers == s.workers[w := t.workers[w]]
    requires t.places == s.places + [With(w, None)] && t.log == s.log
    requires t.totalServed == s.totalServed && t.maxConcurrent == s.maxConcurrent && t.accepted == s.accepted
    requires t.dispatcher == Counting && s.accepted == |s.places| + 1 == s.totalServed + 1
    requires !Engaged(s.workers[w]) && Engaged(t.workers[w]) && t.workers[w].client == |s.places|
    requires t.workers[w].thread.Spinning?
    requires forall v | 0 <= v < |s.workers| && v != w :: !s.workers[v].thread.Absent?
    ensures Inv(t)
  {
    TotalUpdate(s.workers, w, t.workers[w], ENGAGED);
    TotalPush(s.places, With(w, None), RELEASED);
    TotalPush(s.places, With(w, None), LINED);
    forall v | 0 <= v < |t.workers| ensures WorkerOk(t, v) {
      if v != w { assert WorkerOk(s, v); }
    }
    forall c | 0 <= c < |t.places| ensures PlaceOk(t, c) {
      if c < |s.places| { assert PlaceOk(s, c); }
    }
    forall i | 0 <= i < |t.log| ensures EntryOk(t, i) {
      assert EntryOk(s, i);
    }
  }

  /** The worker that writes a line, or clears its flag, and its client. */
  lemma ReleaseFacts(s: State, step: Step)
    requires Inv(s) && Enabled(s, step) && (step.LogLine? || step.Clear?)
    ensures var t, w := Next(s, step), step.w;
            var c := s.workers[w].client;
            && Engaged(s.workers[w]) && s.workers[w].thread.client == c < |s.places|
            && s.places[c].With? && s.places[c].worker == w
            && (s.places[c].line.Some? <==> step.Clear?)
            && t.workers == s.workers[w := t.workers[w]] && t.places == s.places[c := t.places[c]]
            && t.workers[w].client == c && Engaged(t.workers[w]) == step.LogLine?
            && t.places[c].Line() == (if step.LogLine? then Some(|s.log|) else s.places[c].line)
            && t.places[c].With? == step.LogLine? && t.places[c].Released? == step.Clear?
            && t.log == s.log + if step.LogLine? then [Entry(w, c)] else []
  {
    assert WorkerOk(s, step.w);
  }

  lemma ReleaseDispatcher(s: State, step: Step)
    requires Inv(s) && Enabled(s, step) && (step.LogLine? || step.Clear?)
    ensures DispatcherOk(Next(s, step))
  {
    hide CountsOk, PlaceOk, EntryOk;
    ReleaseFacts(s, step);
  }

  lemma ReleaseCounts(s: State, step: Step)
    requires Inv(s) && Enabled(s, step) && (step.LogLine? || step.Clear?)
    ensures CountsOk(Next(s, step))
  {
    hide DispatcherOk, WorkerOk, PlaceOk, EntryOk;
    ReleaseFacts(s, step);
    var t, w, c := Next(s, step), step.w, s.workers[step.w].client;
    TotalUpdate(s.workers, w, t.workers[w], ENGAGED);
    TotalUpdate(s.places, c, t.places[c], RELEASED);
    TotalUpdate(s.places, c, t.places[c], LINED);
  }

  lemma ReleaseWorkers(s: State, step: Step, v: nat)
    requires Inv(s) && Enabled(s, step) && (step.LogLine? || step.Clear?) && v < |s.workers|
    ensures v < |Next(s, step).workers| && WorkerOk(Next(s, step), v)
  {
    ReleaseFacts(s, step);
    assert WorkerOk(s, v);
    hide CountsOk, DispatcherOk;
  }

  lemma ReleasePlaces(s: State, step: Step, d: nat)
    requires Inv(s) && Enabled(s, step) && (step.LogLine? || step.Clear?) && d < |s.places|
    ensures d < |Next(s, step).places| && PlaceOk(Next(s, step), d)
  {
    ReleaseFacts(s, step);
    assert PlaceOk(s, d) && PlaceOk(s, s.workers[step.w].client);
    hide CountsOk, DispatcherOk;
  }

  lemma ReleaseEntries(s: State, step: Step, i: nat)
    requires Inv(s) && Enabled(s, step) && (step.LogLine? || step.Clear?) && i < |Next(s, step).log|
    ensures EntryOk(Next(s, step), i)
  {
    ReleaseFacts(s, step);
    if i < |s.log| { assert EntryOk(s, i); }
    hide CountsOk, DispatcherOk;
  }

  /** A step of a worker that moves its client on: to a line in the log, or out of its hands. */
  lemma InvRelease(s: State, step: Step)
    requires Inv(s) && Enabled(s, step) && (step.LogLine? || step.Clear?)
    ensures Inv(Next(s, step))
  {
    hide WorkerOk, PlaceOk, EntryOk, CountsOk, DispatcherOk;
    var t := Next(s, step);
    ReleaseFacts(s, step);
    ReleaseDispatcher(s, step);
    ReleaseCounts(s, step);
    forall v | 0 <= v < |t.workers| ensures WorkerOk(t, v) { ReleaseWorkers(s, step, v); }
    forall d | 0 <= d < |t.places| ensures PlaceOk(t, d) { ReleasePlaces(s, step, d); }
    forall i | 0 <= i < |t.log| ensures EntryOk(t, i) { ReleaseEntries(s, step, i); }
  }

  lemma InvCount(s: State, step: Step)
    requires Inv(s) && Enabled(s, step) && (step.Accept? || step.Count?)
    ensures Inv(Next(s, step))
  {
    var t := Next(s, step);
    forall v | 0 <= v < |t.workers| ensures WorkerOk(t, v) {
      assert WorkerOk(s, v);
    }
    forall c | 0 <= c < |t.places| ensures PlaceOk(t, c) {
      assert PlaceOk(s, c);
    }
    forall i | 0 <= i < |t.log| ensures EntryOk(t, i) {
      assert EntryOk(s, i);
    }
  }

  /** The dispatcher's worker, and who else may be without a thread. */
  lemma HandedOver(s: State, w: nat)
    requires Inv(s) && w < |s.workers|
    requires (s.dispatcher.Raising? && w == s.dispatcher.i) || (s.dispatcher.Starting? && w == Last(s))
    ensures forall v | 0 <= v < |s.workers| && v != w :: !s.workers[v].thread.Absent?
  {
    forall v | 0 <= v < |s.workers| && v != w ensures !s.workers[v].thread.Absent? {
      assert WorkerOk(s, v);
    }
  }

  /** A store to a worker's parameters, or a thread's first look at them. */
  lemma InvStore(s: State, step: Step)
    requires Inv(s) && Enabled(s, step) && (step.WriteClient? || step.FillBusy? || step.FillClient? || step.Observe?)
    ensures Inv(Next(s, step))
  {
    var w := if step.WriteClient? then s.dispatcher.i else if step.Observe? then step.w else Last(s);
    assert WorkerOk(s, w);
    hide PlaceOk, EntryOk, CountsOk;
    InvWorker(s, Next(s, step), w);
  }

  lemma InvGiven(s: State, step: Step)
    requires Inv(s) && Enabled(s, step) && (step.RaiseBusy? || step.Start?)
    ensures Inv(Next(s, step))
  {
    hide WorkerOk, PlaceOk, EntryOk, CountsOk;
    var w := if step.RaiseBusy? then s.dispatcher.i else Last(s);
    HandedOver(s, w);
    InvHandOver(s, Next(s, step), w);
  }

  lemma InvKept(s: State, step: Step)
    requires Inv(s) && Enabled(s, step)
    ensures Inv(Next(s, step))
  {
    hide Inv, Next, Enabled;
    match step
    case Accept => InvCount(s, step);
    case Count => InvCount(s, step);
    case Scan(busy, client) => InvScan(s, busy, client);
    case RaiseBusy => InvGiven(s, step);
    case Start => InvGiven(s, step);
    case LogLine(_) => InvRelease(s, step);
    case Clear(_) => InvRelease(s, step);
    case _ => InvStore(s, step);
  }

  // ---------------------------------------------------------------------------------------------
  // Whole runs
  // ---------------------------------------------------------------------------------------------

  predicate Behaviour(states: seq<State>, steps: seq<Step>) {
    && |states| == |steps| + 1 && Init(states[0])
    && forall i | 0 <= i < |steps| :: Enabled(states[i], steps[i]) && states[i + 1] == Next(states[i], steps[i])
  }

  lemma {:induction false} Reached(states: seq<State>, steps: seq<Step>, i: nat)
    requires Behaviour(states, steps) && i < |states|
    ensures Inv(states[i])
  {
    if i == 0 {
      InvInit(states[0]);
    } else {
      Reached(states, steps, i - 1);
      InvKept(states[i - 1], steps[i - 1]);
    }
  }

  lemma WorkerFacts(s: State, w: nat)
    requires Inv(s) && w < |s.workers|
    ensures WorkerOk(s, w) && DispatcherOk(s)
  {
  }

  lemma StableStep(s: State, step: Step, w: nat)
    requires Enabled(s, step) && w < |s.workers| && WorkerOk(s, w) && DispatcherOk(s)
    ensures w < |Next(s, step).workers|
    ensures var v, v' := s.workers[w], Next(s, step).workers[w];
            && (v.busy && !v.thread.Absent? ==> v'.client == v.client && (v'.busy || step == Clear(w)))
            && (v.thread.Serving? ==>
                  v.client == v.thread.client &&
                  v'.thread == if step == LogLine(w) then Leaving(v.client) else v.thread)
            && (v.thread.Leaving? ==> v.client == v.thread.client && (v'.thread == v.thread || step == Clear(w)))
            && (!step.WriteClient? && !step.FillClient? ==> v'.client == v.client)
  {
  }

  /**
   From the moment a worker's flag is up and its thread runs, until the worker clears the flag, no
   step writes its client field: the worker always reads the client it was given, which is the one it
   observed first. Parameters once in the list stay there, whatever is pushed behind them.
   */
  lemma ClientIsStable(states: seq<State>, steps: seq<Step>, i: nat, w: nat)
    requires Behaviour(states, steps) && i < |steps| && w < |states[i].workers|
    ensures w < |states[i + 1].workers|
    ensures var v, v' := states[i].workers[w], states[i + 1].workers[w];
            && (v.busy && !v.thread.Absent? ==> v'.client == v.client && (v'.busy || steps[i] == Clear(w)))
            && (v.thread.Serving? ==>
                  v.client == v.thread.client &&
                  v'.thread == if steps[i] == LogLine(w) then Leaving(v.client) else v.thread)
            && (v.thread.Leaving? ==> v.client == v.thread.client && (v'.thread == v.thread || steps[i] == Clear(w)))
            && (!steps[i].WriteClient? && !steps[i].FillClient? ==> v'.client == v.client)
  {
    hide Inv;
    Reached(states, steps, i);
    WorkerFacts(states[i], w);
    StableStep(states[i], steps[i], w);
  }

  /** Two workers never hold the same client. */
  lemma OneWorkerPerClient(states: seq<State>, steps: seq<Step>, i: nat, v: nat, w: nat)
    requires Behaviour(states, steps) && i < |states| && v < |states[i].workers| && w < |states[i].workers|
    requires Engaged(states[i].workers[v]) && Engaged(states[i].workers[w])
    requires states[i].workers[v].client == states[i].workers[w].client
    ensures v == w
  {
    Reached(states, steps, i);
    assert WorkerOk(states[i], v) && WorkerOk(states[i], w);
  }

  /** Some worker's flag is up for client c. */
  predicate Held(s: State, c: nat) {
    exists w | 0 <= w < |s.workers| :: Engaged(s.workers[w]) && s.workers[w].client == c
  }

  predicate Logged(s: State, c: nat) {
    exists j | 0 <= j < |s.log| :: s.log[j].client == c
  }

  /** A worker has written client c's line and not yet cleared its flag. */
  predicate BetweenLineAndClear(s: State, c: nat) {
    exists w | 0 <= w < |s.workers| :: s.workers[w].thread == Leaving(c)
  }

  /** Step q clears the flag of the worker that held client c. */
  predicate ClearedAt(states: seq<State>, steps: seq<Step>, q: nat, c: nat)
    requires Behaviour(states, steps) && q < |steps|
  {
    steps[q].Clear? && states[q].workers[steps[q].w].client == c
  }

  predicate Releases(s: State, step: Step, c: nat)
    requires Enabled(s, step)
  {
    step.Clear? && s.workers[step.w].client == c
  }

  lemma ReleaseStep(s: State, step: Step, c: nat)
    requires Inv(s) && Enabled(s, step)
    ensures var t := Next(s, step);
            (c < |t.places| && t.places[c].Released?) <==>
            (c < |s.places| && s.places[c].Released?) || Releases(s, step, c)
  {
    if step.Clear? { assert WorkerOk(s, step.w); }
    if step.LogLine? { assert WorkerOk(s, step.w); }
  }

  /** The history is right: a client is released exactly if some step cleared its worker's flag. */
  lemma {:induction false} ReleasedByClear(states: seq<State>, steps: seq<Step>, i: nat, c: nat)
    requires Behaviour(states, steps) && i < |states|
    ensures (c < |states[i].places| && states[i].places[c].Released?) <==>
            exists q: nat :: q < i && ClearedAt(states, steps, q, c)
  {
    if i == 0 {
      assert states[0].places == [];
    } else {
      ReleasedByClear(states, steps, i - 1, c);
      Reached(states, steps, i - 1);
      ReleaseStep(states[i - 1], steps[i - 1], c);
      if Releases(states[i - 1], steps[i - 1], c) { assert ClearedAt(states, steps, i - 1, c); }
    }
  }

  /** Where a dispatched client is, in the terms of the workers and the log. */
  lemma PlaceMeans(s: State, c: nat)
    requires Inv(s) && c < |s.places|
    ensures Held(s, c) <==> s.places[c].With?
    ensures BetweenLineAndClear(s, c) <==> s.places[c].With? && s.places[c].line.Some?
    ensures Logged(s, c) <==> s.places[c].Line().Some?
  {
    assert PlaceOk(s, c);
    forall w | 0 <= w < |s.workers| && Engaged(s.workers[w]) && s.workers[w].client == c
      ensures s.places[c].With? && s.places[c].worker == w
      ensures s.places[c].line.Some? <==> s.workers[w].thread.Leaving?
    {
      assert WorkerOk(s, w);
    }
    forall w | 0 <= w < |s.workers| && s.workers[w].thread == Leaving(c)
      ensures Engaged(s.workers[w]) && s.workers[w].client == c
    {
      assert WorkerOk(s, w);
    }
    forall j | 0 <= j < |s.log| && s.log[j].client == c ensures s.places[c].Line() == Some(j) {
      assert EntryOk(s, j);
    }
    if s.places[c].With? && s.places[c].line.Some? {
      var v := s.workers[s.places[c].worker];
      assert WorkerOk(s, s.places[c].worker) && v.thread == Leaving(c);
    }
  }

  lemma LinesAreUnique(s: State)
    requires Inv(s)
    ensures forall j, k | 0 <= j < |s.log| && 0 <= k < |s.log| && s.log[j].client == s.log[k].client :: j == k
    ensures |s.places| <= s.accepted && forall j | 0 <= j < |s.log| :: s.log[j].client < |s.places|
  {
    forall j | 0 <= j < |s.log|
      ensures s.log[j].client < |s.places| && s.places[s.log[j].client].Line() == Some(j)
    {
      assert EntryOk(s, j);
    }
  }

  /**
   Every dispatched client is held, by the one worker that OneWorkerPerClient says, until that worker clears
   its flag. It has a line in the log after that, before it only between the worker's line and its clearing,
   and never two lines; a line is about a client that was dispatched.
   */
  lemma ServedExactlyOnce(states: seq<State>, steps: seq<Step>, i: nat, c: nat)
    requires Behaviour(states, steps) && i < |states| && c < |states[i].places|
    ensures Held(states[i], c) <==> !exists q: nat :: q < i && ClearedAt(states, steps, q, c)
    ensures Logged(states[i], c) <==> !Held(states[i], c) || BetweenLineAndClear(states[i], c)
    ensures BetweenLineAndClear(states[i], c) ==> Held(states[i], c)
    ensures var log := states[i].log;
            && (forall j, k | 0 <= j < |log| && 0 <= k < |log| && log[j].client == c == log[k].client :: j == k)
            && (forall j | 0 <= j < |log| :: log[j].client < |states[i].places|)
    ensures |states[i].places| <= states[i].accepted
  {
    hide Inv, Behaviour, Held, Logged, BetweenLineAndClear;
    Reached(states, steps, i);
    ReleasedByClear(states, steps, i, c);
    PlaceMeans(states[i], c);
    LinesAreUnique(states[i]);
  }

  /** Nobody lets go of a client twice. */
  lemma ClearedAtMostOnce(states: seq<State>, steps: seq<Step>, q: nat, r: nat, c: nat)
    requires Behaviour(states, steps) && q < r < |steps|
    ensures !(ClearedAt(states, steps, q, c) && ClearedAt(states, steps, r, c))
  {
    Reached(states, steps, r);
    ReleasedByClear(states, steps, r, c);
    if ClearedAt(states, steps, r, c) { ReleasesHeld(states[r], steps[r]); }
  }

  lemma ReleasesHeld(s: State, step: Step)
    requires Inv(s) && Enabled(s, step) && step.Clear?
    ensures var c := s.workers[step.w].client; c < |s.places| && !s.places[c].Released?
  {
    assert WorkerOk(s, step.w);
  }

  /** How many of the first i steps cleared a flag. */
  function Clears(steps: seq<Step>, i: nat): nat
    requires i <= |steps|
  {
    if i == 0 then 0 else Clears(steps, i - 1) + if steps[i - 1].Clear? then 1 else 0
  }

  lemma CompletedStep(s: State, step: Step)
    requires Inv(s) && Enabled(s, step)
    ensures Completed(Next(s, step).places) == Completed(s.places) + if step.Clear? then 1 else 0
  {
    var t := Next(s, step);
    if step.LogLine? || step.Clear? {
      var c := s.workers[step.w].client;
      assert WorkerOk(s, step.w) && PlaceOk(s, c);
      TotalUpdate(s.places, c, t.places[c], RELEASED);
    } else if step.RaiseBusy? || step.Start? {
      TotalPush(s.places, t.places[|s.places|], RELEASED);
    }
  }

  lemma {:induction false} CompletedIsClears(states: seq<State>, steps: seq<Step>, i: nat)
    requires Behaviour(states, steps) && i <= |steps| && i < |states|
    ensures Completed(states[i].places) == Clears(steps, i)
  {
    if i == 0 {
      assert Completed(states[0].places) == 0;
    } else {
      CompletedIsClears(states, steps, i - 1);
      Reached(states, steps, i - 1);
      CompletedStep(states[i - 1], steps[i - 1]);
    }
  }

  /**
   Between two clients of the accept loop: total_served is the clients whose workers have cleared their
   flags and the busy workers; the log may be ahead of the former, never of both; and max_concurrent is the
   size of the pool once a client has been served, hence never below the number of busy workers.
   */
  lemma PoolAccounting(states: seq<State>, steps: seq<Step>, i: nat)
    requires Behaviour(states, steps) && i <= |steps| && i < |states| && states[i].dispatcher.Accepting?
    ensures var s := states[i];
            && s.totalServed == s.accepted == Clears(steps, i) + EngagedCount(s.workers)
            && Clears(steps, i) <= |s.log| <= s.totalServed
            && s.maxConcurrent == (if s.totalServed == 0 then 0 else |s.workers|)
            && EngagedCount(s.workers) <= s.maxConcurrent
  {
    Reached(states, steps, i);
    CompletedIsClears(states, steps, i);
    LinesBounds(states[i].places);
    CountBound(states[i].workers);
  }

  // ---------------------------------------------------------------------------------------------
  // What the scan has seen
  // ---------------------------------------------------------------------------------------------

  predicate AcceptedAt(states: seq<State>, steps: seq<Step>, a: nat, c: nat)
    requires Behaviour(states, steps) && a < |steps|
  {
    steps[a].Accept? && states[a].accepted == c
  }

  /** Step q, looking for a worker for client c, loads the flag of worker w and finds it as `busy` says. */
  predicate LoadedAt(states: seq<State>, steps: seq<Step>, q: nat, c: nat, w: nat, busy: bool)
    requires Behaviour(states, steps) && q < |steps|
  {
    && steps[q].Scan? && states[q].dispatcher == Scanning(c, w)
    && w < |states[q].workers| && states[q].workers[w].busy == busy
  }

  /** Between steps a and i the flag of worker w was loaded for client c. */
  ghost predicate Loaded(states: seq<State>, steps: seq<Step>, a: nat, i: nat, c: nat, w: nat, busy: bool)
    requires Behaviour(states, steps) && i < |states|
  {
    exists q: nat :: a < q < i && LoadedAt(states, steps, q, c, w, busy)
  }

  /** Worker w is idle in every state after a and before i. */
  predicate StaysDown(states: seq<State>, a: nat, i: nat, w: nat)
    requires i < |states|
  {
    forall q: nat | a < q < i && w < |states[q].workers| :: !states[q].workers[w].busy
  }

  /** What a step does to a scan. */
  lemma ScanStep(s: State, step: Step)
    requires Enabled(s, step)
    ensures var t := Next(s, step);
            && (t.dispatcher.Scanning? ==>
                  || t.dispatcher == s.dispatcher
                  || (step.Accept? && t.dispatcher == Scanning(s.accepted, 0))
                  || (step.Scan? && 0 < t.dispatcher.i <= |s.workers| && s.workers[t.dispatcher.i - 1].busy &&
                      s.dispatcher == Scanning(t.dispatcher.c, t.dispatcher.i - 1)))
            && (t.dispatcher.Writing? ==>
                  || t.dispatcher == s.dispatcher
                  || (step.Scan? && t.dispatcher.i < |s.workers| && !s.workers[t.dispatcher.i].busy &&
                      s.dispatcher == Scanning(t.dispatcher.c, t.dispatcher.i)))
            && (|t.workers| == |s.workers| || (step.Scan? && s.dispatcher.i >= |s.workers|))
  {
  }

  /** The scan goes by the flags one by one: all before the one it has come to were up when it loaded them. */
  lemma {:induction false} ScannedSince(states: seq<State>, steps: seq<Step>, i: nat, c: nat, k: nat)
    returns (a: nat)
    requires Behaviour(states, steps) && i < |states| && states[i].dispatcher == Scanning(c, k)
    ensures a < i <= |steps| && AcceptedAt(states, steps, a, c)
    ensures forall w: nat | w < k :: Loaded(states, steps, a, i, c, w, true)
  {
    if i == 0 {
      assert false;
    } else {
      ScanStep(states[i - 1], steps[i - 1]);
      if steps[i - 1].Accept? {
        a := i - 1;
      } else {
        var before := states[i - 1].dispatcher.i;
        a := ScannedSince(states, steps, i - 1, c, before);
        forall w: nat | w < k ensures Loaded(states, steps, a, i, c, w, true) {
          if w < before {
            assert Loaded(states, steps, a, i - 1, c, w, true);
          } else {
            assert LoadedAt(states, steps, i - 1, c, w, true);
          }
        }
      }
    }
  }

  /**
   The pool grows only for a client that found every worker busy: since that client was accepted the flag of
   each of them was loaded and was up. So no worker whose flag stays down since then lets it grow.
   */
  lemma PoolGrowsWhenAllBusy(states: seq<State>, steps: seq<Step>, i: nat) returns (a: nat)
    requires Behaviour(states, steps) && i < |steps| && |states[i + 1].workers| != |states[i].workers|
    ensures a < i && states[i].dispatcher.Scanning? && AcceptedAt(states, steps, a, states[i].dispatcher.c)
    ensures forall w: nat | w < |states[i].workers| :: Loaded(states, steps, a, i, states[i].dispatcher.c, w, true)
    ensures forall w: nat | w < |states[i].workers| :: !StaysDown(states, a, i, w)
  {
    ScanStep(states[i], steps[i]);
    a := ScannedSince(states, steps, i, states[i].dispatcher.c, states[i].dispatcher.i);
    forall w: nat | w < |states[i].workers| ensures !StaysDown(states, a, i, w) {
      assert Loaded(states, steps, a, i, states[i].dispatcher.c, w, true);
      var q: nat :| a < q < i && LoadedAt(states, steps, q, states[i].dispatcher.c, w, true);
    }
  }

  /** A client is written to the first worker whose flag was down when it was loaded, after its accept. */
  lemma {:induction false} ClientGoesToFirstIdle(states: seq<State>, steps: seq<Step>, i: nat, c: nat, k: nat)
    returns (a: nat)
    requires Behaviour(states, steps) && i < |states| && states[i].dispatcher == Writing(c, k)
    ensures a < i <= |steps| && AcceptedAt(states, steps, a, c) && Loaded(states, steps, a, i, c, k, false)
    ensures forall w: nat | w < k :: Loaded(states, steps, a, i, c, w, true)
  {
    if i == 0 {
      assert false;
    } else {
      ScanStep(states[i - 1], steps[i - 1]);
      if states[i - 1].dispatcher == Writing(c, k) {
        a := ClientGoesToFirstIdle(states, steps, i - 1, c, k);
        assert forall w: nat, busy | w <= k && Loaded(states, steps, a, i - 1, c, w, busy) ::
            Loaded(states, steps, a, i, c, w, busy);
      } else {
        a := ScannedSince(states, steps, i - 1, c, k);
        assert LoadedAt(states, steps, i - 1, c, k, false);
        assert forall w: nat | w < k && Loaded(states, steps, a, i - 1, c, w, true) ::
            Loaded(states, steps, a, i, c, w, true);
      }
    }
  }

  lemma OneMoreStep(states: seq<State>, steps: seq<Step>, step: Step) returns (more: seq<State>, taken: seq<Step>)
    requires Behaviour(states, steps) && Enabled(states[|steps|], step)
    ensures Behaviour(more, taken) && |taken| == |steps| + 1 && more[|taken|] == Next(states[|steps|], step)
  {
    more, taken := states + [Next(states[|steps|], step)], steps + [step];
  }

  /** The log does run ahead: the first client has its line, and the accept loop still finds its worker busy. */
  lemma LineBeforeClear(init: State) returns (states: seq<State>, steps: seq<Step>)
    requires Init(init)
    ensures Behaviour(states, steps)
    ensures var s := states[|steps|];
            && s.dispatcher.Accepting? && s.totalServed == 1 && s.log == [Entry(0, 0)] && s.workers != []
            && s.workers[0] == Worker(true, 0, Leaving(0)) && EngagedCount(s.workers) == 1
  {
    assert init.workers[0] in init.workers;
    states, steps := [init], [];
    states, steps := OneMoreStep(states, steps, Accept);
    states, steps := OneMoreStep(states, steps, Scan(false, 0));
    states, steps := OneMoreStep(states, steps, WriteClient);
    states, steps := OneMoreStep(states, steps, RaiseBusy);
    states, steps := OneMoreStep(states, steps, Count);
    states, steps := OneMoreStep(states, steps, Observe(0));
    states, steps := OneMoreStep(states, steps, LogLine(0));
    Reached(states, steps, |steps|);
    CompletedIsClears(states, steps, |steps|);
  }

  /** If nothing but another accept can happen, every client accepted so far has been served and logged. */
  lemma EverybodyIsServed(states: seq<State>, steps: seq<Step>, s: State)
    requires Behaviour(states, steps) && s == states[|states| - 1]
    requires forall step :: Enabled(s, step) ==> step.Accept?
    ensures |s.places| == s.accepted == |s.log|
    ensures forall c: nat | c < s.accepted :: Logged(s, c) && !Held(s, c)
  {
    Reached(states, steps, |states| - 1);
    if !s.dispatcher.Accepting? { SomethingToDo(s); }
    forall w | 0 <= w < |s.workers| ensures !Engaged(s.workers[w]) {
      assert !Enabled(s, Observe(w)) && !Enabled(s, LogLine(w)) && !Enabled(s, Clear(w));
    }
    CountNone(s.workers);
    LinesBounds(s.places);
    forall c: nat | c < |s.places| ensures Logged(s, c) && !Held(s, c) {
      PlaceMeans(s, c);
    }
  }

  lemma SomethingToDo(s: State)
    requires Inv(s) && !s.dispatcher.Accepting?
    ensures exists step :: Enabled(s, step) && !step.Accept?
  {
    var step := match s.dispatcher
      case Scanning(_, _) => Scan(false, 0)
      case Writing(_, _) => WriteClient
      case Raising(_, _) => RaiseBusy
      case Pushed(_) => FillBusy
      case Filling(_) => FillClient
      case Starting(_) => Start
      case _ => Count;
    assert Enabled(s, step);
  }

  // ---------------------------------------------------------------------------------------------
  // Termination of a hand-off
  // ---------------------------------------------------------------------------------------------

  /** A client's worker has three more steps to take, then two, then one. */
  const OWED: Worker -> nat := (v: Worker) =>
    if v.thread.Leaving? then 1 else if v.thread.Serving? then 2 else if Engaged(v) then 3 else 0

  /** The longest way from the dispatcher's state to the next accept, the hand-over included. */
  function Ahead(s: State): nat {
    match s.dispatcher
    case Accepting => 0
    case Counting => 1
    case Raising(_, _) => 5
    case Writing(_, _) => 6
    case Starting(_) => 5
    case Filling(_) => 6
    case Pushed(_) => 7
    case Scanning(_, i) => 8 + if i <= |s.workers| then |s.workers| - i else 0
  }

  function Work(s: State): nat {
    Ahead(s) + Total(s.workers, OWED)
  }

  lemma WorkerWork(s: State, step: Step)
    requires Inv(s) && Enabled(s, step) && (step.Observe? || step.LogLine? || step.Clear?)
    ensures Work(Next(s, step)) < Work(s)
  {
    WorkerFacts(s, step.w);
    hide Inv, DispatcherOk;
    TotalUpdate(s.workers, step.w, Next(s, step).workers[step.w], OWED);
  }

  lemma DispatcherWork(s: State, step: Step)
    requires Inv(s) && Enabled(s, step) && !step.Accept? && !step.Observe? && !step.LogLine? && !step.Clear?
    ensures Work(Next(s, step)) < Work(s)
  {
    var t := Next(s, step);
    if step.WriteClient? || step.RaiseBusy? {
      TotalUpdate(s.workers, s.dispatcher.i, t.workers[s.dispatcher.i], OWED);
    } else if step.FillBusy? || step.FillClient? || step.Start? {
      TotalUpdate(s.workers, Last(s), t.workers[Last(s)], OWED);
    } else if step.Scan? && s.dispatcher.i == |s.workers| {
      TotalPush(s.workers, t.workers[|s.workers|], OWED);
    }
    hide WorkerOk, PlaceOk, EntryOk, CountsOk;
  }

  lemma WorkDecreases(s: State, step: Step)
    requires Inv(s) && Enabled(s, step) && !step.Accept?
    ensures Work(Next(s, step)) < Work(s)
  {
    hide Inv, Work, Next;
    if step.Observe? || step.LogLine? || step.Clear? { WorkerWork(s, step); } else { DispatcherWork(s, step); }
  }

  /** No schedule keeps dispatcher and workers busy for ever without another client being accepted. */
  lemma {:induction false} AcceptsAgain(run: nat -> State, steps: nat -> Step, i: nat)
    requires Inv(run(i))
    requires forall j: nat :: Enabled(run(j), steps(j)) && run(j + 1) == Next(run(j), steps(j))
    ensures exists j: nat :: i <= j && steps(j).Accept?
    decreases Work(run(i))
  {
    if steps(i).Accept? {
      assert i <= i && steps(i).Accept?;
    } else {
      InvKept(run(i), steps(i));
      WorkDecreases(run(i), steps(i));
      AcceptsAgain(run, steps, i + 1);
    }
  }
}
