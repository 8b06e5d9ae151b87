/** The thread server's code: what a worker does with one client, and how the dispatcher finds a worker. */
module ThreadServer {
  import opened Bytes
  import opened Protocol
  import S = Segmentation
  import opened Strided
  import V = Vector
  import HandOff

  function Sizes(bodies: seq<seq<byte>>): nat {
    if bodies == [] then 0 else |bodies[0]| + Sizes(bodies[1..])
  }

  lemma FirstFrame(bodies: seq<seq<byte>>)
    requires bodies != [] && |bodies[0]| < U32_LIMIT
    ensures S.Stream(bodies) == U32Bytes(|bodies[0]|) + (bodies[0] + S.Stream(bodies[1..]))
  {
  }

  lemma {:induction false} StreamLength(bodies: seq<seq<byte>>)
    ensures |S.Stream(bodies)| == 4 * (|bodies| + 1) + Sizes(bodies)
  {
    if bodies == [] {
      assert |S.Stream([])| == 4;
    } else {
      StreamLength(bodies[1..]);
    }
  }

  /** The client sends no size but the last that is zero. */
  predicate Positive(bodies: seq<seq<byte>>) {
    forall b <- bodies :: 1 <= |b| < U32_LIMIT
  }

  /** Some body is larger than the first. */
  predicate LargerLater(bodies: seq<seq<byte>>)
    requires bodies != []
  {
    exists b <- bodies :: |bodies[0]| < |b|
  }

  /** The bodies up to the first that a buffer of `cap` bytes has no room for. */
  function Fitting(bodies: seq<seq<byte>>, cap: nat): seq<seq<byte>> {
    if bodies == [] || cap < |bodies[0]| then [] else [bodies[0]] + Fitting(bodies[1..], cap)
  }

  /** With `rest` to come and its first size read: that size, what is in the socket, what the log has yet to count. */
  function NextSize(rest: seq<seq<byte>>): nat {
    if rest == [] then 0 else |rest[0]|
  }

  function Coming(rest: seq<seq<byte>>): seq<byte> {
    if rest == [] then [] else rest[0] + S.Stream(rest[1..])
  }

  function Uncounted(rest: seq<seq<byte>>): nat {
    if rest == [] then 0 else |S.Stream(rest[1..])|
  }

  /** Served bodies and those to come, with the buffer big enough for what has been served. */
  predicate Split(bodies: seq<seq<byte>>, cap: nat, done: seq<seq<byte>>, rest: seq<seq<byte>>) {
    && done + rest == bodies && Positive(rest)
    && done + Fitting(rest, cap) == Fitting(bodies, cap) && forall b <- done :: |b| <= cap
  }

  lemma SplitStarts(bodies: seq<seq<byte>>, cap: nat)
    requires Positive(bodies)
    ensures Split(bodies, cap, [], bodies)
  {
    assert [] + bodies == bodies && [] + Fitting(bodies, cap) == Fitting(bodies, cap);
  }

  lemma SplitStep(bodies: seq<seq<byte>>, cap: nat, done: seq<seq<byte>>, rest: seq<seq<byte>>)
    requires Split(bodies, cap, done, rest) && rest != [] && |rest[0]| <= cap
    ensures Split(bodies, cap, done + [rest[0]], rest[1..])
  {
    assert done + rest == done + [rest[0]] + rest[1..];
    assert done + Fitting(rest, cap) == done + [rest[0]] + Fitting(rest[1..], cap);
  }

  lemma SplitEnds(bodies: seq<seq<byte>>, cap: nat, done: seq<seq<byte>>, rest: seq<seq<byte>>)
    requires Split(bodies, cap, done, rest) && (rest == [] || cap < NextSize(rest))
    ensures done == Fitting(bodies, cap)
    ensures rest == [] ==> done == bodies && Coming(rest) == [] && Uncounted(rest) == 0
    ensures bodies != [] && cap == |bodies[0]| ==> (rest != [] <==> LargerLater(bodies))
  {
    if rest != [] { assert bodies[|done|] == rest[0] && rest[0] in bodies; }
  }

  /** read_data of a size field. */
  method ReadSize(sock: Socket, field: array<byte>, ghost coming: seq<byte>, ghost size: nat) returns (n: nat)
    requires sock.blocking && sock.reliable && field.Length == 4 && size < U32_LIMIT
    requires sock.Pending() == U32Bytes(size) + coming
    modifies sock`queue, sock`wire, sock`taken, field
    ensures n == size && sock.Pending() == coming
  {
    ghost var past, before := sock.taken, sock.Pending();
    var r := ReadData(sock, field, 0, 4);
    ghost var piece := Since(past, sock.taken);
    assert past + before == past + (piece + sock.Pending());
    assert piece + sock.Pending() == before by { SameAfter(past, before, piece + sock.Pending()); }
    assert piece == before[..4] == U32Bytes(size);
    assert field[..] == piece;
    U32RoundTrip(size);
    n := U32(field[..]);
  }

  lemma SameAfter(past: seq<byte>, a: seq<byte>, b: seq<byte>)
    requires past + a == past + b
    ensures a == b
  {
    assert a == (past + a)[|past|..];
    assert b == (past + b)[|past|..];
  }

  /** read_data of a body into the start of the buffer, and send_data of the same bytes. */
  method EchoOnce(sock: Socket, msg: array<byte>, size: nat, ghost body: seq<byte>, ghost coming: seq<byte>)
    requires sock.blocking && sock.reliable && size == |body| <= msg.Length
    requires sock.Pending() == body + coming
    modifies sock`queue, sock`wire, sock`taken, sock`sent, sock`stalls, msg
    ensures sock.Pending() == coming && sock.sent == old(sock.sent) + body
  {
    ghost var past, before := sock.taken, sock.Pending();
    var r := ReadData(sock, msg, 0, size);
    ghost var piece := Since(past, sock.taken);
    assert past + before == past + (piece + sock.Pending());
    assert piece + sock.Pending() == before by { SameAfter(past, before, piece + sock.Pending()); }
    assert piece == before[..size] == body;
    assert msg[0..size] == piece;
    var s := SendData(sock, msg, 0, size);
  }

  /**
   worker_func for one client. The buffer is allocated for the first body. Every body is echoed, in order, up
   to the first larger one, for which read_data is told to write past the buffer: there the model stops. If
   there is none the byte count that goes to the log is the number of bytes received without the first body's.
   */
  method ServeClient(sock: Socket, ghost bodies: seq<seq<byte>>) returns (transferred: nat, overrun: bool)
    requires sock.blocking && sock.reliable && sock.Pending() == S.Stream(bodies)
    requires bodies != [] && Positive(bodies)
    modifies sock`queue, sock`wire, sock`taken, sock`sent, sock`stalls
    ensures overrun <==> LargerLater(bodies)
    ensures sock.sent == old(sock.sent) + Flatten(Fitting(bodies, |bodies[0]|))
    ensures !overrun ==> sock.sent == old(sock.sent) + Flatten(bodies) && sock.Pending() == []
    ensures !overrun ==>
              transferred == |S.Stream(bodies)| - |bodies[0]| == 4 * (|bodies| + 1) + Sizes(bodies) - |bodies[0]|
  {
    hide S.Stream, Flatten, Fitting, Split, Sizes, NextSize, Coming, Uncounted, LargerLater, Positive;
    SessionStarts(bodies);
    ghost var rest, done, sent, goal := bodies, [], sock.sent, |S.Stream(bodies)| - |bodies[0]|;
    var field := new byte[4];
    var msgSize := ReadSize(sock, field, Coming(rest), NextSize(rest));
    var msg := new byte[msgSize];
    transferred, overrun := 4, false;
    var going := true;
    while going && !overrun
      invariant going <==> rest != []
      invariant (overrun <==> msg.Length < msgSize) && (overrun ==> going)
      invariant Split(bodies, msg.Length, done, rest)
      invariant sock.Pending() == Coming(rest) && msgSize == NextSize(rest)
      invariant transferred + Uncounted(rest) == goal
      invariant sock.sent == sent + Flatten(done)
      decreases |rest|
    {
      RoundSplits(bodies, msg.Length, done, rest);
      msgSize := Round(sock, field, msg, msgSize, rest);
      transferred := transferred + 4 + msgSize;
      going, overrun := msgSize != 0, msg.Length < msgSize;
      done, rest := done + [rest[0]], rest[1..];
    }
    SplitEnds(bodies, msg.Length, done, rest);
  }

  lemma SessionStarts(bodies: seq<seq<byte>>)
    requires bodies != [] && Positive(bodies)
    ensures Split(bodies, |bodies[0]|, [], bodies) && Flatten([]) == []
    ensures NextSize(bodies) == |bodies[0]| < U32_LIMIT && S.Stream(bodies) == U32Bytes(|bodies[0]|) + Coming(bodies)
    ensures |S.Stream(bodies)| == 4 * (|bodies| + 1) + Sizes(bodies) == 4 + |bodies[0]| + Uncounted(bodies)
  {
    StreamLength(bodies);
    FirstFrame(bodies);
    SplitStarts(bodies, |bodies[0]|);
  }

  /** What a pass through the worker's inner loop serves and counts. */
  lemma RoundSplits(bodies: seq<seq<byte>>, cap: nat, done: seq<seq<byte>>, rest: seq<seq<byte>>)
    requires Split(bodies, cap, done, rest) && rest != [] && NextSize(rest) <= cap
    ensures |rest[0]| == NextSize(rest) && Positive(rest) && Split(bodies, cap, done + [rest[0]], rest[1..])
    ensures Flatten(done + [rest[0]]) == Flatten(done) + rest[0]
    ensures rest[1..] != [] <==> NextSize(rest[1..]) != 0
    ensures Uncounted(rest) == 4 + NextSize(rest[1..]) + Uncounted(rest[1..])
  {
    SplitStep(bodies, cap, done, rest);
    FlattenSnoc(done, rest[0]);
  }

  /** One pass through the worker's inner loop: read a body, send it, read the next size. */
  method Round(
      sock: Socket, field: array<byte>, msg: array<byte>, size: nat, ghost rest: seq<seq<byte>>) returns (n: nat)
    requires sock.blocking && sock.reliable && field.Length == 4 && field != msg
    requires rest != [] && size == |rest[0]| <= msg.Length && Positive(rest)
    requires sock.Pending() == Coming(rest)
    modifies sock`queue, sock`wire, sock`taken, sock`sent, sock`stalls, msg, field
    ensures sock.sent == old(sock.sent) + rest[0]
    ensures n == NextSize(rest[1..]) && sock.Pending() == Coming(rest[1..])
  {
    assert forall b <- rest[1..] :: b in rest;
    EchoOnce(sock, msg, size, rest[0], S.Stream(rest[1..]));
    n := ReadNext(sock, field, rest[1..]);
  }

  method ReadNext(sock: Socket, field: array<byte>, ghost rest: seq<seq<byte>>) returns (n: nat)
    requires sock.blocking && sock.reliable && field.Length == 4 && Positive(rest)
    requires sock.Pending() == S.Stream(rest)
    modifies sock`queue, sock`wire, sock`taken, field
    ensures n == NextSize(rest) && sock.Pending() == Coming(rest)
  {
    if rest == [] { assert U32Bytes(0) + [] == U32Bytes(0); } else { FirstFrame(rest); }
    n := ReadSize(sock, field, Coming(rest), NextSize(rest));
  }

  // ---------------------------------------------------------------------------------------------
  // The dispatcher
  // ---------------------------------------------------------------------------------------------

  class WorkerParams {
    var busy: bool
    var client: nat

    constructor (busy: bool, client: nat)
      ensures this.busy == busy && this.client == client
    {
      this.busy, this.client := busy, client;
    }
  }

  /** What the dispatcher can see of the parameters, in the order of the list. */
  datatype Row = Row(busy: bool, client: nat)

  /** Worker i clears its flag at none of the first n moments. */
  predicate Stays(done: nat -> set<nat>, i: nat, n: nat) {
    forall k: nat | k < n :: i !in done(k)
  }

  /** Worker i's flag is up when the scan loads it, given the rows at the start. */
  predicate UpWhenLoaded(was: seq<Row>, done: nat -> set<nat>, i: nat)
    requires i < |was|
  {
    was[i].busy && Stays(done, i, i + 1)
  }

  /** After n moments nothing has happened to worker i but what its own thread has done. */
  predicate Untouched(was: seq<Row>, now: seq<Row>, done: nat -> set<nat>, n: nat, i: nat)
    requires i < |was| == |now|
  {
    now[i] == Row(was[i].busy && Stays(done, i, n), was[i].client)
  }

  /** How many moments have passed when the scan is at worker w, or has given it the client. */
  function Moments(w: nat, found: bool): nat {
    if found then w + 3 else w
  }

  /**
   The scan has come to worker w, the first whose flag was down when it was loaded, and has given it the
   client if `found`; nobody else's parameters have been written.
   */
  predicate Scanned(was: seq<Row>, now: seq<Row>, client: nat, done: nat -> set<nat>, w: nat, found: bool) {
    && |now| == |was| && w <= |was| && (found ==> w < |was|)
    && (forall i | 0 <= i < w :: UpWhenLoaded(was, done, i))
    && (found ==> !UpWhenLoaded(was, done, w) && now[w] == Row(true, client))
    && (forall i | 0 <= i < |was| && !(found && i == w) :: Untouched(was, now, done, Moments(w, found), i))
  }

  /** Worker i does not clear its flag before the load of flag w, nor before the stores if there are any. */
  predicate Spared(done: nat -> set<nat>, w: nat, stores: bool, i: nat) {
    i !in done(w) && (stores ==> i !in done(w + 1) && i !in done(w + 2))
  }

  /** One load of a flag, and the two stores if it was down. */
  predicate Tried(was: seq<Row>, now: seq<Row>, client: nat, done: nat -> set<nat>, w: nat, idle: bool) {
    && |now| == |was| && w < |was| && (idle <==> !(was[w].busy && w !in done(w)))
    && (idle ==> now[w] == Row(true, client))
    && (forall i: nat | i < |was| && !(idle && i == w) ::
          now[i] == Row(was[i].busy && Spared(done, w, idle, i), was[i].client))
  }

  /** The workers in `done` have cleared their flags. */
  predicate Cleared(was: seq<Row>, now: seq<Row>, done: set<nat>) {
    |now| == |was| && forall i: nat | i < |was| :: now[i] == Row(was[i].busy && i !in done, was[i].client)
  }

  lemma LoadIsTry(was: seq<Row>, now: seq<Row>, client: nat, done: nat -> set<nat>, w: nat)
    requires Cleared(was, now, done(w)) && w < |now| && now[w].busy
    ensures Tried(was, now, client, done, w, false)
  {
  }

  /** The rows after each action of a worker's being given a client. */
  lemma StoresGive(
      was: seq<Row>, loaded: seq<Row>, before: seq<Row>, between: seq<Row>, after: seq<Row>, now: seq<Row>,
      client: nat, done: nat -> set<nat>, w: nat)
    requires w < |was| && Cleared(was, loaded, done(w)) && !loaded[w].busy
    requires Cleared(loaded, before, done(w + 1)) && between == before[w := Row(before[w].busy, client)]
    requires Cleared(between, after, done(w + 2)) && now == after[w := Row(true, after[w].client)]
    ensures Tried(was, now, client, done, w, true)
  {
  }

  lemma ScanStarts(was: seq<Row>, client: nat, done: nat -> set<nat>)
    ensures Scanned(was, was, client, done, 0, false)
  {
  }

  lemma ScanLengths(was: seq<Row>, now: seq<Row>, client: nat, done: nat -> set<nat>, w: nat, found: bool)
    requires Scanned(was, now, client, done, w, found)
    ensures |now| == |was| && w <= |was| && (found ==> w < |was| && now[w] == Row(true, client))
  {
  }

  lemma ScanNext(
      was: seq<Row>, now: seq<Row>, next: seq<Row>, client: nat, done: nat -> set<nat>, w: nat, idle: bool)
    requires Scanned(was, now, client, done, w, false) && w < |was| && Tried(now, next, client, done, w, idle)
    ensures Scanned(was, next, client, done, if idle then w else w + 1, idle)
  {
    assert Untouched(was, now, done, Moments(w, false), w);
    assert UpWhenLoaded(was, done, w) <==> was[w].busy && Stays(done, w, w) && w !in done(w);
    var v := if idle then w else w + 1;
    forall i | 0 <= i < |was| && !(idle && i == w) ensures Untouched(was, next, done, Moments(v, idle), i)
    {
      assert Untouched(was, now, done, Moments(w, false), i);
    }
  }

  /** A worker that is busy and does not finish meanwhile keeps its client and its flag. */
  lemma BusyWorkerIsLeftAlone(
      was: seq<Row>, now: seq<Row>, client: nat, done: nat -> set<nat>, w: nat, found: bool, i: nat)
    requires Scanned(was, now, client, done, w, found) && i < |was| && was[i].busy && Stays(done, i, |was| + 3)
    ensures !(found && i == w) && now[i] == was[i]
  {
    if found && i == w { assert UpWhenLoaded(was, done, w); }
    assert Untouched(was, now, done, Moments(w, found), i);
  }

  /** A worker that is idle at the start ends the scan, so that no new one is made. */
  lemma IdleWorkerEndsScan(
      was: seq<Row>, now: seq<Row>, client: nat, done: nat -> set<nat>, w: nat, found: bool, i: nat)
    requires Scanned(was, now, client, done, w, found) && i < |was| && !was[i].busy
    ensures w <= i
  {
    assert i < w ==> UpWhenLoaded(was, done, i);
  }

  /** sizeof(worker_params*). */
  const ADDRESS_SIZE := 8

  ghost function RowsOf(list: seq<WorkerParams>): (rows: seq<Row>)
    reads list
    ensures |rows| == |list| && forall i | 0 <= i < |list| :: rows[i] == Row(list[i].busy, list[i].client)
  {
    seq(|list|, i requires 0 <= i < |list| reads list => Row(list[i].busy, list[i].client))
  }

  lemma RowIs(list: seq<WorkerParams>, w: nat)
    requires w < |list|
    ensures |RowsOf(list)| == |list| && RowsOf(list)[w] == Row(list[w].busy, list[w].client)
  {
  }

  /**
   thread_server_private and the counters of server_t. The vector holds the bytes of pointers, `memory` says
   which parameters lie at an address, and `list` is what the pointers in the vector point to, in order.
   */
  class ThreadServer {
    var workers: V.Vector
    var memory: map<Item, WorkerParams>
    ghost var list: seq<WorkerParams>
    var totalServed: nat
    var maxConcurrent: nat

    ghost predicate Valid()
      reads this, workers, workers.items
    {
      && workers.Valid() && workers.itemSize == ADDRESS_SIZE && workers.size == |list|
      && (forall i | 0 <= i < |list| :: Points(workers.Contents()[i], list[i]))
      && (forall i, j | 0 <= i < j < |list| :: list[i] != list[j])
    }

    predicate Points(address: Item, params: WorkerParams)
      reads this`memory
    {
      address in memory && memory[address] == params
    }

    /** Between two clients the largest concurrency so far is the pool's size. */
    ghost predicate Counted()
      reads this
    {
      maxConcurrent == if totalServed == 0 then 0 else |list|
    }

    /** A server that has yet to be started. */
    constructor ()
      ensures totalServed == 0 && maxConcurrent == 0 && fresh(workers)
    {
      workers := new V.Vector();
      memory, list, totalServed, maxConcurrent := map[], [], 0, 0;
    }

    /** What malloc(sizeof(worker_params)) may answer: an address where nothing lies yet, or NULL. */
    predicate Answer(at: Option<Item>)
      reads this`memory
    {
      at.Some? ==> |at.value| == ADDRESS_SIZE && at.value !in memory
    }

    /** malloc of parameters, when `at` is its answer, and the stores to them. */
    method Allocate(at: Item, busy: bool, client: nat) returns (params: WorkerParams)
      requires Answer(Some(at))
      modifies this`memory
      ensures fresh(params) && params.busy == busy && params.client == client && memory == old(memory)[at := params]
    {
      params := new WorkerParams(busy, client);
      memory := memory[at := params];
    }

    /** list[i], through the pointer in the vector. */
    method Worker(i: nat) returns (params: WorkerParams)
      requires Valid() && i < |list|
      ensures params == list[i]
    {
      var address := workers.At(Place(i, ADDRESS_SIZE), i);
      assert address == workers.Contents()[i];
      params := memory[address];
    }

    /** vector_push_back of a pointer to new parameters; it only needs memory when the vector is full. */
    method Append(address: Item, params: WorkerParams, granted: bool) returns (ok: bool)
      requires Valid() && |list| < U32_LIMIT && |address| == ADDRESS_SIZE && Points(address, params) && params !in list
      modifies this`list, workers, workers.items
      ensures Valid() && list == (if ok then old(list) + [params] else old(list))
      ensures ok <==> old(workers.size < workers.cap) || granted
      ensures workers.items == old(workers.items) || fresh(workers.items)
      ensures old(workers.size < workers.cap) ==> workers.cap == old(workers.cap)
    {
      ok := workers.PushBack(address, granted);
      if ok { list := list + [params]; }
    }

    /** One more idle worker, for which the vector has room. */
    method AddIdle(at: Item)
      requires Valid() && |list| < U32_LIMIT && Answer(Some(at)) && workers.size < workers.cap
      modifies this`list, this`memory, workers, workers.items
      ensures Valid() && |list| == |old(list)| + 1 && list[..|old(list)|] == old(list)
      ensures var params := list[|old(list)|]; fresh(params) && !params.busy && memory == old(memory)[at := params]
      ensures workers.size == |list| && workers.cap == old(workers.cap)
      ensures workers.items == old(workers.items) || fresh(workers.items)
    {
      var params := Allocate(at, false, 0);
      var pushed := Append(at, params, false);
      assert pushed;
    }

    /** vector_init of the list, with room for the whole pool. */
    method EmptyPool(granted: bool) returns (ok: bool)
      modifies this`list, this`memory, workers
      ensures ok == granted && workers == old(workers) && memory == map[] && list == []
      ensures ok ==> Valid() && fresh(workers.items) && workers.size == 0 && workers.cap == HandOff.WORKER_POOL_SIZE
    {
      memory, list := map[], [];
      ok := workers.Init(ADDRESS_SIZE, HandOff.WORKER_POOL_SIZE, granted);
    }

    /**
     The part of thread_server_start that makes the pool, when `granted` is malloc's answer for the vector
     and `answers` are those for the parameters: all workers are idle, or memory ran out.
     */
    method Start(granted: bool, answers: seq<Option<Item>>) returns (ok: bool)
      requires |answers| == HandOff.WORKER_POOL_SIZE
      requires forall i | 0 <= i < |answers| && answers[i].Some? :: |answers[i].value| == ADDRESS_SIZE
      requires forall i, j | 0 <= i < j < |answers| && answers[i].Some? :: answers[i] != answers[j]
      modifies this, workers
      ensures ok <==> granted && forall a <- answers :: a.Some?
      ensures ok ==> Valid() && |list| == HandOff.WORKER_POOL_SIZE && fresh(workers.items) && fresh(list)
      ensures ok ==> forall w <- list :: !w.busy
      ensures workers == old(workers) && totalServed == old(totalServed) && maxConcurrent == old(maxConcurrent)
    {
      hide ThreadServer.Valid, V.Vector.Valid;
      ok := EmptyPool(granted);
      var i := 0;
      while i < HandOff.WORKER_POOL_SIZE && ok
        invariant 0 <= i <= |answers| && (ok <==> granted && forall k | 0 <= k < i :: answers[k].Some?)
        invariant ok ==> workers.cap == |answers| && Valid() && |list| == workers.size == i
        invariant ok ==> forall k | i <= k < |answers| :: Answer(answers[k])
        invariant ok ==> fresh(workers.items) && fresh(list)
        invariant ok ==> forall w <- list :: !w.busy
        invariant workers == old(workers) && totalServed == old(totalServed) && maxConcurrent == old(maxConcurrent)
        decreases HandOff.WORKER_POOL_SIZE - i
      {
        if answers[i] == None {
          ok := false;
        } else {
          AddIdle(answers[i].value);
        }
        i := i + 1;
      }
    }

    /** The workers in `done` clear their flags; they may do so between any two actions of the dispatcher. */
    method Interfere(done: set<nat>)
      requires Valid()
      modifies list`busy
      ensures Valid() && Cleared(old(RowsOf(list)), RowsOf(list), done)
    {
      for i := 0 to workers.size
        invariant forall j | 0 <= j < |list| :: list[j].busy == (old(list[j].busy) && (j < i ==> j !in done))
      {
        if i in done {
          var params := Worker(i);
          params.busy := false;
        }
      }
    }

    /**
     The loop of thread_server_add_client, while the workers in done(k) clear their flags just before the
     k-th load of a flag, and after the last one before each store.
     */
    method GiveToIdle(client: nat, done: nat -> set<nat>) returns (w: nat)
      requires Valid()
      modifies list
      ensures Valid() && Scanned(old(RowsOf(list)), RowsOf(list), client, done, w, w < |list|)
    {
      hide ThreadServer.Valid, V.Vector.Valid, Scanned, Tried, RowsOf;
      SizeIs();
      ghost var was := RowsOf(list);
      ScanStarts(was, client, done);
      w := 0;
      var found := false;
      while w < workers.size && !found
        invariant w <= |list| && (found ==> w < |list|)
        invariant Scanned(was, RowsOf(list), client, done, w, found)
        decreases |list| - w, !found
      {
        ghost var now := RowsOf(list);
        found := GiveIfIdle(w, client, done);
        ScanNext(was, now, RowsOf(list), client, done, w, found);
        if !found { w := w + 1; }
      }
    }

    lemma SizeIs()
      requires Valid()
      ensures workers.size == |list|
    {
    }

    lemma OthersDiffer(w: nat)
      requires Valid() && w < |list|
      ensures forall i | 0 <= i < |list| && i != w :: list[i] != list[w]
    {
    }

    /** params->client = client. */
    method StoreClient(ghost w: nat, params: WorkerParams, client: nat)
      requires Valid() && w < |list| && params == list[w]
      modifies params`client
      ensures Valid() && RowsOf(list) == old(RowsOf(list))[w := Row(old(params.busy), client)]
    {
      OthersDiffer(w);
      params.client := client;
    }

    /** atomic_store(&params->busy, 1). */
    method RaiseBusy(ghost w: nat, params: WorkerParams)
      requires Valid() && w < |list| && params == list[w]
      modifies params`busy
      ensures Valid() && RowsOf(list) == old(RowsOf(list))[w := Row(true, old(params.client))]
    {
      OthersDiffer(w);
      params.busy := true;
    }

    method GiveIfIdle(w: nat, client: nat, done: nat -> set<nat>) returns (idle: bool)
      requires Valid() && w < |list|
      modifies list
      ensures Valid() && Tried(old(RowsOf(list)), RowsOf(list), client, done, w, idle)
    {
      hide ThreadServer.Valid, V.Vector.Valid, Cleared, Tried, RowsOf;
      ghost var was := RowsOf(list);
      RowIs(list, w);
      Interfere(done(w));
      ghost var loaded := RowsOf(list);
      var params := Worker(w);
      RowIs(list, w);
      idle := !params.busy;
      if idle {
        Interfere(done(w + 1));
        ghost var before := RowsOf(list);
        RowIs(list, w);
        StoreClient(w, params, client);
        ghost var between := RowsOf(list);
        Interfere(done(w + 2));
        ghost var after := RowsOf(list);
        RowIs(list, w);
        RaiseBusy(w, params);
        StoresGive(was, loaded, before, between, after, RowsOf(list), client, done, w);
      } else {
        LoadIsTry(was, loaded, client, done, w);
      }
    }

    /** The rest of it: new parameters behind the old ones. */
    method AddWorker(client: nat, at: Option<Item>, granted: bool) returns (ok: bool)
      requires Valid() && |list| < U32_LIMIT && Answer(at)
      modifies this`list, this`memory, workers, workers.items
      ensures Valid() && (workers.items == old(workers.items) || fresh(workers.items))
      ensures ok <==> at.Some? && (old(workers.size < workers.cap) || granted)
      ensures !ok ==> list == old(list) && memory == old(memory)
      ensures ok ==> |list| == |old(list)| + 1 && old(list) == list[..|old(list)|]
      ensures ok ==> var new_params := list[|old(list)|];
              fresh(new_params) && new_params.client == client && new_params.busy
    {
      ok := at.Some?;
      if ok {
        ghost var before := memory;
        var params := Allocate(at.value, true, client);
        ok := Append(at.value, params, granted);
        if !ok {
          memory := memory - {at.value};
          assert memory == before;
        }
      }
    }

    /**
     thread_server_add_client. The client goes to the first worker whose flag is down when it is loaded, or,
     when all are up, to fresh parameters behind the old ones. No other parameters are written, and all old
     ones keep their place, though the block of pointers may move. It fails only for want of memory, when
     `at` and `granted` are the allocator's answers; then the client goes to nobody and the list stays.
     */
    method AddClient(client: nat, done: nat -> set<nat>, at: Option<Item>, granted: bool) returns (ok: bool, w: nat)
      requires Valid() && |list| < U32_LIMIT && Answer(at)
      modifies this`list, this`memory, workers, workers.items, list
      ensures Valid() && (workers.items == old(workers.items) || fresh(workers.items))
      ensures w <= |old(list)| && Scanned(old(RowsOf(list)), RowsOf(old(list)), client, done, w, w < |old(list)|)
      ensures ok <==> w < |old(list)| || (at.Some? && (old(workers.size < workers.cap) || granted))
      ensures old(list) <= list && |list| == |old(list)| + (if ok && w == |old(list)| then 1 else 0)
      ensures ok ==> list[w].client == client && list[w].busy
      ensures ok && w == |old(list)| ==> fresh(list[w])
    {
      hide Scanned;
      w := GiveToIdle(client, done);
      ScanLengths(old(RowsOf(list)), RowsOf(list), client, done, w, w < |list|);
      ok := true;
      if w == workers.size { ok := AddWorker(client, at, granted); }
    }

    /** One turn of accept_loop, which ends when the client could not be added. */
    method AcceptOne(client: nat, done: nat -> set<nat>, at: Option<Item>, granted: bool) returns (ok: bool, w: nat)
      requires Valid() && Counted() && |list| < U32_LIMIT && Answer(at)
      modifies this, workers, workers.items, list
      ensures Valid() && Counted() && old(list) <= list
      ensures w <= |old(list)| && Scanned(old(RowsOf(list)), RowsOf(old(list)), client, done, w, w < |old(list)|)
      ensures ok <==> w < |old(list)| || (at.Some? && (old(workers.size < workers.cap) || granted))
      ensures ok ==> w < |list| && list[w].client == client && list[w].busy
      ensures totalServed == old(totalServed) + (if ok then 1 else 0)
      ensures ok ==> maxConcurrent == |list|
      ensures !ok ==> list == old(list) && maxConcurrent == old(maxConcurrent)
    {
      hide Scanned, RowsOf, V.Vector.Valid;
      ok, w := AddClient(client, done, at, granted);
      if ok {
        totalServed := totalServed + 1;
        if workers.size > maxConcurrent {
          maxConcurrent := workers.size;
        }
      }
    }
  }
}
