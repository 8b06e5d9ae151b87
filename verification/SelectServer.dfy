/** The slot table of the select server: its loop, select_server_add_client and the bookkeeping of handle_request. */
module SelectServer {
  import opened Bytes
  import F = Framing
  import S = Segmentation
  import I = Isolation
  import opened Protocol
  import opened Handler

  const FD_SETSIZE := 1024

  /** The slots that hold a client. */
  function Live(socks: seq<int>, acceptor: nat): set<nat> {
    set i: nat | i < |socks| && i != acceptor && socks[i] != -1
  }

  lemma LiveAfter(socks: seq<int>, acceptor: nat, i: nat, v: int)
    requires i < |socks| && i != acceptor
    ensures Live(socks[i := v], acceptor) ==
            if v == -1 then Live(socks, acceptor) - {i} else Live(socks, acceptor) + {i}
    ensures i in Live(socks, acceptor) <==> socks[i] != -1
  {
  }

  function Maximum(counts: seq<nat>): nat {
    if counts == [] then 0
    else
      var init, last := counts[..|counts| - 1], counts[|counts| - 1];
      var m := Maximum(init);
      if m < last then last else m
  }

  lemma MaximumSnoc(init: seq<nat>, last: nat)
    ensures Maximum(init + [last]) == if Maximum(init) < last then last else Maximum(init)
  {
    assert (init + [last])[..|init|] == init;
  }

  lemma {:induction false} MaximumBounds(counts: seq<nat>)
    ensures forall c <- counts :: c <= Maximum(counts)
    ensures counts != [] ==> Maximum(counts) in counts
  {
    if counts == [] {
      assert forall c <- counts :: false;
    } else {
      var init, last := counts[..|counts| - 1], counts[|counts| - 1];
      assert counts == init + [last];
      MaximumSnoc(init, last);
      MaximumBounds(init);
      hide Maximum;
      MaximumOf(init, last, Maximum(init), Maximum(counts));
    }
  }

  /** One more element, and the maximum before and after it. */
  lemma MaximumOf(init: seq<nat>, last: nat, m: nat, n: nat)
    requires (forall c <- init :: c <= m) && (if init == [] then m == 0 else m in init)
    requires n == if m < last then last else m
    ensures (forall c <- init + [last] :: c <= n) && n in init + [last]
  {
    forall c | c in init + [last] ensures c <= n {
      assert c in init || c == last;
    }
    if m < last || init == [] {
      assert n == last && last in init + [last];
    } else {
      assert m in init + [last];
    }
  }

  /** The counters at a boundary of the event loop, over the slots' sock fields. */
  datatype Counters = Counters(connected: nat, served: nat, most: nat, maxFd: nat, closed: nat, counts: seq<nat>)

  /** From none the number of clients goes up or down by one at a time. */
  predicate OneByOne(counts: seq<nat>) {
    && counts != [] && counts[0] == 0
    && forall k | 1 <= k < |counts| :: counts[k] == counts[k - 1] + 1 || counts[k - 1] == counts[k] + 1
  }

  /**
   connected_count is the number of client slots in use, total_served those and the closed ones; the history
   has an entry for the start, for each client added and for each closed, and max_concurrent is the largest of
   them; a slot's sock is -1 or its own index, and max_fd is at least every sock in use.
   */
  predicate Accounts(c: Counters, socks: seq<int>, acceptor: nat) {
    && acceptor < |socks| && socks[acceptor] == acceptor
    && c.connected == |Live(socks, acceptor)|
    && c.served == c.connected + c.closed
    && OneByOne(c.counts) && |c.counts| == 1 + c.served + c.closed
    && c.counts[|c.counts| - 1] == c.connected && c.most == Maximum(c.counts)
    && forall i | 0 <= i < |socks| :: socks[i] == -1 || socks[i] == i <= c.maxFd
  }

  /** What the counters say to a reader of the final statistics. */
  lemma AccountsSay(c: Counters, socks: seq<int>, acceptor: nat)
    requires Accounts(c, socks, acceptor)
    ensures c.connected <= c.most && c.most in c.counts && forall now <- c.counts :: now <= c.most
    ensures |c.counts| == 1 + c.served + c.closed && OneByOne(c.counts)
    ensures c.served - c.closed == |set i: nat | i < |socks| && i != acceptor && socks[i] == i|
  {
    MaximumBounds(c.counts);
    assert Live(socks, acceptor) == set i: nat | i < |socks| && i != acceptor && socks[i] == i;
  }

  function Added(c: Counters, fd: nat): Counters {
    var connected := c.connected + 1;
    Counters(connected, c.served + 1, if c.most < connected then connected else c.most,
             if c.maxFd < fd then fd else c.maxFd, c.closed, c.counts + [connected])
  }

  function Removed(c: Counters): Counters
    requires 0 < c.connected
  {
    c.(connected := c.connected - 1, closed := c.closed + 1, counts := c.counts + [(c.connected - 1) as nat])
  }

  /** Histories only grow, and so do the counters but connected_count. */
  predicate Grew(c: Counters, d: Counters) {
    c.counts <= d.counts && c.most <= d.most && c.maxFd <= d.maxFd && c.served <= d.served && c.closed <= d.closed
  }

  lemma OneMoreCount(counts: seq<nat>, now: nat)
    requires OneByOne(counts)
    requires var last := counts[|counts| - 1]; now == last + 1 || last == now + 1
    ensures OneByOne(counts + [now])
  {
  }

  lemma AccountsAdded(c: Counters, socks: seq<int>, acceptor: nat, fd: nat)
    requires Accounts(c, socks, acceptor) && fd < |socks| && fd != acceptor && socks[fd] == -1
    ensures Accounts(Added(c, fd), socks[fd := fd], acceptor) && Grew(c, Added(c, fd))
  {
    OneMoreCount(c.counts, c.connected + 1);
    LiveAfter(socks, acceptor, fd, fd);
    MaximumSnoc(c.counts, c.connected + 1);
  }

  lemma AccountsRemoved(c: Counters, socks: seq<int>, acceptor: nat, fd: nat)
    requires Accounts(c, socks, acceptor) && fd < |socks| && fd != acceptor && socks[fd] != -1
    ensures 0 < c.connected && Accounts(Removed(c), socks[fd := -1], acceptor) && Grew(c, Removed(c))
  {
    LiveAfter(socks, acceptor, fd, -1);
    MaximumSnoc(c.counts, c.connected - 1);
    MaximumBounds(c.counts);
    assert fd in Live(socks, acceptor);
    OneMoreCount(c.counts, c.connected - 1);
  }

  /** A client is added on a descriptor, or one is closed. */
  datatype Change = Add(fd: nat) | Remove

  predicate Changes(c: Counters, change: Change, d: Counters) {
    match change
    case Add(fd) => d == Added(c, fd)
    case Remove => 0 < c.connected && d == Removed(c)
  }

  predicate CountersRun(run: seq<Counters>, changes: seq<Change>, acceptor: nat) {
    && |run| == |changes| + 1 && run[0] == Counters(0, 0, 0, acceptor, 0, [0])
    && forall k | 0 <= k < |changes| :: Changes(run[k], changes[k], run[k + 1])
  }

  /**
   Over any sequence of clients added and closed: max_concurrent is the largest connected_count of the states
   passed, max_fd the largest descriptor of the listener and the clients.
   */
  lemma {:induction false} PeakOfRun(run: seq<Counters>, changes: seq<Change>, acceptor: nat, i: nat)
    requires CountersRun(run, changes, acceptor) && i < |run|
    ensures forall k | 0 <= k <= i :: run[k].connected <= run[i].most
    ensures exists k | 0 <= k <= i :: run[k].connected == run[i].most
    ensures acceptor <= run[i].maxFd && forall k | 0 <= k < i && changes[k].Add? :: changes[k].fd <= run[i].maxFd
    ensures run[i].maxFd == acceptor || exists k | 0 <= k < i :: changes[k] == Add(run[i].maxFd)
  {
    if i == 0 {
      assert run[0].connected == run[0].most;
    } else {
      PeakOfRun(run, changes, acceptor, i - 1);
      assert Changes(run[i - 1], changes[i - 1], run[i]);
      var k :| 0 <= k <= i - 1 && run[k].connected == run[i - 1].most;
      assert run[i].connected == run[i].most || run[k].connected == run[i].most;
    }
  }

  /** What accept returns: a descriptor and what lies behind it, with the message size the peer will use. */
  datatype Arrival = Arrival(fd: nat, sock: Socket, n: nat)

  function Fds(arrivals: seq<Arrival>): set<nat> {
    set a <- arrivals :: a.fd
  }

  predicate AllDifferent(arrivals: seq<Arrival>) {
    forall k, l | 0 <= k < l < |arrivals| :: arrivals[k].fd != arrivals[l].fd && arrivals[k].sock != arrivals[l].sock
  }

  /** One call of handle_request took the session from s to `now`, None when it ended. */
  ghost predicate Handled(s: F.Session, now: Option<F.Session>, n: nat) {
    exists fed, junk :: HandledBy(s, now, n, fed, junk)
  }

  ghost predicate HandledBy(s: F.Session, now: Option<F.Session>, n: nat, fed: seq<byte>, junk: seq<byte>) {
    && F.Valid(s, n) && s.open && F.FrameStream(s.past + fed, n)
    && var t := S.Drain(s, fed, n, junk);
       now == if t.open then Some(t) else None
  }

  /** The bytes of a connection. */
  datatype Wire = Wire(taken: seq<byte>, sent: seq<byte>, queue: seq<byte>, wire: seq<byte>)

  const NO_WIRE := Wire([], [], [], [])

  /** All there is to a slot; `dry` says that its connection has nothing left to read. */
  datatype SlotView = SlotView(
    sock: int, size: nat, holder: Request, request: F.Request, msg: array?<byte>, conn: Socket?, bytes: Wire, dry: bool)

  /** FD_SETSIZE zeroed requests. */
  method ZeroedRequests() returns (rs: array<Request>)
    ensures fresh(rs) && rs.Length == FD_SETSIZE
    ensures forall j | 0 <= j < FD_SETSIZE ::
              && fresh(rs[j]) && fresh(rs[j].partial) && rs[j].Shape() && rs[j].View() == F.FRESH && rs[j].msg == null
    ensures forall j, k | 0 <= j < k < FD_SETSIZE :: rs[j] != rs[k] && rs[j].partial != rs[k].partial
  {
    var zeroed := new Request();
    rs := new Request[FD_SETSIZE](_ => zeroed);
    for i := 0 to FD_SETSIZE
      invariant forall j | 0 <= j < i ::
          && fresh(rs[j]) && fresh(rs[j].partial) && rs[j].Shape() && rs[j].View() == F.FRESH && rs[j].msg == null
      invariant forall j, k | 0 <= j < k < i :: rs[j] != rs[k] && rs[j].partial != rs[k].partial
    {
      rs[i] := new Request();
    }
  }

  /** How many bytes the client in the slot has sent. */
  function SentBy(v: SlotView): nat {
    |v.bytes.taken| + |v.bytes.queue| + |v.bytes.wire|
  }

  ghost function SessionOf(v: SlotView): Option<F.Session> {
    if v.sock != -1 && v.conn != null then Some(F.Session(v.bytes.taken, v.request, v.bytes.sent, true)) else None
  }

  /** The client in the slot is where it would be had nothing happened but its own readings. */
  ghost predicate AsAlone(v: SlotView, rs: seq<I.Reading>) {
    SessionOf(v).Some? ==> I.Alone(v.size, rs) == SessionOf(v)
  }

  /** What one turn makes of a client that select reported, if handle_request does not fail. */
  ghost predicate TakenCareOf(before: SlotView, after: SlotView) {
    && (after.sock != -1 ==> after.conn == before.conn && after.dry)
    && (SessionOf(before).Some? ==> Handled(SessionOf(before).value, SessionOf(after), before.size))
  }

  /** handle_request has failed, for want of a reliable connection, and freed the slot. */
  predicate GaveUp(before: SlotView, after: SlotView) {
    before.conn != null && !before.conn.reliable && after.sock == -1
  }

  /** The log lines of the slots below i that `called` emptied: each client's total, in the order of the slots. */
  function Lines(before: seq<SlotView>, now: seq<SlotView>, called: set<nat>, i: nat): (lines: seq<nat>)
    requires i <= |before| == |now|
  {
    if i == 0 then []
    else
      var j := i - 1;
      Lines(before, now, called, j) + if j in called && now[j].sock == -1 then [SentBy(before[j])] else []
  }

  lemma {:induction false} LinesSame(
      before: seq<SlotView>, now: seq<SlotView>, next: seq<SlotView>, called: set<nat>, more: set<nat>, i: nat)
    requires i <= |before| == |now| == |next|
    requires forall j: nat | j < i :: next[j] == now[j] && (j in more <==> j in called)
    ensures Lines(before, next, more, i) == Lines(before, now, called, i)
  {
    if i > 0 { LinesSame(before, now, next, called, more, i - 1); }
  }

  /** Slots not called for leave no line. */
  lemma {:induction false} NoLines(before: seq<SlotView>, now: seq<SlotView>, i: nat, called: set<nat>, from: nat)
    requires from <= i <= |before| == |now| && forall j: nat | from <= j < i :: j !in called
    ensures Lines(before, now, called, i) == Lines(before, now, called, from)
    ensures Lines(before, now, called, 0) == []
    decreases i
  {
    if from < i { NoLines(before, now, i - 1, called, from); }
  }

  /** The slots the sweep calls handle_request for. */
  predicate Ready(slots: seq<SlotView>, selected: set<nat>, acceptor: nat, j: nat)
    requires j < |slots|
  {
    acceptor < j && j in selected && slots[j].sock != -1
  }

  function ReadySlots(slots: seq<SlotView>, selected: set<nat>, acceptor: nat, i: nat): set<nat> {
    set j: nat | j < i && j < |slots| && Ready(slots, selected, acceptor, j)
  }

  /** The sweep has done slots 0 .. i - 1: every client ready there, and nothing else. */
  ghost predicate Swept(before: seq<SlotView>, now: seq<SlotView>, selected: set<nat>, acceptor: nat, i: nat) {
    && |before| == |now|
    && forall j: nat | j < |now| ::
         if j < i && Ready(before, selected, acceptor, j) then TakenCareOf(before[j], now[j]) else now[j] == before[j]
  }

  /** The lines of those slots. */
  function SweptLines(
      before: seq<SlotView>, now: seq<SlotView>, selected: set<nat>, acceptor: nat, i: nat): (lines: seq<nat>)
    requires i <= |before| == |now|
  {
    Lines(before, now, ReadySlots(before, selected, acceptor, i), i)
  }

  lemma SweepStarts(before: seq<SlotView>, selected: set<nat>, acceptor: nat)
    requires acceptor < |before|
    ensures Swept(before, before, selected, acceptor, acceptor + 1)
    ensures SweptLines(before, before, selected, acceptor, acceptor + 1) == []
  {
    NoLines(before, before, acceptor + 1, ReadySlots(before, selected, acceptor, acceptor + 1), 0);
  }

  lemma SweptSoFar(before: seq<SlotView>, now: seq<SlotView>, selected: set<nat>, acceptor: nat, i: nat)
    requires Swept(before, now, selected, acceptor, i) && i < |now|
    ensures |before| == |now| && now[i] == before[i]
  {
  }

  lemma SweptNext(
      before: seq<SlotView>, now: seq<SlotView>, next: seq<SlotView>, selected: set<nat>, acceptor: nat, i: nat)
    requires Swept(before, now, selected, acceptor, i) && i < |before| == |now| == |next|
    requires forall j: nat | j < |now| && j != i :: next[j] == now[j]
    requires if Ready(before, selected, acceptor, i) then TakenCareOf(now[i], next[i]) else next[i] == now[i]
    ensures Swept(before, next, selected, acceptor, i + 1)
    ensures SweptLines(before, next, selected, acceptor, i + 1) ==
            SweptLines(before, now, selected, acceptor, i) +
            if Ready(before, selected, acceptor, i) && next[i].sock == -1 then [SentBy(now[i])] else []
  {
    hide TakenCareOf;
    assert now[i] == before[i];
    LinesSame(before, now, next, ReadySlots(before, selected, acceptor, i),
              ReadySlots(before, selected, acceptor, i + 1), i);
  }

  /**
   A turn of the loop: what select reported, the slots that handle_request was called for, the descriptors
   that accept returned, and the slot whose call failed, FD_SETSIZE if none did.
   */
  datatype TurnInfo = TurnInfo(selected: set<nat>, called: set<nat>, accepted: set<nat>, stop: nat)

  /** What a turn does to the table. */
  ghost predicate Turned(before: seq<SlotView>, after: seq<SlotView>, turn: TurnInfo, acceptor: nat) {
    && |before| == |after|
    && (forall j <- turn.accepted :: j < |before| ==> before[j].sock == -1)
    && turn.called == ReadySlots(before, turn.selected, acceptor, turn.stop + 1)
    && (forall j <- turn.called ::
          if j == turn.stop then GaveUp(before[j], after[j]) else TakenCareOf(before[j], after[j]))
    && (turn.stop < |before| ==> turn.stop in turn.called)
    && (forall j: nat | j < |before| && j !in turn.called && j !in turn.accepted :: after[j] == before[j])
  }

  /**
   Of the clients that select reports, exactly those above the listener's descriptor are handled; exactly
   they have, if there was something to read, ended or run dry. A turn that fails does so for the last of them.
   */
  lemma HandledExactlyAbove(before: seq<SlotView>, after: seq<SlotView>, turn: TurnInfo, acceptor: nat, fd: nat)
    requires Turned(before, after, turn, acceptor) && fd <= turn.stop
    requires fd < |before| && fd != acceptor && before[fd].sock != -1 && fd in turn.selected
    ensures fd in turn.called <==> acceptor < fd
    ensures !before[fd].dry ==> ((after[fd].sock == -1 || after[fd].dry) <==> acceptor < fd)
  {
  }

  lemma SweepStops(
      before: seq<SlotView>, now: seq<SlotView>, next: seq<SlotView>, selected: set<nat>, acceptor: nat, i: nat)
    requires Swept(before, now, selected, acceptor, i) && i < |now| == |next| && Ready(before, selected, acceptor, i)
    requires (forall j: nat | j < |now| && j != i :: next[j] == now[j]) && GaveUp(before[i], next[i])
    ensures var called := ReadySlots(before, selected, acceptor, i) + {i};
            && Turned(before, next, TurnInfo(selected, called, {}, i), acceptor)
            && Lines(before, next, called - {i}, |before|) == SweptLines(before, now, selected, acceptor, i)
  {
    hide TakenCareOf, GaveUp, Lines;
    var ready := ReadySlots(before, selected, acceptor, i);
    assert ready + {i} == ReadySlots(before, selected, acceptor, i + 1) && ready + {i} - {i} == ready;
    LinesSame(before, now, next, ready, ready, i);
    NoLines(before, next, |before|, ready, i);
  }

  lemma SweepEnds(before: seq<SlotView>, now: seq<SlotView>, selected: set<nat>, acceptor: nat)
    requires Swept(before, now, selected, acceptor, |before|)
    ensures var called := ReadySlots(before, selected, acceptor, |before|);
            && Turned(before, now, TurnInfo(selected, called, {}, |before|), acceptor)
            && Lines(before, now, called - {|before|}, |before|) ==
               SweptLines(before, now, selected, acceptor, |before|)
  {
    hide TakenCareOf;
    var called := ReadySlots(before, selected, acceptor, |before|);
    assert ReadySlots(before, selected, acceptor, |before| + 1) == called == called - {|before|};
  }

  /** The total of a line: k frames of n + 4 bytes and the zero size. */
  lemma TotalOfSession(taken: seq<byte>, n: nat)
    requires F.Complete(taken, n)
    ensures |taken| == F.Frames(|taken|, n) * (n + 4) + 4
  {
  }

  /** If the connections reported above the listener are reliable the turn does not fail: all of them are handled. */
  lemma ReliableTurnsGoOn(before: seq<SlotView>, after: seq<SlotView>, turn: TurnInfo, acceptor: nat)
    requires Turned(before, after, turn, acceptor)
    requires forall j: nat | j < |before| && Ready(before, turn.selected, acceptor, j) ::
               before[j].conn != null ==> before[j].conn.reliable
    ensures |before| <= turn.stop
  {
  }

  /** A client below it stays, over any sequence of turns, as it was added. */
  lemma {:induction false} LowClientStays(
      tables: seq<seq<SlotView>>, turns: seq<TurnInfo>, acceptor: nat, fd: nat, i: nat)
    requires |tables| == |turns| + 1 && i < |tables|
    requires forall k | 0 <= k < |turns| :: Turned(tables[k], tables[k + 1], turns[k], acceptor)
    requires fd < acceptor && fd < |tables[0]| && tables[0][fd].sock != -1
    ensures fd < |tables[i]| && tables[i][fd] == tables[0][fd]
  {
    if i == 0 {
      assert tables[i][fd] == tables[0][fd];
    } else {
      LowClientStays(tables, turns, acceptor, fd, i - 1);
      assert Turned(tables[i - 1], tables[i], turns[i - 1], acceptor);
    }
  }

  class Server {
    const acceptor: nat
    const socks: array<int>           // clients[i].sock
    const requests: array<Request>
    const conns: array<Socket?>       // the kernel's table: what lies behind a descriptor
    var maxFd: nat
    var connectedCount: nat
    var totalServed: nat
    var maxConcurrent: nat
    var log: seq<nat>
    ghost var closed: nat
    ghost var counts: seq<nat>        // connectedCount after every change
    ghost var sizes: seq<nat>         // the message size of each slot's client
    ghost var readings: seq<seq<I.Reading>>   // what the calls for each slot's client have read, one by one

    ghost function CountersNow(): Counters
      reads this`connectedCount, this`totalServed, this`maxConcurrent, this`maxFd, this`closed, this`counts
    {
      Counters(connectedCount, totalServed, maxConcurrent, maxFd, closed, counts)
    }

    ghost predicate Tables()
      reads this`sizes
    {
      && socks.Length == requests.Length == conns.Length == |sizes| == FD_SETSIZE
      && acceptor < FD_SETSIZE
    }

    predicate InUse(i: nat)
      requires i < socks.Length
      reads socks
    {
      i != acceptor && socks[i] != -1
    }

    /** A free slot's request is zeroed, a used one is where the bytes read so far put it. */
    ghost predicate SlotOk(i: nat)
      requires Tables() && i < FD_SETSIZE
      reads this`sizes, socks, requests, conns, requests[i], requests[i].partial, requests[i].msg, conns[i]
    {
      var r := requests[i];
      && r.Shape()
      && if InUse(i) then conns[i] != null && r.Ready(conns[i], sizes[i]) else r.View() == F.FRESH && r.msg == null
    }

    /** No two slots share an object. */
    ghost predicate Distinct(i: nat, j: nat)
      requires Tables() && i < FD_SETSIZE && j < FD_SETSIZE
      reads this`sizes, requests, conns, requests[i], requests[j]
    {
      var r, q := requests[i], requests[j];
      && r != q && r.partial != q.partial && r.partial != q.msg && q.partial != r.msg
      && (r.msg != null ==> r.msg != q.msg) && (conns[i] != null ==> conns[i] != conns[j])
    }

    ghost predicate SlotsOk()
      reads *
    {
      && Tables()
      && (forall i: nat | i < FD_SETSIZE :: SlotOk(i))
      && (forall i: nat, j: nat | i < FD_SETSIZE && j < FD_SETSIZE && i != j :: Distinct(i, j))
    }

    /** Isolation: each client is where a server without any other client would be, given its own readings. */
    ghost predicate Isolated()
      reads *
    {
      IsolatedBut(acceptor)
    }

    ghost predicate IsolatedBut(o: nat)
      reads *
    {
      && Tables() && |readings| == FD_SETSIZE
      && forall i: nat | i < FD_SETSIZE && i != acceptor && i != o :: AsAlone(SlotAt(i), readings[i])
    }

    lemma SlotFacts(i: nat)
      requires SlotsOk() && i < FD_SETSIZE
      ensures Tables() && SlotOk(i) && forall j: nat | j < FD_SETSIZE && j != i :: Distinct(i, j)
    {
      assert SlotOk(i);
    }

    lemma ClientFacts(i: nat)
      requires Valid() && i < FD_SETSIZE && InUse(i)
      ensures Tables() && SlotOk(i) && |readings| == FD_SETSIZE
      ensures I.Alone(sizes[i], readings[i]) == SessionAt(i)
    {
      assert SlotOk(i) && AsAlone(SlotAt(i), readings[i]);
    }

    lemma NewClientIsAlone(i: nat)
      requires Tables() && i < FD_SETSIZE && SlotOk(i) && SessionAt(i) == Some(F.NEW) && InUse(i)
      ensures AsAlone(SlotAt(i), [])
    {
    }

    lemma CalledClientIsAlone(i: nat, result: Result, sock: Socket, rs: seq<I.Reading>)
      requires Tables() && i < FD_SETSIZE && i != acceptor && InUse(i) == result.StillOpen?
      requires result.StillOpen? ==> conns[i] == sock && TakenOn(I.Alone(sizes[i], rs), result, sock, requests[i])
      ensures AsAlone(SlotAt(i), rs)
    {
    }

    twostate lemma IsolatedOthers(i: nat)
      requires old(Isolated()) && Tables() && readings == old(readings)
      requires forall o: nat | o < FD_SETSIZE && o != i :: SlotAt(o) == old(SlotAt(o))
      ensures IsolatedBut(i)
    {
    }

    /** The history of slot i goes on. */
    ghost method Record(i: nat, rs: seq<I.Reading>)
      requires SlotsOk() && Accounts(CountersNow(), socks[..], acceptor)
      requires IsolatedBut(i) && i < FD_SETSIZE && AsAlone(SlotAt(i), rs)
      modifies this`readings
      ensures Valid() && readings == old(readings)[i := rs]
    {
      hide SlotOk, Distinct, Accounts, AsAlone;
      readings := readings[i := rs];
    }

    ghost predicate Valid()
      reads *
    {
      Tables() && SlotsOk() && Accounts(CountersNow(), socks[..], acceptor) && Isolated()
    }

    /** The connection in slot i as Framing sees it. */
    ghost function SessionAt(i: nat): Option<F.Session>
      requires Tables() && i < FD_SETSIZE
      reads this`sizes, socks, requests, conns, requests[i], requests[i].partial, requests[i].msg, conns[i]
    {
      if InUse(i) && conns[i] != null then Some(requests[i].Session(conns[i], true)) else None
    }

    /** All there is to slot i. */
    ghost function SlotAt(i: nat): SlotView
      requires Tables() && i < FD_SETSIZE
      reads this`sizes, socks, requests, conns, requests[i], requests[i].partial, requests[i].msg, conns[i]
    {
      SlotView(socks[i], sizes[i], requests[i], requests[i].View(), requests[i].msg, conns[i],
               if conns[i] == null then NO_WIRE else Wire(conns[i].taken, conns[i].sent, conns[i].queue, conns[i].wire),
               conns[i] == null || conns[i].Dry())
    }

    twostate lemma SlotKept(j: nat)
      requires old(Tables()) && Tables() && j < FD_SETSIZE && old(SlotOk(j))
      requires SlotAt(j) == old(SlotAt(j))
      ensures SlotOk(j) && SessionAt(j) == old(SessionAt(j))
    {
    }

    /**
     The do-while loop of handle_request for the client in slot i, which had read `rs` before: no other slot
     is concerned, and the bytes read decide everything.
     */
    method Serve(i: nat, junk: seq<byte>, ghost rs: seq<I.Reading>) returns (result: Result, ghost reading: I.Reading)
      requires Tables() && i < FD_SETSIZE && SlotOk(i) && InUse(i)
      requires I.Alone(sizes[i], rs) == SessionAt(i)
      requires forall j: nat | j < FD_SETSIZE && j != i :: Distinct(i, j)
      modifies requests[i], requests[i].partial, requests[i].msg, conns[i]
      ensures forall j: nat | j < FD_SETSIZE && j != i :: SlotAt(j) == old(SlotAt(j)) && Distinct(i, j)
      ensures Served(i, result) && reading.junk == junk
      ensures result.Closed? ==> result.total == |conns[i].taken| == |old(conns[i].History())|
      ensures !result.Aborted? ==>
                && TakenOn(I.Alone(sizes[i], rs + [reading]), result, conns[i], requests[i])
                && Handled(old(SessionAt(i)).value, Now(result, conns[i], requests[i]), sizes[i])
    {
      ghost var s := SessionAt(i).value;
      result := Run(i, junk);
      reading := I.Reading([], junk);
      if !result.Aborted? {
        reading := I.Reading(Since(s.past, conns[i].taken), junk);
        DrainedIsTakenOn(s, conns[i], sizes[i], rs, junk, result, requests[i]);
        TotalIsTaken(I.Alone(sizes[i], rs + [reading]), conns[i], sizes[i], result, requests[i]);
      }
    }

    /** The call on the slot's objects. */
    method Run(i: nat, junk: seq<byte>) returns (result: Result)
      requires Tables() && i < FD_SETSIZE && SlotOk(i) && InUse(i)
      requires forall j: nat | j < FD_SETSIZE && j != i :: Distinct(i, j)
      modifies requests[i], requests[i].partial, requests[i].msg, conns[i]
      ensures forall j: nat | j < FD_SETSIZE && j != i :: SlotAt(j) == old(SlotAt(j)) && Distinct(i, j)
      ensures Served(i, result) && conns[i].History() == old(conns[i].History())
      ensures !result.Aborted? ==> Drained(old(SessionAt(i)).value, conns[i], sizes[i], junk, result, requests[i])
    {
      hide F.Complete, F.Valid, F.FrameStream, S.Drain;
      result := requests[i].Handle(conns[i], junk, sizes[i]);
      forall j: nat | j < FD_SETSIZE && j != i ensures SlotAt(j) == old(SlotAt(j)) && Distinct(i, j) {
        assert old(Distinct(i, j));
      }
    }

    /** A call that read some bytes does what Drain says. */
    ghost predicate Drained(s: F.Session, sock: Socket, n: nat, junk: seq<byte>, result: Result, r: Request)
      reads sock, r, r.partial, r.msg
    {
      && F.Valid(s, n) && s.open && s.past <= sock.taken
      && var fed := Since(s.past, sock.taken);
         F.FrameStream(s.past + fed, n) &&
         var t := S.Drain(s, fed, n, junk);
         && sock.sent == t.sent && t.open == result.StillOpen?
         && (if t.open then r.View() == t.req else result == Closed(t.req.transferred))
    }

    /** What a call leaves in slot i. */
    ghost predicate Served(i: nat, result: Result)
      requires Tables() && i < FD_SETSIZE
      reads this`sizes, socks, requests, conns, requests[i], requests[i].partial, requests[i].msg, conns[i]
    {
      var r, sock, n := requests[i], conns[i], sizes[i];
      && r.Shape() && sock != null
      && (result.StillOpen? ==> r.Ready(sock, n) && sock.Dry())
      && (result.Closed? ==> sock.Pending() == [] && F.Complete(sock.taken, n))
      && (!result.StillOpen? ==> r.View() == F.FRESH && r.msg == null)
      && (result.Aborted? ==> !sock.reliable)
    }

    /** The session after a call, None when it has ended. */
    ghost function Now(result: Result, sock: Socket, r: Request): Option<F.Session>
      reads sock, r, r.partial, r.msg
    {
      if result.StillOpen? then Some(r.Session(sock, true)) else None
    }

    /** After a call the connection has come as far as `t`, a client on its own with the same readings. */
    ghost predicate TakenOn(t: Option<F.Session>, result: Result, sock: Socket, r: Request)
      reads sock, r, r.partial, r.msg
    {
      && t.Some? && t.value.past == sock.taken && t.value.sent == sock.sent && t.value.open == result.StillOpen?
      && (if t.value.open then Now(result, sock, r) == t else result == Closed(t.value.req.transferred))
    }

    lemma DrainedIsTakenOn(
        s: F.Session, sock: Socket, n: nat, rs: seq<I.Reading>, junk: seq<byte>, result: Result, r: Request)
      requires Drained(s, sock, n, junk, result, r) && I.Alone(n, rs) == Some(s)
      ensures TakenOn(I.Alone(n, rs + [I.Reading(Since(s.past, sock.taken), junk)]), result, sock, r)
      ensures Handled(s, Now(result, sock, r), n)
    {
      var fed := Since(s.past, sock.taken);
      I.AloneOneMore(n, rs, s, fed, junk);
      assert HandledBy(s, Now(result, sock, r), n, fed, junk);
    }

    /** The total of a session that has ended is the number of bytes read. */
    lemma TotalIsTaken(t: Option<F.Session>, sock: Socket, n: nat, result: Result, r: Request)
      requires TakenOn(t, result, sock, r) && (t.Some? ==> F.Valid(t.value, n))
      ensures result.Closed? ==> result.total == |sock.taken|
    {
    }

    /** cleanup: the client's slot becomes free. */
    method Free(i: nat, result: Result)
      requires Tables() && i < FD_SETSIZE && InUse(i) && Accounts(CountersNow(), socks[..], acceptor)
      requires !result.StillOpen?
      modifies this`connectedCount, this`log, this`closed, this`counts, socks, conns
      ensures Tables() && Accounts(CountersNow(), socks[..], acceptor) && 0 < old(connectedCount)
      ensures CountersNow() == Removed(old(CountersNow()))
      ensures log == old(log) + (if result.Closed? then [result.total] else []) && !InUse(i) && conns[i] == null
      ensures forall j: nat | j < FD_SETSIZE && j != i :: SlotAt(j) == old(SlotAt(j))
    {
      hide Accounts, Handled;
      AccountsRemoved(CountersNow(), socks[..], acceptor, i);
      connectedCount := connectedCount - 1;
      closed, counts := closed + 1, counts + [connectedCount];
      if result.Closed? {
        log := log + [result.total];
      }
      conns[i] := null;
      ghost var before := socks[..];
      socks[i] := -1;
      assert socks[..] == before[i := -1];
    }

    /** A change confined to slot i keeps the slots in order. */
    twostate lemma SlotsKept(i: nat)
      requires old(SlotsOk()) && Tables() && i < FD_SETSIZE && SlotOk(i)
      requires forall o: nat | o < FD_SETSIZE && o != i :: SlotAt(o) == old(SlotAt(o)) && Distinct(i, o)
      ensures SlotsOk()
    {
      forall j: nat | j < FD_SETSIZE ensures SlotOk(j) {
        if j != i { SlotKept(j); }
      }
      forall k: nat, l: nat | k < FD_SETSIZE && l < FD_SETSIZE && k != l ensures Distinct(k, l) {
        if k == i {
          assert Distinct(i, l);
        } else if l == i {
          assert Distinct(i, k);
        } else {
          assert old(Distinct(k, l)) && SlotAt(k) == old(SlotAt(k)) && SlotAt(l) == old(SlotAt(l));
        }
      }
    }

    /** The body of handle_request for the client in slot i, which had read `rs` before. */
    method Call(i: nat, junk: seq<byte>, ghost rs: seq<I.Reading>) returns (result: Result, ghost reading: I.Reading)
      requires SlotsOk() && Accounts(CountersNow(), socks[..], acceptor) && i < FD_SETSIZE && InUse(i)
      requires I.Alone(sizes[i], rs) == SessionAt(i)
      modifies this`connectedCount, this`log, this`closed, this`counts, socks, conns
      modifies requests[i], requests[i].partial, requests[i].msg, conns[i]
      ensures SlotsOk() && Accounts(CountersNow(), socks[..], acceptor) && old(SlotOk(i)) && 0 < old(connectedCount)
      ensures forall j: nat | j < FD_SETSIZE && j != i :: SlotAt(j) == old(SlotAt(j))
      ensures CountersNow() == if result.StillOpen? then old(CountersNow()) else Removed(old(CountersNow()))
      ensures Grew(old(CountersNow()), CountersNow())
      ensures log == old(log) + if result.Closed? then [|old(conns[i].History())|] else []
      ensures result.Closed? ==> |old(conns[i].History())| == |old(conns[i]).taken|
      ensures InUse(i) == result.StillOpen?
      ensures result.StillOpen? ==> conns[i] == old(conns[i]) && old(conns[i]).Dry()
      ensures result.Closed? ==> F.Complete(old(conns[i]).taken, sizes[i])
      ensures result.Aborted? ==> !old(conns[i]).reliable
      ensures reading.junk == junk
      ensures !result.Aborted? ==>
                && TakenOn(I.Alone(sizes[i], rs + [reading]), result, old(conns[i]), requests[i])
                && Handled(old(SessionAt(i)).value, SessionAt(i), sizes[i])
    {
      hide SlotsOk, Accounts, Handled, TakenOn, F.Complete, F.Valid, F.FrameStream;
      SlotFacts(i);
      AccountsRemoved(CountersNow(), socks[..], acceptor, i);
      result, reading := Serve(i, junk, rs);
      if !result.StillOpen? {
        Free(i, result);
      }
      assert SlotOk(i);
      SlotsKept(i);
    }

    /**
     handle_request for the client in slot i; it returns -1 when the result is Aborted. What the call has
     read takes the client on as if it were the only one, to the end of its input or of its session.
     */
    method HandleRequest(i: nat, junk: seq<byte>) returns (result: Result, ghost reading: I.Reading)
      requires Valid() && i < FD_SETSIZE && InUse(i)
      modifies this`connectedCount, this`log, this`closed, this`counts, this`readings, socks, conns
      modifies requests[i], requests[i].partial, requests[i].msg, conns[i]
      ensures Valid() && old(SlotOk(i)) && 0 < old(connectedCount)
      ensures forall j: nat | j < FD_SETSIZE && j != i :: SlotAt(j) == old(SlotAt(j))
      ensures CountersNow() == if result.StillOpen? then old(CountersNow()) else Removed(old(CountersNow()))
      ensures Grew(old(CountersNow()), CountersNow())
      ensures log == old(log) + if result.Closed? then [|old(conns[i].History())|] else []
      ensures result.Closed? ==> |old(conns[i].History())| == |old(conns[i]).taken|
      ensures InUse(i) == result.StillOpen?
      ensures result.StillOpen? ==> conns[i] == old(conns[i]) && old(conns[i]).Dry()
      ensures result.Closed? ==> F.Complete(old(conns[i]).taken, sizes[i])
      ensures result.Aborted? ==> !old(conns[i]).reliable
      ensures reading.junk == junk && readings == old(readings)[i := old(readings[i]) + [reading]]
      ensures !result.Aborted? ==>
                && TakenOn(I.Alone(sizes[i], readings[i]), result, old(conns[i]), requests[i])
                && Handled(old(SessionAt(i)).value, SessionAt(i), sizes[i])
    {
      hide SlotsOk, Isolated, IsolatedBut, AsAlone, TakenOn, Accounts, Handled, F.Complete, F.Valid, F.FrameStream;
      ClientFacts(i);
      ghost var rs, sock := readings[i], conns[i];
      result, reading := Call(i, junk, rs);
      CalledClientIsAlone(i, result, sock, rs + [reading]);
      IsolatedOthers(i);
      Record(i, rs + [reading]);
    }

    /** select_server_start up to its loop: an empty table but for the listener. */
    constructor (acceptor: nat)
      requires acceptor < FD_SETSIZE
      ensures Valid() && this.acceptor == acceptor && log == [] && fresh(socks) && fresh(conns)
      ensures CountersNow() == Counters(0, 0, 0, acceptor, 0, [0])
      ensures forall i: nat | i < FD_SETSIZE ::
                && fresh(requests[i]) && fresh(requests[i].partial) && requests[i].msg == null
                && conns[i] == null && socks[i] == if i == acceptor then acceptor else -1
    {
      this.acceptor := acceptor;
      maxFd, connectedCount, totalServed, maxConcurrent, log := acceptor, 0, 0, 0, [];
      closed, counts, sizes, readings := 0, [0], seq(FD_SETSIZE, _ => 0), seq(FD_SETSIZE, _ => []);
      socks := new int[FD_SETSIZE](i => if i == acceptor then acceptor else -1);
      conns := new Socket?[FD_SETSIZE](_ => null);
      var zeroed := ZeroedRequests();
      requests := zeroed;
      new;
      assert Live(socks[..], acceptor) == {};
      assert Maximum([0]) == 0;
      assert SlotsOk() by {
        forall i: nat | i < FD_SETSIZE ensures SlotOk(i) { }
      }
    }

    /** One client more is counted. */
    method CountIn()
      modifies this`totalServed, this`connectedCount, this`maxConcurrent, this`counts
      ensures CountersNow() == Added(old(CountersNow()), 0).(maxFd := maxFd)
    {
      totalServed := totalServed + 1;
      connectedCount := connectedCount + 1;
      counts := counts + [connectedCount];
      if connectedCount > maxConcurrent {
        maxConcurrent := connectedCount;
      }
    }

    /** The stores of Register. */
    method Enter(fd: nat, sock: Socket, ghost n: nat)
      requires Tables() && fd < FD_SETSIZE
      modifies this`sizes, this`maxFd, socks, conns
      ensures Tables() && socks[..] == old(socks[..])[fd := fd] && conns[fd] == sock && sizes[fd] == n
      ensures maxFd == if old(maxFd) < fd then fd else old(maxFd)
      ensures forall j: nat | j < FD_SETSIZE && j != fd :: SlotAt(j) == old(SlotAt(j))
    {
      conns[fd], sizes := sock, sizes[fd := n];
      ghost var before := socks[..];
      socks[fd] := fd;
      if fd > maxFd {
        maxFd := fd;
      }
      assert socks[..] == before[fd := fd];
    }

    /** clients[client.sock] = client. */
    method Register(fd: nat, sock: Socket, ghost n: nat)
      requires SlotsOk() && fd < FD_SETSIZE && fd != acceptor && socks[fd] == -1
      requires (forall i: nat | i < FD_SETSIZE :: conns[i] != sock) && NewConnection(sock, n)
      modifies this`sizes, this`maxFd, socks, conns
      ensures SlotsOk() && socks[..] == old(socks[..])[fd := fd]
      ensures maxFd == if old(maxFd) < fd then fd else old(maxFd)
      ensures conns[fd] == sock && InUse(fd) && socks[fd] == fd && SessionAt(fd) == Some(F.NEW) && sizes[fd] == n
      ensures forall j: nat | j < FD_SETSIZE && j != fd :: SlotAt(j) == old(SlotAt(j))
    {
      hide SlotsOk, F.Valid, F.FrameStream;
      F.NewIsValid(n);
      SlotFacts(fd);
      Enter(fd, sock, n);
      assert SlotOk(fd);
      forall j: nat | j < FD_SETSIZE && j != fd ensures Distinct(fd, j) {
        assert old(Distinct(fd, j)) && SlotAt(j) == old(SlotAt(j));
      }
      SlotsKept(fd);
    }

    /** select_server_add_client, but for the history. */
    method Admit(fd: nat, sock: Socket, ghost n: nat)
      requires SlotsOk() && Accounts(CountersNow(), socks[..], acceptor)
      requires fd < FD_SETSIZE && fd != acceptor && socks[fd] == -1
      requires (forall i: nat | i < FD_SETSIZE :: conns[i] != sock) && NewConnection(sock, n)
      modifies this`totalServed, this`connectedCount, this`maxConcurrent, this`maxFd, this`counts
      modifies this`sizes, socks, conns
      ensures SlotsOk() && Accounts(CountersNow(), socks[..], acceptor)
      ensures CountersNow() == Added(old(CountersNow()), fd) && Grew(old(CountersNow()), CountersNow())
      ensures conns[fd] == sock && InUse(fd) && socks[fd] == fd && SessionAt(fd) == Some(F.NEW) && sizes[fd] == n
      ensures forall j: nat | j < FD_SETSIZE && j != fd :: SlotAt(j) == old(SlotAt(j))
    {
      hide SlotOk, Distinct, Accounts, F.FrameStream, F.Valid;
      AccountsAdded(CountersNow(), socks[..], acceptor, fd);
      CountIn();
      Register(fd, sock, n);
    }

    /** select_server_add_client. The descriptor is one that accept has just returned, below FD_SETSIZE. */
    method AddClient(fd: nat, sock: Socket, ghost n: nat)
      requires Valid() && fd < FD_SETSIZE && fd != acceptor && socks[fd] == -1
      requires (forall i: nat | i < FD_SETSIZE :: conns[i] != sock) && NewConnection(sock, n)
      modifies this`totalServed, this`connectedCount, this`maxConcurrent, this`maxFd, this`counts
      modifies this`sizes, this`readings, socks, conns
      ensures Valid() && CountersNow() == Added(old(CountersNow()), fd) && Grew(old(CountersNow()), CountersNow())
      ensures conns[fd] == sock && InUse(fd) && socks[fd] == fd && SessionAt(fd) == Some(F.NEW)
      ensures readings == old(readings)[fd := []]
      ensures forall j: nat | j < FD_SETSIZE && j != fd :: SlotAt(j) == old(SlotAt(j))
    {
      hide SlotsOk, Isolated, IsolatedBut, AsAlone, Accounts, F.Valid, F.FrameStream;
      Admit(fd, sock, n);
      SlotFacts(fd);
      NewClientIsAlone(fd);
      IsolatedOthers(fd);
      Record(fd, []);
    }

    /** A connection nothing has been read from; its stream is of one message size. */
    ghost predicate NewConnection(sock: Socket, n: nat)
      reads sock
    {
      && 1 <= n < U32_LIMIT && !sock.blocking && sock.taken == [] && sock.sent == []
      && F.FrameStream(sock.History(), n)
    }

    /** register_fds. */
    method RegisterFds() returns (fds: set<nat>)
      requires Valid()
      ensures fds == set i: nat | i < FD_SETSIZE && socks[i] != -1
      ensures acceptor in fds && forall fd <- fds :: fd <= maxFd
    {
      fds := {acceptor};
      for i: nat := 0 to FD_SETSIZE
        invariant fds == {acceptor} + set j: nat | j < i && socks[j] != -1
      {
        if socks[i] != -1 {
          fds := fds + {socks[i] as nat};
        }
      }
    }

    /** A descriptor the kernel may hand out now. */
    ghost predicate Acceptable(a: Arrival)
      requires Tables()
      reads this`sizes, socks, conns, a.sock
    {
      && a.fd < FD_SETSIZE && a.fd != acceptor && socks[a.fd] == -1
      && (forall i: nat | i < FD_SETSIZE :: conns[i] != a.sock) && NewConnection(a.sock, a.n)
    }

    ghost predicate IsNew(a: Arrival)
      requires Tables()
      reads this`sizes, socks, requests, conns
      reads set i: nat | i < FD_SETSIZE :: requests[i]
      reads set i: nat | i < FD_SETSIZE :: requests[i].partial
      reads set i: nat | i < FD_SETSIZE && requests[i].msg != null :: requests[i].msg
      reads set i: nat | i < FD_SETSIZE && conns[i] != null :: conns[i]
    {
      a.fd < FD_SETSIZE && InUse(a.fd) && conns[a.fd] == a.sock && SessionAt(a.fd) == Some(F.NEW)
    }

    twostate lemma StillNew(a: Arrival)
      requires old(Tables()) && Tables() && a.fd < FD_SETSIZE && old(IsNew(a)) && SlotAt(a.fd) == old(SlotAt(a.fd))
      ensures IsNew(a)
    {
    }

    /** One more arrival is added. */
    method AcceptOne(arrivals: seq<Arrival>, k: nat)
      requires Valid() && k < |arrivals| && AllDifferent(arrivals)
      requires forall l | k <= l < |arrivals| :: Acceptable(arrivals[l])
      requires forall l | 0 <= l < k :: IsNew(arrivals[l])
      modifies this`totalServed, this`connectedCount, this`maxConcurrent, this`maxFd, this`counts
      modifies this`sizes, this`readings, socks, conns
      ensures Valid() && totalServed == old(totalServed) + 1 && Grew(old(CountersNow()), CountersNow())
      ensures forall l | k < l < |arrivals| :: Acceptable(arrivals[l])
      ensures forall l | 0 <= l <= k :: IsNew(arrivals[l])
      ensures forall j: nat | j < FD_SETSIZE && j != arrivals[k].fd :: SlotAt(j) == old(SlotAt(j))
    {
      hide SlotsOk, Isolated, Accounts;
      ghost var fd := arrivals[k].fd;
      assert Acceptable(arrivals[k]);
      AddClient(arrivals[k].fd, arrivals[k].sock, arrivals[k].n);
      forall l | k < l < |arrivals| ensures Acceptable(arrivals[l]) {
        assert old(Acceptable(arrivals[l]));
        assert SlotAt(arrivals[l].fd) == old(SlotAt(arrivals[l].fd));
        forall i: nat | i < FD_SETSIZE ensures conns[i] != arrivals[l].sock {
          if i != fd { assert SlotAt(i) == old(SlotAt(i)); }
        }
      }
      forall l | 0 <= l < k ensures IsNew(arrivals[l]) {
        assert old(IsNew(arrivals[l]));
        assert SlotAt(arrivals[l].fd) == old(SlotAt(arrivals[l].fd));
      }
    }

    /** The accept loop: everything that has queued up is added, until accept would block. */
    method AcceptAll(arrivals: seq<Arrival>)
      requires Valid() && AllDifferent(arrivals) && forall k | 0 <= k < |arrivals| :: Acceptable(arrivals[k])
      modifies this`totalServed, this`connectedCount, this`maxConcurrent, this`maxFd, this`counts
      modifies this`sizes, this`readings, socks, conns
      ensures Valid() && totalServed == old(totalServed) + |arrivals| && closed == old(closed) && log == old(log)
      ensures Grew(old(CountersNow()), CountersNow())
      ensures forall k | 0 <= k < |arrivals| :: IsNew(arrivals[k])
      ensures forall j: nat | j < FD_SETSIZE && j !in Fds(arrivals) :: SlotAt(j) == old(SlotAt(j))
    {
      hide SlotsOk, Isolated, Accounts;
      for k := 0 to |arrivals|
        invariant Valid() && totalServed == old(totalServed) + k && closed == old(closed) && log == old(log)
        invariant Grew(old(CountersNow()), CountersNow())
        invariant forall l | k <= l < |arrivals| :: Acceptable(arrivals[l])
        invariant forall l | 0 <= l < k :: IsNew(arrivals[l])
        invariant forall j: nat | j < FD_SETSIZE && j !in Fds(arrivals[..k]) :: SlotAt(j) == old(SlotAt(j))
      {
        AcceptOne(arrivals, k);
      }
      assert arrivals[..|arrivals|] == arrivals;
    }

    ghost function Slots(): (slots: seq<SlotView>)
      requires Tables()
      reads *
      ensures |slots| == FD_SETSIZE && forall i: nat | i < FD_SETSIZE :: slots[i] == SlotAt(i)
    {
      seq(FD_SETSIZE, i requires 0 <= i < FD_SETSIZE && Tables() reads * => SlotAt(i))
    }

    /** The body of the sweep for a client that is ready. */
    method SweepOne(i: nat) returns (ok: bool)
      requires Valid() && i < FD_SETSIZE && InUse(i)
      modifies this`connectedCount, this`log, this`closed, this`counts, this`readings, socks, conns
      modifies requests[i], requests[i].partial, requests[i].msg, conns[i]
      ensures Valid() && Grew(old(CountersNow()), CountersNow()) && totalServed == old(totalServed)
      ensures forall j: nat | j < FD_SETSIZE && j != i :: SlotAt(j) == old(SlotAt(j))
      ensures if ok then TakenCareOf(old(SlotAt(i)), SlotAt(i)) else GaveUp(old(SlotAt(i)), SlotAt(i))
      ensures closed == old(closed) + (if InUse(i) then 0 else 1) && (!ok ==> !InUse(i))
      ensures log == old(log) + if ok && !InUse(i) then [SentBy(old(SlotAt(i)))] else []
    {
      hide SlotsOk, Isolated, Accounts, Handled, TakenOn;
      ClientFacts(i);
      var junk: seq<byte> := *;
      ghost var s, before := SessionAt(i), SlotAt(i);
      assert SentBy(before) == |conns[i].History()|;
      var result, reading := HandleRequest(i, junk);
      ok := !result.Aborted?;
      if ok {
        assert SessionOf(before) == s && SessionOf(SlotAt(i)) == SessionAt(i);
      }
    }

    /**
     The sweep over the descriptors above the listener's: handle_request is called for those that select
     reported, up to the first call that fails; no other slot is touched.
     */
    method Sweep(selected: set<nat>) returns (ok: bool, ghost called: set<nat>, ghost stop: nat)
      requires Valid()
      modifies this`connectedCount, this`log, this`closed, this`counts, this`readings, socks, conns
      modifies set i: nat | i < FD_SETSIZE :: requests[i]
      modifies set i: nat | i < FD_SETSIZE :: requests[i].partial
      modifies set i: nat | i < FD_SETSIZE && requests[i].msg != null :: requests[i].msg
      modifies set i: nat | i < FD_SETSIZE && conns[i] != null :: conns[i]
      ensures Valid() && Grew(old(CountersNow()), CountersNow()) && totalServed == old(totalServed)
      ensures ok <==> stop == FD_SETSIZE
      ensures Turned(old(Slots()), Slots(), TurnInfo(selected, called, {}, stop), acceptor)
      ensures log == old(log) + Lines(old(Slots()), Slots(), called - {stop}, FD_SETSIZE)
      ensures closed - old(closed) == |log| - |old(log)| + if ok then 0 else 1
    {
      hide SlotsOk, Isolated, Accounts, TakenCareOf, GaveUp, Lines, SentBy, Turned, Swept, ReadySlots;
      ghost var before := Slots();
      SweepStarts(before, selected, acceptor);
      for i: nat := acceptor + 1 to FD_SETSIZE
        invariant Valid() && totalServed == old(totalServed) && Grew(old(CountersNow()), CountersNow())
        invariant closed - old(closed) == |log| - |old(log)|
        invariant Swept(before, Slots(), selected, acceptor, i)
        invariant log == old(log) + SweptLines(before, Slots(), selected, acceptor, i)
      {
        ghost var now := Slots();
        SweptSoFar(before, now, selected, acceptor, i);
        if socks[i] != -1 && i in selected {
          ok := SweepOne(i);
          if !ok {
            SweepStops(before, now, Slots(), selected, acceptor, i);
            return false, ReadySlots(before, selected, acceptor, i) + {i}, i;
          }
        }
        SweptNext(before, now, Slots(), selected, acceptor, i);
      }
      SweepEnds(before, Slots(), selected, acceptor);
      return true, ReadySlots(before, selected, acceptor, FD_SETSIZE), FD_SETSIZE;
    }

    /**
     The first half of a turn: select reports those of the registered descriptors that are in `readable`, and
     the queue of the listener is emptied if it is one of them.
     */
    method Poll(readable: set<nat>, arrivals: seq<Arrival>) returns (selected: set<nat>)
      requires Valid() && AllDifferent(arrivals) && forall k | 0 <= k < |arrivals| :: Acceptable(arrivals[k])
      modifies this`totalServed, this`connectedCount, this`maxConcurrent, this`maxFd, this`counts
      modifies this`sizes, this`readings, socks, conns
      ensures Valid() && selected == set i <- readable | i < FD_SETSIZE && old(socks[i]) != -1
      ensures Grew(old(CountersNow()), CountersNow()) && closed == old(closed) && log == old(log)
      ensures totalServed == old(totalServed) + if acceptor in selected then |arrivals| else 0
      ensures forall a <- arrivals ::
                a.fd < FD_SETSIZE && old(socks[a.fd]) == -1 && a.fd !in selected && (acceptor in selected ==> IsNew(a))
      ensures forall j: nat | j < FD_SETSIZE && (acceptor !in selected || j !in Fds(arrivals)) ::
                SlotAt(j) == old(SlotAt(j))
      ensures forall j: nat | j < FD_SETSIZE && conns[j] != null ::
                conns[j] == old(conns[j]) || exists a <- arrivals :: conns[j] == a.sock
    {
      hide SlotsOk, Isolated, Accounts;
      var fds := RegisterFds();
      selected := fds * readable;
      forall k | 0 <= k < |arrivals| ensures arrivals[k].fd < FD_SETSIZE && arrivals[k].fd !in selected {
        assert Acceptable(arrivals[k]);
      }
      if acceptor in selected {
        AcceptAll(arrivals);
      }
      forall j: nat | j < FD_SETSIZE && conns[j] != null
        ensures conns[j] == old(conns[j]) || exists a <- arrivals :: conns[j] == a.sock
      {
        if j in Fds(arrivals) {
          ghost var k :| 0 <= k < |arrivals| && arrivals[k].fd == j;
          if acceptor in selected { assert IsNew(arrivals[k]); }
        } else {
          assert SlotAt(j) == old(SlotAt(j));
        }
      }
    }

    /** One turn of select_server_start's loop. */
    method Turn(readable: set<nat>, arrivals: seq<Arrival>) returns (ok: bool, ghost turn: TurnInfo)
      requires Valid() && AllDifferent(arrivals) && forall k | 0 <= k < |arrivals| :: Acceptable(arrivals[k])
      modifies this, socks, conns
      modifies set i: nat | i < FD_SETSIZE :: requests[i]
      modifies set i: nat | i < FD_SETSIZE :: requests[i].partial
      modifies set i: nat | i < FD_SETSIZE && requests[i].msg != null :: requests[i].msg
      modifies set i: nat | i < FD_SETSIZE && conns[i] != null :: conns[i]
      modifies set a <- arrivals :: a.sock
      ensures Valid() && turn.selected == set i <- readable | i < FD_SETSIZE && old(socks[i]) != -1
      ensures turn.accepted == if acceptor in turn.selected then Fds(arrivals) else {}
      ensures (ok <==> turn.stop == FD_SETSIZE) && Turned(old(Slots()), Slots(), turn, acceptor)
      ensures totalServed == old(totalServed) + if acceptor in turn.selected then |arrivals| else 0
      ensures log == old(log) + Lines(old(Slots()), Slots(), turn.called - {turn.stop}, FD_SETSIZE)
      ensures closed - old(closed) == |log| - |old(log)| + if ok then 0 else 1
      ensures Grew(old(CountersNow()), CountersNow())
      ensures acceptor in turn.selected ==> forall a <- arrivals :: IsNew(a)
    {
      hide SlotsOk, Isolated, Accounts, TakenCareOf, GaveUp, Turned, Lines, IsNew;
      ghost var before := Slots();
      var selected := Poll(readable, arrivals);
      ghost var between, called, stop := Slots(), {}, 0;
      assert forall j: nat | j < FD_SETSIZE && j in selected :: j !in Fds(arrivals);
      label Polled:
      ok, called, stop := Sweep(selected);
      if acceptor in selected {
        forall a <- arrivals ensures IsNew(a) {
          NotCalled(between, Slots(), TurnInfo(selected, called, {}, stop), acceptor, a.fd);
          StillNew@Polled(a);
        }
      }
      turn := TurnInfo(selected, called, if acceptor in selected then Fds(arrivals) else {}, stop);
      SweepIsTurn(before, between, Slots(), turn, acceptor);
    }
  }

  lemma NotCalled(before: seq<SlotView>, after: seq<SlotView>, turn: TurnInfo, acceptor: nat, fd: nat)
    requires Turned(before, after, turn, acceptor) && fd < |before| && fd !in turn.selected && turn.accepted == {}
    ensures after[fd] == before[fd]
  {
  }

  /** An accept loop and a sweep make a turn. */
  lemma SweepIsTurn(
      before: seq<SlotView>, between: seq<SlotView>, after: seq<SlotView>, turn: TurnInfo, acceptor: nat)
    requires |before| == |between| == |after|
    requires forall j: nat | j < |before| && j !in turn.accepted :: between[j] == before[j]
    requires forall j <- turn.accepted :: j < |before| ==> before[j].sock == -1 && j !in turn.selected
    requires Turned(between, after, turn.(accepted := {}), acceptor)
    ensures Turned(before, after, turn, acceptor)
    ensures var lines := turn.called - {turn.stop};
            Lines(between, after, lines, |before|) == Lines(before, after, lines, |before|)
  {
    hide TakenCareOf, GaveUp, Lines;
    forall j: nat | j < |before| && j in turn.selected ensures between[j] == before[j] {
    }
    LinesOf(before, between, after, turn.called - {turn.stop}, |before|);
  }

  lemma {:induction false} LinesOf(
      before: seq<SlotView>, between: seq<SlotView>, after: seq<SlotView>, called: set<nat>, i: nat)
    requires i <= |before| == |between| == |after|
    requires forall j: nat | j < i && j in called :: between[j] == before[j]
    ensures Lines(between, after, called, i) == Lines(before, after, called, i)
  {
    if i > 0 { LinesOf(before, between, after, called, i - 1); }
  }

  /** Only slots 0 and 1 are in use: a client below the listener. */
  predicate OneLowClient(slots: seq<SlotView>, sock: Socket) {
    && |slots| == FD_SETSIZE && slots[0].sock == 0 && slots[0].conn == sock
    && forall i: nat | i < FD_SETSIZE ::
         && (1 < i ==> slots[i].sock == -1) && slots[i].msg == null
         && (slots[i].conn == null || slots[i].conn == sock)
  }

  ghost predicate OwnedBy(slots: seq<SlotView>, mine: set<object>) {
    forall slot <- slots :: slot.holder in mine && slot.holder.partial in mine
  }

  /** What the values of the slots say about the tables. */
  lemma TablesOf(server: Server, sock: Socket, mine: set<object>, i: nat)
    requires server.Tables() && i < FD_SETSIZE && OneLowClient(server.Slots(), sock) && OwnedBy(server.Slots(), mine)
    ensures server.requests[i].msg == null && (server.conns[i] == null || server.conns[i] == sock)
    ensures server.requests[i] in mine && server.requests[i].partial in mine
  {
    assert server.Slots()[i] == server.SlotAt(i) && server.Slots()[i] in server.Slots();
  }

  /** A turn that nobody joins leaves such a server as it was. */
  method IdleTurn(server: Server, sock: Socket, readable: set<nat>, ghost mine: set<object>)
    requires server.Valid() && server.acceptor == 1 && OneLowClient(server.Slots(), sock)
    requires {server, server.socks, server.conns, sock} <= mine && OwnedBy(server.Slots(), mine)
    modifies mine
    ensures server.Valid() && server.Slots() == old(server.Slots()) && server.totalServed == old(server.totalServed)
  {
    hide Server.SlotsOk, Server.Isolated, Accounts, TakenCareOf, OneLowClient, OwnedBy;
    ghost var before := server.Slots();
    forall i: nat | i < FD_SETSIZE
      ensures server.requests[i].msg == null && (server.conns[i] == null || server.conns[i] == sock)
      ensures server.requests[i] in mine && server.requests[i].partial in mine
    {
      TablesOf(server, sock, mine, i);
    }
    var ok;
    ghost var turn;
    ok, turn := server.Turn(readable, []);
    LeftAlone(before, server.Slots(), turn, sock);
  }

  lemma LeftAlone(before: seq<SlotView>, after: seq<SlotView>, turn: TurnInfo, sock: Socket)
    requires OneLowClient(before, sock) && Turned(before, after, turn, 1) && turn.accepted == {}
    ensures after == before
  {
    hide TakenCareOf;
    assert turn.called == {};
  }

  predicate NobodyIn(slots: seq<SlotView>) {
    && |slots| == FD_SETSIZE
    && forall i: nat | i < FD_SETSIZE ::
         (i != 1 ==> slots[i].sock == -1) && slots[i].msg == null && slots[i].conn == null
  }

  method EmptyServer() returns (server: Server, ghost mine: set<object>)
    ensures fresh(server) && fresh(mine) && server.Valid() && server.acceptor == 1 && server.totalServed == 0
    ensures NobodyIn(server.Slots()) && OwnedBy(server.Slots(), mine) && {server, server.socks, server.conns} <= mine
  {
    hide Server.SlotsOk, Server.Isolated, Accounts;
    server := new Server(1);
    mine := {server, server.socks, server.conns}
    + (set i: nat | i < FD_SETSIZE :: server.requests[i]) + (set i: nat | i < FD_SETSIZE :: server.requests[i].partial);
    ghost var slots := server.Slots();
    forall i: nat | i < FD_SETSIZE
      ensures (i != 1 ==> slots[i].sock == -1) && slots[i].msg == null && slots[i].conn == null
      ensures slots[i].holder in mine && slots[i].holder.partial in mine
    {
      assert slots[i] == server.SlotAt(i);
    }
  }

  lemma EmptyTables(server: Server)
    requires server.Tables() && NobodyIn(server.Slots())
    ensures forall i: nat | i < FD_SETSIZE :: server.conns[i] == null && (i != 1 ==> server.socks[i] == -1)
  {
    forall i: nat | i < FD_SETSIZE ensures server.conns[i] == null && (i != 1 ==> server.socks[i] == -1) {
      assert server.Slots()[i] == server.SlotAt(i);
    }
  }

  /** A connection whose peer has sent one message and the final size. */
  method SentSession(body: seq<byte>) returns (sock: Socket)
    requires 1 <= |body| < U32_LIMIT
    ensures fresh(sock) && !sock.blocking && sock.taken == [] && sock.sent == [] && sock.Pending() == S.Stream([body])
    ensures F.FrameStream(sock.History(), |body|)
  {
    sock := new Socket(S.Stream([body]), 0, false, false, true);
    S.StreamShape([body], |body|);
    assert sock.Pending() == sock.History() == S.Stream([body]);
  }

  /** The server of the next method before its loop. */
  method LowClient(body: seq<byte>) returns (server: Server, sock: Socket, ghost mine: set<object>)
    requires 1 <= |body| < U32_LIMIT
    ensures fresh(server) && fresh(mine) && server.Valid() && server.acceptor == 1
    ensures OneLowClient(server.Slots(), sock) && server.totalServed == 1
    ensures sock.taken == [] && sock.sent == [] && sock.Pending() == S.Stream([body])
    ensures {server, server.socks, server.conns, sock} <= mine && OwnedBy(server.Slots(), mine)
  {
    hide Server.SlotsOk, Server.Isolated, Accounts, NobodyIn, OneLowClient, OwnedBy, S.Stream, F.FrameStream;
    sock := SentSession(body);
    ghost var own;
    server, own := EmptyServer();
    ghost var empty := server.Slots();
    EmptyTables(server);
    server.AddClient(0, sock, |body|);
    mine := own + {sock};
    assert server.Slots()[0] == server.SlotAt(0);
    ClientAdded(empty, server.Slots(), sock, own, mine);
  }

  lemma ClientAdded(
      empty: seq<SlotView>, slots: seq<SlotView>, sock: Socket, own: set<object>, mine: set<object>)
    requires NobodyIn(empty) && |slots| == |empty| == FD_SETSIZE && OwnedBy(empty, own) && own <= mine
    requires forall i: nat | 0 < i < FD_SETSIZE :: slots[i] == empty[i]
    requires slots[0].sock == 0 && slots[0].conn == sock && slots[0].msg == null && slots[0].holder == empty[0].holder
    ensures OneLowClient(slots, sock) && OwnedBy(slots, mine)
  {
    forall slot | slot in slots ensures slot.holder in mine && slot.holder.partial in mine {
      var i :| 0 <= i < FD_SETSIZE && slots[i] == slot;
      assert empty[i] in empty && slot.holder == empty[i].holder;
    }
  }

  /**
   A server whose listener has descriptor 1, and a client on descriptor 0 that has sent a whole session:
   it is counted, and after any number of turns, whatever select reports, nothing has been read from it.
   */
  method ClientBelowListener(body: seq<byte>, turns: seq<set<nat>>) returns (server: Server)
    requires 1 <= |body| < U32_LIMIT
    ensures fresh(server) && server.Valid() && server.connectedCount == server.totalServed == 1
    ensures var v := server.SlotAt(0);
            v.sock == 0 && v.bytes.taken == [] && v.bytes.sent == [] && v.bytes.queue + v.bytes.wire == S.Stream([body])
  {
    hide Server.SlotsOk, Server.Isolated, Accounts, S.Stream;
    var sock;
    ghost var mine;
    server, sock, mine := LowClient(body);
    ghost var waiting := server.Slots();
    assert waiting[0] == server.SlotAt(0);
    for k := 0 to |turns|
      invariant server.Valid() && server.Slots() == waiting && server.totalServed == 1
    {
      IdleTurn(server, sock, turns[k], mine);
    }
    assert server.SlotAt(0) == waiting[0];
    OneConnected(server, sock);
  }

  lemma OneConnected(server: Server, sock: Socket)
    requires server.Valid() && server.acceptor == 1 && OneLowClient(server.Slots(), sock)
    ensures server.connectedCount == 1
  {
    hide Server.SlotsOk, Server.Isolated;
    var slots, socks := server.Slots(), server.socks[..];
    assert forall i: nat | i < FD_SETSIZE :: slots[i].sock == socks[i];
    assert Live(socks, 1) == {0};
  }
}
