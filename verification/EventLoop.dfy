/**
 The epoll server as a system: any number of clients, the kernel's queues and edge-triggered ready
 list, and the server, interleaved at single system calls.
 */
module EventLoop {
  import opened Bytes
  import opened Framing

  /** A client: its message size and every byte it has written so far. */
  datatype Client = Client(size: nat, written: seq<byte>)

  /**
   The kernel's side of a connection: the bytes that have arrived, how many of them recv has
   returned, the bytes send has accepted, how often send will still find its buffer full.
   */
  datatype Conn = Conn(client: nat, arrived: seq<byte>, read: nat, sent: seq<byte>, stalls: nat, registered: bool)

  /** An entry of epoll_clients, and the connection its descriptor stands for. */
  datatype Slot = Slot(req: Request, conn: Option<Conn>)

  /** A line of the log, and what had been echoed when it was written. */
  datatype Record = Record(client: nat, total: nat, echoed: seq<byte>)

  /** Where the server is: in epoll_wait, between events, in the accept loop, or in handle_request. */
  datatype Task =
    | Waiting
    | Between
    | Accepting
    | Adding(fd: nat)
    | Reading(fd: nat, got: nat)
    | Echoing(fd: nat, left: seq<byte>)

  /** History: where an accepted client is now. */
  datatype Place = InSlot(fd: nat) | InLog(index: nat)

  datatype State = State(
    clients: seq<Client>,
    backlog: seq<Conn>,        // the listener's queue, in order of arrival
    slots: seq<Slot>,          // by descriptor
    listener: nat,
    ready: set<nat>,           // descriptors with an edge pending
    todo: seq<nat>,            // the unprocessed part of events[]
    task: Task,
    log: seq<Record>,
    connected: nat,
    totalServed: nat,
    maxConcurrent: nat,
    places: seq<Place>)

  datatype Step =
    // clients and network
    | Connect(size: nat, stalls: nat)
    | Write(client: nat, bytes: seq<byte>)
    | ArriveQueued(index: nat, count: nat)
    | Arrive(fd: nat, count: nat)
    // kernel
    | Drop(fd: nat)
    // server
    | Wait(batch: seq<nat>)
    | Dispatch
    | Rest
    | Accept(fd: nat)
    | AcceptDry
    | Add
    | Recv(count: nat, junk: seq<byte>)
    | RecvDry(junk: seq<byte>)
    | Send(count: nat)
    | SendFull

  predicate IsServer(step: Step) {
    !step.Connect? && !step.Write? && !step.ArriveQueued? && !step.Arrive?
  }

  predicate Distinct(s: seq<nat>) {
    forall i, j | 0 <= i < j < |s| :: s[i] != s[j]
  }

  predicate Live(s: State, fd: nat) {
    fd < |s.slots| && s.slots[fd].conn.Some?
  }

  predicate Registered(s: State, fd: nat) {
    Live(s, fd) && s.slots[fd].conn.value.registered
  }

  /** handle_request is running for fd. */
  predicate Handling(s: State, fd: nat) {
    (s.task.Reading? || s.task.Echoing?) && s.task.fd == fd
  }

  function Unread(c: Conn): nat {
    if c.read <= |c.arrived| then |c.arrived| - c.read else 0
  }

  // ---------------------------------------------------------------------------------------------
  // Steps
  // ---------------------------------------------------------------------------------------------

  ghost predicate Enabled(s: State, step: Step) {
    match step
    case Connect(size, _) => 1 <= size < U32_LIMIT
    case Write(c, bytes) => c < |s.clients| && FrameStream(s.clients[c].written + bytes, s.clients[c].size)
    case ArriveQueued(i, k) => i < |s.backlog| && CanArrive(s, s.backlog[i], k)
    case Arrive(fd, k) => Live(s, fd) && CanArrive(s, s.slots[fd].conn.value, k)
    case Drop(fd) =>
      fd in s.ready &&
      if fd == s.listener then s.backlog == [] else Live(s, fd) ==> Unread(s.slots[fd].conn.value) == 0
    case Wait(batch) => s.task.Waiting? && batch != [] && Distinct(batch) && forall f <- batch :: f in s.ready
    case Dispatch => s.task.Between? && s.todo != []
    case Rest => s.task.Between? && s.todo == []
    case Accept(fd) => s.task.Accepting? && s.backlog != [] && fd < |s.slots| && fd != s.listener && !Live(s, fd)
    case AcceptDry => s.task.Accepting? && s.backlog == []
    case Add => s.task.Adding? && Live(s, s.task.fd)
    case Recv(k, _) =>
      s.task.Reading? && Live(s, s.task.fd) && Sound(s.slots[s.task.fd].req) &&
      1 <= k <= Unread(s.slots[s.task.fd].conn.value) && s.task.got + k <= Wanted(s.slots[s.task.fd].req) &&
      s.task.got <= s.slots[s.task.fd].conn.value.read
    case RecvDry(_) =>
      s.task.Reading? && Live(s, s.task.fd) && Sound(s.slots[s.task.fd].req) &&
      Unread(s.slots[s.task.fd].conn.value) == 0 && s.task.got <= Wanted(s.slots[s.task.fd].req) &&
      s.task.got <= s.slots[s.task.fd].conn.value.read <= |s.slots[s.task.fd].conn.value.arrived|
    case Send(k) => s.task.Echoing? && Live(s, s.task.fd) && 1 <= k <= |s.task.left|
    case SendFull => s.task.Echoing? && Live(s, s.task.fd) && 0 < s.slots[s.task.fd].conn.value.stalls
  }

  predicate CanArrive(s: State, c: Conn, k: nat) {
    c.client < |s.clients| && 1 <= k && |c.arrived| + k <= |s.clients[c.client].written|
  }

  function Arrived(s: State, c: Conn, k: nat): Conn
    requires CanArrive(s, c, k)
  {
    c.(arrived := s.clients[c.client].written[..|c.arrived| + k])
  }

  function WithConn(s: State, fd: nat, c: Conn): State
    requires Live(s, fd)
  {
    s.(slots := s.slots[fd := s.slots[fd].(conn := Some(c))])
  }

  function ReadMore(s: State, k: nat): (t: State)
    requires s.task.Reading? && Live(s, s.task.fd)
  {
    var c := s.slots[s.task.fd].conn.value;
    WithConn(s, s.task.fd, c.(read := c.read + k))
  }

  /** EPOLL_CTL_ADD reports a descriptor that is readable already; add_client counts the client. */
  function Added(s: State): State
    requires s.task.Adding? && Live(s, s.task.fd)
  {
    var fd := s.task.fd;
    var c := s.slots[fd].conn.value;
    WithConn(s, fd, c.(registered := true)).(
    task := Accepting,
    ready := if Unread(c) == 0 then s.ready else s.ready + {fd},
    totalServed := s.totalServed + 1,
    connected := s.connected + 1,
    maxConcurrent := if s.connected + 1 > s.maxConcurrent then s.connected + 1 else s.maxConcurrent)
  }

  /** cleanup: log, unregister, close, zero the slot. */
  function Cleanup(s: State, fd: nat, total: nat): State
    requires Live(s, fd)
  {
    var c := s.slots[fd].conn.value;
    s.(slots := s.slots[fd := Slot(FRESH, None)],
    ready := s.ready - {fd},
    task := Between,
    log := s.log + [Record(c.client, total, c.sent)],
    connected := if s.connected == 0 then 0 else s.connected - 1,
    places := if c.client < |s.places| then s.places[c.client := InLog(|s.log|)] else s.places)
  }

  /** read_data returned `got` bytes to handle_request. */
  function AfterRead(s: State, fd: nat, got: nat, junk: seq<byte>): State
    requires Live(s, fd) && Sound(s.slots[fd].req) && got <= Wanted(s.slots[fd].req)
    requires var c := s.slots[fd].conn.value; got <= c.read <= |c.arrived|
  {
    var slot := s.slots[fd];
    var c := slot.conn.value;
    match Absorb(slot.req, c.arrived[c.read - got..c.read], junk)
    case Blocked(r) => s.(slots := s.slots[fd := slot.(req := r)], task := Between)
    case Header(r) => s.(slots := s.slots[fd := slot.(req := r)], task := Reading(fd, 0))
    case Echo(r, frame) => s.(slots := s.slots[fd := slot.(req := r)], task := Echoing(fd, frame))
    case Finished(r) => Cleanup(s, fd, r.transferred)
  }

  ghost function Next(s: State, step: Step): State
    requires Enabled(s, step)
  {
    match step
    case Connect(size, stalls) =>
      s.(clients := s.clients + [Client(size, [])],
      backlog := s.backlog + [Conn(|s.clients|, [], 0, [], stalls, false)],
      ready := s.ready + {s.listener})
    case Write(c, bytes) =>
      s.(clients := s.clients[c := s.clients[c].(written := s.clients[c].written + bytes)])
    case ArriveQueued(i, k) =>
      s.(backlog := s.backlog[i := Arrived(s, s.backlog[i], k)])
    case Arrive(fd, k) =>
      var c := s.slots[fd].conn.value;
      WithConn(s, fd, Arrived(s, c, k)).(ready := if c.registered then s.ready + {fd} else s.ready)
    case Drop(fd) =>
      s.(ready := s.ready - {fd})
    case Wait(batch) =>
      s.(task := Between, todo := batch, ready := s.ready - set f | f in batch)
    case Dispatch =>
      s.(todo := s.todo[1..], task := if s.todo[0] == s.listener then Accepting else Reading(s.todo[0], 0))
    case Rest =>
      s.(task := Waiting)
    case Accept(fd) =>
      s.(backlog := s.backlog[1..],
      slots := s.slots[fd := s.slots[fd].(conn := Some(s.backlog[0].(registered := false)))],
      task := Adding(fd),
      places := s.places + [InSlot(fd)])
    case AcceptDry =>
      s.(task := Between)
    case Add =>
      Added(s)
    case Recv(k, junk) =>
      var fd, got := s.task.fd, s.task.got + k;
      if got < Wanted(s.slots[fd].req) then ReadMore(s, k).(task := Reading(fd, got))
      else AfterRead(ReadMore(s, k), fd, got, junk)
    case RecvDry(junk) =>
      AfterRead(s, s.task.fd, s.task.got, junk)
    case Send(k) =>
      var fd := s.task.fd;
      var c := s.slots[fd].conn.value;
      var left := s.task.left[k..];
      WithConn(s, fd, c.(sent := c.sent + s.task.left[..k])).(
      task := if left == [] then Reading(fd, 0) else Echoing(fd, left))
    case SendFull =>
      var fd := s.task.fd;
      var c := s.slots[fd].conn.value;
      WithConn(s, fd, c.(stalls := c.stalls - 1))
  }

  ghost predicate Init(s: State) {
    && s.clients == [] && s.backlog == [] && s.todo == [] && s.log == [] && s.places == [] && s.ready == {}
    && s.task == Waiting && s.connected == s.totalServed == s.maxConcurrent == 0
    && s.listener < |s.slots|
    && forall slot <- s.slots :: slot == Slot(FRESH, None)
  }
}
