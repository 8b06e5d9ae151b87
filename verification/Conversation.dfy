/**
 One client of main.c and one worker of thread_server.c, joined by two bounded byte channels. Every
 send and recv moves as many bytes as the channel and the environment please, one call at a time.
 */
module Conversation {
  import opened Bytes
  import S = Segmentation

  /** The client: sending request i (size and body are two send_data calls), reading its echo, sending the last size. */
  datatype Client =
    | Asking(i: nat, done: nat)
    | Listening(i: nat, got: nat)
    | Closing(done: nat)
    | Gone

  /** The worker: reading a size, reading a body into its buffer, echoing the buffer. */
  datatype Worker =
    | ReadSize(part: seq<byte>)
    | ReadBody(got: nat)
    | Echo(done: nat)
    | Served

  /**
   `up` and `down` are the bytes in flight; `frames` counts the rounds the worker has finished,
   `transferred` is its log entry so far, `received` everything the client has read.
   */
  datatype State = State(
    client: Client, worker: Worker, up: seq<byte>, down: seq<byte>,
    msgSize: nat, msg: seq<byte>, frames: nat, transferred: nat, received: seq<byte>)

  /** What the environment fixes: k requests with body `body`, the channels' capacities, the allocator's memory. */
  datatype Setup = Setup(k: nat, body: seq<byte>, capUp: nat, capDown: nat, junk: seq<byte>) {
    predicate Ok() {
      1 <= k && 1 <= |body| < U32_LIMIT && 1 <= capUp && 1 <= capDown
    }
    function Frame(): (f: seq<byte>)
      requires Ok()
      ensures |f| == |body| + 4
    {
      S.Frame(body)
    }
    function Last(): (f: seq<byte>)
      ensures |f| == 4
    {
      U32Bytes(0)
    }
  }

  /** Each step is one send or recv of the party and its length. */
  datatype Step = ClientSend(n: nat) | ClientRecv(n: nat) | WorkerRecv(n: nat) | WorkerSend(n: nat)

  /** What the client's current send_data call still has to send. */
  function Unsent(c: Setup, client: Client): seq<byte>
    requires c.Ok()
  {
    match client
    case Asking(_, done) =>
      if done < 4 then c.Frame()[done..4] else if done <= |c.body| + 4 then c.Frame()[done..] else []
    case Closing(done) => if done <= 4 then c.Last()[done..] else []
    case _ => []
  }

  /** What the worker's current read_data call still asks for; reading into `part` or `msg`. */
  function Asked(s: State): int {
    match s.worker
    case ReadSize(part) => 4 - |part|
    case ReadBody(got) => s.msgSize - got
    case _ => 0
  }

  predicate Enabled(c: Setup, s: State, step: Step)
    requires c.Ok()
  {
    match step
    case ClientSend(n) => 1 <= n <= |Unsent(c, s.client)| && |s.up| + n <= c.capUp
    case ClientRecv(n) => s.client.Listening? && 1 <= n <= |s.down| && s.client.got + n <= |c.body|
    case WorkerRecv(n) => 1 <= n <= |s.up| && n <= Asked(s) && |s.msg| == s.msgSize
    case WorkerSend(n) => s.worker.Echo? && 1 <= n && s.worker.done + n <= |s.msg| && |s.down| + n <= c.capDown
  }

  /** read_data has filled the size field. Only the first size is allocated for, and only later ones are counted. */
  function SizeRead(c: Setup, s: State, size: nat): State {
    if s.frames == 0 then
      var t := s.(msgSize := size, msg := Malloc(size, c.junk), transferred := s.transferred + 4);
      if size == 0 then t.(worker := ReadSize([]), frames := 1) else t.(worker := ReadBody(0))
    else
      var t := s.(msgSize := size, transferred := s.transferred + 4 + size);
      if size == 0 then t.(worker := Served) else t.(worker := ReadBody(0))
  }

  function AfterSend(c: Setup, client: Client, n: nat): Client {
    match client
    case Asking(i, done) => if done + n == |c.body| + 4 then Listening(i, 0) else Asking(i, done + n)
    case Closing(done) => if done + n == 4 then Gone else Closing(done + n)
    case other => other
  }

  function Next(c: Setup, s: State, step: Step): State
    requires c.Ok() && Enabled(c, s, step)
  {
    match step
    case ClientSend(n) =>
      s.(up := s.up + Unsent(c, s.client)[..n], client := AfterSend(c, s.client, n))
    case ClientRecv(n) =>
      var i, got := s.client.i, s.client.got + n;
      s.(down := s.down[n..], received := s.received + s.down[..n],
      client := if got < |c.body| then Listening(i, got) else if i + 1 < c.k then Asking(i + 1, 0) else Closing(0))
    case WorkerRecv(n) =>
      var data, t := s.up[..n], s.(up := s.up[n..]);
      (match s.worker
       case ReadSize(part) =>
         if |part| + n < 4 then t.(worker := ReadSize(part + data)) else SizeRead(c, t, U32(part + data))
       case ReadBody(got) =>
         t.(msg := Store(s.msg, got, data), worker := if got + n < s.msgSize then ReadBody(got + n) else Echo(0))
       case _ => t)
    case WorkerSend(n) =>
      var done := s.worker.done + n;
      var t := s.(down := s.down + s.msg[s.worker.done..done]);
      if done < |s.msg| then t.(worker := Echo(done)) else t.(worker := ReadSize([]), frames := s.frames + 1)
  }

  predicate Init(c: Setup, s: State) {
    s == State(Asking(0, 0), ReadSize([]), [], [], 0, [], 0, 0, [])
  }

  /** Both ends have finished and nothing is in flight. */
  predicate Over(s: State) {
    s.client.Gone? && s.worker.Served? && s.up == [] && s.down == []
  }

  function Repeat(b: seq<byte>, i: nat): seq<byte> {
    if i == 0 then [] else Repeat(b, i - 1) + b
  }

  // ---------------------------------------------------------------------------------------------
  // The three phases of the conversation
  // ---------------------------------------------------------------------------------------------

  /** The exchange the client is in, and how much of it has been sent. */
  function Wire(c: Setup, client: Client): (w: (seq<byte>, nat))
    requires c.Ok()
    ensures w.0 == c.Frame() || w.0 == c.Last()
  {
    match client
    case Asking(_, done) => (c.Frame(), done)
    case Listening(_, _) => (c.Frame(), |c.Frame()|)
    case Closing(done) => (c.Last(), done)
    case Gone => (c.Last(), 4)
  }

  /** How much of the exchange the worker has read. */
  function ReadOf(w: Worker): nat {
    match w
    case ReadSize(part) => |part|
    case ReadBody(got) => 4 + got
    case _ => 0
  }

  /** The worker has read a prefix of the exchange, and what is in flight continues it. */
  predicate WorkerAt(s: State, wire: seq<byte>, upto: nat, body: seq<byte>) {
    && ReadOf(s.worker) <= upto <= |wire| && s.up == wire[ReadOf(s.worker)..upto]
    && match s.worker
       case ReadSize(part) => |part| < 4 && part == wire[..|part|]
       case ReadBody(got) => got < |body| && |wire| == |body| + 4 && |s.msg| == |body| && s.msg[..got] == body[..got]
       case _ => false
  }

  /** The buffer is allocated with the first size. */
  predicate Buffer(c: Setup, s: State) {
    && |s.msg| == s.msgSize
    && s.msgSize == if s.frames == 0 && s.worker.ReadSize? then 0 else |c.body|
  }

  /** A client that waits for the worker to read, and what it has been sent before. */
  predicate ClientUp(c: Setup, client: Client, frames: nat, received: seq<byte>) {
    && received == Repeat(c.body, frames)
    && match client
       case Asking(i, done) => i == frames < c.k && done < |c.body| + 4
       case Listening(i, got) => i == frames < c.k && got == 0
       case Closing(done) => frames == c.k && done < 4
       case Gone => frames == c.k
  }

  predicate Uplink(c: Setup, s: State)
    requires c.Ok()
  {
    && ClientUp(c, s.client, s.frames, s.received) && Buffer(c, s)
    && s.down == [] && |s.up| <= c.capUp
    && WorkerAt(s, Wire(c, s.client).0, Wire(c, s.client).1, c.body)
  }

  /** How much of the body the worker has sent back, when the client is in round i. */
  function Returned(c: Setup, s: State): nat {
    if s.worker.Echo? then s.worker.done else |c.body|
  }

  predicate Downlink(c: Setup, s: State) {
    && s.client.Listening? && s.client.i < c.k && s.client.got < |c.body| && Buffer(c, s)
    && s.up == [] && |s.down| <= c.capDown
    && s.received == Repeat(c.body, s.client.i) + c.body[..s.client.got]
    && s.client.got <= Returned(c, s) <= |c.body| && s.down == c.body[s.client.got..Returned(c, s)]
    && match s.worker
       case Echo(done) => s.frames == s.client.i && done < |c.body| && s.msg == c.body
       case ReadSize(part) => s.frames == s.client.i + 1 && part == []
       case _ => false
  }

  predicate Ended(c: Setup, s: State) {
    Over(s) && s.frames == c.k && s.received == Repeat(c.body, c.k)
  }

  predicate Inv(c: Setup, s: State)
    requires c.Ok()
  {
    Uplink(c, s) || Downlink(c, s) || Ended(c, s)
  }

  /** The worker's own count: four bytes for every size it has read, and every size but the first. */
  predicate Counted(c: Setup, s: State) {
    var later := match s.worker
      case ReadSize(_) => if s.frames == 0 then 0 else s.frames - 1
      case Served => if s.frames == 0 then 0 else s.frames - 1
      case _ => s.frames;
    s.transferred == 4 * (s.frames + (if s.worker.ReadSize? then 0 else 1)) + later * |c.body|
  }

  lemma InvInit(c: Setup, s: State)
    requires c.Ok() && Init(c, s)
    ensures Inv(c, s) && Counted(c, s)
  {
    assert Uplink(c, s);
  }

  // ---------------------------------------------------------------------------------------------
  // Steps
  // ---------------------------------------------------------------------------------------------

  lemma Slices(wire: seq<byte>, from: nat, upto: nat, n: nat)
    requires from <= upto <= upto + n <= |wire|
    ensures wire[from..upto] + wire[upto..upto + n] == wire[from..upto + n]
  {
  }

  lemma SliceTail(wire: seq<byte>, from: nat, upto: nat, n: nat)
    requires from + n <= upto <= |wire|
    ensures wire[from..upto][..n] == wire[from..from + n] && wire[from..upto][n..] == wire[from + n..upto]
  {
  }

  lemma SentPart(c: Setup, client: Client, n: nat)
    requires c.Ok() && 1 <= n <= |Unsent(c, client)|
    ensures client.Asking? || client.Closing?
    ensures var (wire, upto) := Wire(c, client);
            upto == client.done && upto + n <= |wire| && Unsent(c, client)[..n] == wire[upto..upto + n]
  {
    hide U32Bytes;
    var (wire, upto) := Wire(c, client);
    if client.Asking? {
      var end := if client.done < 4 then 4 else |wire|;
      assert Unsent(c, client) == wire[upto..end];
      SliceStart(wire, upto, end, n);
    } else {
      assert Unsent(c, client) == wire[upto..];
      SliceStart(wire, upto, |wire|, n);
    }
  }

  lemma SliceStart(wire: seq<byte>, from: nat, to: nat, n: nat)
    requires from + n <= to <= |wire|
    ensures wire[from..to][..n] == wire[from..from + n]
  {
  }

  lemma ClientMoves(c: Setup, client: Client, n: nat, frames: nat, received: seq<byte>)
    requires c.Ok() && 1 <= n <= |Unsent(c, client)| && ClientUp(c, client, frames, received)
    ensures Wire(c, AfterSend(c, client, n)) == (Wire(c, client).0, Wire(c, client).1 + n)
    ensures ClientUp(c, AfterSend(c, client, n), frames, received)
  {
    hide Repeat;
    SentPart(c, client, n);
  }

  lemma UplinkGrows(c: Setup, s: State, client: Client, data: seq<byte>)
    requires c.Ok() && Uplink(c, s) && ClientUp(c, client, s.frames, s.received) && |s.up| + |data| <= c.capUp
    requires var (wire, upto) := Wire(c, s.client);
             upto + |data| <= |wire| && data == wire[upto..upto + |data|] && Wire(c, client) == (wire, upto + |data|)
    ensures Uplink(c, s.(up := s.up + data, client := client))
  {
    hide Setup.Frame, Setup.Last, Repeat, ClientUp, Wire;
    var (wire, upto) := Wire(c, s.client);
    Slices(wire, ReadOf(s.worker), upto, |data|);
  }

  lemma InvClientSend(c: Setup, s: State, n: nat)
    requires c.Ok() && Inv(c, s) && Enabled(c, s, ClientSend(n))
    ensures Inv(c, Next(c, s, ClientSend(n)))
  {
    SentPart(c, s.client, n);
    assert Uplink(c, s);
    hide Inv, Uplink, Unsent, Setup.Frame, Setup.Last, Repeat, ClientUp, Wire, AfterSend;
    assert ClientUp(c, s.client, s.frames, s.received) by { UplinkParts(c, s); }
    ClientMoves(c, s.client, n, s.frames, s.received);
    UplinkGrows(c, s, AfterSend(c, s.client, n), Unsent(c, s.client)[..n]);
    UplinkIsInv(c, Next(c, s, ClientSend(n)));
  }

  lemma UplinkParts(c: Setup, s: State)
    requires c.Ok() && Uplink(c, s)
    ensures ClientUp(c, s.client, s.frames, s.received)
  {
  }

  lemma UplinkIsInv(c: Setup, s: State)
    requires c.Ok() && Uplink(c, s)
    ensures Inv(c, s)
  {
  }

  lemma InvClientRecv(c: Setup, s: State, n: nat)
    requires c.Ok() && Inv(c, s) && Enabled(c, s, ClientRecv(n))
    ensures Inv(c, Next(c, s, ClientRecv(n)))
  {
    assert Downlink(c, s);
    hide Setup.Frame, Setup.Last;
    var t := Next(c, s, ClientRecv(n));
    var i, got := s.client.i, s.client.got;
    SliceTail(c.body, got, Returned(c, s), n);
    Slices(c.body, 0, got, n);
    assert t.received == Repeat(c.body, i) + c.body[..got + n];
    if got + n < |c.body| {
      assert Downlink(c, t);
    } else {
      RoundOver(c, i);
      assert Uplink(c, t);
    }
  }

  lemma RoundOver(c: Setup, i: nat)
    requires c.Ok()
    ensures Repeat(c.body, i) + c.body[..|c.body|] == Repeat(c.body, i + 1)
  {
    assert c.body[..|c.body|] == c.body;
  }

  lemma InvWorkerSend(c: Setup, s: State, n: nat)
    requires c.Ok() && Inv(c, s) && Enabled(c, s, WorkerSend(n))
    ensures Inv(c, Next(c, s, WorkerSend(n)))
  {
    assert Downlink(c, s);
    hide Setup.Frame, Setup.Last, Repeat;
    Slices(c.body, s.client.got, s.worker.done, n);
    assert Downlink(c, Next(c, s, WorkerSend(n)));
  }

  /** The bytes a recv of the worker returns, and what stays in flight. */
  lemma TakenPart(c: Setup, s: State, n: nat)
    requires c.Ok() && Uplink(c, s) && n <= |s.up|
    ensures var (wire, upto) := Wire(c, s.client);
            var r := ReadOf(s.worker);
            && r + n <= upto <= |wire| && wire[..r] + s.up[..n] == wire[..r + n]
            && s.up[..n] == wire[r..r + n] && s.up[n..] == wire[r + n..upto]
  {
    hide Setup.Frame, Setup.Last, Repeat, ClientUp, Buffer;
    var (wire, upto) := Wire(c, s.client);
    SliceTail(wire, ReadOf(s.worker), upto, n);
    Slices(wire, 0, ReadOf(s.worker), n);
  }

  lemma SizeDecoded(c: Setup, client: Client, part: seq<byte>)
    requires c.Ok() && part == Wire(c, client).0[..4]
    ensures U32(part) == if client.Asking? || client.Listening? then |c.body| else 0
  {
    hide U32, U32Bytes, S.Frame;
    U32RoundTrip(0);
    S.FrameSize(c.body);
    assert c.Last()[..4] == U32Bytes(0);
  }

  lemma InvWorkerPartSize(c: Setup, s: State, n: nat)
    requires c.Ok() && Inv(c, s) && Enabled(c, s, WorkerRecv(n)) && s.worker.ReadSize? && |s.worker.part| + n < 4
    ensures Inv(c, Next(c, s, WorkerRecv(n)))
  {
    assert Uplink(c, s);
    hide Setup.Frame, Setup.Last, Repeat;
    TakenPart(c, s, n);
    assert Uplink(c, Next(c, s, WorkerRecv(n)));
  }

  lemma InvWorkerFullSize(c: Setup, s: State, n: nat)
    requires c.Ok() && Inv(c, s) && Enabled(c, s, WorkerRecv(n)) && s.worker.ReadSize? && |s.worker.part| + n == 4
    ensures Inv(c, Next(c, s, WorkerRecv(n)))
  {
    assert Uplink(c, s);
    hide Setup.Frame, Setup.Last, Repeat;
    var t := Next(c, s, WorkerRecv(n));
    TakenPart(c, s, n);
    SizeDecoded(c, s.client, s.worker.part + s.up[..n]);
    if s.client.Asking? || s.client.Listening? {
      assert t.msg[..0] == c.body[..0];
      assert Uplink(c, t);
    } else {
      LastIsShort(c, s.client);
      assert Ended(c, t);
    }
  }

  lemma LastIsShort(c: Setup, client: Client)
    requires c.Ok()
    ensures client.Closing? || client.Gone? ==> |Wire(c, client).0| == 4
  {
  }

  lemma BodyPart(c: Setup, client: Client, from: nat, to: nat)
    requires c.Ok() && from < to && 4 + to <= |Wire(c, client).0|
    ensures (client.Asking? || client.Listening?) && to <= |c.body|
    ensures Wire(c, client).0[4 + from..4 + to] == c.body[from..to]
  {
  }

  lemma BodyGrows(msg: seq<byte>, data: seq<byte>, body: seq<byte>, got: nat)
    requires got + |data| <= |body| == |msg| && msg[..got] == body[..got] && data == body[got..got + |data|]
    ensures Store(msg, got, data)[..got + |data|] == body[..got + |data|]
  {
    assert Store(msg, got, data)[..got + |data|] == msg[..got] + data;
    assert body[..got + |data|] == body[..got] + body[got..got + |data|];
  }

  /** The body bytes a recv returned are stored where they belong. */
  lemma BodyStored(c: Setup, s: State, n: nat)
    requires c.Ok() && Uplink(c, s) && s.worker.ReadBody? && 1 <= n <= |s.up|
    ensures (s.client.Asking? || s.client.Listening?) && s.worker.got + n <= |c.body| == |s.msg|
    ensures Store(s.msg, s.worker.got, s.up[..n])[..s.worker.got + n] == c.body[..s.worker.got + n]
    ensures s.up[n..] == Wire(c, s.client).0[4 + s.worker.got + n..Wire(c, s.client).1]
    ensures 4 + s.worker.got + n <= Wire(c, s.client).1 <= |Wire(c, s.client).0|
  {
    hide Setup.Frame, Setup.Last, Repeat;
    TakenPart(c, s, n);
    BodyPart(c, s.client, s.worker.got, s.worker.got + n);
    BodyGrows(s.msg, s.up[..n], c.body, s.worker.got);
  }

  lemma InvWorkerPartBody(c: Setup, s: State, n: nat)
    requires c.Ok() && Inv(c, s) && Enabled(c, s, WorkerRecv(n)) && s.worker.ReadBody? && s.worker.got + n < s.msgSize
    ensures Inv(c, Next(c, s, WorkerRecv(n)))
  {
    assert Uplink(c, s);
    BodyStored(c, s, n);
    hide Setup.Frame, Setup.Last, Repeat, ClientUp, Wire;
    assert Uplink(c, Next(c, s, WorkerRecv(n)));
  }

  lemma InvWorkerFullBody(c: Setup, s: State, n: nat)
    requires c.Ok() && Inv(c, s) && Enabled(c, s, WorkerRecv(n)) && s.worker.ReadBody? && s.worker.got + n == s.msgSize
    ensures Inv(c, Next(c, s, WorkerRecv(n)))
  {
    assert Uplink(c, s);
    BodyStored(c, s, n);
    WholeFrameRead(c, s, n);
    hide Setup.Frame, Setup.Last, Repeat, Wire;
    var t := Next(c, s, WorkerRecv(n));
    assert c.body[..|c.body|] == c.body && t.msg[..|t.msg|] == t.msg;
    assert Repeat(c.body, s.frames) + [] == Repeat(c.body, s.frames);
    assert Downlink(c, t);
  }

  lemma WholeFrameRead(c: Setup, s: State, n: nat)
    requires c.Ok() && Uplink(c, s) && s.worker.ReadBody? && n <= |s.up| && s.worker.got + n == |c.body| && 1 <= n
    ensures s.client.Listening? && s.up[n..] == []
  {
  }

  lemma InvKept(c: Setup, s: State, step: Step)
    requires c.Ok() && Inv(c, s) && Enabled(c, s, step)
    ensures Inv(c, Next(c, s, step))
  {
    match step
    case ClientSend(n) => InvClientSend(c, s, n);
    case ClientRecv(n) => InvClientRecv(c, s, n);
    case WorkerSend(n) => InvWorkerSend(c, s, n);
    case WorkerRecv(n) =>
      if s.worker.ReadBody? {
        if s.worker.got + n < s.msgSize {
          InvWorkerPartBody(c, s, n);
        } else {
          InvWorkerFullBody(c, s, n);
        }
      } else if s.worker.ReadSize? && |s.worker.part| + n < 4 {
        InvWorkerPartSize(c, s, n);
      } else {
        InvWorkerFullSize(c, s, n);
      }
  }

  lemma CountedSize(c: Setup, s: State, size: nat)
    requires Counted(c, s) && s.worker.ReadSize?
    requires size == |c.body| || (size == 0 && 0 < s.frames)
    requires c.Ok()
    ensures Counted(c, SizeRead(c, s, size))
  {
    if 0 < s.frames { OneMore(s.frames - 1, |c.body|); }
  }

  lemma CountedKept(c: Setup, s: State, step: Step)
    requires c.Ok() && Inv(c, s) && Counted(c, s) && Enabled(c, s, step)
    ensures Counted(c, Next(c, s, step))
  {
    if step.WorkerRecv? && s.worker.ReadSize? && |s.worker.part| + step.n == 4 {
      assert Uplink(c, s);
      TakenPart(c, s, step.n);
      SizeDecoded(c, s.client, s.worker.part + s.up[..step.n]);
      var size := U32(s.worker.part + s.up[..step.n]);
      hide Setup.Frame, Setup.Last, Repeat, WorkerAt, Wire, Buffer, SizeRead, Counted, U32;
      CountedUp(c, s, s.up[step.n..]);
      CountedSize(c, s.(up := s.up[step.n..]), size);
    } else {
      hide Setup.Frame, Setup.Last, Repeat, WorkerAt, Inv;
    }
  }

  lemma CountedUp(c: Setup, s: State, up: seq<byte>)
    requires Counted(c, s)
    ensures Counted(c, s.(up := up))
  {
  }

  lemma OneMore(j: nat, n: nat)
    ensures (j + 1) * n == j * n + n
  {
  }

  // ---------------------------------------------------------------------------------------------
  // Whole conversations
  // ---------------------------------------------------------------------------------------------

  predicate Behaviour(c: Setup, states: seq<State>, steps: seq<Step>)
    requires c.Ok()
  {
    && |states| == |steps| + 1 && Init(c, states[0])
    && forall i | 0 <= i < |steps| :: Enabled(c, states[i], steps[i]) && states[i + 1] == Next(c, states[i], steps[i])
  }

  lemma {:induction false} Reached(c: Setup, states: seq<State>, steps: seq<Step>, i: nat)
    requires c.Ok() && Behaviour(c, states, steps) && i < |states|
    ensures Inv(c, states[i]) && Counted(c, states[i])
  {
    if i == 0 {
      InvInit(c, states[0]);
    } else {
      Reached(c, states, steps, i - 1);
      InvKept(c, states[i - 1], steps[i - 1]);
      CountedKept(c, states[i - 1], steps[i - 1]);
    }
  }

  lemma {:induction false} RepeatPrefix(b: seq<byte>, i: nat, k: nat, got: nat)
    requires i < k && got <= |b|
    ensures Repeat(b, i) + b[..got] <= Repeat(b, k)
    ensures Repeat(b, i) <= Repeat(b, k)
    decreases k
  {
    if i + 1 == k {
      assert Repeat(b, k) == Repeat(b, i) + b[..got] + b[got..];
    } else {
      RepeatPrefix(b, i, k - 1, got);
      assert Repeat(b, k) == Repeat(b, k - 1) + b;
    }
  }

  /**
   In every state of every conversation, whatever the segmentation and the capacities: the client
   has received a prefix of the bodies it sends, and the bytes in flight all travel one way.
   */
  lemma PrefixAndOneDirection(c: Setup, states: seq<State>, steps: seq<Step>, i: nat)
    requires c.Ok() && Behaviour(c, states, steps) && i < |states|
    ensures states[i].received <= Repeat(c.body, c.k)
    ensures states[i].up == [] || states[i].down == []
    ensures |states[i].up| <= c.capUp && |states[i].down| <= c.capDown
  {
    Reached(c, states, steps, i);
    var s := states[i];
    if Downlink(c, s) {
      RepeatPrefix(c.body, s.client.i, c.k, s.client.got);
    } else if Uplink(c, s) && s.frames < c.k {
      RepeatPrefix(c.body, s.frames, c.k, 0);
    }
  }

  /** Some party can always move until both have finished. */
  lemma NoDeadlock(c: Setup, states: seq<State>, steps: seq<Step>, i: nat)
    requires c.Ok() && Behaviour(c, states, steps) && i < |states| && !Over(states[i])
    ensures exists step :: Enabled(c, states[i], step)
  {
    Reached(c, states, steps, i);
    CanStep(c, states[i]);
  }

  lemma CanStep(c: Setup, s: State)
    requires c.Ok() && Inv(c, s) && !Over(s)
    ensures exists step :: Enabled(c, s, step)
  {
    hide Repeat;
    if Uplink(c, s) {
      var step := if s.up != [] then WorkerRecv(1) else ClientSend(1);
      if s.up != [] {
        SomethingAsked(c, s);
      } else {
        SomethingUnsent(c, s);
      }
      assert Enabled(c, s, step);
    } else {
      var step := if s.down != [] then ClientRecv(1) else WorkerSend(1);
      assert Enabled(c, s, step);
    }
  }

  lemma SomethingAsked(c: Setup, s: State)
    requires c.Ok() && Uplink(c, s) && s.up != []
    ensures 1 <= Asked(s) && |s.msg| == s.msgSize
  {
    hide Repeat;
  }

  /** If nothing is in flight and the worker still reads, the client has not finished its exchange. */
  lemma SomethingUnsent(c: Setup, s: State)
    requires c.Ok() && Uplink(c, s) && s.up == []
    ensures 1 <= |Unsent(c, s.client)|
  {
    hide Repeat;
    var (wire, upto) := Wire(c, s.client);
    assert |s.up| == upto - ReadOf(s.worker);
    assert |wire| == |c.body| + 4 || |wire| == 4;
    assert s.worker.ReadBody? ==> 4 <= ReadOf(s.worker) < |c.body| + 4;
  }

  /** The bytes the client has still to send. */
  function ToSend(c: Setup, client: Client): int {
    match client
    case Asking(i, done) => (c.k - i) * (|c.body| + 4) - done + 4
    case Listening(i, _) => (c.k - i - 1) * (|c.body| + 4) + 4
    case Closing(done) => 4 - done
    case Gone => 0
  }

  /** The bytes the worker has still to echo. */
  function ToEcho(c: Setup, s: State): int {
    (c.k - s.frames) * |c.body| - (if s.worker.Echo? then s.worker.done else 0)
  }

  /** Every byte is handed to a channel once and taken from it once. */
  function Remaining(c: Setup, s: State): int {
    2 * ToSend(c, s.client) + |s.up| + 2 * ToEcho(c, s) + |s.down|
  }

  lemma RemainingIsNat(c: Setup, s: State)
    requires c.Ok() && Inv(c, s)
    ensures 0 <= Remaining(c, s)
  {
    assert s.worker.Echo? ==> Downlink(c, s);
    hide Repeat, Setup.Frame, Setup.Last, WorkerAt, Wire;
    var n, left := |c.body|, c.k - s.frames;
    assert s.frames <= c.k;
    ProductBounds(left, n);
    if s.client.Asking? || s.client.Listening? {
      ProductBounds(c.k - s.client.i, n + 4);
      ProductBounds(c.k - s.client.i - 1, n + 4);
    }
    assert s.worker.Echo? ==> 1 <= left && s.worker.done <= n;
  }

  lemma ProductBounds(j: nat, n: nat)
    ensures 0 <= j * n && (1 <= j ==> n <= j * n)
  {
    if 1 <= j { MulLe(1, j, n); }
  }

  lemma ToSendFalls(c: Setup, client: Client, m: nat)
    requires c.Ok() && 1 <= m <= |Unsent(c, client)| && (client.Asking? ==> client.i < c.k)
    ensures ToSend(c, AfterSend(c, client, m)) == ToSend(c, client) - m
  {
    hide Unsent, U32Bytes;
    SentPart(c, client, m);
    if client.Asking? { OneMore(c.k - client.i - 1, |c.body| + 4); }
  }

  lemma RemainingUp(c: Setup, s: State, m: nat)
    requires c.Ok() && Inv(c, s) && Enabled(c, s, ClientSend(m))
    ensures Remaining(c, Next(c, s, ClientSend(m))) == Remaining(c, s) - m
  {
    hide Inv, ToSend, ToEcho, AfterSend, Unsent;
    AskingIsLive(c, s);
    ToSendFalls(c, s.client, m);
    EchoUnmoved(c, s, Next(c, s, ClientSend(m)));
  }

  lemma AskingIsLive(c: Setup, s: State)
    requires c.Ok() && Inv(c, s)
    ensures s.client.Asking? ==> s.client.i < c.k
  {
    hide Repeat, Wire, WorkerAt, Buffer;
  }

  lemma EchoUnmoved(c: Setup, s: State, t: State)
    requires t.frames == s.frames && t.worker == s.worker
    ensures ToEcho(c, t) == ToEcho(c, s)
  {
  }

  lemma WorkerRecvChanges(c: Setup, s: State, m: nat)
    requires c.Ok() && Uplink(c, s) && Enabled(c, s, WorkerRecv(m))
    ensures var t := Next(c, s, WorkerRecv(m));
            && t.client == s.client && t.frames == s.frames && t.down == s.down && |t.up| == |s.up| - m
            && !s.worker.Echo? && (t.worker.Echo? ==> t.worker.done == 0)
  {
    TakenPart(c, s, m);
    if s.worker.ReadSize? && |s.worker.part| + m == 4 {
      SizeDecoded(c, s.client, s.worker.part + s.up[..m]);
    }
    hide Setup.Frame, Setup.Last, Repeat, Wire;
  }

  lemma RemainingTaken(c: Setup, s: State, m: nat)
    requires c.Ok() && Inv(c, s) && Enabled(c, s, WorkerRecv(m))
    ensures Remaining(c, Next(c, s, WorkerRecv(m))) == Remaining(c, s) - m
  {
    assert Uplink(c, s);
    WorkerRecvChanges(c, s, m);
    hide Next, ToSend, Setup.Frame, Setup.Last, Repeat;
  }

  lemma RemainingDown(c: Setup, s: State, m: nat)
    requires c.Ok() && Inv(c, s) && Enabled(c, s, ClientRecv(m))
    ensures Remaining(c, Next(c, s, ClientRecv(m))) == Remaining(c, s) - m
  {
    assert Downlink(c, s);
    hide Repeat, Setup.Frame, Setup.Last, Inv;
    OneMore(c.k - s.client.i - 1, |c.body| + 4);
  }

  lemma RemainingEchoed(c: Setup, s: State, m: nat)
    requires c.Ok() && Inv(c, s) && Enabled(c, s, WorkerSend(m))
    ensures Remaining(c, Next(c, s, WorkerSend(m))) == Remaining(c, s) - m
  {
    assert Downlink(c, s);
    hide Repeat, Setup.Frame, Setup.Last, Inv;
    OneMore(c.k - s.frames - 1, |c.body|);
  }

  lemma RemainingStep(c: Setup, s: State, step: Step)
    requires c.Ok() && Inv(c, s) && Enabled(c, s, step)
    ensures Remaining(c, Next(c, s, step)) == Remaining(c, s) - step.n
  {
    hide Inv, Enabled, Remaining, Next;
    match step
    case ClientSend(m) => RemainingUp(c, s, m);
    case ClientRecv(m) => RemainingDown(c, s, m);
    case WorkerSend(m) => RemainingEchoed(c, s, m);
    case WorkerRecv(m) => RemainingTaken(c, s, m);
  }

  lemma RunStep(c: Setup, states: seq<State>, steps: seq<Step>, i: nat)
    requires c.Ok() && Behaviour(c, states, steps) && i < |steps| && i + 1 < |states|
    ensures Inv(c, states[i]) && Enabled(c, states[i], steps[i]) && 1 <= steps[i].n
    ensures states[i + 1] == Next(c, states[i], steps[i])
  {
    Reached(c, states, steps, i);
  }

  lemma {:induction false} RemainingFalls(c: Setup, states: seq<State>, steps: seq<Step>, i: nat)
    requires c.Ok() && Behaviour(c, states, steps) && i <= |steps| < |states|
    ensures i + Remaining(c, states[i]) <= Remaining(c, states[0])
  {
    hide Behaviour, Inv, Enabled, Next, Remaining;
    if i == 0 {
      assert states[i] == states[0];
    } else {
      RemainingFalls(c, states, steps, i - 1);
      RunStep(c, states, steps, i - 1);
      RemainingStep(c, states[i - 1], steps[i - 1]);
    }
  }

  lemma RemainingAtStart(c: Setup, states: seq<State>, steps: seq<Step>)
    requires c.Ok() && Behaviour(c, states, steps)
    ensures Remaining(c, states[0]) == 2 * (c.k * (|c.body| + 4) + 4) + 2 * (c.k * |c.body|)
  {
    assert Init(c, states[0]);
    hide Inv, Next, Enabled;
  }

  /**
   Termination: no conversation takes more steps than twice the bytes of the session and twice the
   bytes of the echo, and with NoDeadlock one that cannot go on has both ends finished.
   */
  lemma Bounded(c: Setup, states: seq<State>, steps: seq<Step>, i: nat)
    requires c.Ok() && Behaviour(c, states, steps) && i < |states|
    ensures i + Remaining(c, states[i]) <= 2 * (c.k * (|c.body| + 4) + 4) + 2 * (c.k * |c.body|)
    ensures i <= 2 * (c.k * (|c.body| + 4) + 4) + 2 * (c.k * |c.body|)
  {
    hide Inv, Counted, Remaining;
    Reached(c, states, steps, i);
    RemainingIsNat(c, states[i]);
    RemainingFalls(c, states, steps, i);
    RemainingAtStart(c, states, steps);
  }

  /** What a finished conversation has done, including the worker's short-counted log entry. */
  lemma Outcome(c: Setup, states: seq<State>, steps: seq<Step>, s: State)
    requires c.Ok() && Behaviour(c, states, steps)
    requires s == states[|states| - 1] && forall step :: !Enabled(c, s, step)
    ensures Over(s) && s.received == Repeat(c.body, c.k)
    ensures s.transferred == 4 * (c.k + 1) + (c.k - 1) * |c.body|
  {
    Reached(c, states, steps, |states| - 1);
    if !Over(s) { CanStep(c, s); }
  }
}
