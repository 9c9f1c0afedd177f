/**
 The UDP/TCP demo's network component: where outgoing messages are sent,
 how the peer address is learned from incoming traffic, how messages are
 admitted to the two bounded queues, how the worker dispatches them, the
 TCP server's per-iteration session step, and `connect` with a timeout.

 Sockets, select, fcntl and the RTOS queues are not modelled as such:
 each call's result is a parameter, and a queue is a sequence that is
 `None` until it has been created. Tasks run one step at a time; there is
 no interleaving.
 */
module Net {
  import opened Bytes
  import opened Optional

  datatype Ipv4 = Ipv4(a: byte, b: byte, c: byte, d: byte)

  /** `EXAMPLE_SERVER_IP`, "192.168.137.1". */
  const SERVER_IP: Ipv4 := Ipv4(192, 168, 137, 1)
  const TCP_PORT: word := 12345
  const UDP_PORT: word := 12346

  /** Both queues are created with eight slots. */
  const QUEUE_CAPACITY: nat := 8
  /** Payload buffers hold 256 bytes including the terminating NUL. */
  const PAYLOAD_SIZE: nat := 256
  /** The session step sends at most this many queued messages. */
  const DRAIN_LIMIT: nat := 4
  /** `do_send_tcp` connects with this timeout, in milliseconds. */
  const CONNECT_TIMEOUT_MS: int := 5000

  datatype Family = Inet | OtherFamily(code: nat)

  /** A `sockaddr_in`; the port is kept in network byte order, as stored. */
  datatype SockAddr = SockAddr(family: Family, ip: Ipv4, port: word)

  /** `htons` on the little-endian target: the two bytes swap. */
  function Htons(p: word): (n: word)
    ensures LowByte(n) == HighByte(p) && HighByte(n) == LowByte(p)
  {
    (p << 8) | (p >> 8)
  }

  lemma HtonsInvolution(p: word)
    ensures Htons(Htons(p)) == p
  {
  }

  // ---------------------------------------------------------------------
  // State

  datatype WorkKind = TcpWork | UdpWork
  datatype WorkItem = WorkItem(kind: WorkKind, payload: seq<byte>)

  /** The component's static variables. `learned` is the learned server
      address together with its flag. */
  datatype NetState = NetState(learned: Option<SockAddr>, clientConnected: bool,
                               tcpQueue: Option<seq<seq<byte>>>, workQueue: Option<seq<WorkItem>>,
                               workerStarted: bool)

  predicate ValidState(st: NetState) {
    && (st.tcpQueue.Some? ==> |st.tcpQueue.value| <= QUEUE_CAPACITY)
    && (st.workQueue.Some? ==> |st.workQueue.value| <= QUEUE_CAPACITY)
    && (st.workerStarted ==> st.workQueue.Some?)
  }

  // ---------------------------------------------------------------------
  // Destination and learning

  /** `net_get_dest_addr(port)`: the learned address if there is one, else
      a zeroed address with the configured server IP; the family is set to
      AF_INET and the port to the one requested in every case. */
  function DestAddr(st: NetState, port: word): (a: SockAddr)
    ensures a.family == Inet && a.port == Htons(port)
    ensures st.learned.Some? ==> a.ip == st.learned.value.ip
    ensures st.learned.None? ==> a.ip == SERVER_IP
  {
    var base := if st.learned.Some? then st.learned.value else SockAddr(OtherFamily(0), Ipv4(0, 0, 0, 0), 0);
    var ip := if st.learned.Some? then base.ip else SERVER_IP;
    base.(family := Inet, ip := ip, port := Htons(port))
  }

  /** The UDP server's learning rule for a datagram from `src`: the sender
      replaces the learned address when none is learned yet or its IP
      differs; a datagram from the learned IP changes nothing, even if it
      came from another port. */
  function OnUdpDatagram(st: NetState, src: SockAddr): (st': NetState)
    ensures st'.learned.Some? && st'.learned.value.ip == src.ip
    ensures st.learned.None? || st.learned.value.ip != src.ip ==> st' == st.(learned := Some(src))
    ensures st.learned.Some? && st.learned.value.ip == src.ip ==> st' == st
  {
    if st.learned.None? || st.learned.value.ip != src.ip then st.(learned := Some(src)) else st
  }

  /** An accepted TCP client always becomes the learned address and the
      connected client. */
  function OnTcpAccept(st: NetState, client: SockAddr): (st': NetState)
    ensures st'.learned == Some(client) && st'.clientConnected
    ensures st'.tcpQueue == st.tcpQueue && st'.workQueue == st.workQueue && st'.workerStarted == st.workerStarted
  {
    st.(learned := Some(client), clientConnected := true)
  }

  /** Leaving a session (the `tcp_close` label): no client is connected. */
  function OnSessionEnd(st: NetState): (st': NetState)
    ensures !st'.clientConnected
    ensures st'.learned == st.learned && st'.tcpQueue == st.tcpQueue && st'.workQueue == st.workQueue
  {
    st.(clientConnected := false)
  }

  /** After a datagram, messages go to its sender's IP, but always on the
      port asked for, not the port the datagram came from. */
  lemma DestAfterDatagram(st: NetState, src: SockAddr, port: word)
    ensures DestAddr(OnUdpDatagram(st, src), port).ip == src.ip
    ensures DestAddr(OnUdpDatagram(st, src), port).port == Htons(port)
  {
  }

  /** A repeated datagram from the same sender leaves the state as the
      first one did. */
  lemma DatagramIdempotent(st: NetState, src: SockAddr)
    ensures OnUdpDatagram(OnUdpDatagram(st, src), src) == OnUdpDatagram(st, src)
  {
  }

  // ---------------------------------------------------------------------
  // Send admission

  /** `snprintf(payload, 256, "%s", msg ? msg : "")`: a NULL message is sent
      as the empty string; otherwise the C string `msg` points at, up to
      its NUL, is copied and cut to the 255 bytes that fit with the
      terminating NUL. `msg` is the memory from the pointer on. */
  function Truncate(msg: Option<seq<byte>>): (p: seq<byte>)
    ensures |p| < PAYLOAD_SIZE
    ensures forall k :: 0 <= k < |p| ==> p[k] != 0
    ensures msg.None? ==> p == []
    ensures msg.Some? ==> |p| <= |CText(msg.value)| && p == CText(msg.value)[..|p|]
    ensures msg.Some? && |CText(msg.value)| < PAYLOAD_SIZE ==> p == CText(msg.value)
    ensures msg.Some? && |CText(msg.value)| >= PAYLOAD_SIZE ==> |p| == PAYLOAD_SIZE - 1
  {
    match msg
    case None => []
    case Some(m) =>
      var text := CText(m);
      if |text| < PAYLOAD_SIZE then text else text[..PAYLOAD_SIZE - 1]
  }

  /** The copy stops at the first NUL, whatever follows it, and a long
      message keeps exactly its first 255 bytes. */
  lemma TruncateExamples(long: seq<byte>)
    requires |long| == 300 && forall k :: 0 <= k < |long| ==> long[k] == 0x41
    ensures Truncate(Some([0x68, 0x69, 0, 0x21])) == [0x68, 0x69]
    ensures Truncate(Some([0, 0x41])) == []
    ensures Truncate(Some(long)) == long[..PAYLOAD_SIZE - 1]
  {
    var hi: seq<byte> := [0x68, 0x69, 0, 0x21];
    assert CText(hi) == [0x68, 0x69] by {
      assert hi[1..][1..][0] == 0;
    }
    assert |CText(long)| == |long|;
  }

  /** A non-blocking `xQueueSend` to an eight-slot queue. */
  function Enqueue<T>(q: seq<T>, x: T): (r: (seq<T>, bool))
    requires |q| <= QUEUE_CAPACITY
    ensures r.1 <==> |q| < QUEUE_CAPACITY
    ensures r.1 ==> r.0 == q + [x]
    ensures !r.1 ==> r.0 == q
  {
    if |q| < QUEUE_CAPACITY then (q + [x], true) else (q, false)
  }

  datatype SendOutcome = Queued | QueueNotReady | NoClient | QueueFull

  /** `net_tcp_txq_start`: the TX queue is created once; `allocOk` says
      whether `xQueueCreate` succeeded. */
  function TxqStart(st: NetState, allocOk: bool): (st': NetState)
    ensures st.tcpQueue.Some? ==> st' == st
    ensures st.tcpQueue.None? ==> st' == st.(tcpQueue := if allocOk then Some([]) else None)
  {
    if st.tcpQueue.Some? then st else st.(tcpQueue := if allocOk then Some([]) else None)
  }

  /** `app_send_tcp`: queues the message for the connected client's
      session; with no queue or no client nothing is queued. */
  function AppSendTcp(st: NetState, msg: Option<seq<byte>>, allocOk: bool): (r: (NetState, SendOutcome))
    requires ValidState(st)
    ensures ValidState(r.0)
    ensures r.0.learned == st.learned && r.0.clientConnected == st.clientConnected
    ensures r.0.workQueue == st.workQueue && r.0.workerStarted == st.workerStarted
    ensures r.1 == Queued <==> TxqStart(st, allocOk).tcpQueue.Some? && st.clientConnected
                               && |TxqStart(st, allocOk).tcpQueue.value| < QUEUE_CAPACITY
    ensures r.1 == Queued ==> r.0.tcpQueue == Some(TxqStart(st, allocOk).tcpQueue.value + [Truncate(msg)])
    ensures r.1 != Queued ==> r.0 == TxqStart(st, allocOk)
  {
    var st1 := TxqStart(st, allocOk);
    if st1.tcpQueue.None? then (st1, QueueNotReady)
    else if !st.clientConnected then (st1, NoClient)
    else
      var (q, ok) := Enqueue(st1.tcpQueue.value, Truncate(msg));
      if ok then (st1.(tcpQueue := Some(q)), Queued) else (st1, QueueFull)
  }

  /** `net_worker_start`: creates the work queue once and starts the worker
      once the queue exists. */
  function WorkerStart(st: NetState, allocOk: bool): (st': NetState)
    requires ValidState(st)
    ensures ValidState(st')
    ensures st.workQueue.Some? ==> st'.workQueue == st.workQueue
    ensures st.workQueue.None? ==> st'.workQueue == if allocOk then Some([]) else None
    ensures st'.workerStarted <==> st'.workQueue.Some?
    ensures st'.learned == st.learned && st'.tcpQueue == st.tcpQueue && st'.clientConnected == st.clientConnected
  {
    var q := if st.workQueue.Some? then st.workQueue else if allocOk then Some([]) else None;
    st.(workQueue := q, workerStarted := q.Some?)
  }

  /** `app_send_udp`: queues a UDP work item; no client is needed. */
  function AppSendUdp(st: NetState, msg: Option<seq<byte>>, allocOk: bool): (r: (NetState, SendOutcome))
    requires ValidState(st)
    ensures ValidState(r.0)
    ensures r.1 != NoClient
    ensures r.0.learned == st.learned && r.0.tcpQueue == st.tcpQueue && r.0.clientConnected == st.clientConnected
    ensures r.1 == Queued <==> WorkerStart(st, allocOk).workQueue.Some?
                               && |WorkerStart(st, allocOk).workQueue.value| < QUEUE_CAPACITY
    ensures r.1 == Queued ==> r.0.workQueue == Some(WorkerStart(st, allocOk).workQueue.value + [WorkItem(UdpWork, Truncate(msg))])
    ensures r.1 != Queued ==> r.0 == WorkerStart(st, allocOk)
  {
    var st1 := WorkerStart(st, allocOk);
    if st1.workQueue.None? then (st1, QueueNotReady)
    else
      var (q, ok) := Enqueue(st1.workQueue.value, WorkItem(UdpWork, Truncate(msg)));
      if ok then (st1.(workQueue := Some(q)), Queued) else (st1, QueueFull)
  }

  /** Only UDP items ever enter the work queue through the public API. */
  lemma AppSendUdpOnlyUdp(st: NetState, msg: Option<seq<byte>>, allocOk: bool)
    requires ValidState(st)
    requires st.workQueue.Some? ==> forall i :: 0 <= i < |st.workQueue.value| ==> st.workQueue.value[i].kind == UdpWork
    ensures var st' := AppSendUdp(st, msg, allocOk).0;
            st'.workQueue.Some? ==> forall i :: 0 <= i < |st'.workQueue.value| ==> st'.workQueue.value[i].kind == UdpWork
  {
  }

  /** With no client connected, `app_send_tcp` queues nothing, whatever
      the queue's state. */
  lemma NoClientNoTcpTraffic(st: NetState, msg: Option<seq<byte>>, allocOk: bool)
    requires ValidState(st) && !st.clientConnected
    ensures AppSendTcp(st, msg, allocOk).1 != Queued
    ensures AppSendTcp(st, msg, allocOk).0.tcpQueue == TxqStart(st, allocOk).tcpQueue
  {
  }

  // ---------------------------------------------------------------------
  // connect with a timeout

  /** `errno` values; their numbers are not needed. */
  datatype Errno = EInProgress | ETimedOut | EAgain | EWouldBlock | OtherErrno(code: int)

  /** `struct timeval` for a timeout in milliseconds, with C's truncating
      division and remainder. */
  function TimeoutSplit(ms: int): (tv: (int, int))
    ensures tv.0 * 1000 + CDiv(tv.1, 1000) == ms
    ensures tv.1 % 1000 == 0
    ensures ms >= 0 ==> 0 <= tv.1 < 1000000 && tv.0 * 1000000 + tv.1 == ms * 1000
    ensures ms < 0 ==> -1000000 < tv.1 <= 0
  {
    (CDiv(ms, 1000), CRem(ms, 1000) * 1000)
  }

  /** The results the socket layer gives `net_connect_with_timeout`.
      `getFlags` and `setFlags` are the two `fcntl` results of making the
      socket non-blocking. */
  datatype ConnectEnv = ConnectEnv(getFlags: int, setFlags: int, connectRc: int, connectErrno: Errno,
                                   selectRc: int, sockoptRc: int, soError: int)

  /** `net_set_nonblocking`: -1 if reading the flags fails, else the result
      of writing them. */
  function SetNonblocking(getFlags: int, setFlags: int): (rc: int)
    ensures getFlags < 0 ==> rc == -1
    ensures getFlags >= 0 ==> rc == setFlags
  {
    if getFlags < 0 then -1 else setFlags
  }

  datatype SocketStep = MakeNonblocking | Connect | Select(sec: int, usec: int) | ReadSoError | MakeBlocking

  /** The outcome of `net_connect_with_timeout`: the return value, the
      `errno` it assigns itself (`None` when it leaves the one the failing
      call set), and the calls made. */
  datatype ConnectResult = ConnectResult(rc: int, errno: Option<Errno>, steps: seq<SocketStep>)

  function ConnectWithTimeout(env: ConnectEnv, timeoutMs: int): (r: ConnectResult)
    ensures r.rc == 0 || r.rc == -1
    ensures r.rc == 0 <==> (SetNonblocking(env.getFlags, env.setFlags) >= 0 &&
                            (env.connectRc == 0 ||
                             (env.connectErrno == EInProgress && env.selectRc > 0 && env.sockoptRc >= 0 && env.soError == 0)))
    ensures r.rc == 0 ==> |r.steps| >= 1 && r.steps[|r.steps| - 1] == MakeBlocking && r.errno.None?
    ensures r.errno == Some(ETimedOut) <==> r.rc == -1 && env.selectRc == 0 && Select(TimeoutSplit(timeoutMs).0, TimeoutSplit(timeoutMs).1) in r.steps
    ensures r.rc == -1 && env.soError != 0 && ReadSoError in r.steps && env.sockoptRc >= 0 ==> r.errno == Some(OtherErrno(env.soError))
    ensures |r.steps| >= 1 && r.steps[0] == MakeNonblocking
  {
    if SetNonblocking(env.getFlags, env.setFlags) < 0 then ConnectResult(-1, None, [MakeNonblocking])
    else if env.connectRc == 0 then ConnectResult(0, None, [MakeNonblocking, Connect, MakeBlocking])
    else if env.connectErrno != EInProgress then ConnectResult(-1, None, [MakeNonblocking, Connect])
    else
      var (sec, usec) := TimeoutSplit(timeoutMs);
      var waited := [MakeNonblocking, Connect, Select(sec, usec)];
      if env.selectRc <= 0 then ConnectResult(-1, if env.selectRc == 0 then Some(ETimedOut) else None, waited)
      else if env.sockoptRc < 0 then ConnectResult(-1, None, waited + [ReadSoError])
      else if env.soError != 0 then ConnectResult(-1, Some(OtherErrno(env.soError)), waited + [ReadSoError])
      else ConnectResult(0, None, waited + [ReadSoError, MakeBlocking])
  }

  // ---------------------------------------------------------------------
  // Worker

  /** What a send attempt did. */
  datatype SendReport =
    | WifiDown
    | NoSocket
    | ConnectFailed(dest: SockAddr)
    | SendFailed(dest: SockAddr)
    | Sent(dest: SockAddr, payload: seq<byte>)

  /** The socket layer's answers to one send attempt. */
  datatype SendEnv = SendEnv(wifiUp: bool, socketOk: bool, connect: ConnectEnv, sendOk: bool)

  /** `net_do_send_tcp`: connect to the destination's TCP port with a five
      second timeout, then send. */
  function DoSendTcp(st: NetState, payload: seq<byte>, env: SendEnv): (r: SendReport)
    ensures r.Sent? <==> env.wifiUp && env.socketOk && ConnectWithTimeout(env.connect, CONNECT_TIMEOUT_MS).rc == 0 && env.sendOk
    ensures r.Sent? ==> r.dest == DestAddr(st, TCP_PORT) && r.payload == payload
  {
    if !env.wifiUp then WifiDown
    else if !env.socketOk then NoSocket
    else
      var dest := DestAddr(st, TCP_PORT);
      if ConnectWithTimeout(env.connect, CONNECT_TIMEOUT_MS).rc != 0 then ConnectFailed(dest)
      else if !env.sendOk then SendFailed(dest)
      else Sent(dest, payload)
  }

  /** `net_do_send_udp`: one datagram to the destination's UDP port. */
  function DoSendUdp(st: NetState, payload: seq<byte>, env: SendEnv): (r: SendReport)
    ensures r.Sent? <==> env.wifiUp && env.socketOk && env.sendOk
    ensures r.Sent? ==> r.dest == DestAddr(st, UDP_PORT) && r.payload == payload
    ensures !r.ConnectFailed?
  {
    if !env.wifiUp then WifiDown
    else if !env.socketOk then NoSocket
    else if !env.sendOk then SendFailed(DestAddr(st, UDP_PORT))
    else Sent(DestAddr(st, UDP_PORT), payload)
  }

  /** One pass of `net_worker_task`'s loop on a dequeued item. */
  function Dispatch(st: NetState, item: WorkItem, env: SendEnv): (r: SendReport)
    ensures r.Sent? ==> r.payload == item.payload
    ensures r.Sent? && item.kind == TcpWork ==> r.dest.port == Htons(TCP_PORT)
    ensures r.Sent? && item.kind == UdpWork ==> r.dest.port == Htons(UDP_PORT)
  {
    if item.kind == TcpWork then DoSendTcp(st, item.payload, env) else DoSendUdp(st, item.payload, env)
  }

  /** The worker draining its queue: every item is dequeued once, in
      order, and dispatched by its kind. `envs[i]` is what the socket layer
      does for the `i`-th item. */
  method RunWorker(st: NetState, items: seq<WorkItem>, envs: seq<SendEnv>) returns (reports: seq<SendReport>)
    requires |envs| == |items|
    ensures |reports| == |items|
    ensures forall i :: 0 <= i < |items| ==> reports[i] == Dispatch(st, items[i], envs[i])
    ensures forall i :: 0 <= i < |items| && reports[i].Sent? ==> reports[i].payload == items[i].payload
  {
    reports := [];
    var rest := items;
    while |rest| > 0
      invariant |reports| + |rest| == |items|
      invariant rest == items[|reports|..]
      invariant forall i :: 0 <= i < |reports| ==> reports[i] == Dispatch(st, items[i], envs[i])
    {
      var item := rest[0];
      reports := reports + [Dispatch(st, item, envs[|reports|])];
      rest := rest[1..];
    }
  }

  // ---------------------------------------------------------------------
  // TCP session step

  datatype RecvResult = Received(data: seq<byte>) | PeerClosed | RecvFailed(e: Errno)

  datatype SessionNext = KeepGoing | EndSession

  /** Whether a `recv` result keeps the session open: data (if the echo
      goes out), or a time-out reported as EAGAIN / EWOULDBLOCK. */
  function RecvKeepsSession(r: RecvResult, echoOk: bool): (keep: bool)
    ensures r.PeerClosed? ==> !keep
    ensures r.RecvFailed? ==> (keep <==> r.e == EAgain || r.e == EWouldBlock)
    ensures r.Received? && |r.data| > 0 ==> (keep <==> echoOk)
  {
    match r
    case Received(data) => |data| > 0 && echoOk
    case PeerClosed => false
    case RecvFailed(e) => e == EAgain || e == EWouldBlock
  }

  /** One iteration of the session loop: up to four queued messages are
      sent, stopping early when the queue runs dry; a failed send ends the
      session before `recv`; otherwise the `recv` result decides.
      `sendOk[i]` is the outcome of the `i`-th send. */
  method SessionStep(queue: seq<seq<byte>>, sendOk: seq<bool>, recv: RecvResult, echoOk: bool)
    returns (rest: seq<seq<byte>>, sent: seq<seq<byte>>, received: bool, next: SessionNext)
    requires |sendOk| >= DRAIN_LIMIT
    requires recv.Received? ==> |recv.data| > 0
    ensures |sent| <= DRAIN_LIMIT
    ensures queue == sent + rest
    ensures forall i :: 0 <= i < |sent| - 1 ==> sendOk[i]
    ensures received <==> forall i :: 0 <= i < |sent| ==> sendOk[i]
    ensures received ==> |sent| == DRAIN_LIMIT || rest == []
    ensures !received ==> next == EndSession
    ensures received ==> (next == KeepGoing <==> RecvKeepsSession(recv, echoOk))
  {
    sent := [];
    rest := queue;
    var failed := false;
    while |sent| < DRAIN_LIMIT && |rest| > 0 && !failed
      invariant |sent| <= DRAIN_LIMIT
      invariant queue == sent + rest
      invariant forall i :: 0 <= i < |sent| - 1 ==> sendOk[i]
      invariant failed <==> |sent| > 0 && !sendOk[|sent| - 1]
      decreases |rest|
    {
      var ok := sendOk[|sent|];
      sent := sent + [rest[0]];
      rest := rest[1..];
      failed := !ok;
    }
    if failed {
      received := false;
      next := EndSession;
    } else {
      received := true;
      next := if RecvKeepsSession(recv, echoOk) then KeepGoing else EndSession;
    }
  }
}
