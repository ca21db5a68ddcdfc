/** What each software step of one connection (struct hmr_rdma_transport) does,
    as functions on a record.  The first fields are the struct's own; the rest log
    what the step handed to the verbs library and to the application, so that
    whole runs can be reasoned about. */
module TransportModel {
  import opened Wire
  import opened Allocator
  import opened Sequences

  // enum hmr_rdma_transport_state, without the states of a listener and of a failed
  // connection, which no step below enters.
  const INIT := 0
  const CONNECTING := 2
  const CONNECTED := 3
  const SCONNECTED := 4
  const RCONNECTED := 5

  const MAX_SEND_WR := 256
  const MAX_RECV_SIZE := 128

  // hmr_mempool_create: one allocation holding three regions of ALLOC_MEM_SIZE.
  const SEND_BASE := 0
  const RECV_BASE := SEND_BASE + ALLOC_MEM_SIZE
  const RDMA_BASE := RECV_BASE + ALLOC_MEM_SIZE
  const POOL_SIZE := 3 * ALLOC_MEM_SIZE

  // struct hmr_task of a send.  id stands for the pointer calloc returned (tasks are
  // numbered in creation order) and msg is the message serialised at addr.
  datatype Task = Task(id: nat, typ: int, addr: nat, len: nat, msg: Msg)

  // A posted send work request.  off and epoch record how raddr was obtained: the
  // offset in the peer's region, and how many descriptors had been received by then.
  datatype Wr = Wr(task: Task, raddr: int, rkey: int, off: nat, epoch: nat)

  // A successful work completion: of a send or remote write, or of a receive whose
  // buffer at addr the network card filled with the frame of msg.
  datatype Wc = Sent(wr: Wr) | Rcvd(addr: nat, msg: Msg)

  datatype Trans = Trans(
    isClient: bool,
    st: int,                // trans_state
    recvSize: nat,          // default_recv_size
    mr: Mr,                 // *normal_mempool->rdma_mr
    peerMr: Mr,             // peer_info.normal_mr
    used: nat,              // peer_info.used_normal_size
    queue: seq<Task>,       // send_task_list
    usedSend: nat,          // normal_mempool->used_send_region
    usedRecv: nat,          // normal_mempool->used_recv_region
    lens: seq<nat>,         // lengths of all send tasks created
    accepted: seq<Task>,    // tasks hmr_rdma_send has put on the list
    posted: seq<Wr>,        // work requests taken by ibv_post_send
    recvs: seq<nat>,        // buffers taken by ibv_post_recv
    rcvd: seq<Msg>,         // messages of the receive completions handled
    freed: seq<Wr>,         // send tasks freed
    disc: bool,             // rdma_disconnect was called
    epoch: nat,             // peer descriptors received
    lost: nat)              // offset advanced by failed posts since the last one

  function Create(isClient: bool, recvSize: nat, mr: Mr): Trans {
    Trans(isClient, INIT, recvSize, mr, seq(48, i => 0), 0, [], 0, 0, [], [], [], [], [], [], false, 0, 0)
  }

  // ----- hmr_msg_check and hmr_rdma_send

  // Spin is the busy wait on trans_state.
  datatype Check = Pass | Fail | Spin

  function MsgCheck(st: int, typ: int): Check {
    if typ != READ && typ != WRITE then
      if st == CONNECTED || st == SCONNECTED || st == RCONNECTED then Pass
      else if st > RCONNECTED then Fail
      else Spin
    else if st == RCONNECTED then Pass
    else if st > RCONNECTED then Fail
    else Spin
  }

  function NewTask(t: Trans, msg: Msg): Task {
    var len := HEADER + |msg.data|;
    Task(|t.lens|, msg.typ, SEND_BASE + Place(t.usedSend, len), len, msg)
  }

  function RdmaSend(t: Trans, msg: Msg): Trans {
    if MsgCheck(t.st, msg.typ) != Pass then t
    else
      var task := NewTask(t, msg);
      var t1 := t.(usedSend := Place(t.usedSend, task.len) + task.len, lens := t.lens + [task.len]);
      if msg.typ != MR then t1.(queue := t1.queue + [task], accepted := t1.accepted + [task])
      else t1.(posted := t1.posted + [Wr(task, 0, 0, 0, t.epoch)])
  }

  function MrMsg(mr: Mr): Msg { Msg(MR, mr) }

  // "the connection is closing." with its terminating zero.
  function DoneMsg(): Msg {
    Msg(DONE, [116, 104, 101, 32, 99, 111, 110, 110, 101, 99, 116, 105, 111, 110, 32, 105, 115, 32,
               99, 108, 111, 115, 105, 110, 103, 46, 0])
  }

  // ----- hmr_send_task_handler

  function IsWrite(task: Task): bool { task.typ == WRITE }

  function WriteLen(task: Task): nat { if IsWrite(task) then task.len else 0 }

  function WriteBytes(q: seq<Task>): nat { Sum(q, WriteLen) }

  function WrFor(t: Trans, task: Task, used: nat): Wr {
    if IsWrite(task) then Wr(task, MrAddr(t.peerMr) + used, MrRkey(t.peerMr), used, t.epoch)
    else Wr(task, 0, 0, 0, t.epoch)
  }

  function Batch(t: Trans, q: seq<Task>): (b: seq<Wr>)
    ensures |b| == |q|
  {
    if q == [] then [] else Batch(t, Front(q)) + [WrFor(t, Last(q), t.used + WriteBytes(Front(q)))]
  }

  // ok is the outcome of ibv_post_send, which takes the whole chain or nothing.
  function Flush(t: Trans, ok: bool): Trans {
    var t1 := t.(used := t.used + WriteBytes(t.queue));
    if t.queue == [] then t
    else if ok then t1.(posted := t.posted + Batch(t, t.queue), queue := [])
    else t1.(lost := t.lost + WriteBytes(t.queue))
  }

  // ----- hmr_post_recv, hmr_pre_post_recv

  function PostRecv(t: Trans): Trans {
    t.(usedRecv := Place(t.usedRecv, t.recvSize) + t.recvSize,
       recvs := t.recvs + [RECV_BASE + Place(t.usedRecv, t.recvSize)])
  }

  function PostRecvs(t: Trans, n: nat): Trans {
    if n == 0 then t else PostRecv(PostRecvs(t, n - 1))
  }

  function PrePostCount(d: nat): nat
    requires d > 0
  {
    if ALLOC_MEM_SIZE / d < 2 then 0 else ALLOC_MEM_SIZE / d - 2
  }

  // Client: hmr_rdma_connect and on_cm_route_resolved.  Server: hmr_rdma_accept.
  function Started(t: Trans): Trans
    requires t.recvSize > 0
  {
    PostRecvs(t.(st := CONNECTING), PrePostCount(t.recvSize))
  }

  // on_cm_established
  function Established(t: Trans): Trans {
    var t1 := t.(st := CONNECTED);
    if t.isClient then RdmaSend(t1, MrMsg(t.mr)) else t1
  }

  // ----- hmr_wc_success_handler

  function OnSent(t: Trans, wr: Wr): Trans {
    var t1 := if wr.task.typ == DONE then t.(disc := true) else t;
    var t2 := if wr.task.typ == MR && t1.st == CONNECTED then t1.(st := SCONNECTED) else t1;
    // A completed RDMA_READ is not freed.
    if wr.task.typ == READ then t2 else t2.(freed := t2.freed + [wr])
  }

  // The part of the receive branch that runs hmr_handle_close_connection.
  function OnClose(t: Trans, typ: int): Trans {
    if typ == FINISH then RdmaSend(t, DoneMsg())
    else if typ == DONE then t.(disc := true)
    else t
  }

  // The part that stores the peer's descriptor and answers with the own one.
  function OnMr(t: Trans, desc: Mr): Trans {
    var t1 := t.(peerMr := desc, used := 0, epoch := t.epoch + 1, lost := 0);
    var t2 := if t1.st == CONNECTED then RdmaSend(t1, MrMsg(t1.mr)) else t1;
    t2.(st := RCONNECTED)
  }

  // msg is what the handler parsed in the buffer, desc the 48 bytes after the header.
  function OnRcvd(t: Trans, msg: Msg, desc: Mr): Trans {
    var t1 := OnClose(t.(rcvd := t.rcvd + [msg]), msg.typ);
    PostRecv(if msg.typ == MR then OnMr(t1, desc) else t1)
  }

  function Handle(t: Trans, wc: Wc, msg: Msg, desc: Mr): Trans {
    match wc
    case Sent(wr) => OnSent(t, wr)
    case Rcvd(_, _) => OnRcvd(t, msg, desc)
  }

  // ----- What the logs are compared with

  // Every send task in existence, posted ones first.
  function AllTasks(t: Trans): (s: seq<Task>)
    ensures |s| == |t.posted| + |t.queue|
  {
    seq(|t.posted|, i requires 0 <= i < |t.posted| => t.posted[i].task) + t.queue
  }

  // The posted tasks that went through the list.
  function Listed(ws: seq<Wr>): seq<Task> { Collect(ws, ListedTask) }

  function ListedTask(w: Wr): seq<Task> { if w.task.typ != MR then [w.task] else [] }

  // Bytes of remote writes assigned an address in the given epoch.
  function EpochBytes(ws: seq<Wr>, epoch: nat): nat { Sum(ws, EpochLen(epoch)) }

  function EpochLen(epoch: nat): Wr -> nat {
    (w: Wr) => if IsWrite(w.task) && w.epoch == epoch then w.task.len else 0
  }
}
