/** struct hmr_rdma_transport and its pool as objects: each routine is proved to do to
    the object what the functions of TransportModel do to the record. */
module Transport {
  import opened Wire
  import opened Allocator
  import opened Sequences
  import opened LinuxList
  import M = TransportModel
  import V = TransportInvariants
  import S = SharedMemory
  import A = Acceptance
  import opened SendBatch

  // struct hmr_mempool: one buffer holding the three regions, and two cursors.
  class Mempool {
    const mem: array<Byte>
    var usedSend: nat
    var usedRecv: nat

    // hmr_mempool_create; the bytes malloc returns are arbitrary.
    constructor ()
      ensures mem.Length == M.POOL_SIZE == 3 * 1024 && fresh(mem) && usedSend == 0 && usedRecv == 0
    {
      mem := new Byte[M.POOL_SIZE];
      usedSend, usedRecv := 0, 0;
    }

    // hmr_mempool_alloc_saddr
    method AllocSend(length: nat) returns (addr: nat)
      modifies this`usedSend
      ensures addr == M.SEND_BASE + Place(old(usedSend), length)
      ensures usedSend == Place(old(usedSend), length) + length
    {
      if usedSend + length > ALLOC_MEM_SIZE {
        usedSend := 0;
      }
      addr := M.SEND_BASE + usedSend;
      usedSend := usedSend + length;
    }

    // hmr_mempool_alloc_raddr
    method AllocRecv(length: nat) returns (addr: nat)
      modifies this`usedRecv
      ensures addr == M.RECV_BASE + Place(old(usedRecv), length)
      ensures usedRecv == Place(old(usedRecv), length) + length
    {
      if usedRecv + length > ALLOC_MEM_SIZE {
        usedRecv := 0;
      }
      addr := M.RECV_BASE + usedRecv;
      usedRecv := usedRecv + length;
    }

    // memcpy into the buffer
    method Memcpy(addr: nat, b: seq<Byte>)
      requires addr + |b| <= mem.Length
      modifies mem
      ensures mem[..] == Copy(old(mem[..]), addr, b)
    {
      for i := 0 to |b|
        invariant mem[..addr] == old(mem[..addr]) && mem[addr..addr + i] == b[..i]
        invariant mem[addr + i..] == old(mem[addr + i..])
      {
        mem[addr + i] := b[i];
      }
      assert mem[..] == mem[..addr] + mem[addr..addr + |b|] + mem[addr + |b|..];
    }
  }

  // What the verbs library has been handed, in order.
  class QueuePair {
    var sent: seq<M.Wr>
    var recvs: seq<nat>

    constructor ()
      ensures sent == [] && recvs == []
    {
      sent, recvs := [], [];
    }

    // ibv_post_send of a single request
    method Post(wr: M.Wr)
      modifies this`sent
      ensures sent == old(sent) + [wr]
    {
      sent := sent + [wr];
    }

    // ibv_post_send of a chain: all of it or, when ok is false, nothing.
    method PostChain(wrs: array<SendWr>, sges: array<Sge>, first: int, ghost k: nat, ok: bool)
      requires Chain(wrs[..], sges[..], first, k)
      modifies this`sent
      ensures sent == old(sent) + if ok then Gather(wrs[..], sges[..], first, k) else []
    {
      hide Fetch;
      if !ok {
        return;
      }
      var i := first;
      ghost var left := k;
      while i != -1
        invariant Chain(wrs[..], sges[..], i, left)
        invariant sent + Gather(wrs[..], sges[..], i, left) == old(sent) + Gather(wrs[..], sges[..], first, k)
        decreases left
      {
        sent := sent + [Fetch(wrs[..], sges[..], i)];
        i := wrs[i].next;
        left := left - 1;
      }
    }

    // ibv_post_recv
    method PostRecv(addr: nat)
      modifies this`recvs
      ensures recvs == old(recvs) + [addr]
    {
      recvs := recvs + [addr];
    }
  }

  // The frame is copied in three pieces.
  lemma {:induction false} ThreeCopies(mem: seq<Byte>, addr: nat, msg: Msg)
    requires Sendable(msg) && addr + HEADER + |msg.data| <= |mem|
    ensures Copy(Copy(Copy(mem, addr, PutInt(msg.typ)), addr + 4, PutInt(|msg.data|)), addr + 8, msg.data)
            == Copy(mem, addr, Frame(msg))
  {
    var a := Copy(mem, addr, PutInt(msg.typ));
    var b := Copy(a, addr + 4, PutInt(|msg.data|));
    var c := Copy(b, addr + 8, msg.data);
    var d := Copy(mem, addr, Frame(msg));
    assert |c| == |d|;
    forall i | 0 <= i < |c|
      ensures c[i] == d[i]
    {
    }
  }

  lemma {:induction false} LastIsPrev(head: ListHead<M.Task>, s: seq<ListHead<M.Task>>)
    requires Ring([head] + s)
    ensures head.prev == if s == [] then head else s[|s| - 1]
    ensures head !in s && forall x :: x in s ==> x in [head] + s
  {
    var r := [head] + s;
    assert forall i :: 0 <= i < |s| ==> s[i] == r[i + 1];
    assert s != [] ==> r[|s|] == s[|s| - 1];
  }

  class Transport {
    var isClient: bool
    var transState: int
    const recvSize: nat
    const mr: Mr
    var peerMr: Mr
    var usedNormalSize: nat
    const pool: Mempool
    const qp: QueuePair
    const sendTaskList: ListHead<M.Task>
    var disc: bool

    // The entries of sendTaskList.
    ghost var nodes: seq<ListHead<M.Task>>

    // The history that TransportModel records.
    var lens: seq<nat>
    var accepted: seq<M.Task>
    var rcvd: seq<Msg>
    var freed: seq<M.Wr>
    var epoch: nat
    var lost: nat

    ghost function Queue(): (q: seq<M.Task>)
      reads this`nodes, nodes
      ensures |q| == |nodes|
    {
      DataOf(nodes)
    }

    ghost function Model(): M.Trans
      reads this, nodes, pool, qp
    {
      M.Trans(isClient, transState, recvSize, mr, peerMr, usedNormalSize, Queue(), pool.usedSend, pool.usedRecv,
              lens, accepted, qp.sent, qp.recvs, rcvd, freed, disc, epoch, lost)
    }

    ghost predicate Valid()
      reads this, nodes, sendTaskList, pool
    {
      && Ring([sendTaskList] + nodes)
      && pool.mem.Length == M.POOL_SIZE
      && 0 < recvSize <= ALLOC_MEM_SIZE
    }

    // hmr_rdma_create
    constructor (recvSize: nat, mr: Mr, isClient: bool)
      requires 0 < recvSize <= ALLOC_MEM_SIZE
      ensures Valid() && fresh(pool) && fresh(pool.mem) && fresh(qp) && fresh(sendTaskList)
      ensures Model() == M.Create(isClient, recvSize, mr)
    {
      this.recvSize, this.mr, this.isClient := recvSize, mr, isClient;
      transState := M.INIT;
      peerMr := seq(48, i => 0);
      usedNormalSize, disc := 0, false;
      pool := new Mempool();
      qp := new QueuePair();
      sendTaskList := new ListHead<M.Task>(M.Task(0, 0, 0, 0, Msg(0, [])));
      nodes, lens, accepted, rcvd, freed, epoch, lost := [], [], [], [], [], 0, 0;
      new;
      assert [sendTaskList] + nodes == [sendTaskList];
    }

    // hmr_send_task_create: allocate a buffer and serialise the message into it.
    method SendTaskCreate(msg: Msg) returns (node: ListHead<M.Task>)
      requires Valid() && Sendable(msg) && HEADER + |msg.data| <= M.POOL_SIZE
      modifies pool`usedSend, pool.mem, this`lens
      ensures fresh(node) && Ring([node])
      ensures node.data == M.NewTask(old(Model()), msg).(typ := 0)
      ensures pool.usedSend == Place(old(pool.usedSend), node.data.len) + node.data.len
      ensures lens == old(lens) + [node.data.len]
      ensures pool.mem[..] == Copy(old(pool.mem[..]), node.data.addr, Frame(msg))
    {
      hide Copy, Frame, PutInt;
      var length := HEADER + |msg.data|;
      var addr := pool.AllocSend(length);
      pool.Memcpy(addr, PutInt(msg.typ));
      pool.Memcpy(addr + 4, PutInt(|msg.data|));
      pool.Memcpy(addr + 8, msg.data);
      ThreeCopies(old(pool.mem[..]), addr, msg);
      node := new ListHead<M.Task>(M.Task(|lens|, 0, addr, length, msg));
      lens := lens + [length];
    }

    // list_add_tail of a new task
    method ListTask(task: ListHead<M.Task>)
      requires Valid() && task !in [sendTaskList] + nodes
      modifies this`nodes, this`accepted, task, sendTaskList, nodes
      ensures Valid() && nodes == old(nodes) + [task]
      ensures Model() == old(Model()).(queue := old(Queue()) + [old(task.data)],
                                       accepted := old(accepted) + [old(task.data)])
    {
      ghost var q := Queue();
      LastIsPrev(sendTaskList, nodes);
      AddTail(task, sendTaskList, nodes);
      nodes := nodes + [task];
      accepted := accepted + [task.data];
      assert Queue() == q + [task.data];
    }

    // A descriptor is posted at once.
    method PostTask(task: ListHead<M.Task>)
      requires Valid()
      modifies qp`sent
      ensures Valid() && nodes == old(nodes)
      ensures Model() == old(Model()).(posted := old(qp.sent) + [M.Wr(task.data, 0, 0, 0, epoch)])
    {
      hide Ring;
      qp.Post(M.Wr(task.data, 0, 0, 0, epoch));
      assert Queue() == old(Queue());
    }

    // hmr_send_task_create and the assignment of the task's type.
    method TypedTask(msg: Msg) returns (task: ListHead<M.Task>)
      requires Valid() && Sendable(msg) && HEADER + |msg.data| <= M.POOL_SIZE
      modifies pool`usedSend, pool.mem, this`lens
      ensures Valid() && nodes == old(nodes) && fresh(task) && task.data == M.NewTask(old(Model()), msg)
      ensures Model() == old(Model()).(usedSend := Place(old(pool.usedSend), task.data.len) + task.data.len,
                                       lens := old(lens) + [task.data.len])
      ensures pool.mem[..] == Copy(old(pool.mem[..]), task.data.addr, Frame(msg))
    {
      hide Ring;
      task := SendTaskCreate(msg);
      task.data := task.data.(typ := msg.typ);
      assert Queue() == old(Queue());
    }

    // hmr_msg_check.  waiting: trans_state keeps it in its loop, which only another thread
    // can end.
    method MsgCheck(typ: int) returns (ret: int, waiting: bool)
      ensures waiting <==> transState < A.FirstState(typ)
      ensures !waiting ==> ret == if transState > M.RCONNECTED then -1 else 0
    {
      if typ != READ && typ != WRITE {
        if transState != M.CONNECTED && transState != M.SCONNECTED && transState != M.RCONNECTED {
          return -1, transState <= M.RCONNECTED;
        }
      } else if transState != M.RCONNECTED {
        return -1, transState <= M.RCONNECTED;
      }
      return 0, false;
    }

    // hmr_rdma_send.  waiting: the call is still in the loop of hmr_msg_check.
    method RdmaSend(msg: Msg) returns (ret: int, waiting: bool)
      requires Valid() && Sendable(msg) && HEADER + |msg.data| <= M.POOL_SIZE
      modifies this, sendTaskList, nodes, pool, pool.mem, qp
      ensures Valid() && Model() == M.RdmaSend(old(Model()), msg)
      ensures pool.mem[..] == S.SendMem(old(pool.mem[..]), old(Model()), msg)
      ensures waiting <==> old(transState) < A.FirstState(msg.typ)
      ensures !waiting ==> ret == if old(transState) > M.RCONNECTED then -1 else 0
      ensures if waiting || ret != 0 then Model() == old(Model())
              else if msg.typ == MR then A.PostedIt(old(Model()), Model(), msg)
              else A.TookIn(old(Model()), Model(), msg)
      ensures forall x :: x in nodes ==> x in old(nodes) || fresh(x)
    {
      hide Ring, A.TookIn, A.PostedIt;
      A.CheckIff(transState, msg.typ);
      A.SendIff(Model(), msg);
      var check, wait := MsgCheck(msg.typ);
      if wait || check != 0 {
        return -1, wait;
      }
      var task := TypedTask(msg);
      if task.data.typ != MR {
        assert task !in [sendTaskList] + nodes;
        ListTask(task);
        return 0, false;
      }
      PostTask(task);
      return 0, false;
    }

    // hmr_exchange_mr_info
    method ExchangeMrInfo() returns (waiting: bool)
      requires Valid()
      modifies this, sendTaskList, nodes, pool, pool.mem, qp
      ensures Valid() && Model() == M.RdmaSend(old(Model()), M.MrMsg(mr))
      ensures pool.mem[..] == S.SendMem(old(pool.mem[..]), old(Model()), M.MrMsg(mr))
      ensures waiting <==> old(transState) < M.CONNECTED
      ensures forall x :: x in nodes ==> x in old(nodes) || fresh(x)
    {
      hide Ring;
      var _, w := RdmaSend(Msg(MR, mr));
      waiting := w;
    }

    // hmr_post_recv with the default size
    method PostRecv()
      requires Valid()
      modifies pool`usedRecv, qp`recvs
      ensures Valid() && Model() == M.PostRecv(old(Model()))
      ensures nodes == old(nodes)
    {
      hide Ring;
      var addr := pool.AllocRecv(recvSize);
      qp.PostRecv(addr);
      assert Queue() == old(Queue());
    }

    // hmr_pre_post_recv
    method PrePostRecv()
      requires Valid()
      modifies pool`usedRecv, qp`recvs
      ensures Valid() && nodes == old(nodes) && Model() == M.PostRecvs(old(Model()), M.PrePostCount(recvSize))
    {
      hide Ring;
      var num: int := ALLOC_MEM_SIZE / recvSize;
      num := num - 2;
      var i := 0;
      while i < num
        invariant 0 <= i <= M.PrePostCount(recvSize)
        invariant Valid() && Model() == M.PostRecvs(old(Model()), i)
        invariant nodes == old(nodes)
      {
        PostRecv();
        i := i + 1;
      }
    }

    // What connecting (client: hmr_rdma_connect, then on_cm_route_resolved) and accepting
    // (server: the end of hmr_rdma_accept) do to an endpoint.
    method Start()
      requires Valid()
      modifies this`transState, pool`usedRecv, qp`recvs
      ensures Valid() && nodes == old(nodes) && Model() == M.Started(old(Model()))
    {
      hide Ring;
      SetState(M.CONNECTING);
      PrePostRecv();
    }

    // on_cm_established; its send never waits.
    method OnEstablished()
      requires Valid()
      modifies this, sendTaskList, nodes, pool, pool.mem, qp
      ensures Valid() && Model() == M.Established(old(Model()))
      ensures pool.mem[..] == if isClient
                              then S.SendMem(old(pool.mem[..]), old(Model()).(st := M.CONNECTED), M.MrMsg(mr))
                              else old(pool.mem[..])
      ensures forall x :: x in nodes ==> x in old(nodes) || fresh(x)
    {
      hide Ring;
      SetState(M.CONNECTED);
      if isClient {
        var waiting := ExchangeMrInfo();
        assert !waiting;
      }
    }

    // hmr_handle_close_connection
    method HandleCloseConnection(recv: bool, send: bool, taskType: int) returns (waiting: bool)
      requires Valid()
      modifies this, sendTaskList, nodes, pool, pool.mem, qp
      ensures Valid() && forall x :: x in nodes ==> x in old(nodes) || fresh(x)
      ensures waiting <==> recv && taskType == FINISH && old(transState) < M.CONNECTED
      ensures Model() == if recv then M.OnClose(old(Model()), taskType)
                         else if send && taskType == DONE then old(Model()).(disc := true) else old(Model())
      ensures pool.mem[..] == if recv && taskType == FINISH then S.SendMem(old(pool.mem[..]), old(Model()), M.DoneMsg())
                              else old(pool.mem[..])
    {
      hide Ring;
      assert Queue() == old(Queue());
      waiting := false;
      if recv && taskType == FINISH {
        var _, w := RdmaSend(M.DoneMsg());
        waiting := w;
      } else if send && taskType == DONE {
        disc := true;
      } else if recv && taskType == DONE {
        disc := true;
      }
      assert !(recv && taskType == FINISH) ==> Queue() == old(Queue());
    }

    // The bytes of a receive buffer that the handler may look at: the header and the
    // descriptor are read even where the buffer is shorter.
    function Readable(): nat { if recvSize < HEADER + MR_SIZE then HEADER + MR_SIZE else recvSize }

    // hmr_wc_success_handler.  A receive is parsed in the buffer its task points to.
    method WcSuccessHandler(wc: M.Wc) returns (waiting: bool)
      requires Valid() && (wc.Rcvd? ==> wc.addr + Readable() <= M.POOL_SIZE)
      modifies this, sendTaskList, nodes, pool, pool.mem, qp
      ensures Valid() && forall x :: x in nodes ==> x in old(nodes) || fresh(x)
      ensures wc.Sent? ==> !waiting && Model() == M.OnSent(old(Model()), wc.wr) && pool.mem[..] == old(pool.mem[..])
      ensures wc.Rcvd? ==>
                var buf := old(pool.mem[wc.addr..wc.addr + Readable()]);
                var msg, desc := Parse(buf), DescIn(buf);
                && (waiting <==> msg.typ == FINISH && old(transState) < M.CONNECTED)
                && (!waiting ==>
                      && Model() == M.OnRcvd(old(Model()), msg, desc)
                      && pool.mem[..] == S.RcvdMem(old(pool.mem[..]), old(Model()), msg, desc))
                && (waiting ==>
                      && Model() == old(Model()).(rcvd := old(rcvd) + [msg])
                      && pool.mem[..] == old(pool.mem[..]))
    {
      hide Ring;
      match wc
      case Sent(wr) =>
        SendCompleted(wr);
        waiting := false;
      case Rcvd(addr, _) =>
        var buf: seq<Byte> := pool.mem[addr..addr + Readable()];
        waiting := RecvCompleted(Parse(buf), DescIn(buf));
    }

    // The handler for a send or remote write.
    method SendCompleted(wr: M.Wr)
      requires Valid()
      modifies this, sendTaskList, nodes, pool, pool.mem, qp
      ensures Valid() && Model() == M.OnSent(old(Model()), wr) && pool.mem[..] == old(pool.mem[..])
      ensures forall x :: x in nodes ==> x in old(nodes) || fresh(x)
    {
      hide Ring;
      var send := !M.IsWrite(wr.task) && wr.task.typ != READ;
      if wr.task.typ >= FINISH {
        var _ := HandleCloseConnection(false, send, wr.task.typ);
      }
      assert Queue() == old(Queue());
      if wr.task.typ == MR && send && transState == M.CONNECTED {
        SetState(M.SCONNECTED);
      }
      if wr.task.typ != READ {
        freed := freed + [wr];
      }
      assert Queue() == old(Queue());
    }

    // The handler for a receive.
    method RecvCompleted(msg: Msg, desc: Mr) returns (waiting: bool)
      requires Valid()
      modifies this, sendTaskList, nodes, pool, pool.mem, qp
      ensures Valid() && forall x :: x in nodes ==> x in old(nodes) || fresh(x)
      ensures waiting <==> msg.typ == FINISH && old(transState) < M.CONNECTED
      ensures !waiting ==> Model() == M.OnRcvd(old(Model()), msg, desc)
      ensures !waiting ==> pool.mem[..] == S.RcvdMem(old(pool.mem[..]), old(Model()), msg, desc)
      ensures waiting ==> Model() == old(Model()).(rcvd := old(rcvd) + [msg]) && pool.mem[..] == old(pool.mem[..])
    {
      hide Ring;
      waiting := false;
      rcvd := rcvd + [msg];
      assert Queue() == old(Queue());
      if msg.typ >= FINISH {
        waiting := HandleCloseConnection(true, false, msg.typ);
      }
      if waiting {
        return;
      }
      if msg.typ == MR {
        StoreDescriptor(desc);
      }
      PostRecv();
    }

    // The new descriptor is copied and the offset in the peer's region restarts.
    method CopyDescriptor(desc: Mr)
      requires Valid()
      modifies this`peerMr, this`usedNormalSize, this`epoch, this`lost
      ensures Valid() && Model() == V.NewEpoch(old(Model()), desc)
    {
      hide Ring;
      peerMr, usedNormalSize := desc, 0;
      epoch, lost := epoch + 1, 0;
      assert Queue() == old(Queue());
    }

    method SetState(st: int)
      requires Valid()
      modifies this`transState
      ensures Valid() && nodes == old(nodes) && Model() == old(Model()).(st := st)
    {
      hide Ring;
      transState := st;
      assert Queue() == old(Queue());
    }

    // The part of the handler that runs on a descriptor.
    method StoreDescriptor(desc: Mr)
      requires Valid()
      modifies this, sendTaskList, nodes, pool, pool.mem, qp
      ensures Valid() && Model() == M.OnMr(old(Model()), desc)
      ensures pool.mem[..] == if old(transState) == M.CONNECTED
                              then S.SendMem(old(pool.mem[..]), V.NewEpoch(old(Model()), desc), M.MrMsg(mr))
                              else old(pool.mem[..])
      ensures forall x :: x in nodes ==> x in old(nodes) || fresh(x)
    {
      hide Ring;
      CopyDescriptor(desc);
      if transState == M.CONNECTED {
        var waiting := ExchangeMrInfo();
        assert !waiting;
      }
      SetState(M.RCONNECTED);
    }

    // One turn of the loop that fills send_wr and sge; next still points to the
    // following element.
    method FillEntry(wrs: array<SendWr>, sges: array<Sge>, n: nat, task: M.Task)
      requires n < wrs.Length && n < sges.Length
      modifies wrs, sges, this`usedNormalSize
      ensures var x := M.WrFor(old(Model()), task, old(usedNormalSize));
              wrs[n] == SendWr(task, n + 1, n, x.raddr, x.rkey, x.off, x.epoch)
      ensures sges[n] == Sge(task.addr, task.len)
      ensures wrs[..n] == old(wrs[..n]) && sges[..n] == old(sges[..n])
      ensures usedNormalSize == old(usedNormalSize) + if M.IsWrite(task) then task.len else 0
    {
      var wr := SendWr(task, n + 1, n, 0, 0, 0, epoch);
      sges[n] := Sge(task.addr, task.len);
      if M.IsWrite(task) {
        wr := wr.(raddr := MrAddr(peerMr) + usedNormalSize, rkey := MrRkey(peerMr), off := usedNormalSize);
        usedNormalSize := usedNormalSize + sges[n].length;
      }
      wrs[n] := wr;
    }

    // The same turn, seen as progress towards the batch of t.
    method FillNext(wrs: array<SendWr>, sges: array<Sge>, n: nat, task: ListHead<M.Task>, ghost t: M.Trans)
      requires Valid() && n < |nodes| && task == nodes[n] && n < wrs.Length && n < sges.Length
      requires Queue() == t.queue && peerMr == t.peerMr && epoch == t.epoch
      requires usedNormalSize == t.used + M.WriteBytes(t.queue[..n]) && Described(t, wrs[..], sges[..], n, |nodes| + 1)
      modifies wrs, sges, this`usedNormalSize
      ensures usedNormalSize == t.used + M.WriteBytes(t.queue[..n + 1])
      ensures Described(t, wrs[..], sges[..], n + 1, |nodes| + 1)
    {
      hide Ring, Described, M.WrFor, M.WriteBytes;
      ghost var ws, gs, u := wrs[..], sges[..], usedNormalSize;
      WrForUsed(t, Model(), task.data, usedNormalSize);
      FillEntry(wrs, sges, n, task.data);
      DescribeNext(t, ws, gs, wrs[..], sges[..], n, u);
    }

    // One turn of the loop: the entry at pos is described and the next one returned.
    method BatchTurn(wrs: array<SendWr>, sges: array<Sge>, n: nat, pos: ListHead<M.Task>, ghost t: M.Trans)
      returns (next: ListHead<M.Task>)
      requires Valid() && n < |nodes| && pos == nodes[n] && n < wrs.Length && n < sges.Length
      requires Queue() == t.queue && peerMr == t.peerMr && epoch == t.epoch
      requires usedNormalSize == t.used + M.WriteBytes(t.queue[..n]) && Described(t, wrs[..], sges[..], n, |nodes| + 1)
      modifies wrs, sges, this`usedNormalSize
      ensures next == if n + 1 < |nodes| then nodes[n + 1] else sendTaskList
      ensures usedNormalSize == t.used + M.WriteBytes(t.queue[..n + 1])
      ensures Described(t, wrs[..], sges[..], n + 1, |nodes| + 1)
    {
      hide Ring, Described, M.WriteBytes;
      NextEntry(sendTaskList, nodes, n);
      FillNext(wrs, sges, n, pos, t);
      next := pos.next;
    }

    // After the loop the last next is cleared.
    method EndChain(wrs: array<SendWr>, sges: array<Sge>, n: nat, ghost t: M.Trans)
      requires n == |t.queue| && 0 < |t.queue| <= wrs.Length && |t.queue| <= sges.Length
      requires Described(t, wrs[..], sges[..], |t.queue|, |t.queue| + 1)
      modifies wrs
      ensures Described(t, wrs[..], sges[..], |t.queue|, |t.queue|)
    {
      hide Described;
      ghost var ws := wrs[..];
      wrs[n - 1] := wrs[n - 1].(next := -1);
      DescribeAll(t, ws, sges[..], wrs[..]);
    }

    // The loop that fills send_wr and sge from the list.  overrun: its next stores would
    // go past the end of the arrays; what the code does from there on is undefined.
    method BuildBatch(wrs: array<SendWr>, sges: array<Sge>) returns (n: nat, overrun: bool)
      requires Valid() && nodes != [] && wrs.Length == sges.Length
      modifies wrs, sges, this`usedNormalSize
      ensures Valid() && nodes == old(nodes)
      ensures overrun <==> |nodes| > wrs.Length
      ensures n == if overrun then wrs.Length else |nodes|
      ensures Model() == old(Model()).(used := old(usedNormalSize) + M.WriteBytes(old(Queue())[..n]))
      ensures !overrun ==> Described(old(Model()), wrs[..], sges[..], n, n)
    {
      hide Ring, Described, Entry, M.WriteBytes, M.WrFor, M.Batch;
      ghost var t := Model();
      n, overrun := 0, false;
      ListFacts(sendTaskList, nodes);
      var pos: ListHead<M.Task> := sendTaskList.next;
      DescribeNone(t, wrs[..], sges[..], |nodes| + 1);
      while pos != sendTaskList
        invariant n <= |nodes| && n <= wrs.Length && pos == if n < |nodes| then nodes[n] else sendTaskList
        invariant usedNormalSize == t.used + M.WriteBytes(t.queue[..n])
        invariant Described(t, wrs[..], sges[..], n, |nodes| + 1)
        decreases |nodes| - n
      {
        if n == wrs.Length {
          overrun := true;
          return;
        }
        pos := BatchTurn(wrs, sges, n, pos, t);
        n := n + 1;
      }
      EndChain(wrs, sges, n, t);
    }

    // The loop that takes the posted tasks off the list.
    method DrainList()
      requires Valid()
      modifies this`nodes, sendTaskList, nodes
      ensures Valid() && nodes == [] && Model() == old(Model()).(queue := [])
    {
      DrainAll(sendTaskList, nodes);
      nodes := [];
      assert [sendTaskList] + nodes == [sendTaskList];
      assert Queue() == [];
    }

    // Building and posting the batch.
    method PostBatch(ok: bool) returns (overrun: bool)
      requires Valid() && nodes != []
      modifies this`usedNormalSize, qp`sent
      ensures Valid() && nodes == old(nodes)
      ensures overrun <==> |nodes| > M.MAX_SEND_WR + 1
      ensures !overrun ==>
                Model() == old(Model()).(used := old(usedNormalSize) + M.WriteBytes(old(Queue())),
                                         posted := old(qp.sent)
                                                     + if ok then M.Batch(old(Model()), old(Queue())) else [])
      ensures overrun ==>
                Model() == old(Model()).(used := old(usedNormalSize) + M.WriteBytes(old(Queue())[..M.MAX_SEND_WR + 1]))
    {
      hide Ring, Described, Entry, Chain, Gather, M.WriteBytes, M.WrFor;
      ghost var t := Model();
      var wrs := new SendWr[M.MAX_SEND_WR + 1](i => SendWr(M.Task(0, 0, 0, 0, Msg(0, [])), -1, 0, 0, 0, 0, 0));
      var sges := new Sge[M.MAX_SEND_WR + 1](i => Sge(0, 0));
      var n, over := BuildBatch(wrs, sges);
      if over {
        return true;
      }
      assert t.queue[..n] == t.queue;
      ChainIsBatch(t, wrs[..], sges[..]);
      qp.PostChain(wrs, sges, 0, n, ok);
      overrun := false;
    }

    // hmr_send_task_handler; ok is the outcome of ibv_post_send.
    method SendTaskHandler(ok: bool) returns (overrun: bool)
      requires Valid()
      modifies this`usedNormalSize, this`nodes, this`lost, sendTaskList, nodes, qp
      ensures overrun <==> |old(nodes)| > M.MAX_SEND_WR + 1
      ensures !overrun ==> Valid() && Model() == M.Flush(old(Model()), ok)
      ensures !overrun && !ok ==>
                && nodes == old(nodes) && Queue() == old(Queue()) && qp.sent == old(qp.sent)
                && usedNormalSize == old(usedNormalSize) + M.WriteBytes(old(Queue()))
      ensures overrun ==>
                Model() == old(Model()).(used := old(usedNormalSize) + M.WriteBytes(old(Queue())[..M.MAX_SEND_WR + 1]))
    {
      hide Ring;
      var before := usedNormalSize;
      var empty := Empty(sendTaskList, nodes);
      if empty {
        return false;
      }
      overrun := PostBatch(ok);
      if overrun {
        return;
      }
      if ok {
        DrainList();
      } else {
        lost := lost + (usedNormalSize - before);
      }
    }
  }
}
