/** The same two endpoints with their memory: frames lie in the sender's send region
    until the network card reads them, and in the peer's receive buffers until the
    handler parses them; remote writes change the peer's rdma region.  Nothing but the
    allocators' arithmetic keeps these bytes from being overwritten too early. */
module SharedMemory {
  import opened Wire
  import opened Allocator
  import opened Sequences
  import opened TransportModel
  import opened TransportInvariants
  import opened Connection
  import opened ConnectionInvariants
  import opened FifoDelivery

  // A write outside the pool changes nothing here; it does not occur below.
  function Put(mem: seq<Byte>, addr: int, b: seq<Byte>): (r: seq<Byte>)
    ensures |r| == |mem|
  {
    if 0 <= addr && addr + |b| <= |mem| then Copy(mem, addr, b) else mem
  }

  function Get(mem: seq<Byte>, addr: nat, n: nat): (b: seq<Byte>)
    ensures |b| == n
  {
    if addr + n <= |mem| then mem[addr..addr + n] else seq(n, i => 0)
  }

  // hmr_rdma_send on the memory.
  function SendMem(mem: seq<Byte>, t: Trans, msg: Msg): (r: seq<Byte>)
    ensures |r| == |mem|
  {
    if MsgCheck(t.st, msg.typ) == Pass && Sendable(msg) then Put(mem, NewTask(t, msg).addr, Frame(msg)) else mem
  }

  // The replies the receive handler sends.
  function RcvdMem(mem: seq<Byte>, t: Trans, msg: Msg, desc: Mr): (r: seq<Byte>)
    ensures |r| == |mem|
  {
    var t0 := t.(rcvd := t.rcvd + [msg]);
    if msg.typ == FINISH then SendMem(mem, t0, DoneMsg())
    else if msg.typ == MR && t.st == CONNECTED then SendMem(mem, NewEpoch(t0, desc), MrMsg(t.mr))
    else mem
  }

  // One side: the endpoint and its pool.
  datatype Host = Host(ep: Ep, mem: seq<Byte>)

  function HostStep(x: Host, y: Host, a: Act): (Host, Host)
    requires Enabled(x.ep, y.ep, a)
  {
    match a
    case AppSend(msg) =>
      (Host(Step(x.ep, y.ep, a).0, SendMem(x.mem, x.ep.t, msg)), y)
    case Establish =>
      (Host(Step(x.ep, y.ep, a).0,
            if x.ep.t.isClient then SendMem(x.mem, x.ep.t.(st := CONNECTED), MrMsg(x.ep.t.mr)) else x.mem), y)
    case Complete =>
      if x.ep.cq[0].Sent? then (Host(Step(x.ep, y.ep, a).0, x.mem), y)
      else
        var buf := Get(x.mem, x.ep.cq[0].addr, MAX_RECV_SIZE);
        var msg, desc := Parse(buf), DescIn(buf);
        (Host(Completed(x.ep, msg, desc), RcvdMem(x.mem, x.ep.t, msg, desc)), y)
    case Deliver =>
      var wr := x.ep.t.posted[x.ep.delivered];
      var bytes := Get(x.mem, wr.task.addr, wr.task.len);
      (Host(Step(x.ep, y.ep, a).0, x.mem),
       Host(Step(x.ep, y.ep, a).1,
            Put(y.mem,
                if IsWrite(wr.task) then RDMA_BASE + wr.raddr - MrAddr(y.ep.t.mr) else y.ep.t.recvs[Filled(y.ep)],
                bytes)))
    case _ => (Host(Step(x.ep, y.ep, a).0, x.mem), y)
  }

  datatype Net = Net(c: Host, s: Host)

  function Next(n: Net, m: Move): Net {
    if m.client then
      if Enabled(n.c.ep, n.s.ep, m.act) then var (x, y) := HostStep(n.c, n.s, m.act); Net(x, y) else n
    else
      if Enabled(n.s.ep, n.c.ep, m.act) then var (x, y) := HostStep(n.s, n.c, m.act); Net(y, x) else n
  }

  function Run(n: Net, moves: seq<Move>): Net {
    if moves == [] then n else Next(Run(n, Front(moves)), Last(moves))
  }

  function Eps(n: Net): Sys { Sys(n.c.ep, n.s.ep) }

  // ----- What the memories hold

  ghost predicate Holds(mem: seq<Byte>, addr: nat, msg: Msg) {
    Sendable(msg) && addr + HEADER + |msg.data| <= |mem| && mem[addr..addr + HEADER + |msg.data|] == Frame(msg)
  }

  // The send tasks whose bytes have not reached the peer yet.
  predicate Live(x: Ep, task: Task) {
    || (exists k :: 0 <= k < |x.t.queue| && x.t.queue[k] == task)
    || (exists k :: x.delivered <= k < |x.t.posted| && x.t.posted[k].task == task)
  }

  ghost predicate SendFrames(x: Host) {
    forall task :: Live(x.ep, task) ==> Holds(x.mem, task.addr, task.msg)
  }

  // The buffers recvs[from], recvs[from + 1], ... hold the frames of msgs.
  ghost predicate PendingHeld(mem: seq<Byte>, recvs: seq<nat>, from: nat, msgs: seq<Msg>)
    requires from + |msgs| <= |recvs|
  {
    forall j :: 0 <= j < |msgs| ==>
      HEADER + |msgs[j].data| <= MAX_RECV_SIZE && Holds(mem, recvs[from + j], msgs[j])
  }

  ghost predicate RecvFrames(x: Host)
    requires Filled(x.ep) <= |x.ep.t.recvs|
  {
    PendingHeld(x.mem, x.ep.t.recvs, |x.ep.t.rcvd|, RcvdMsgs(x.ep.cq))
  }

  // Write i of x has taken effect and no write with a later base followed it.
  predicate LatestWrite(x: Ep, i: nat) {
    && i < x.delivered <= |x.t.posted| && IsWrite(x.t.posted[i].task)
    && forall j :: i < j < x.delivered && IsWrite(x.t.posted[j].task) ==> x.t.posted[j].epoch == x.t.posted[i].epoch
  }

  ghost predicate WritesLanded(x: Ep, mem: seq<Byte>) {
    forall i :: 0 <= i < x.delivered && LatestWrite(x, i) ==>
      && x.t.posted[i].off + x.t.posted[i].task.len <= ALLOC_MEM_SIZE
      && Holds(mem, RDMA_BASE + x.t.posted[i].off, x.t.posted[i].task.msg)
  }

  // What x's pool holds; y is the peer, whose writes landed there.
  ghost predicate MemInv(x: Host, y: Ep) {
    && |x.mem| == POOL_SIZE && Filled(x.ep) <= |x.ep.t.recvs|
    && SendFrames(x) && RecvFrames(x) && WritesLanded(y, x.mem)
  }

  // The allocator hypothesis: no frame exceeds L, and the bytes allocated since any
  // frame that is still needed stay within the safe window.
  ghost predicate Windowed(x: Ep, L: nat)
    requires HEADER <= L <= ALLOC_MEM_SIZE
  {
    && Bounded(x.t.lens, 0, L)
    && forall task :: Live(x, task) && task.id <= |x.t.lens| ==>
         Bytes(x.t.lens, task.id, |x.t.lens|) <= Window(HEADER, L)
  }

  ghost predicate WindowedRun(z: Sys, moves: seq<Move>, L: nat)
    requires HEADER <= L <= ALLOC_MEM_SIZE
  {
    && Windowed(Connection.Run(z, moves).c, L) && Windowed(Connection.Run(z, moves).s, L)
    && (moves != [] ==> WindowedRun(z, Front(moves), L))
  }

  // ----- Frames survive writes elsewhere

  lemma {:induction false} HoldsKept(mem: seq<Byte>, at: int, b: seq<Byte>, addr: nat, msg: Msg)
    requires Holds(mem, addr, msg)
    requires addr + HEADER + |msg.data| <= at || at + |b| <= addr
    ensures Holds(Put(mem, at, b), addr, msg)
  {
    if 0 <= at && at + |b| <= |mem| {
      CopyKeeps(mem, at, b, addr, HEADER + |msg.data|);
    }
  }

  lemma {:induction false} HoldsPut(mem: seq<Byte>, at: nat, msg: Msg)
    requires Sendable(msg) && at + HEADER + |msg.data| <= |mem|
    ensures Holds(Put(mem, at, Frame(msg)), at, msg)
  {
  }

  lemma {:induction false} ParseHeld(mem: seq<Byte>, addr: nat, msg: Msg)
    requires Holds(mem, addr, msg) && HEADER + |msg.data| <= MAX_RECV_SIZE && addr + MAX_RECV_SIZE <= |mem|
    ensures var buf := Get(mem, addr, MAX_RECV_SIZE);
            Parse(buf) == msg && (|msg.data| == MR_SIZE ==> DescIn(buf) == msg.data)
  {
    var buf, n := Get(mem, addr, MAX_RECV_SIZE), HEADER + |msg.data|;
    assert buf[..n] == mem[addr..addr + n];
    assert buf == Frame(msg) + buf[n..];
    FrameRoundTrip(msg, buf[n..]);
    if |msg.data| == MR_SIZE {
      assert DescIn(buf) == Frame(msg)[HEADER..];
    }
  }

  lemma {:induction false} LiveIsTask(x: Ep, task: Task)
    requires TaskInv(x.t) && Live(x, task)
    ensures Serialised(task, x.t.lens)
  {
    if k :| 0 <= k < |x.t.queue| && x.t.queue[k] == task {
      assert AllTasks(x.t)[|x.t.posted| + k] == task;
    } else {
      var k :| x.delivered <= k < |x.t.posted| && x.t.posted[k].task == task;
      assert AllTasks(x.t)[k] == task;
    }
  }

  lemma {:induction false} TaskInRegion(lens: seq<nat>, L: nat, task: Task)
    requires HEADER <= L <= ALLOC_MEM_SIZE && Bounded(lens, 0, L) && Serialised(task, lens)
    ensures SEND_BASE <= task.addr && task.addr + task.len <= RECV_BASE
  {
    InRegionIff(lens, task.id);
  }

  // Receive buffers lie in the receive region, any eight in a row clear of each other.
  ghost predicate RecvApart(recvs: seq<nat>) {
    && (forall i :: 0 <= i < |recvs| ==> RECV_BASE <= recvs[i] && recvs[i] + MAX_RECV_SIZE <= RDMA_BASE)
    && (forall i, j :: 0 <= i < j < |recvs| && j < i + 8 ==> Apart(recvs[i], MAX_RECV_SIZE, recvs[j], MAX_RECV_SIZE))
  }

  lemma {:induction false} RecvBuffers(t: Trans)
    requires RecvInv(t) && t.recvSize == MAX_RECV_SIZE
    ensures RecvApart(t.recvs)
  {
    forall i | 0 <= i < |t.recvs|
      ensures RECV_BASE <= t.recvs[i] && t.recvs[i] + MAX_RECV_SIZE <= RDMA_BASE
    {
      RecvBufferAt(MAX_RECV_SIZE, i + 1, i);
    }
    forall i, j | 0 <= i < j < |t.recvs| && j < i + 8
      ensures Apart(t.recvs[i], MAX_RECV_SIZE, t.recvs[j], MAX_RECV_SIZE)
    {
      RecvWindow(MAX_RECV_SIZE, i, j);
    }
  }
}
