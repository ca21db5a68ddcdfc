/** Within the allocator's window the memories change nothing: the system with memory
    takes exactly the steps of the system that passes messages by value. */
module SharedMemoryProofs {
  import opened Wire
  import opened Allocator
  import opened Sequences
  import opened TransportModel
  import opened TransportInvariants
  import opened Connection
  import opened ConnectionInvariants
  import opened FifoDelivery
  import M = SharedMemory
  import opened SharedMemory
  import G = GracefulClose
  import E = DescriptorExchange

  // ----- Writes in one region leave the frames of the others alone

  lemma {:induction false} PendingKept(mem: seq<Byte>, at: int, b: seq<Byte>, recvs: seq<nat>, from: nat,
                                       msgs: seq<Msg>)
    requires RecvApart(recvs) && from + |msgs| <= |recvs| && PendingHeld(mem, recvs, from, msgs)
    requires at + |b| <= RECV_BASE || RDMA_BASE <= at
    ensures PendingHeld(Put(mem, at, b), recvs, from, msgs)
  {
    forall j | 0 <= j < |msgs|
      ensures Holds(Put(mem, at, b), recvs[from + j], msgs[j])
    {
      HoldsKept(mem, at, b, recvs[from + j], msgs[j]);
    }
  }

  // x.mem changes in the send region only.
  lemma {:induction false} SendRegionWrite(x: Host, y: Ep, at: nat, b: seq<Byte>)
    requires Filled(x.ep) <= |x.ep.t.recvs| && RecvApart(x.ep.t.recvs)
    requires RecvFrames(x) && WritesLanded(y, x.mem) && at + |b| <= RECV_BASE
    ensures RecvFrames(x.(mem := Put(x.mem, at, b))) && WritesLanded(y, Put(x.mem, at, b))
  {
    PendingKept(x.mem, at, b, x.ep.t.recvs, |x.ep.t.rcvd|, RcvdMsgs(x.ep.cq));
    forall i | 0 <= i < y.delivered && LatestWrite(y, i)
      ensures Holds(Put(x.mem, at, b), RDMA_BASE + y.t.posted[i].off, y.t.posted[i].task.msg)
    {
      HoldsKept(x.mem, at, b, RDMA_BASE + y.t.posted[i].off, y.t.posted[i].task.msg);
    }
  }

  lemma {:induction false} SendFramesKept(x: Host, L: nat, at: int, b: seq<Byte>)
    requires TaskInv(x.ep.t) && SendFrames(x) && HEADER <= L <= ALLOC_MEM_SIZE
    requires Bounded(x.ep.t.lens, 0, L) && at >= RECV_BASE
    ensures SendFrames(x.(mem := Put(x.mem, at, b)))
  {
    forall task | Live(x.ep, task)
      ensures Holds(Put(x.mem, at, b), task.addr, task.msg)
    {
      LiveIsTask(x.ep, task);
      TaskInRegion(x.ep.t.lens, L, task);
      HoldsKept(x.mem, at, b, task.addr, task.msg);
    }
  }

  // ----- A new frame is written

  // x' is x after hmr_rdma_send created task.
  lemma {:induction false} NewFrame(x: Host, x': Ep, task: Task, L: nat)
    requires TaskInv(x.ep.t) && SendFrames(x) && HEADER <= L <= ALLOC_MEM_SIZE && |x.mem| == POOL_SIZE
    requires x'.t.lens == x.ep.t.lens + [task.len] && task.id == |x.ep.t.lens| && Serialised(task, x'.t.lens)
    requires forall k :: Live(x', k) ==> Live(x.ep, k) || k == task
    requires Live(x', task) && Windowed(x', L)
    ensures SendFrames(Host(x', Put(x.mem, task.addr, Frame(task.msg))))
    ensures task.addr + task.len <= RECV_BASE
  {
    var lens := x'.t.lens;
    TaskInRegion(lens, L, task);
    HoldsPut(x.mem, task.addr, task.msg);
    forall k | Live(x', k)
      ensures Holds(Put(x.mem, task.addr, Frame(task.msg)), k.addr, k.msg)
    {
      if k != task {
        LiveIsTask(x.ep, k);
        PosStable(x.ep.t.lens, [task.len], k.id);
        Safe(lens, HEADER, L, k.id, task.id);
        HoldsKept(x.mem, task.addr, Frame(task.msg), k.addr, k.msg);
      }
    }
  }

  // hmr_rdma_send of x, writing to its pool.  t is the transport just before, which
  // may differ from x.ep.t in fields that hold no frames.
  lemma {:induction false} SendMemory(x: Host, x': Ep, y: Ep, t: Trans, msg: Msg, L: nat)
    requires TaskInv(x.ep.t) && RecvApart(x.ep.t.recvs) && HEADER <= L <= ALLOC_MEM_SIZE
    requires Filled(x.ep) <= |x.ep.t.recvs| && |x.mem| == POOL_SIZE
    requires SendFrames(x) && RecvFrames(x) && WritesLanded(y, x.mem)
    requires MsgCheck(t.st, msg.typ) == Pass && Sendable(msg)
    requires t.lens == x.ep.t.lens && t.usedSend == x.ep.t.usedSend
    requires t.queue == x.ep.t.queue && t.posted == x.ep.t.posted
    requires x'.delivered == x.ep.delivered <= |t.posted| && Windowed(x', L)
    requires var t2 := RdmaSend(t, msg); x'.t.lens == t2.lens && x'.t.queue == t2.queue && x'.t.posted == t2.posted
    ensures var mem' := SendMem(x.mem, t, msg);
            SendFrames(Host(x', mem')) && RecvFrames(x.(mem := mem')) && WritesLanded(y, mem')
  {
    var task := NewTask(t, msg);
    NewTaskSerialised(t, msg);
    SendEffect(t, msg);
    forall k | Live(x', k)
      ensures Live(x.ep, k) || k == task
    {
      NewLive(x.ep, x', k, task);
    }
    assert Live(x', task) by {
      if msg.typ != MR {
        assert x'.t.queue[|x.ep.t.queue|] == task;
      } else {
        assert x'.t.posted[|x.ep.t.posted|].task == task;
      }
    }
    NewFrame(x, x', task, L);
    SendRegionWrite(x, y, task.addr, Frame(msg));
  }

  lemma {:induction false} NewLive(x: Ep, x': Ep, k: Task, task: Task)
    requires x'.delivered == x.delivered <= |x.t.posted| && Live(x', k)
    requires x'.t.queue == x.t.queue || x'.t.queue == x.t.queue + [task]
    requires x'.t.posted == x.t.posted
          || (|x'.t.posted| == |x.t.posted| + 1 && x'.t.posted[..|x.t.posted|] == x.t.posted
              && Last(x'.t.posted).task == task)
    ensures Live(x, k) || k == task
  {
    if i :| 0 <= i < |x'.t.queue| && x'.t.queue[i] == k {
      if i < |x.t.queue| {
        assert x.t.queue[i] == k;
      }
    } else {
      var i :| x'.delivered <= i < |x'.t.posted| && x'.t.posted[i].task == k;
      if i < |x.t.posted| {
        assert x.t.posted[i].task == k;
      }
    }
  }

  // ----- Delivery

  // The next buffer is filled.
  lemma {:induction false} PendingPushed(mem: seq<Byte>, recvs: seq<nat>, from: nat, msgs: seq<Msg>, msg: Msg,
                                         at: nat, msgs': seq<Msg>)
    requires RecvApart(recvs) && |mem| == POOL_SIZE && |msgs| < 8
    requires from + |msgs| < |recvs| && PendingHeld(mem, recvs, from, msgs)
    requires Sendable(msg) && HEADER + |msg.data| <= MAX_RECV_SIZE
    requires at == recvs[from + |msgs|] && msgs' == msgs + [msg]
    ensures PendingHeld(Put(mem, at, Frame(msg)), recvs, from, msgs')
  {
    HoldsPut(mem, at, msg);
    forall j | 0 <= j < |msgs|
      ensures Holds(Put(mem, at, Frame(msg)), recvs[from + j], msgs[j])
    {
      assert Apart(recvs[from + j], MAX_RECV_SIZE, at, MAX_RECV_SIZE);
      HoldsKept(mem, at, Frame(msg), recvs[from + j], msgs[j]);
    }
  }

  lemma {:induction false} LandedAfterSend(x: Ep, mem: seq<Byte>, at: nat, b: seq<Byte>)
    requires WritesLanded(x, mem) && at + |b| <= RDMA_BASE
    requires x.delivered < |x.t.posted| && !IsWrite(x.t.posted[x.delivered].task)
    ensures WritesLanded(x.(delivered := x.delivered + 1), Put(mem, at, b))
  {
    var x' := x.(delivered := x.delivered + 1);
    forall i | 0 <= i < x'.delivered && LatestWrite(x', i)
      ensures x'.t.posted[i].off + x'.t.posted[i].task.len <= ALLOC_MEM_SIZE
      ensures Holds(Put(mem, at, b), RDMA_BASE + x'.t.posted[i].off, x'.t.posted[i].task.msg)
    {
      assert LatestWrite(x, i);
      HoldsKept(mem, at, b, RDMA_BASE + x.t.posted[i].off, x.t.posted[i].task.msg);
    }
  }

  // A remote write lands clear of those that came before it with the same base.
  lemma {:induction false} LandedAfterWrite(x: Ep, mem: seq<Byte>)
    requires WritesLanded(x, mem) && WriteInv(x.t) && |mem| == POOL_SIZE
    requires x.delivered < |x.t.posted| && IsWrite(x.t.posted[x.delivered].task)
    requires var w := x.t.posted[x.delivered];
             w.off + w.task.len <= ALLOC_MEM_SIZE && Sendable(w.task.msg) && w.task.len == HEADER + |w.task.msg.data|
    requires forall i :: 0 <= i < x.delivered && IsWrite(x.t.posted[i].task)
               ==> x.t.posted[i].task.len == HEADER + |x.t.posted[i].task.msg.data|
    ensures var w := x.t.posted[x.delivered];
            WritesLanded(x.(delivered := x.delivered + 1), Put(mem, RDMA_BASE + w.off, Frame(w.task.msg)))
  {
    hide Put, Frame, EpochBytes;
    var w := x.t.posted[x.delivered];
    var x' := x.(delivered := x.delivered + 1);
    HoldsPut(mem, RDMA_BASE + w.off, w.task.msg);
    forall i | 0 <= i < x'.delivered && LatestWrite(x', i)
      ensures x'.t.posted[i].off + x'.t.posted[i].task.len <= ALLOC_MEM_SIZE
      ensures Holds(Put(mem, RDMA_BASE + w.off, Frame(w.task.msg)),
                    RDMA_BASE + x'.t.posted[i].off, x'.t.posted[i].task.msg)
    {
      if i < x.delivered {
        assert LatestWrite(x, i);
        assert x.t.posted[i].epoch == w.epoch;
        HoldsKept(mem, RDMA_BASE + w.off, Frame(w.task.msg), RDMA_BASE + x.t.posted[i].off, x.t.posted[i].task.msg);
      }
    }
  }

  lemma {:induction false} PostedTask(x: Ep, i: nat)
    requires TaskInv(x.t) && i < |x.t.posted|
    ensures Serialised(x.t.posted[i].task, x.t.lens)
  {
    assert AllTasks(x.t)[i] == x.t.posted[i].task;
  }

  // The frame the network card reads is the one the task was created with.
  lemma {:induction false} FrameRead(x: Host)
    requires TaskInv(x.ep.t) && SendFrames(x) && x.ep.delivered < |x.ep.t.posted|
    ensures var task := x.ep.t.posted[x.ep.delivered].task;
            && Serialised(task, x.ep.t.lens)
            && Get(x.mem, task.addr, task.len) == Frame(task.msg)
  {
    PostedTask(x.ep, x.ep.delivered);
    assert Live(x.ep, x.ep.t.posted[x.ep.delivered].task);
  }

  lemma {:induction false} SendFramesAdvance(x: Host)
    requires SendFrames(x)
    ensures SendFrames(x.(ep := x.ep.(delivered := x.ep.delivered + 1)))
  {
    forall k | Live(x.ep.(delivered := x.ep.delivered + 1), k)
      ensures Live(x.ep, k)
    {
    }
  }

  // Live tasks only depend on the list, the posted requests and the delivered count.
  lemma {:induction false} SendFramesSame(x: Host, ep': Ep)
    requires SendFrames(x)
    requires ep'.t.queue == x.ep.t.queue && ep'.t.posted == x.ep.t.posted && ep'.delivered == x.ep.delivered
    ensures SendFrames(x.(ep := ep'))
  {
    forall k | Live(ep', k)
      ensures Live(x.ep, k)
    {
    }
  }

  lemma {:induction false} LandedSame(x: Ep, x': Ep, mem: seq<Byte>)
    requires WritesLanded(x, mem) && x'.delivered == x.delivered <= |x.t.posted|
    requires |x'.t.posted| >= |x.t.posted| && x'.t.posted[..|x.t.posted|] == x.t.posted
    ensures WritesLanded(x', mem)
  {
    assert forall i :: 0 <= i < |x.t.posted| ==> x'.t.posted[i] == x.t.posted[i];
    forall i | 0 <= i < x'.delivered && LatestWrite(x', i)
      ensures LatestWrite(x, i)
    {
    }
  }

  // y's pool changes from the receive region upwards.
  lemma {:induction false} UpperWrite(y: Host, L: nat, at: nat, b: seq<Byte>)
    requires TaskInv(y.ep.t) && HEADER <= L <= ALLOC_MEM_SIZE && Bounded(y.ep.t.lens, 0, L) && SendFrames(y)
    requires RecvApart(y.ep.t.recvs) && Filled(y.ep) <= |y.ep.t.recvs| && RecvFrames(y)
    requires at >= RDMA_BASE
    ensures var y' := y.(mem := Put(y.mem, at, b)); SendFrames(y') && RecvFrames(y')
  {
    PendingKept(y.mem, at, b, y.ep.t.recvs, |y.ep.t.rcvd|, RcvdMsgs(y.ep.cq));
    SendFramesKept(y, L, at, b);
  }

  // The frame of x's next SEND is in y's next buffer and in the completion queue cq'.
  lemma {:induction false} BufferPending(y: Host, msg: Msg, cq': seq<Wc>)
    requires |y.mem| == POOL_SIZE && RecvApart(y.ep.t.recvs)
    requires Filled(y.ep) < |y.ep.t.recvs| <= |y.ep.t.rcvd| + 6 && RecvFrames(y)
    requires Sendable(msg) && HEADER + |msg.data| <= MAX_RECV_SIZE
    requires RcvdMsgs(cq') == RcvdMsgs(y.ep.cq) + [msg]
    ensures var y' := Host(y.ep.(cq := cq'), Put(y.mem, y.ep.t.recvs[Filled(y.ep)], Frame(msg)));
            Filled(y'.ep) <= |y'.ep.t.recvs| && RecvFrames(y')
  {
    PendingPushed(y.mem, y.ep.t.recvs, |y.ep.t.rcvd|, RcvdMsgs(y.ep.cq), msg, y.ep.t.recvs[Filled(y.ep)],
                  RcvdMsgs(cq'));
  }

  lemma {:induction false} BufferFilled(y: Host, L: nat, msg: Msg, cq': seq<Wc>)
    requires TaskInv(y.ep.t) && HEADER <= L <= ALLOC_MEM_SIZE && Bounded(y.ep.t.lens, 0, L)
    requires |y.mem| == POOL_SIZE && SendFrames(y) && RecvApart(y.ep.t.recvs)
    requires Filled(y.ep) < |y.ep.t.recvs| <= |y.ep.t.rcvd| + 6 && RecvFrames(y)
    requires Sendable(msg) && HEADER + |msg.data| <= MAX_RECV_SIZE
    requires RcvdMsgs(cq') == RcvdMsgs(y.ep.cq) + [msg]
    ensures var y' := Host(y.ep.(cq := cq'), Put(y.mem, y.ep.t.recvs[Filled(y.ep)], Frame(msg)));
            Filled(y'.ep) <= |y'.ep.t.recvs| && SendFrames(y') && RecvFrames(y')
  {
    hide SendFrames, RecvFrames, Put, Frame;
    var at := y.ep.t.recvs[Filled(y.ep)];
    BufferPending(y, msg, cq');
    SendFramesKept(y, L, at, Frame(msg));
    SendFramesSame(y.(mem := Put(y.mem, at, Frame(msg))), y.ep.(cq := cq'));
  }

  // ----- Steps of a host

  // What the proofs below need to know about x as a message-passing endpoint.
  ghost predicate Plain(x: Ep) {
    && TransInv(x.t) && RecvApart(x.t.recvs) && x.delivered <= |x.t.posted|
    && Filled(x) <= |x.t.recvs| <= |x.t.rcvd| + 6
  }

  lemma {:induction false} PlainOfInv(x: Ep, y: Ep)
    requires TransInv(x.t) && Both(x, y)
    ensures Plain(x)
  {
    RecvBuffers(x.t);
  }

  // A step of x that does not touch y leaves what y's pool holds.
  lemma {:induction false} PeerKept(x: Ep, x': Ep, y: Host)
    requires MemInv(y, x)
    requires x'.delivered == x.delivered <= |x.t.posted|
    requires |x'.t.posted| >= |x.t.posted| && x'.t.posted[..|x.t.posted|] == x.t.posted
    ensures MemInv(y, x')
  {
    LandedSame(x, x', y.mem);
  }

  // The sender's half of a delivery.
  lemma {:induction false} SenderAdvances(x: Host, y: Ep, y': Ep)
    requires MemInv(x, y) && y'.t == y.t && y'.delivered == y.delivered <= |y.t.posted|
    ensures MemInv(x.(ep := x.ep.(delivered := x.ep.delivered + 1)), y')
  {
    SendFramesAdvance(x);
    LandedSame(y, y', x.mem);
  }

  lemma {:induction false} HostDeliverSend(x: Host, y: Host, L: nat)
    requires TaskInv(x.ep.t) && TaskInv(y.ep.t) && RecvApart(y.ep.t.recvs) && |y.ep.t.recvs| <= |y.ep.t.rcvd| + 6
    requires x.ep.delivered < |x.ep.t.posted| && Kind(x.ep.t.posted[x.ep.delivered].task, x.ep.t.mr)
    requires SendFrames(x) && MemInv(y, x.ep) && HEADER <= L <= ALLOC_MEM_SIZE && Bounded(y.ep.t.lens, 0, L)
    requires Enabled(x.ep, y.ep, Deliver) && !IsWrite(x.ep.t.posted[x.ep.delivered].task)
    ensures var (x', y') := HostStep(x, y, Deliver); MemInv(y', x'.ep)
  {
    hide SendFrames, RecvFrames, WritesLanded, TaskInv, Put, Get, Frame;
    var task := x.ep.t.posted[x.ep.delivered].task;
    var at := y.ep.t.recvs[Filled(y.ep)];
    var cq' := y.ep.cq + [Rcvd(at, task.msg)];
    FrameRead(x);
    CqPush(y.ep.cq, Rcvd(at, task.msg));
    BufferFilled(y, L, task.msg, cq');
    LandedAfterSend(x.ep, y.mem, at, Frame(task.msg));
  }

  lemma {:induction false} WriteLands(x: Ep, y: Host, L: nat)
    requires WriteInv(x.t) && TaskInv(y.ep.t) && RecvApart(y.ep.t.recvs)
    requires MemInv(y, x) && HEADER <= L <= ALLOC_MEM_SIZE && Bounded(y.ep.t.lens, 0, L)
    requires x.delivered < |x.t.posted| && IsWrite(x.t.posted[x.delivered].task)
    requires forall i :: 0 <= i < |x.t.posted| ==> x.t.posted[i].task.len == HEADER + |x.t.posted[i].task.msg.data|
    requires var w := x.t.posted[x.delivered]; w.off + w.task.len <= ALLOC_MEM_SIZE && Sendable(w.task.msg)
    ensures var w := x.t.posted[x.delivered];
            MemInv(y.(mem := Put(y.mem, RDMA_BASE + w.off, Frame(w.task.msg))), x.(delivered := x.delivered + 1))
  {
    var w := x.t.posted[x.delivered];
    UpperWrite(y, L, RDMA_BASE + w.off, Frame(w.task.msg));
    LandedAfterWrite(x, y.mem);
  }

  // A write inside the region that mr describes, as an offset in the pool.
  lemma {:induction false} WriteOffset(w: Wr, mr: Mr)
    requires w.raddr == MrAddr(mr) + w.off && InRegion(w, mr)
    ensures RDMA_BASE + w.raddr - MrAddr(mr) == RDMA_BASE + w.off && w.off + w.task.len <= ALLOC_MEM_SIZE
  {
  }

  lemma {:induction false} HostDeliverWrite(x: Host, y: Host, L: nat)
    requires TaskInv(x.ep.t) && WriteInv(x.ep.t) && TaskInv(y.ep.t) && RecvApart(y.ep.t.recvs)
    requires SendFrames(x) && MemInv(y, x.ep) && HEADER <= L <= ALLOC_MEM_SIZE && Bounded(y.ep.t.lens, 0, L)
    requires x.ep.delivered < |x.ep.t.posted|
    requires var w := x.ep.t.posted[x.ep.delivered];
             IsWrite(w.task) && w.raddr == MrAddr(y.ep.t.mr) + w.off && InRegion(w, y.ep.t.mr)
    ensures var w := x.ep.t.posted[x.ep.delivered];
            var bytes := Get(x.mem, w.task.addr, w.task.len);
            MemInv(y.(mem := Put(y.mem, RDMA_BASE + w.raddr - MrAddr(y.ep.t.mr), bytes)),
                   x.ep.(delivered := x.ep.delivered + 1))
  {
    hide WriteInv, RecvApart, RecvFrames, WritesLanded, MrAddr, MrRkey, Put, Get, Frame;
    FrameRead(x);
    PostedLens(x.ep);
    WriteOffset(x.ep.t.posted[x.ep.delivered], y.ep.t.mr);
    WriteLands(x.ep, y, L);
  }

  lemma {:induction false} PostedLens(x: Ep)
    requires TaskInv(x.t)
    ensures forall i :: 0 <= i < |x.t.posted| ==> x.t.posted[i].task.len == HEADER + |x.t.posted[i].task.msg.data|
  {
    forall i | 0 <= i < |x.t.posted|
      ensures Serialised(x.t.posted[i].task, x.t.lens)
    {
      PostedTask(x, i);
    }
  }

  // hmr_rdma_send on x, from the application or from on_cm_established.
  lemma {:induction false} HostSend(x: Host, y: Host, t: Trans, msg: Msg, L: nat)
    requires Plain(x.ep) && MemInv(x, y.ep) && MemInv(y, x.ep) && HEADER <= L <= ALLOC_MEM_SIZE
    requires t == x.ep.t.(st := t.st) && MsgCheck(t.st, msg.typ) == Pass && Sendable(msg)
    requires Windowed(x.ep.(t := RdmaSend(t, msg)), L)
    ensures var x' := Host(x.ep.(t := RdmaSend(t, msg)), SendMem(x.mem, t, msg));
            MemInv(x', y.ep) && MemInv(y, x'.ep)
  {
    var ep' := x.ep.(t := RdmaSend(t, msg));
    SendEffect(t, msg);
    SendMemory(x, ep', y.ep, t, msg, L);
    PeerKept(x.ep, ep', y);
  }

  // Steps of x's software or network that create no frame and handle no receive.
  lemma {:induction false} HostQuiet(x: Host, ep': Ep, y: Host)
    requires MemInv(x, y.ep) && MemInv(y, x.ep) && ep'.delivered == x.ep.delivered <= |x.ep.t.posted|
    requires forall k :: Live(ep', k) ==> Live(x.ep, k)
    requires |ep'.t.posted| >= |x.ep.t.posted| && ep'.t.posted[..|x.ep.t.posted|] == x.ep.t.posted
    requires ep'.t.rcvd == x.ep.t.rcvd && RcvdMsgs(ep'.cq) == RcvdMsgs(x.ep.cq)
    requires |ep'.t.recvs| >= |x.ep.t.recvs| && ep'.t.recvs[..|x.ep.t.recvs|] == x.ep.t.recvs
    ensures MemInv(x.(ep := ep'), y.ep) && MemInv(y, ep')
  {
    PeerKept(x.ep, ep', y);
    PendingMoved(x.mem, x.ep.t.recvs, |x.ep.t.rcvd|, RcvdMsgs(x.ep.cq), ep'.t.recvs, |x.ep.t.rcvd|, RcvdMsgs(ep'.cq));
  }

  // The pending messages lose their first d elements; more buffers are posted.
  lemma {:induction false} PendingMoved(mem: seq<Byte>, recvs: seq<nat>, from: nat, msgs: seq<Msg>,
                                        recvs': seq<nat>, from': nat, msgs': seq<Msg>)
    requires from + |msgs| <= |recvs| <= |recvs'| && recvs'[..|recvs|] == recvs && PendingHeld(mem, recvs, from, msgs)
    requires from <= from' && from' + |msgs'| == from + |msgs| && msgs' == msgs[from' - from..]
    ensures PendingHeld(mem, recvs', from', msgs')
  {
    forall j | 0 <= j < |msgs'|
      ensures HEADER + |msgs'[j].data| <= MAX_RECV_SIZE && Holds(mem, recvs'[from' + j], msgs'[j])
    {
      assert msgs'[j] == msgs[from' - from + j];
      assert recvs'[from' + j] == recvs[from + (from' - from + j)];
    }
  }

  lemma {:induction false} FlushLive(x: Ep, ok: bool, k: Task)
    requires x.delivered <= |x.t.posted| && Live(x.(t := Flush(x.t, ok)), k)
    ensures Live(x, k)
  {
    var t' := Flush(x.t, ok);
    if t'.posted != x.t.posted {
      var i :| x.delivered <= i < |t'.posted| && t'.posted[i].task == k;
      if i >= |x.t.posted| {
        BatchTasks(x.t, x.t.queue, i - |x.t.posted|);
        assert x.t.queue[i - |x.t.posted|] == k;
      } else {
        assert x.t.posted[i].task == k;
      }
    }
  }

  // ----- Handling a completion

  lemma {:induction false} HeadHeld(x: Host)
    requires Filled(x.ep) <= |x.ep.t.recvs| && RecvFrames(x) && |x.mem| == POOL_SIZE && RecvApart(x.ep.t.recvs)
    requires x.ep.cq != [] && x.ep.cq[0].Rcvd?
    requires RcvdAddrs(x.ep.cq) == x.ep.t.recvs[|x.ep.t.rcvd|..Filled(x.ep)]
    ensures var buf := Get(x.mem, x.ep.cq[0].addr, MAX_RECV_SIZE);
            && Parse(buf) == x.ep.cq[0].msg
            && (|x.ep.cq[0].msg.data| == MR_SIZE ==> DescIn(buf) == x.ep.cq[0].msg.data)
  {
    CqHead(x.ep.cq);
    assert x.ep.cq[0].addr == x.ep.t.recvs[|x.ep.t.rcvd|..Filled(x.ep)][0];
    assert RcvdMsgs(x.ep.cq)[0] == x.ep.cq[0].msg;
    ParseHeld(x.mem, x.ep.cq[0].addr, x.ep.cq[0].msg);
  }

  // The handler ignores the descriptor bytes of any other message.
  lemma {:induction false} DescIgnored(t: Trans, msg: Msg, d: Mr, d': Mr, mem: seq<Byte>)
    requires msg.typ != MR || d == d'
    ensures OnRcvd(t, msg, d) == OnRcvd(t, msg, d') && RcvdMem(mem, t, msg, d) == RcvdMem(mem, t, msg, d')
  {
  }

  // The frames in x's pool after the handler's reply, if any.
  lemma {:induction false} ReplyMemory(x: Host, ep': Ep, y: Ep, msg: Msg, desc: Mr, L: nat)
    requires TaskInv(x.ep.t) && RecvApart(x.ep.t.recvs) && MemInv(x, y) && HEADER <= L <= ALLOC_MEM_SIZE
    requires CONNECTED <= x.ep.t.st <= RCONNECTED && x.ep.delivered <= |x.ep.t.posted|
    requires ep'.t == OnRcvd(x.ep.t, msg, desc) && ep'.delivered == x.ep.delivered && Windowed(ep', L)
    ensures var mem' := RcvdMem(x.mem, x.ep.t, msg, desc);
            SendFrames(Host(ep', mem')) && RecvFrames(x.(mem := mem')) && WritesLanded(y, mem')
  {
    var t0 := x.ep.t.(rcvd := x.ep.t.rcvd + [msg]);
    if msg.typ == FINISH {
      SendMemory(x, ep', y, t0, DoneMsg(), L);
    } else if msg.typ == MR && x.ep.t.st == CONNECTED {
      SendMemory(x, ep', y, NewEpoch(t0, desc), MrMsg(x.ep.t.mr), L);
    } else {
      SendFramesSame(x, ep');
    }
  }

  lemma {:induction false} HostRcvd(x: Host, y: Host, msg: Msg, desc: Mr, L: nat)
    requires TaskInv(x.ep.t) && RecvApart(x.ep.t.recvs) && MemInv(x, y.ep)
    requires MemInv(y, x.ep) && HEADER <= L <= ALLOC_MEM_SIZE
    requires CONNECTED <= x.ep.t.st <= RCONNECTED && x.ep.delivered <= |x.ep.t.posted|
    requires x.ep.cq != [] && x.ep.cq[0].Rcvd? && Windowed(Completed(x.ep, msg, desc), L)
    ensures var x' := Host(Completed(x.ep, msg, desc), RcvdMem(x.mem, x.ep.t, msg, desc));
            MemInv(x', y.ep) && MemInv(y, x'.ep)
  {
    hide SendFrames, WritesLanded, Put, Frame;
    var ep' := Completed(x.ep, msg, desc);
    var mem' := RcvdMem(x.mem, x.ep.t, msg, desc);
    ReplyMemory(x, ep', y.ep, msg, desc, L);
    var more := RcvdEffect(x.ep.t, msg, desc);
    PeerKept(x.ep, ep', y);
    CqHead(x.ep.cq);
    PendingMoved(mem', x.ep.t.recvs, |x.ep.t.rcvd|, RcvdMsgs(x.ep.cq), ep'.t.recvs, |ep'.t.rcvd|, RcvdMsgs(ep'.cq));
  }

  // ----- Every step

  // The step with memory is the step without, and the memories stay right.
  ghost predicate SameStep(x: Host, y: Host, a: Act)
    requires Enabled(x.ep, y.ep, a)
  {
    var (x', y') := HostStep(x, y, a);
    (x'.ep, y'.ep) == Step(x.ep, y.ep, a) && MemInv(x', y'.ep) && MemInv(y', x'.ep)
  }

  lemma {:induction false} DeliverSendSame(x: Host, y: Host, L: nat)
    requires TaskInv(x.ep.t) && TaskInv(y.ep.t) && RecvApart(y.ep.t.recvs) && |y.ep.t.recvs| <= |y.ep.t.rcvd| + 6
    requires MemInv(x, y.ep) && MemInv(y, x.ep) && y.ep.delivered <= |y.ep.t.posted|
    requires HEADER <= L <= ALLOC_MEM_SIZE && Bounded(y.ep.t.lens, 0, L) && Enabled(x.ep, y.ep, Deliver)
    requires var task := x.ep.t.posted[x.ep.delivered].task; Kind(task, x.ep.t.mr) && !IsWrite(task)
    ensures SameStep(x, y, Deliver)
  {
    hide SendFrames, RecvFrames, WritesLanded, TaskInv, RecvApart;
    HostDeliverSend(x, y, L);
    SenderAdvances(x, y.ep, Step(x.ep, y.ep, Deliver).1);
  }

  lemma {:induction false} DeliverWriteSame(x: Host, y: Host, L: nat)
    requires TaskInv(x.ep.t) && WriteInv(x.ep.t) && TaskInv(y.ep.t) && RecvApart(y.ep.t.recvs)
    requires AddressInv(x.ep.t, y.ep.t.mr) && y.ep.delivered <= |y.ep.t.posted|
    requires MemInv(x, y.ep) && MemInv(y, x.ep)
    requires HEADER <= L <= ALLOC_MEM_SIZE && Bounded(y.ep.t.lens, 0, L) && Enabled(x.ep, y.ep, Deliver)
    requires IsWrite(x.ep.t.posted[x.ep.delivered].task)
    ensures SameStep(x, y, Deliver)
  {
    hide SendFrames, RecvFrames, WritesLanded, TaskInv, WriteInv, RecvApart;
    HostDeliverWrite(x, y, L);
    SenderAdvances(x, y.ep, Step(x.ep, y.ep, Deliver).1);
  }

  lemma {:induction false} DeliverSame(x: Host, y: Host, L: nat)
    requires TransInv(x.ep.t) && TransInv(y.ep.t) && Both(x.ep, y.ep) && MemInv(x, y.ep) && MemInv(y, x.ep)
    requires HEADER <= L <= ALLOC_MEM_SIZE && Bounded(y.ep.t.lens, 0, L) && Enabled(x.ep, y.ep, Deliver)
    ensures SameStep(x, y, Deliver)
  {
    RecvBuffers(y.ep.t);
    if IsWrite(x.ep.t.posted[x.ep.delivered].task) {
      DeliverWriteSame(x, y, L);
    } else {
      DeliverSendSame(x, y, L);
    }
  }

  // A descriptor message carries 48 bytes.
  lemma {:induction false} HeadDesc(x: Ep, y: Ep)
    requires Both(x, y) && x.cq != [] && x.cq[0].Rcvd? && x.cq[0].msg.typ == MR
    ensures |x.cq[0].msg.data| == MR_SIZE
  {
    var i := HeadRcvd(x, y);
    assert Kind(y.t.posted[i].task, y.t.mr);
  }

  // The handler reads the message and descriptor that the peer serialised.
  lemma {:induction false} HandlerReads(x: Host, y: Ep)
    requires Both(x.ep, y) && MemInv(x, y) && RecvApart(x.ep.t.recvs) && Enabled(x.ep, y, Complete) && x.ep.cq[0].Rcvd?
    ensures var buf := Get(x.mem, x.ep.cq[0].addr, MAX_RECV_SIZE);
            && Parse(buf) == x.ep.cq[0].msg
            && (x.ep.cq[0].msg.typ == MR ==> DescIn(buf) == DescOf(x.ep.cq[0].msg))
  {
    HeadHeld(x);
    if x.ep.cq[0].msg.typ == MR {
      HeadDesc(x.ep, y);
    }
  }

  // The host's step, once it is known what the handler reads.
  lemma {:induction false} RcvdHostStep(x: Host, y: Host)
    requires Enabled(x.ep, y.ep, Complete) && x.ep.cq[0].Rcvd?
    requires var buf := Get(x.mem, x.ep.cq[0].addr, MAX_RECV_SIZE);
             && Parse(buf) == x.ep.cq[0].msg
             && (x.ep.cq[0].msg.typ == MR ==> DescIn(buf) == DescOf(x.ep.cq[0].msg))
    ensures var msg := x.ep.cq[0].msg;
            HostStep(x, y, Complete)
            == (Host(Completed(x.ep, msg, DescOf(msg)), RcvdMem(x.mem, x.ep.t, msg, DescOf(msg))), y)
  {
    var buf := Get(x.mem, x.ep.cq[0].addr, MAX_RECV_SIZE);
    DescIgnored(x.ep.t, x.ep.cq[0].msg, DescIn(buf), DescOf(x.ep.cq[0].msg), x.mem);
  }

  lemma {:induction false} RcvdSame(x: Host, y: Host, L: nat)
    requires TransInv(x.ep.t) && Both(x.ep, y.ep) && MemInv(x, y.ep) && MemInv(y, x.ep)
    requires Enabled(x.ep, y.ep, Complete) && x.ep.cq[0].Rcvd?
    requires HEADER <= L <= ALLOC_MEM_SIZE && Windowed(Completed(x.ep, x.ep.cq[0].msg, DescOf(x.ep.cq[0].msg)), L)
    ensures SameStep(x, y, Complete)
  {
    hide SendFrames, RecvFrames, WritesLanded, Get, Parse, Put, Frame;
    RecvBuffers(x.ep.t);
    HandlerReads(x, y.ep);
    RcvdHostStep(x, y);
    HostRcvd(x, y, x.ep.cq[0].msg, DescOf(x.ep.cq[0].msg), L);
  }

  lemma {:induction false} SentSame(x: Host, y: Host)
    requires Flow(x.ep, y.ep) && MemInv(x, y.ep) && MemInv(y, x.ep)
    requires Enabled(x.ep, y.ep, Complete) && x.ep.cq[0].Sent?
    ensures SameStep(x, y, Complete)
  {
    hide SendFrames, RecvFrames, WritesLanded, RecvFlow;
    CqHead(x.ep.cq);
    HostQuiet(x, Step(x.ep, y.ep, Complete).0, y);
  }

  lemma {:induction false} AckSame(x: Host, y: Host)
    requires Flow(x.ep, y.ep) && MemInv(x, y.ep) && MemInv(y, x.ep) && Enabled(x.ep, y.ep, Ack)
    ensures SameStep(x, y, Ack)
  {
    CqPush(x.ep.cq, Sent(x.ep.t.posted[x.ep.acked]));
    HostQuiet(x, Step(x.ep, y.ep, Ack).0, y);
  }

  lemma {:induction false} StartSame(x: Host, y: Host)
    requires Flow(x.ep, y.ep) && MemInv(x, y.ep) && MemInv(y, x.ep) && Enabled(x.ep, y.ep, Start)
    ensures SameStep(x, y, Start)
  {
    PostRecvsEffect(x.ep.t.(st := CONNECTING), PrePostCount(x.ep.t.recvSize));
    HostQuiet(x, Step(x.ep, y.ep, Start).0, y);
  }

  lemma {:induction false} TimerSame(x: Host, y: Host, ok: bool)
    requires Flow(x.ep, y.ep) && MemInv(x, y.ep) && MemInv(y, x.ep) && Enabled(x.ep, y.ep, Timer(ok))
    ensures SameStep(x, y, Timer(ok))
  {
    forall k | Live(x.ep.(t := Flush(x.ep.t, ok)), k)
      ensures Live(x.ep, k)
    {
      FlushLive(x.ep, ok, k);
    }
    HostQuiet(x, Step(x.ep, y.ep, Timer(ok)).0, y);
  }

  lemma {:induction false} AppSendSame(x: Host, y: Host, msg: Msg, L: nat)
    requires TransInv(x.ep.t) && Both(x.ep, y.ep) && MemInv(x, y.ep) && MemInv(y, x.ep)
    requires Enabled(x.ep, y.ep, AppSend(msg)) && HEADER <= L <= ALLOC_MEM_SIZE
    requires Windowed(x.ep.(t := RdmaSend(x.ep.t, msg)), L)
    ensures SameStep(x, y, AppSend(msg))
  {
    PlainOfInv(x.ep, y.ep);
    HostSend(x, y, x.ep.t, msg, L);
  }

  lemma {:induction false} EstablishSame(x: Host, y: Host, L: nat)
    requires TransInv(x.ep.t) && Both(x.ep, y.ep) && MemInv(x, y.ep) && MemInv(y, x.ep)
    requires Enabled(x.ep, y.ep, Establish) && HEADER <= L <= ALLOC_MEM_SIZE
    requires Windowed(x.ep.(t := Established(x.ep.t)), L)
    ensures SameStep(x, y, Establish)
  {
    hide KindInv, Handshake, AddressInv, CloseInv, RecvFlow;
    if x.ep.t.isClient {
      PlainOfInv(x.ep, y.ep);
      HostSend(x, y, x.ep.t.(st := CONNECTED), MrMsg(x.ep.t.mr), L);
    } else {
      HostQuiet(x, Step(x.ep, y.ep, Establish).0, y);
    }
  }

  lemma {:induction false} StepSame(x: Host, y: Host, a: Act, L: nat)
    requires TransInv(x.ep.t) && TransInv(y.ep.t) && Both(x.ep, y.ep) && MemInv(x, y.ep) && MemInv(y, x.ep)
    requires Enabled(x.ep, y.ep, a) && HEADER <= L <= ALLOC_MEM_SIZE
    requires Windowed(Step(x.ep, y.ep, a).0, L) && Windowed(Step(x.ep, y.ep, a).1, L)
    ensures SameStep(x, y, a)
  {
    match a
    case Start => StartSame(x, y);
    case Establish => EstablishSame(x, y, L);
    case AppSend(msg) => AppSendSame(x, y, msg, L);
    case Timer(ok) => TimerSame(x, y, ok);
    case Deliver => DeliverSame(x, y, L);
    case Ack => AckSame(x, y);
    case Complete =>
      if x.ep.cq[0].Sent? {
        SentSame(x, y);
      } else {
        RcvdSame(x, y, L);
      }
  }

  // ----- Every run

  ghost predicate NetInv(n: Net) { MemInv(n.c, n.s.ep) && MemInv(n.s, n.c.ep) }

  lemma {:induction false} NextSame(n: Net, m: Move, L: nat)
    requires SysInv(Eps(n)) && NetInv(n) && HEADER <= L <= ALLOC_MEM_SIZE
    requires var z := Connection.Next(Eps(n), m); Windowed(z.c, L) && Windowed(z.s, L)
    ensures Eps(M.Next(n, m)) == Connection.Next(Eps(n), m) && NetInv(M.Next(n, m))
  {
    if m.client && Enabled(n.c.ep, n.s.ep, m.act) {
      StepSame(n.c, n.s, m.act, L);
    } else if !m.client && Enabled(n.s.ep, n.c.ep, m.act) {
      BothSymmetric(n.c.ep, n.s.ep);
      StepSame(n.s, n.c, m.act, L);
    }
  }

  lemma {:induction false} RunSame(n: Net, moves: seq<Move>, L: nat)
    requires SysInv(Eps(n)) && NetInv(n) && HEADER <= L <= ALLOC_MEM_SIZE && WindowedRun(Eps(n), moves, L)
    ensures Eps(M.Run(n, moves)) == Connection.Run(Eps(n), moves) && NetInv(M.Run(n, moves))
  {
    if moves != [] {
      RunSame(n, Front(moves), L);
      RunFrom(Eps(n), Front(moves));
      NextSame(M.Run(n, Front(moves)), Last(moves), L);
    }
  }

  // Two created endpoints with pools of any content.
  function Boot(mrC: Mr, mrS: Mr, memC: seq<Byte>, memS: seq<Byte>): Net {
    Net(Host(NewEp(true, mrC), memC), Host(NewEp(false, mrS), memS))
  }

  lemma {:induction false} BootInv(mrC: Mr, mrS: Mr, memC: seq<Byte>, memS: seq<Byte>)
    requires |memC| == POOL_SIZE && |memS| == POOL_SIZE
    ensures NetInv(Boot(mrC, mrS, memC, memS)) && Eps(Boot(mrC, mrS, memC, memS)) == Init(mrC, mrS)
  {
  }

  // All remote writes of x that took effect are in the peer's region.
  ghost predicate AllWritesLanded(x: Ep, mem: seq<Byte>) {
    forall i :: 0 <= i < x.delivered <= |x.t.posted| && IsWrite(x.t.posted[i].task) ==>
      Holds(mem, RDMA_BASE + x.t.posted[i].off, x.t.posted[i].task.msg)
  }

  /** Refinement: as long as frames are at most L bytes and the bytes allocated since the
      oldest frame still needed stay within Window(HEADER, L), reading messages out of memory
      gives exactly the run of the system that passes them by value. */
  lemma {:induction false} MemoryRefinesMessages(mrC: Mr, mrS: Mr, memC: seq<Byte>, memS: seq<Byte>,
                                                 moves: seq<Move>, L: nat)
    requires |memC| == POOL_SIZE && |memS| == POOL_SIZE && HEADER <= L <= ALLOC_MEM_SIZE
    requires WindowedRun(Init(mrC, mrS), moves, L)
    ensures var n := M.Run(Boot(mrC, mrS, memC, memS), moves);
            Eps(n) == Connection.Run(Init(mrC, mrS), moves) && NetInv(n)
  {
    InitInv(mrC, mrS);
    BootInv(mrC, mrS, memC, memS);
    RunSame(Boot(mrC, mrS, memC, memS), moves, L);
  }

  /** End to end: in such a run the messages parsed by either receive handler are a
      prefix of those hmr_rdma_send accepted on the other side, byte for byte. */
  lemma {:induction false} EndToEndFifo(mrC: Mr, mrS: Mr, memC: seq<Byte>, memS: seq<Byte>, moves: seq<Move>, L: nat)
    requires |memC| == POOL_SIZE && |memS| == POOL_SIZE && HEADER <= L <= ALLOC_MEM_SIZE
    requires WindowedRun(Init(mrC, mrS), moves, L)
    ensures var n := M.Run(Boot(mrC, mrS, memC, memS), moves);
            && AppMsgs(n.s.ep.t.rcvd) <= Carried(n.c.ep.t.accepted)
            && AppMsgs(n.c.ep.t.rcvd) <= Carried(n.s.ep.t.accepted)
  {
    MemoryRefinesMessages(mrC, mrS, memC, memS, moves, L);
    FifoEveryRun(mrC, mrS, moves);
  }

  lemma {:induction false} ClientWritesLatest(x: Ep, y: Ep, mem: seq<Byte>)
    requires TransInv(x.t) && Both(x, y) && x.t.isClient && WritesLanded(x, mem)
    ensures AllWritesLanded(x, mem)
  {
    BothSymmetric(x, y);
    E.ExchangeOfInv(y, x);
    forall i | 0 <= i < |x.t.posted| && IsWrite(x.t.posted[i].task)
      ensures x.t.posted[i].epoch == 1
    {
    }
    forall i | 0 <= i < x.delivered && IsWrite(x.t.posted[i].task)
      ensures LatestWrite(x, i)
    {
    }
  }

  /** Every remote write of the client that took effect is found in the server's region,
      whatever followed it; so when either side has disconnected and the client was the
      finisher, all remote writes it queued before FINISH are there. */
  lemma {:induction false} ClientWritesEndure(mrC: Mr, mrS: Mr, memC: seq<Byte>, memS: seq<Byte>,
                                              moves: seq<Move>, L: nat)
    requires |memC| == POOL_SIZE && |memS| == POOL_SIZE && HEADER <= L <= ALLOC_MEM_SIZE
    requires WindowedRun(Init(mrC, mrS), moves, L)
    ensures var n := M.Run(Boot(mrC, mrS, memC, memS), moves);
            && AllWritesLanded(n.c.ep, n.s.mem)
            && (n.c.ep.t.disc || n.s.ep.t.disc ==> G.ClosedBy(n.c.ep, n.s.ep) || G.ClosedBy(n.s.ep, n.c.ep))
  {
    MemoryRefinesMessages(mrC, mrS, memC, memS, moves, L);
    RunInv(mrC, mrS, moves);
    G.GracefulCloseEveryRun(mrC, mrS, moves);
    var n := M.Run(Boot(mrC, mrS, memC, memS), moves);
    ClientWritesLatest(n.c.ep, n.s.ep, n.s.mem);
  }

  // ----- Outside the window

  // The len bytes at addr stay what they are whatever n bytes are copied to at.
  ghost predicate Survives(mem: seq<Byte>, addr: nat, len: nat, at: nat, n: nat)
    requires addr + len <= |mem| && at + n <= |mem|
  {
    forall b: seq<Byte> :: |b| == n ==> Copy(mem, at, b)[addr..addr + len] == mem[addr..addr + len]
  }

  lemma {:induction false} Clobbered(mem: seq<Byte>, addr: nat, len: nat, at: nat, n: nat, k: nat)
    requires addr + len <= |mem| && at + n <= |mem| && addr <= k < addr + len && at <= k < at + n
    ensures !Survives(mem, addr, len, at, n)
  {
    var v: Byte := if mem[k] == 0 then 1 else 0;
    var b: seq<Byte> := seq(n, x => v);
    var c := Copy(mem, at, b);
    assert c[at..at + n][k - at] == v;
    assert c[addr..addr + len][k - addr] == c[k] && mem[addr..addr + len][k - addr] == mem[k];
  }

  lemma {:induction false} SurvivesApart(mem: seq<Byte>, addr: nat, len: nat, at: nat, n: nat)
    requires addr + len <= |mem| && at + n <= |mem| && len > 0 && n > 0
    ensures Survives(mem, addr, len, at, n) <==> Apart(addr, len, at, n)
  {
    if Apart(addr, len, at, n) {
      forall b: seq<Byte> | |b| == n
        ensures Copy(mem, at, b)[addr..addr + len] == mem[addr..addr + len]
      {
        CopyKeeps(mem, at, b, addr, len);
      }
    } else {
      Clobbered(mem, addr, len, at, n, if addr <= at then at else addr);
    }
  }

  /** A listed frame survives the serialisation of a later one, whatever that one says, if
      and only if the allocator gave the two requests ranges that do not overlap. */
  lemma {:induction false} SurvivesIff(mem: seq<Byte>, lens: seq<nat>, i: nat, j: nat)
    requires |mem| == POOL_SIZE && Bounded(lens, 1, ALLOC_MEM_SIZE) && i < |lens| && j < |lens|
    ensures SEND_BASE + Pos(lens, i) + lens[i] <= |mem| && SEND_BASE + Pos(lens, j) + lens[j] <= |mem|
    ensures Survives(mem, SEND_BASE + Pos(lens, i), lens[i], SEND_BASE + Pos(lens, j), lens[j])
            <==> !Overlap(lens, i, j)
  {
    hide Survives, Pos;
    InRegionIff(lens, i);
    InRegionIff(lens, j);
    SurvivesApart(mem, SEND_BASE + Pos(lens, i), lens[i], SEND_BASE + Pos(lens, j), lens[j]);
  }
}
