/** The invariant of the two-endpoint system.  Every predicate is stated for one
    endpoint x and its peer y, so each step is examined once for either side. */
module ConnectionInvariants {
  import opened Wire
  import opened Allocator
  import opened Sequences
  import opened TransportModel
  import opened TransportInvariants
  import opened Connection

  // ----- Sequences of completions and requests

  function RcvdAddr(wc: Wc): seq<nat> { if wc.Rcvd? then [wc.addr] else [] }

  function RcvdAddrs(cq: seq<Wc>): seq<nat> { Collect(cq, RcvdAddr) }

  lemma {:induction false} CqConcat(a: seq<Wc>, b: seq<Wc>)
    ensures RcvdMsgs(a + b) == RcvdMsgs(a) + RcvdMsgs(b)
    ensures SentWrs(a + b) == SentWrs(a) + SentWrs(b)
    ensures RcvdAddrs(a + b) == RcvdAddrs(a) + RcvdAddrs(b)
  {
    CollectConcat(a, b, RcvdMsg);
    CollectConcat(a, b, SentWr);
    CollectConcat(a, b, RcvdAddr);
  }

  lemma {:induction false} CqOne(wc: Wc)
    ensures RcvdMsgs([wc]) == if wc.Rcvd? then [wc.msg] else []
    ensures SentWrs([wc]) == if wc.Sent? then [wc.wr] else []
    ensures RcvdAddrs([wc]) == if wc.Rcvd? then [wc.addr] else []
  {
    CollectOne(wc, RcvdMsg);
    CollectOne(wc, SentWr);
    CollectOne(wc, RcvdAddr);
  }

  lemma {:induction false} CqHead(cq: seq<Wc>)
    requires cq != []
    ensures RcvdMsgs(cq) == (if cq[0].Rcvd? then [cq[0].msg] else []) + RcvdMsgs(cq[1..])
    ensures SentWrs(cq) == (if cq[0].Sent? then [cq[0].wr] else []) + SentWrs(cq[1..])
    ensures RcvdAddrs(cq) == (if cq[0].Rcvd? then [cq[0].addr] else []) + RcvdAddrs(cq[1..])
  {
    assert cq == [cq[0]] + cq[1..];
    CqConcat([cq[0]], cq[1..]);
    CqOne(cq[0]);
  }

  lemma {:induction false} RcvdLengths(cq: seq<Wc>)
    ensures |RcvdMsgs(cq)| == |RcvdAddrs(cq)|
    ensures |RcvdMsgs(cq)| + |SentWrs(cq)| == |cq|
  {
    if cq != [] {
      RcvdLengths(Front(cq));
    }
  }

  // The k-th message carried by ws is that of one of its requests.
  lemma {:induction false} SendMsgsFrom(ws: seq<Wr>, k: nat) returns (i: nat)
    requires k < |SendMsgs(ws)|
    ensures i < |ws| && !IsWrite(ws[i].task) && SendMsgs(ws)[k] == ws[i].task.msg
  {
    var j: nat;
    i, j := CollectFrom(ws, k, SendMsg);
  }

  // ----- Which tasks exist

  ghost predicate Kind(task: Task, mr: Mr) {
    && (task.typ == MR || task.typ == NORMAL || task.typ == WRITE || task.typ == FINISH || task.typ == DONE)
    && FrameFits(task.msg)
    && task.typ == task.msg.typ
    && (task.typ == MR ==> task.msg == MrMsg(mr))
  }

  ghost predicate KindInv(t: Trans) {
    && (forall k :: 0 <= k < |t.posted| ==> Kind(t.posted[k].task, t.mr))
    && (forall k :: 0 <= k < |t.queue| ==> Kind(t.queue[k], t.mr) && (IsWrite(t.queue[k]) ==> t.st == RCONNECTED))
    && t.recvSize == MAX_RECV_SIZE
  }

  // ----- Flow of requests and completions

  ghost predicate SendFlow(x: Ep) {
    && x.acked <= x.delivered <= |x.t.posted|
    && x.t.freed + SentWrs(x.cq) == x.t.posted[..x.acked]
  }

  ghost predicate RecvFlow(x: Ep, y: Ep)
    requires x.delivered <= |x.t.posted|
  {
    && y.t.rcvd + RcvdMsgs(y.cq) == SendMsgs(x.t.posted[..x.delivered])
    && |y.t.recvs| == |y.t.rcvd| + (if y.t.st == INIT then 0 else PrePostCount(MAX_RECV_SIZE))
    && Filled(y) <= |y.t.recvs|
    && RcvdAddrs(y.cq) == y.t.recvs[|y.t.rcvd|..Filled(y)]
  }

  // ----- The descriptor exchange

  function OneMr(w: Wr): nat { if w.task.typ == MR then 1 else 0 }

  function CountMr(ws: seq<Wr>): nat { Sum(ws, OneMr) }

  function MsgIs(typ: int): Msg -> nat { (m: Msg) => if m.typ == typ then 1 else 0 }

  function Mrs(ms: seq<Msg>): nat { Sum(ms, MsgIs(MR)) }

  lemma {:induction false} CountMrConcat(a: seq<Wr>, b: seq<Wr>)
    ensures CountMr(a + b) == CountMr(a) + CountMr(b)
  {
    SumConcat(a, b, OneMr);
  }

  lemma {:induction false} CountMrNone(ws: seq<Wr>)
    requires forall k :: 0 <= k < |ws| ==> ws[k].task.typ != MR
    ensures CountMr(ws) == 0
  {
    SumZero(ws, OneMr);
  }

  lemma {:induction false} CountMrSome(ws: seq<Wr>, k: nat)
    requires k < |ws| && ws[k].task.typ == MR
    ensures CountMr(ws) >= 1
  {
    SumAt(ws, k, OneMr);
  }

  ghost predicate Handshake(t: Trans, peer: Mr) {
    && t.epoch == Mrs(t.rcvd)
    && (t.epoch >= 1 <==> t.st == RCONNECTED)
    && (t.epoch >= 1 ==> t.peerMr == peer)
    && (t.st == INIT || t.st == CONNECTING || t.st == CONNECTED || t.st == SCONNECTED || t.st == RCONNECTED)
    && (t.st < CONNECTED ==> CountMr(t.posted) == 0)
    && (t.isClient && CONNECTED <= t.st < RCONNECTED ==> CountMr(t.posted) == 1)
    && (t.isClient && t.st == RCONNECTED ==> 1 <= CountMr(t.posted) <= 2)
    && (!t.isClient ==> t.st != SCONNECTED)
    && (!t.isClient && t.st == CONNECTED ==> CountMr(t.posted) == 0)
    && (!t.isClient && t.st == RCONNECTED ==> CountMr(t.posted) == 1)
  }

  // ----- Remote addresses

  ghost predicate AddressInv(t: Trans, peer: Mr) {
    forall k :: 0 <= k < |t.posted| && IsWrite(t.posted[k].task) ==>
      && t.posted[k].epoch >= 1
      && t.posted[k].raddr == MrAddr(peer) + t.posted[k].off
      && t.posted[k].rkey == MrRkey(peer)
  }

  // ----- The close handshake

  function OneDone(task: Task): nat { if task.typ == DONE then 1 else 0 }

  function Dones(q: seq<Task>): nat { Sum(q, OneDone) }

  function Finishes(ms: seq<Msg>): nat { Sum(ms, MsgIs(FINISH)) }

  ghost predicate DoneFreed(t: Trans) { exists k :: 0 <= k < |t.freed| && t.freed[k].task.typ == DONE }

  ghost predicate DoneRcvd(t: Trans) { exists k :: 0 <= k < |t.rcvd| && t.rcvd[k].typ == DONE }

  ghost predicate CloseInv(t: Trans) {
    && Dones(t.accepted) == Finishes(t.rcvd)
    && (t.disc ==> DoneFreed(t) || DoneRcvd(t))
  }

  // What x's software keeps by itself, given that the descriptors it is sent are peer.
  ghost predicate Own(t: Trans, peer: Mr) {
    KindInv(t) && Handshake(t, peer) && AddressInv(t, peer) && CloseInv(t)
  }

  ghost predicate Flow(x: Ep, y: Ep) { SendFlow(x) && RecvFlow(x, y) }

  ghost predicate Both(x: Ep, y: Ep) {
    && Own(x.t, y.t.mr) && Own(y.t, x.t.mr)
    && Flow(x, y) && Flow(y, x)
    && x.t.isClient == !y.t.isClient
  }

  // ----- Where the head of the completion queue comes from

  lemma {:induction false} HeadSent(x: Ep)
    requires SendFlow(x) && x.cq != [] && x.cq[0].Sent?
    ensures |x.t.freed| < x.acked && x.cq[0].wr == x.t.posted[|x.t.freed|]
  {
    CqHead(x.cq);
    assert (x.t.freed + SentWrs(x.cq))[|x.t.freed|] == x.cq[0].wr;
  }

  lemma {:induction false} HeadRcvd(x: Ep, y: Ep) returns (i: nat)
    requires y.delivered <= |y.t.posted| && RecvFlow(y, x) && x.cq != [] && x.cq[0].Rcvd?
    ensures i < y.delivered && !IsWrite(y.t.posted[i].task) && x.cq[0].msg == y.t.posted[i].task.msg
  {
    CqHead(x.cq);
    assert (x.t.rcvd + RcvdMsgs(x.cq))[|x.t.rcvd|] == x.cq[0].msg;
    i := SendMsgsFrom(y.t.posted[..y.delivered], |x.t.rcvd|);
  }

  // ----- What each software step does to the fields above

  // hmr_rdma_send, seen from the outside.
  lemma {:induction false} SendEffect(t: Trans, msg: Msg)
    requires MsgCheck(t.st, msg.typ) == Pass
    ensures var t', x := RdmaSend(t, msg), NewTask(t, msg);
            && x.typ == msg.typ && x.msg == msg
            && (msg.typ != MR ==> t' == t.(usedSend := t'.usedSend, lens := t'.lens,
                                            queue := t.queue + [x], accepted := t.accepted + [x]))
            && (msg.typ == MR ==> t' == t.(usedSend := t'.usedSend, lens := t'.lens,
                                            posted := t.posted + [Wr(x, 0, 0, 0, t.epoch)]))
  {
  }

  lemma {:induction false} PostRecvsEffect(t: Trans, n: nat)
    ensures var t' := PostRecvs(t, n);
            && t' == t.(usedRecv := t'.usedRecv, recvs := t'.recvs)
            && |t'.recvs| == |t.recvs| + n && t'.recvs[..|t.recvs|] == t.recvs
    decreases n
  {
    if n > 0 {
      PostRecvsEffect(t, n - 1);
      var r := PostRecvs(t, n - 1).recvs;
      assert PostRecvs(t, n).recvs[..|r|] == r;
    }
  }

  // ----- Own is kept

  // A task put on the list; other is what else the step changed.
  lemma {:induction false} OwnListed(t: Trans, peer: Mr, t': Trans, x: Task)
    requires KindInv(t) && Handshake(t, peer) && AddressInv(t, peer)
    requires Kind(x, t.mr) && (IsWrite(x) ==> t.st == RCONNECTED)
    requires t' == t.(usedSend := t'.usedSend, lens := t'.lens, queue := t.queue + [x], accepted := t.accepted + [x])
    ensures KindInv(t') && Handshake(t', peer) && AddressInv(t', peer)
    ensures Dones(t'.accepted) == Dones(t.accepted) + if x.typ == DONE then 1 else 0
  {
    assert Front(t'.accepted) == t.accepted;
  }

  lemma {:induction false} OwnQueue(t: Trans, peer: Mr, msg: Msg)
    requires Own(t, peer) && MsgCheck(t.st, msg.typ) == Pass && AppMsg(msg)
    ensures Own(RdmaSend(t, msg), peer)
  {
    SendEffect(t, msg);
    OwnListed(t, peer, RdmaSend(t, msg), NewTask(t, msg));
  }

  lemma {:induction false} MrPosted(t: Trans, w: Wr)
    ensures CountMr(t.posted + [w]) == CountMr(t.posted) + if w.task.typ == MR then 1 else 0
  {
    assert Front(t.posted + [w]) == t.posted;
  }

  // A descriptor is posted; the state may change.
  lemma {:induction false} DescriptorPosted(t: Trans, peer: Mr, t': Trans, w: Wr)
    requires KindInv(t) && AddressInv(t, peer) && CloseInv(t)
    requires w.task.typ == MR && Kind(w.task, t.mr) && (t.st == RCONNECTED ==> t'.st == RCONNECTED)
    requires t' == t.(st := t'.st, usedSend := t'.usedSend, lens := t'.lens, posted := t.posted + [w])
    ensures KindInv(t') && AddressInv(t', peer) && CloseInv(t')
  {
    hide FrameFits, Dones, Finishes, DoneFreed, DoneRcvd, MrAddr, MrRkey;
    CloseSame(t, t');
  }

  lemma {:induction false} CloseSame(t: Trans, t': Trans)
    requires CloseInv(t) && t'.accepted == t.accepted && t'.rcvd == t.rcvd && t'.freed == t.freed && t'.disc == t.disc
    ensures CloseInv(t')
  {
  }

  lemma {:induction false} OwnEstablished(t: Trans, peer: Mr)
    requires Own(t, peer) && t.st == CONNECTING
    ensures Own(Established(t), peer)
  {
    hide KindInv, AddressInv, CloseInv, Place, CountMr, Mrs;
    if t.isClient {
      var t1 := t.(st := CONNECTED);
      var w := Wr(NewTask(t1, MrMsg(t.mr)), 0, 0, 0, t1.epoch);
      SendEffect(t1, MrMsg(t.mr));
      MrPosted(t, w);
      DescriptorPosted(t, peer, Established(t), w);
    } else {
      StateOnly(t, peer, Established(t));
    }
  }

  lemma {:induction false} StateOnly(t: Trans, peer: Mr, t': Trans)
    requires KindInv(t) && AddressInv(t, peer) && CloseInv(t) && t.st != RCONNECTED && t' == t.(st := t'.st)
    ensures KindInv(t') && AddressInv(t', peer) && CloseInv(t')
  {
    CloseSame(t, t');
  }

  lemma {:induction false} OwnFlush(t: Trans, peer: Mr, ok: bool)
    requires Own(t, peer) && t.queue != [] && forall k :: 0 <= k < |t.queue| ==> t.queue[k].typ != MR
    ensures Own(Flush(t, ok), peer)
  {
    if ok {
      var b := Batch(t, t.queue);
      forall k | 0 <= k < |b|
        ensures b[k] == WrFor(t, t.queue[k], t.used + WriteBytes(t.queue[..k]))
      {
        BatchTasks(t, t.queue, k);
      }
      CountMrNone(b);
      CountMrConcat(t.posted, b);
      OwnPosted(t, peer, b, Flush(t, ok));
    }
  }

  lemma {:induction false} OwnPosted(t: Trans, peer: Mr, b: seq<Wr>, t': Trans)
    requires Own(t, peer) && |b| == |t.queue|
    requires forall k :: 0 <= k < |b| ==> b[k].task == t.queue[k]
    requires forall k :: 0 <= k < |b| && IsWrite(b[k].task) ==>
               b[k].epoch == t.epoch && b[k].raddr == MrAddr(t.peerMr) + b[k].off && b[k].rkey == MrRkey(t.peerMr)
    requires CountMr(t.posted + b) == CountMr(t.posted)
    requires t' == t.(posted := t.posted + b, queue := [], used := t'.used)
    ensures Own(t', peer)
  {
    hide FrameFits, CountMr, Mrs, Dones, Finishes;
    forall k | 0 <= k < |t'.posted|
      ensures t'.posted[k] == if k < |t.posted| then t.posted[k] else b[k - |t.posted|]
    {
    }
  }

  lemma {:induction false} OwnSent(t: Trans, peer: Mr, i: nat)
    requires Own(t, peer) && i < |t.posted|
    ensures Own(OnSent(t, t.posted[i]), peer)
  {
    var wr := t.posted[i];
    var t' := OnSent(t, wr);
    assert Kind(wr.task, t.mr);
    if wr.task.typ == MR {
      CountMrSome(t.posted, i);
    }
    assert t'.freed == t.freed + [wr];
    assert wr.task.typ == DONE ==> t'.freed[|t.freed|].task.typ == DONE;
    if DoneFreed(t) {
      var k :| 0 <= k < |t.freed| && t.freed[k].task.typ == DONE;
      assert t'.freed[k].task.typ == DONE;
    }
  }

  lemma {:induction false} CountsStep(t: Trans, msg: Msg)
    ensures Mrs(t.rcvd + [msg]) == Mrs(t.rcvd) + if msg.typ == MR then 1 else 0
    ensures Finishes(t.rcvd + [msg]) == Finishes(t.rcvd) + if msg.typ == FINISH then 1 else 0
    ensures DoneRcvd(t) || msg.typ == DONE ==> DoneRcvd(t.(rcvd := t.rcvd + [msg]))
  {
    hide Sum;
    var r := t.rcvd + [msg];
    SumConcat(t.rcvd, [msg], MsgIs(MR));
    SumConcat(t.rcvd, [msg], MsgIs(FINISH));
    SumOne(msg, MsgIs(MR));
    SumOne(msg, MsgIs(FINISH));
    if DoneRcvd(t) {
      var k :| 0 <= k < |t.rcvd| && t.rcvd[k].typ == DONE;
      assert r[k].typ == DONE;
    }
    assert r[|t.rcvd|] == msg;
  }

  // Handling a message that is no descriptor, before any reply.
  lemma {:induction false} Heard(t: Trans, peer: Mr, msg: Msg, t0: Trans)
    requires KindInv(t) && Handshake(t, peer) && AddressInv(t, peer) && msg.typ != MR
    requires t0 == t.(rcvd := t.rcvd + [msg], disc := t0.disc)
    ensures KindInv(t0) && Handshake(t0, peer) && AddressInv(t0, peer)
  {
    hide Kind, CountMr, MrAddr, MrRkey;
    CountsStep(t, msg);
  }

  lemma {:induction false} OwnRcvdPlain(t: Trans, peer: Mr, msg: Msg)
    requires Own(t, peer) && t.st >= CONNECTED && msg.typ != MR
    ensures Own(OnRcvd(t, msg, DescOf(msg)), peer)
  {
    OwnKind(t, peer, 0);
    hide KindInv, Handshake, AddressInv, DoneFreed, DoneRcvd, Dones, Finishes, Mrs;
    CountsStep(t, msg);
    var t0 := t.(rcvd := t.rcvd + [msg]);
    Heard(t, peer, msg, t0);
    if msg.typ == FINISH {
      SendEffect(t0, DoneMsg());
      OwnListed(t0, peer, RdmaSend(t0, DoneMsg()), NewTask(t0, DoneMsg()));
      DoneSame(t, t0, RdmaSend(t0, DoneMsg()));
      OwnPostRecv(RdmaSend(t0, DoneMsg()), peer);
    } else if msg.typ == DONE {
      var t1 := t0.(disc := true);
      Heard(t, peer, msg, t1);
      DoneSame(t, t0, t1);
      OwnPostRecv(t1, peer);
    } else {
      DoneSame(t, t0, t0);
      OwnPostRecv(t0, peer);
    }
  }

  // What the two conditions for a disconnect depend on.
  lemma {:induction false} DoneSame(t: Trans, t0: Trans, t1: Trans)
    requires t0.freed == t.freed == t1.freed && t1.rcvd == t0.rcvd && t.rcvd <= t0.rcvd
    ensures DoneFreed(t) <==> DoneFreed(t1)
    ensures DoneRcvd(t0) <==> DoneRcvd(t1)
    ensures DoneRcvd(t) ==> DoneRcvd(t1)
  {
    if DoneRcvd(t) {
      var k :| 0 <= k < |t.rcvd| && t.rcvd[k].typ == DONE;
      assert t1.rcvd[k].typ == DONE;
    }
  }

  lemma {:induction false} OwnPostRecv(t: Trans, peer: Mr)
    requires Own(t, peer)
    ensures Own(PostRecv(t), peer)
  {
  }

  lemma {:induction false} OwnRcvdMr(t: Trans, peer: Mr)
    requires Own(t, peer) && t.st >= CONNECTED
    ensures Own(OnRcvd(t, MrMsg(peer), DescOf(MrMsg(peer))), peer)
  {
    CountsStep(t, MrMsg(peer));
    var t0 := NewEpoch(t.(rcvd := t.rcvd + [MrMsg(peer)]), peer);
    if t.st == CONNECTED {
      SendEffect(t0, MrMsg(t.mr));
      MrPosted(t, Wr(NewTask(t0, MrMsg(t.mr)), 0, 0, 0, t0.epoch));
    }
  }

  // ----- Flow is kept

  // x's software posts more; no completion is handled.
  lemma {:induction false} LocalFlow(x: Ep, y: Ep, t': Trans, more: seq<Wr>)
    requires Flow(x, y) && Flow(y, x)
    requires t'.posted == x.t.posted + more && t'.freed == x.t.freed && t'.rcvd == x.t.rcvd
    requires t'.recvs == x.t.recvs && (t'.st == INIT <==> x.t.st == INIT)
    ensures var x' := x.(t := t'); Flow(x', y) && Flow(y, x')
  {
    assert t'.posted[..x.delivered] == x.t.posted[..x.delivered];
    assert t'.posted[..x.acked] == x.t.posted[..x.acked];
  }

  lemma {:induction false} StartFlow(x: Ep, y: Ep, t': Trans)
    requires Flow(x, y) && Flow(y, x) && x.t.st == INIT && t'.st != INIT
    requires t'.posted == x.t.posted && t'.freed == x.t.freed && t'.rcvd == x.t.rcvd
    requires |t'.recvs| == |x.t.recvs| + PrePostCount(MAX_RECV_SIZE)
    ensures var x' := x.(t := t'); Flow(x', y) && Flow(y, x')
  {
    var x' := x.(t := t');
    RcvdLengths(x.cq);
    assert Filled(x') == Filled(x) == |x.t.rcvd|;
  }

  lemma {:induction false} CqPush(cq: seq<Wc>, wc: Wc)
    ensures RcvdMsgs(cq + [wc]) == RcvdMsgs(cq) + if wc.Rcvd? then [wc.msg] else []
    ensures SentWrs(cq + [wc]) == SentWrs(cq) + if wc.Sent? then [wc.wr] else []
    ensures RcvdAddrs(cq + [wc]) == RcvdAddrs(cq) + if wc.Rcvd? then [wc.addr] else []
  {
    assert Front(cq + [wc]) == cq;
  }

  // The network fills y's next receive buffer.
  lemma {:induction false} FillRecv(x: Ep, y: Ep)
    requires SendFlow(x) && RecvFlow(x, y)
    requires x.delivered < |x.t.posted| && !IsWrite(x.t.posted[x.delivered].task) && Filled(y) < |y.t.recvs|
    ensures var wc := Rcvd(y.t.recvs[Filled(y)], x.t.posted[x.delivered].task.msg);
            RecvFlow(x.(delivered := x.delivered + 1), y.(cq := y.cq + [wc]))
  {
    var wc := Rcvd(y.t.recvs[Filled(y)], x.t.posted[x.delivered].task.msg);
    CqPush(y.cq, wc);
    assert Front(x.t.posted[..x.delivered + 1]) == x.t.posted[..x.delivered];
    assert y.t.recvs[|y.t.rcvd|..Filled(y) + 1] == y.t.recvs[|y.t.rcvd|..Filled(y)] + [wc.addr];
  }

  // x's next request takes effect; cq' is y's completion queue afterwards.
  lemma {:induction false} DeliverFlow(x: Ep, y: Ep, cq': seq<Wc>)
    requires Flow(x, y) && Flow(y, x) && x.delivered < |x.t.posted|
    requires var wr := x.t.posted[x.delivered];
             if IsWrite(wr.task) then cq' == y.cq
             else Filled(y) < |y.t.recvs| && cq' == y.cq + [Rcvd(y.t.recvs[Filled(y)], wr.task.msg)]
    ensures Flow(x.(delivered := x.delivered + 1), y.(cq := cq'))
    ensures Flow(y.(cq := cq'), x.(delivered := x.delivered + 1))
  {
    var wr := x.t.posted[x.delivered];
    if IsWrite(wr.task) {
      assert Front(x.t.posted[..x.delivered + 1]) == x.t.posted[..x.delivered];
    } else {
      FillRecv(x, y);
      CqPush(y.cq, Rcvd(y.t.recvs[Filled(y)], wr.task.msg));
    }
  }

  lemma {:induction false} AckFlow(x: Ep, y: Ep, cq': seq<Wc>)
    requires Flow(x, y) && Flow(y, x) && x.acked < x.delivered && cq' == x.cq + [Sent(x.t.posted[x.acked])]
    ensures Flow(x.(acked := x.acked + 1, cq := cq'), y)
    ensures Flow(y, x.(acked := x.acked + 1, cq := cq'))
  {
    CqPush(x.cq, Sent(x.t.posted[x.acked]));
    var x' := x.(acked := x.acked + 1, cq := cq');
    assert SendFlow(x') by {
      assert x.t.posted[..x.acked + 1] == x.t.posted[..x.acked] + [x.t.posted[x.acked]];
    }
    assert RecvFlow(y, x');
  }

  lemma {:induction false} SentFlow(x: Ep, y: Ep, t': Trans)
    requires Flow(x, y) && Flow(y, x)
    requires x.cq != [] && x.cq[0].Sent? && (t'.st == INIT <==> x.t.st == INIT)
    requires t'.posted == x.t.posted && t'.freed == x.t.freed + [x.cq[0].wr]
    requires t'.rcvd == x.t.rcvd && t'.recvs == x.t.recvs
    ensures var x' := x.(t := t', cq := x.cq[1..]); Flow(x', y) && Flow(y, x')
  {
    CqHead(x.cq);
  }

  // The receive buffer is handed back and the completion leaves the queue.
  lemma {:induction false} RcvdFlow(x: Ep, y: Ep, t': Trans, more: seq<Wr>, addr: nat)
    requires Flow(x, y) && Flow(y, x)
    requires x.cq != [] && x.cq[0].Rcvd? && x.t.st != INIT && t'.st != INIT
    requires t'.posted == x.t.posted + more && t'.freed == x.t.freed
    requires t'.rcvd == x.t.rcvd + [x.cq[0].msg] && t'.recvs == x.t.recvs + [addr]
    ensures var x' := x.(t := t', cq := x.cq[1..]); Flow(x', y) && Flow(y, x')
  {
    var x' := x.(t := t', cq := x.cq[1..]);
    CqHead(x.cq);
    assert t'.posted[..x.delivered] == x.t.posted[..x.delivered];
    assert t'.posted[..x.acked] == x.t.posted[..x.acked];
    assert Filled(x') == Filled(x);
    assert RcvdAddrs(x'.cq) == RcvdAddrs(x.cq)[1..];
    assert t'.recvs[|t'.rcvd|..Filled(x')] == x.t.recvs[|t'.rcvd|..Filled(x)];
  }

  // ----- Each step keeps the whole invariant

  lemma {:induction false} StartStep(x: Ep, y: Ep)
    requires Both(x, y) && x.t.st == INIT
    ensures Both(x.(t := Started(x.t)), y)
  {
    var t1 := x.t.(st := CONNECTING);
    PostRecvsEffect(t1, PrePostCount(MAX_RECV_SIZE));
    StartFlow(x, y, Started(x.t));
  }

  lemma {:induction false} EstablishStep(x: Ep, y: Ep)
    requires Both(x, y) && x.t.st == CONNECTING
    ensures Both(x.(t := Established(x.t)), y)
  {
    OwnEstablished(x.t, y.t.mr);
    var t1 := x.t.(st := CONNECTED);
    SendEffect(t1, MrMsg(x.t.mr));
    LocalFlow(x, y, Established(x.t), if x.t.isClient then [Wr(NewTask(t1, MrMsg(x.t.mr)), 0, 0, 0, t1.epoch)] else []);
  }

  lemma {:induction false} AppSendStep(x: Ep, y: Ep, msg: Msg)
    requires Both(x, y) && AppMsg(msg) && MsgCheck(x.t.st, msg.typ) == Pass
    ensures Both(x.(t := RdmaSend(x.t, msg)), y)
  {
    OwnQueue(x.t, y.t.mr, msg);
    SendEffect(x.t, msg);
    LocalFlow(x, y, RdmaSend(x.t, msg), []);
  }

  lemma {:induction false} TimerStep(x: Ep, y: Ep, ok: bool)
    requires Both(x, y) && QueueInv(x.t) && x.t.queue != []
    ensures Both(x.(t := Flush(x.t, ok)), y)
  {
    OwnFlush(x.t, y.t.mr, ok);
    LocalFlow(x, y, Flush(x.t, ok), if ok then Batch(x.t, x.t.queue) else []);
  }

  lemma {:induction false} SentStep(x: Ep, y: Ep)
    requires Both(x, y) && x.cq != [] && x.cq[0].Sent?
    ensures Both(x.(t := OnSent(x.t, x.cq[0].wr), cq := x.cq[1..]), y)
  {
    hide Handshake, AddressInv, CloseInv, RecvFlow;
    HeadSent(x);
    assert Kind(x.cq[0].wr.task, x.t.mr);
    OwnSent(x.t, y.t.mr, |x.t.freed|);
    SentFlow(x, y, OnSent(x.t, x.cq[0].wr));
  }

  lemma {:induction false} OwnKind(t: Trans, peer: Mr, i: nat)
    requires Own(t, peer)
    ensures t.st <= RCONNECTED && (i < |t.posted| ==> Kind(t.posted[i].task, t.mr))
  {
  }

  lemma {:induction false} OwnRcvd(t: Trans, peer: Mr, msg: Msg)
    requires Own(t, peer) && t.st >= CONNECTED && (msg.typ == MR ==> msg == MrMsg(peer))
    ensures Own(OnRcvd(t, msg, DescOf(msg)), peer)
  {
    if msg.typ == MR {
      OwnRcvdMr(t, peer);
    } else {
      OwnRcvdPlain(t, peer, msg);
    }
  }

  lemma {:induction false} RcvdStep(x: Ep, y: Ep)
    requires Both(x, y) && x.cq != [] && x.cq[0].Rcvd? && x.t.st >= CONNECTED
    ensures Both(x.(t := OnRcvd(x.t, x.cq[0].msg, DescOf(x.cq[0].msg)), cq := x.cq[1..]), y)
  {
    hide Own;
    var msg := x.cq[0].msg;
    var i := HeadRcvd(x, y);
    OwnKind(y.t, x.t.mr, i);
    OwnKind(x.t, y.t.mr, 0);
    OwnRcvd(x.t, y.t.mr, msg);
    var more := RcvdEffect(x.t, msg, DescOf(msg));
    RcvdFlow(x, y, OnRcvd(x.t, msg, DescOf(msg)), more, RECV_BASE + Place(x.t.usedRecv, x.t.recvSize));
  }

  lemma {:induction false} CompleteStep(x: Ep, y: Ep)
    requires Both(x, y) && Enabled(x, y, Complete)
    ensures Both(Step(x, y, Complete).0, y)
  {
    if x.cq[0].Sent? {
      SentStep(x, y);
    } else {
      RcvdStep(x, y);
    }
  }

  lemma {:induction false} RcvdEffect(t: Trans, msg: Msg, desc: Mr) returns (more: seq<Wr>)
    requires CONNECTED <= t.st <= RCONNECTED
    ensures var t' := OnRcvd(t, msg, desc);
            && t'.posted == t.posted + more && t'.freed == t.freed && t'.mr == t.mr && t'.isClient == t.isClient
            && t'.rcvd == t.rcvd + [msg] && t'.st >= t.st
            && t'.recvs == t.recvs + [RECV_BASE + Place(t.usedRecv, t.recvSize)]
  {
    hide Place;
    more := [];
    var t0 := t.(rcvd := t.rcvd + [msg]);
    if msg.typ == FINISH {
      SendEffect(t0, DoneMsg());
    } else if msg.typ == MR && t.st == CONNECTED {
      var t1 := NewEpoch(t0, desc);
      SendEffect(t1, MrMsg(t.mr));
      more := [Wr(NewTask(t1, MrMsg(t.mr)), 0, 0, 0, t1.epoch)];
    }
  }

  lemma {:induction false} BothSymmetric(x: Ep, y: Ep)
    requires Both(x, y)
    ensures Both(y, x)
  {
  }

  lemma {:induction false} StepBoth(x: Ep, y: Ep, a: Act)
    requires Both(x, y) && QueueInv(x.t) && Enabled(x, y, a)
    ensures Both(Step(x, y, a).0, Step(x, y, a).1)
  {
    hide Own, Flow, QueueInv;
    match a
    case Start => StartStep(x, y);
    case Establish => EstablishStep(x, y);
    case AppSend(msg) => AppSendStep(x, y, msg);
    case Timer(ok) => TimerStep(x, y, ok);
    case Deliver => DeliverFlow(x, y, Step(x, y, a).1.cq);
    case Ack => AckFlow(x, y, Step(x, y, a).0.cq);
    case Complete => CompleteStep(x, y);
  }

  lemma {:induction false} StepTrans(x: Ep, y: Ep, a: Act)
    requires TransInv(x.t) && TransInv(y.t) && Enabled(x, y, a)
    ensures TransInv(Step(x, y, a).0.t) && TransInv(Step(x, y, a).1.t)
  {
    match a
    case Start => StartInv(x.t);
    case Establish => EstablishedInv(x.t);
    case AppSend(msg) => SendInv(x.t, msg);
    case Timer(ok) => FlushInv(x.t, ok);
    case Deliver =>
    case Ack =>
    case Complete => HandleInv(x.t, x.cq[0], HeadMsg(x), DescOf(HeadMsg(x)));
  }

  // ----- Every reachable state

  ghost predicate SysInv(z: Sys) {
    && TransInv(z.c.t) && TransInv(z.s.t)
    && Both(z.c, z.s)
    && z.c.t.isClient
  }

  lemma {:induction false} NextInv(z: Sys, m: Move)
    requires SysInv(z)
    ensures SysInv(Next(z, m))
  {
    hide Both, QueueInv, TaskInv, WriteInv, RecvInv;
    if m.client && Enabled(z.c, z.s, m.act) {
      StepBoth(z.c, z.s, m.act);
      StepTrans(z.c, z.s, m.act);
      StepFixed(z.c, z.s, m.act);
    } else if !m.client && Enabled(z.s, z.c, m.act) {
      BothSymmetric(z.c, z.s);
      StepBoth(z.s, z.c, m.act);
      StepTrans(z.s, z.c, m.act);
      StepFixed(z.s, z.c, m.act);
      BothSymmetric(Step(z.s, z.c, m.act).0, Step(z.s, z.c, m.act).1);
    }
  }

  // A step of x leaves y's software alone.
  lemma {:induction false} PeerSame(x: Ep, y: Ep, a: Act)
    requires Enabled(x, y, a)
    ensures Step(x, y, a).1.t == y.t
  {
  }

  // No step changes the role of an endpoint or its registered region.
  lemma {:induction false} StepFixed(x: Ep, y: Ep, a: Act)
    requires Enabled(x, y, a)
    ensures var (x', y') := Step(x, y, a);
            && x'.t.isClient == x.t.isClient && y'.t.isClient == y.t.isClient
            && x'.t.mr == x.t.mr && y'.t.mr == y.t.mr
  {
    hide PostRecvs, Batch, Place;
    if a.Start? {
      PostRecvsEffect(x.t.(st := CONNECTING), PrePostCount(x.t.recvSize));
    }
  }

  lemma {:induction false} InitInv(mrC: Mr, mrS: Mr)
    ensures SysInv(Init(mrC, mrS))
  {
    CreateInv(true, MAX_RECV_SIZE, mrC);
    CreateInv(false, MAX_RECV_SIZE, mrS);
    var z := Init(mrC, mrS);
    assert Both(z.c, z.s);
  }

  lemma {:induction false} RunFrom(z: Sys, moves: seq<Move>)
    requires SysInv(z)
    ensures SysInv(Run(z, moves))
  {
    hide Next;
    if moves != [] {
      RunFrom(z, Front(moves));
      NextInv(Run(z, Front(moves)), Last(moves));
    }
  }

  lemma {:induction false} RunInv(mrC: Mr, mrS: Mr, moves: seq<Move>)
    ensures SysInv(Run(Init(mrC, mrS), moves))
  {
    InitInv(mrC, mrS);
    RunFrom(Init(mrC, mrS), moves);
  }

  // The registered regions stay those of the start.
  lemma {:induction false} RunRegions(mrC: Mr, mrS: Mr, moves: seq<Move>)
    ensures var z := Run(Init(mrC, mrS), moves); z.c.t.mr == mrC && z.s.t.mr == mrS
  {
    hide Enabled, Step;
    if moves != [] {
      RunRegions(mrC, mrS, Front(moves));
      var z, m := Run(Init(mrC, mrS), Front(moves)), Last(moves);
      if m.client && Enabled(z.c, z.s, m.act) {
        StepFixed(z.c, z.s, m.act);
      } else if !m.client && Enabled(z.s, z.c, m.act) {
        StepFixed(z.s, z.c, m.act);
      }
    }
  }

  lemma {:induction false} RunConcat(z: Sys, a: seq<Move>, b: seq<Move>)
    ensures Run(z, a + b) == Run(Run(z, a), b)
  {
    hide Next;
    if b == [] {
      assert a + b == a;
    } else {
      RunConcat(z, a, Front(b));
      assert Front(a + b) == a + Front(b);
    }
  }
}
