/** Between two application sends every step brings the connection closer to rest,
    and at rest the handshake is over and everything accepted has arrived. */
module Progress {
  import opened Wire
  import opened Allocator
  import opened Sequences
  import opened TransportModel
  import opened TransportInvariants
  import opened Connection
  import opened ConnectionInvariants
  import opened FifoDelivery
  import D = DescriptorExchange

  // ----- Work left to do.  A FINISH also stands for the DONE it will provoke.

  function PostWeight(typ: int): nat { if typ == FINISH then 9 else 4 }

  function WrWork(w: Wr): nat { PostWeight(w.task.typ) }

  function PostedWork(ws: seq<Wr>): nat { Sum(ws, WrWork) }

  function TaskWork(task: Task): nat { PostWeight(task.typ) + 1 }

  function QueueWork(q: seq<Task>): nat { Sum(q, TaskWork) }

  function WcWork(wc: Wc): nat { if wc.Rcvd? && wc.msg.typ == FINISH then 6 else 1 }

  function CqWork(cq: seq<Wc>): nat { Sum(cq, WcWork) }

  // Descriptors the endpoint may still have to send.
  function StateWork(t: Trans): nat {
    if t.st == INIT then 11
    else if t.st == CONNECTING then 10
    else if t.st == CONNECTED then 4
    else 0
  }

  function Work(x: Ep): nat {
    StateWork(x.t)
    + (if x.delivered <= |x.t.posted| then PostedWork(x.t.posted[x.delivered..]) else 0)
    + (if x.acked <= x.delivered then 2 * (x.delivered - x.acked) else 0)
    + CqWork(x.cq) + QueueWork(x.t.queue)
  }

  function TotalWork(z: Sys): nat { Work(z.c) + Work(z.s) }

  lemma {:induction false} PostedWorkConcat(a: seq<Wr>, b: seq<Wr>)
    ensures PostedWork(a + b) == PostedWork(a) + PostedWork(b)
  {
    SumConcat(a, b, WrWork);
  }

  lemma {:induction false} CqWorkConcat(a: seq<Wc>, b: seq<Wc>)
    ensures CqWork(a + b) == CqWork(a) + CqWork(b)
  {
    SumConcat(a, b, WcWork);
  }

  lemma {:induction false} BatchWork(t: Trans, q: seq<Task>)
    ensures PostedWork(Batch(t, q)) + |q| == QueueWork(q)
  {
    if q != [] {
      BatchWork(t, Front(q));
      var b, w := Batch(t, Front(q)), WrFor(t, Last(q), t.used + WriteBytes(Front(q)));
      assert Front(b + [w]) == b && Last(b + [w]) == w;
    }
  }

  lemma {:induction false} CqPop(cq: seq<Wc>)
    requires cq != []
    ensures CqWork(cq) == WcWork(cq[0]) + CqWork(cq[1..])
  {
    assert cq == [cq[0]] + cq[1..];
    CqWorkConcat([cq[0]], cq[1..]);
    SumOne(cq[0], WcWork);
  }

  // Posting one more request.
  lemma {:induction false} PostWork(x: Ep, t': Trans, w: Wr)
    requires x.delivered <= |x.t.posted| && t'.posted == x.t.posted + [w]
    ensures PostedWork(t'.posted[x.delivered..]) == PostedWork(x.t.posted[x.delivered..]) + PostWeight(w.task.typ)
  {
    assert t'.posted[x.delivered..] == x.t.posted[x.delivered..] + [w];
    PostedWorkConcat(x.t.posted[x.delivered..], [w]);
    SumOne(w, WrWork);
  }

  lemma {:induction false} PopPosted(ws: seq<Wr>, d: nat)
    requires d < |ws|
    ensures PostedWork(ws[d..]) == PostWeight(ws[d].task.typ) + PostedWork(ws[d + 1..])
  {
    assert ws[d..] == [ws[d]] + ws[d + 1..];
    PostedWorkConcat([ws[d]], ws[d + 1..]);
    SumOne(ws[d], WrWork);
  }

  // ----- Each kind of step

  lemma {:induction false} EstablishWorks(x: Ep)
    requires x.t.st == CONNECTING && x.delivered <= |x.t.posted|
    ensures Work(x.(t := Established(x.t))) < Work(x)
  {
    var t1 := x.t.(st := CONNECTED);
    if x.t.isClient {
      SendEffect(t1, MrMsg(x.t.mr));
      PostWork(x, Established(x.t), Wr(NewTask(t1, MrMsg(x.t.mr)), 0, 0, 0, t1.epoch));
    }
  }

  lemma {:induction false} FailedTimerWorks(x: Ep)
    ensures Work(x.(t := Flush(x.t, false))) == Work(x)
  {
  }

  lemma {:induction false} TimerWorks(x: Ep)
    requires x.t.queue != [] && x.delivered <= |x.t.posted|
    ensures Work(x.(t := Flush(x.t, true))) < Work(x)
  {
    var b := Batch(x.t, x.t.queue);
    var t' := Flush(x.t, true);
    BatchWork(x.t, x.t.queue);
    assert t'.posted[x.delivered..] == x.t.posted[x.delivered..] + b;
    PostedWorkConcat(x.t.posted[x.delivered..], b);
  }

  lemma {:induction false} DeliverWorks(x: Ep, y: Ep)
    requires Flow(x, y) && Flow(y, x) && Enabled(x, y, Deliver)
    requires Kind(x.t.posted[x.delivered].task, x.t.mr)
    ensures var (x', y') := Step(x, y, Deliver); Work(x') + Work(y') < Work(x) + Work(y)
  {
    var wr := x.t.posted[x.delivered];
    PopPosted(x.t.posted, x.delivered);
    if !IsWrite(wr.task) {
      var wc := Rcvd(y.t.recvs[Filled(y)], wr.task.msg);
      assert Front(y.cq + [wc]) == y.cq;
    }
  }

  lemma {:induction false} AckWorks(x: Ep, y: Ep)
    requires Enabled(x, y, Ack)
    ensures Work(Step(x, y, Ack).0) < Work(x)
  {
    var wc := Sent(x.t.posted[x.acked]);
    assert Front(x.cq + [wc]) == x.cq;
  }

  lemma {:induction false} SentWorks(x: Ep, wr: Wr)
    requires x.cq != [] && x.cq[0] == Sent(wr)
    ensures Work(x.(t := OnSent(x.t, wr), cq := x.cq[1..])) < Work(x)
  {
    CqPop(x.cq);
  }

  lemma {:induction false} RcvdWorks(x: Ep, msg: Msg, desc: Mr)
    requires x.cq != [] && x.cq[0].Rcvd? && x.cq[0].msg == msg
    requires CONNECTED <= x.t.st <= RCONNECTED && x.delivered <= |x.t.posted|
    ensures Work(x.(t := OnRcvd(x.t, msg, desc), cq := x.cq[1..])) < Work(x)
  {
    CqPop(x.cq);
    var t0 := x.t.(rcvd := x.t.rcvd + [msg]);
    if msg.typ == FINISH {
      SendEffect(t0, DoneMsg());
      assert Front(RdmaSend(t0, DoneMsg()).queue) == x.t.queue;
    } else if msg.typ == MR && x.t.st == CONNECTED {
      var t1 := NewEpoch(t0, desc);
      SendEffect(t1, MrMsg(x.t.mr));
      PostWork(x, RdmaSend(t1, MrMsg(x.t.mr)), Wr(NewTask(t1, MrMsg(x.t.mr)), 0, 0, 0, t1.epoch));
    }
  }

  lemma {:induction false} StepWorks(x: Ep, y: Ep, a: Act)
    requires Both(x, y) && Enabled(x, y, a) && !a.AppSend?
    ensures var (x', y') := Step(x, y, a);
            if a == Timer(false) then Work(x') + Work(y') == Work(x) + Work(y)
            else Work(x') + Work(y') < Work(x) + Work(y)
  {
    match a
    case Start => PostRecvsEffect(x.t.(st := CONNECTING), PrePostCount(x.t.recvSize));
    case Establish => EstablishWorks(x);
    case Timer(ok) =>
      if ok {
        TimerWorks(x);
      } else {
        FailedTimerWorks(x);
      }
    case Deliver => DeliverWorks(x, y);
    case Ack => AckWorks(x, y);
    case Complete =>
      if x.cq[0].Sent? {
        SentWorks(x, x.cq[0].wr);
      } else {
        RcvdWorks(x, x.cq[0].msg, DescOf(x.cq[0].msg));
      }
  }

  /** In every reachable state, every enabled step other than an application send
      reduces the work left, except a flush whose post fails, which leaves it alone. */
  lemma {:induction false} WorkDecreasesEveryRun(mrC: Mr, mrS: Mr, moves: seq<Move>, m: Move)
    requires !m.act.AppSend?
    requires var z := Run(Init(mrC, mrS), moves);
             if m.client then Enabled(z.c, z.s, m.act) else Enabled(z.s, z.c, m.act)
    ensures var z := Run(Init(mrC, mrS), moves);
            if m.act == Timer(false) then TotalWork(Next(z, m)) == TotalWork(z)
            else TotalWork(Next(z, m)) < TotalWork(z)
  {
    var z := Run(Init(mrC, mrS), moves);
    RunInv(mrC, mrS, moves);
    BothSymmetric(z.c, z.s);
    if m.client {
      StepWorks(z.c, z.s, m.act);
    } else {
      StepWorks(z.s, z.c, m.act);
    }
  }

  // ----- Rest

  // No step of x's software or of the network on x's side is possible.
  ghost predicate Stuck(x: Ep, y: Ep) {
    && !Enabled(x, y, Start) && !Enabled(x, y, Establish) && !Enabled(x, y, Timer(true))
    && !Enabled(x, y, Deliver) && !Enabled(x, y, Ack) && !Enabled(x, y, Complete)
  }

  ghost predicate WriteFits(wr: Wr, desc: Mr) { IsWrite(wr.task) ==> InRegion(wr, desc) }

  // The link is up, the list fits one batch, and the next remote write fits the
  // peer's region.
  ghost predicate Healthy(x: Ep, y: Ep) {
    && !x.t.disc && !y.t.disc
    && |x.t.queue| <= MAX_SEND_WR
    && (x.delivered < |x.t.posted| ==> WriteFits(x.t.posted[x.delivered], y.t.mr))
  }

  ghost predicate Settled(x: Ep, y: Ep) {
    && x.t.st == RCONNECTED
    && x.cq == [] && x.t.queue == []
    && x.delivered == x.acked == |x.t.posted|
    && x.t.freed == x.t.posted
    && AppMsgs(y.t.rcvd) == Carried(x.t.accepted)
  }

  lemma {:induction false} StuckDrained(x: Ep, y: Ep)
    requires Both(x, y) && Stuck(x, y) && Stuck(y, x) && Healthy(x, y)
    ensures CONNECTED <= x.t.st <= RCONNECTED && x.cq == []
    ensures x.delivered == x.acked == |x.t.posted| && x.t.freed == x.t.posted && x.t.queue == []
  {
    assert x.t.st >= CONNECTED && y.t.st >= CONNECTED;
    assert x.cq == [] && y.cq == [];
    assert x.acked == x.delivered;
    assert Filled(y) == |y.t.rcvd|;
    assert x.delivered == |x.t.posted|;
    assert x.t.posted[..x.acked] == x.t.posted;
  }

  lemma {:induction false} StuckSettled(x: Ep, y: Ep)
    requires TransInv(x.t) && Both(x, y) && Stuck(x, y) && Stuck(y, x) && Healthy(x, y) && Healthy(y, x)
    ensures Settled(x, y)
  {
    StuckDrained(x, y);
    StuckDrained(y, x);
    DescriptorExchangeDone(x, y);
    FifoOfInv(x, y);
    assert x.t.posted[x.delivered..] == [];
  }

  lemma {:induction false} DescriptorExchangeDone(x: Ep, y: Ep)
    requires Both(x, y) && x.t.st >= CONNECTED && y.t.st >= CONNECTED
    requires x.cq == [] && y.cq == [] && x.delivered == |x.t.posted| && y.delivered == |y.t.posted|
    ensures x.t.st == RCONNECTED
  {
    D.MrsBalance(x, y);
    D.MrsBalance(y, x);
    assert x.t.posted[x.delivered..] == [] && y.t.posted[y.delivered..] == [];
  }

  /** No reachable healthy state is stuck before both sides are RCONNECTED, both lists,
      the network and both completion queues are empty, every task is freed, and every
      accepted message has been handled at the other side. */
  lemma {:induction false} RestEveryRun(mrC: Mr, mrS: Mr, moves: seq<Move>)
    ensures var z := Run(Init(mrC, mrS), moves);
            Healthy(z.c, z.s) && Healthy(z.s, z.c) && Stuck(z.c, z.s) && Stuck(z.s, z.c)
            ==> Settled(z.c, z.s) && Settled(z.s, z.c)
  {
    var z := Run(Init(mrC, mrS), moves);
    RunInv(mrC, mrS, moves);
    BothSymmetric(z.c, z.s);
    if Healthy(z.c, z.s) && Healthy(z.s, z.c) && Stuck(z.c, z.s) && Stuck(z.s, z.c) {
      StuckSettled(z.c, z.s);
      StuckSettled(z.s, z.c);
    }
  }
}
