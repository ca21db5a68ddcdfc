/** A send list longer than MAX_SEND_WR: the timer posts the whole list as one chain, so
    such a list is never posted again. */
module LongLists {
  import opened Wire
  import opened Allocator
  import opened Sequences
  import opened TransportModel
  import opened TransportInvariants
  import opened Connection
  import opened ConnectionInvariants
  import opened FifoDelivery
  import R = RemoteWrites
  import H = HandshakeProgress

  lemma {:induction false} SendMany(z: Sys, client: bool, msg: Msg, n: nat) returns (moves: seq<Move>)
    requires H.Side(z, client).t.st >= CONNECTED && MsgCheck(H.Side(z, client).t.st, msg.typ) == Pass && AppMsg(msg)
    requires msg.typ != MR
    ensures |moves| == n && H.Side(Run(z, moves), client).t.st == H.Side(z, client).t.st
    ensures |H.Side(Run(z, moves), client).t.queue| == |H.Side(z, client).t.queue| + n
    ensures H.Side(Run(z, moves), client).t.posted == H.Side(z, client).t.posted
    ensures H.Side(Run(z, moves), client).t.freed == H.Side(z, client).t.freed
  {
    moves := [];
    if n > 0 {
      var rest := SendMany(z, client, msg, n - 1);
      var m := Move(client, AppSend(msg));
      var z' := R.RunOne(z, rest, m);
      SendEffect(H.Side(Run(z, rest), client).t, msg);
      moves := rest + [m];
    }
  }

  /** Every list length is reachable on either side. */
  lemma {:induction false} AnyLengthReachable(mrC: Mr, mrS: Mr, client: bool, msg: Msg,
                                              n: nat) returns (moves: seq<Move>)
    requires AppMsg(msg) && msg.typ == NORMAL
    ensures |H.Side(Run(Init(mrC, mrS), moves), client).t.queue| == n
  {
    hide Next, AppMsg;
    var a := R.Open(mrC, mrS);
    var b := SendMany(Run(Init(mrC, mrS), a), client, msg, n);
    RunConcat(Init(mrC, mrS), a, b);
    moves := a + b;
  }

  // Between t and t' nothing was taken off the list.
  ghost predicate OnlyGrew(t: Trans, t': Trans) {
    t.queue <= t'.queue && Listed(t'.posted) == Listed(t.posted)
  }

  lemma {:induction false} PostedDescriptor(t: Trans, w: Wr)
    requires w.task.typ == MR
    ensures Listed(t.posted + [w]) == Listed(t.posted)
  {
    assert Front(t.posted + [w]) == t.posted;
  }

  lemma {:induction false} LongStep(x: Ep, y: Ep, a: Act)
    requires SendFlow(x) && Handshake(x.t, y.t.mr) && |x.t.queue| > MAX_SEND_WR && Enabled(x, y, a)
    ensures OnlyGrew(x.t, Step(x, y, a).0.t)
  {
    hide Listed;
    match a
    case Start => PostRecvsEffect(x.t.(st := CONNECTING), PrePostCount(x.t.recvSize));
    case Establish =>
      var t1 := x.t.(st := CONNECTED);
      SendEffect(t1, MrMsg(x.t.mr));
      PostedDescriptor(x.t, Wr(NewTask(t1, MrMsg(x.t.mr)), 0, 0, 0, t1.epoch));
    case AppSend(msg) => SendEffect(x.t, msg);
    case Timer(ok) => assert |x.t.freed| <= |x.t.posted|;
    case Deliver =>
    case Ack =>
    case Complete =>
      if x.cq[0].Rcvd? {
        LongRcvd(x.t, x.cq[0].msg, DescOf(x.cq[0].msg));
      }
  }

  lemma {:induction false} LongRcvd(t: Trans, msg: Msg, desc: Mr)
    requires CONNECTED <= t.st <= RCONNECTED
    ensures OnlyGrew(t, OnRcvd(t, msg, desc))
  {
    hide Listed;
    var t0 := t.(rcvd := t.rcvd + [msg]);
    SendEffect(t0, DoneMsg());
    if msg.typ == MR && t.st == CONNECTED {
      var t1 := NewEpoch(t0, desc);
      SendEffect(t1, MrMsg(t.mr));
      PostedDescriptor(t, Wr(NewTask(t1, MrMsg(t.mr)), 0, 0, 0, t1.epoch));
    }
  }

  lemma {:induction false} RunLong(z: Sys, more: seq<Move>, client: bool)
    requires SysInv(z) && |H.Side(z, client).t.queue| > MAX_SEND_WR
    ensures OnlyGrew(H.Side(z, client).t, H.Side(Run(z, more), client).t)
  {
    hide Listed, Step, TransInv, KindInv, AddressInv, CloseInv, RecvFlow;
    if more != [] {
      RunLong(z, Front(more), client);
      RunFrom(z, Front(more));
      var w, m := Run(z, Front(more)), Last(more);
      var x, y := H.Side(w, client), H.Side(w, !client);
      if m.client == client && Enabled(x, y, m.act) {
        LongStep(x, y, m.act);
      } else if m.client != client && Enabled(y, x, m.act) {
        PeerSame(y, x, m.act);
      }
    }
  }

  // What the peer handles comes from the posted part of the list.
  lemma {:induction false} HandledWasPosted(x: Ep, y: Ep)
    requires FifoOk(x, y)
    ensures AppMsgs(y.t.rcvd) <= Carried(Listed(x.t.posted))
  {
    CarriedConcat(Listed(x.t.posted), x.t.queue);
    var a := AppMsgs(y.t.rcvd) + AppMsgs(RcvdMsgs(y.cq)) + Carried(Listed(x.t.posted[x.delivered..]));
    var b, q := Carried(Listed(x.t.posted)), Carried(x.t.queue);
    assert a + q == b + q;
    assert |a| == |b| && a == (a + q)[..|a|] && b == (b + q)[..|b|];
  }

  /** Once a list is longer than MAX_SEND_WR it stays so in every continuation: no task
      ever leaves it, and the peer never handles a message that was not posted before. */
  lemma {:induction false} NeverDrains(mrC: Mr, mrS: Mr, moves: seq<Move>, more: seq<Move>, client: bool)
    requires |H.Side(Run(Init(mrC, mrS), moves), client).t.queue| > MAX_SEND_WR
    ensures var z, z' := Run(Init(mrC, mrS), moves), Run(Init(mrC, mrS), moves + more);
            && OnlyGrew(H.Side(z, client).t, H.Side(z', client).t)
            && AppMsgs(H.Side(z', !client).t.rcvd) <= Carried(Listed(H.Side(z, client).t.posted))
  {
    hide Next, OnlyGrew, SysInv, FifoOk;
    RunInv(mrC, mrS, moves);
    RunConcat(Init(mrC, mrS), moves, more);
    RunLong(Run(Init(mrC, mrS), moves), more, client);
    FifoEveryRun(mrC, mrS, moves + more);
    var z' := Run(Init(mrC, mrS), moves + more);
    HandledWasPosted(H.Side(z', client), H.Side(z', !client));
    SameListed(H.Side(Run(Init(mrC, mrS), moves), client).t, H.Side(z', client).t);
  }

  lemma {:induction false} SameListed(t: Trans, t': Trans)
    requires OnlyGrew(t, t')
    ensures Listed(t'.posted) == Listed(t.posted)
  {
  }

  // ----- The longest batch

  /** There is a run in which a list of 256 tasks is posted in one chain, and one in which
      the list has 257 and the post of the chain is refused. */
  lemma {:induction false} LongestBatch(mrC: Mr, mrS: Mr, msg: Msg) returns (moves: seq<Move>, longer: seq<Move>)
    requires AppMsg(msg) && msg.typ == NORMAL
    ensures var t, t' := Run(Init(mrC, mrS), moves).s.t, Run(Init(mrC, mrS), moves + [R.Sv(Timer(true))]).s.t;
            |t.queue| == 256 && t.posted == [] && |t'.posted| == 256 && t'.queue == []
    ensures var z := Run(Init(mrC, mrS), longer);
            |z.s.t.queue| == 257 && !Enabled(z.s, z.c, Timer(true)) && Enabled(z.s, z.c, Timer(false))
  {
    hide AppMsg, Next;
    var a := R.Open(mrC, mrS);
    var z := Run(Init(mrC, mrS), a);
    var b := SendMany(z, false, msg, 256);
    var c := SendMany(z, false, msg, 257);
    RunConcat(Init(mrC, mrS), a, b);
    RunConcat(Init(mrC, mrS), a, c);
    moves, longer := a + b, a + c;
    FlushAll(Run(Init(mrC, mrS), moves));
    var _ := R.RunOne(Init(mrC, mrS), moves, R.Sv(Timer(true)));
  }

  lemma {:induction false} FlushAll(z: Sys)
    requires z.s.t.st >= CONNECTED && |z.s.t.queue| == 256 && z.s.t.posted == [] && z.s.t.freed == []
    ensures var t' := Next(z, R.Sv(Timer(true))).s.t; |t'.posted| == 256 && t'.queue == []
  {
  }

  // ----- The capacity of the queue pair

  lemma {:induction false} CapacityStep(x: Ep, y: Ep, a: Act)
    requires SendFlow(x) && Handshake(x.t, y.t.mr) && Enabled(x, y, a)
    requires |x.t.posted| <= |x.t.freed| + 256 + CountMr(x.t.posted)
    ensures var t' := Step(x, y, a).0.t; |t'.posted| <= |t'.freed| + 256 + CountMr(t'.posted)
  {
    hide Place, PostRecvs, CountMr;
    match a
    case Start => PostRecvsEffect(x.t.(st := CONNECTING), PrePostCount(x.t.recvSize));
    case Establish =>
      var t1 := x.t.(st := CONNECTED);
      SendEffect(t1, MrMsg(x.t.mr));
      MrPosted(x.t, Wr(NewTask(t1, MrMsg(x.t.mr)), 0, 0, 0, t1.epoch));
    case AppSend(msg) => SendEffect(x.t, msg);
    case Timer(ok) => CountMrConcat(x.t.posted, Batch(x.t, x.t.queue));
    case Deliver =>
    case Ack =>
    case Complete => CapacityComplete(x, y);
  }

  lemma {:induction false} CapacityComplete(x: Ep, y: Ep)
    requires SendFlow(x) && Handshake(x.t, y.t.mr) && Enabled(x, y, Complete)
    requires |x.t.posted| <= |x.t.freed| + 256 + CountMr(x.t.posted)
    ensures var t' := Step(x, y, Complete).0.t; |t'.posted| <= |t'.freed| + 256 + CountMr(t'.posted)
  {
    hide Place, CountMr;
    if x.cq[0].Rcvd? {
      var msg := x.cq[0].msg;
      var t0 := x.t.(rcvd := x.t.rcvd + [msg]);
      SendEffect(t0, DoneMsg());
      if msg.typ == MR && x.t.st == CONNECTED {
        var t1 := NewEpoch(t0, DescOf(msg));
        SendEffect(t1, MrMsg(x.t.mr));
        MrPosted(x.t, Wr(NewTask(t1, MrMsg(x.t.mr)), 0, 0, 0, t1.epoch));
      }
    }
  }

  /** In every run at most 256 requests are outstanding besides the descriptors. */
  lemma {:induction false} CapacityEveryRun(mrC: Mr, mrS: Mr, moves: seq<Move>, client: bool)
    ensures var t := H.Side(Run(Init(mrC, mrS), moves), client).t;
            |t.posted| <= |t.freed| + 256 + CountMr(t.posted)
  {
    hide Step, CountMr, TransInv, KindInv, AddressInv, CloseInv, RecvFlow;
    if moves != [] {
      CapacityEveryRun(mrC, mrS, Front(moves), client);
      RunInv(mrC, mrS, Front(moves));
      var w, m := Run(Init(mrC, mrS), Front(moves)), Last(moves);
      var x, y := H.Side(w, client), H.Side(w, !client);
      if m.client == client && Enabled(x, y, m.act) {
        CapacityStep(x, y, m.act);
      } else if m.client != client && Enabled(y, x, m.act) {
        PeerSame(y, x, m.act);
      }
    }
  }
}
