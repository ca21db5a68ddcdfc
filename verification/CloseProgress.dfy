/** At rest a connection is closed if and only if a FINISH was accepted. */
module CloseProgress {
  import opened Wire
  import opened Allocator
  import opened Sequences
  import opened TransportModel
  import opened TransportInvariants
  import opened Connection
  import opened ConnectionInvariants
  import opened FifoDelivery
  import G = GracefulClose
  import P = Progress

  // ----- A DONE sent and freed, or received, has disconnected.

  ghost predicate DoneCloses(t: Trans) {
    && (forall k :: 0 <= k < |t.freed| && t.freed[k].task.typ == DONE ==> t.disc)
    && (forall k :: 0 <= k < |t.rcvd| && t.rcvd[k].typ == DONE ==> t.disc)
  }

  lemma {:induction false} DoneClosesRcvd(t: Trans, msg: Msg, desc: Mr)
    requires DoneCloses(t) && CONNECTED <= t.st <= RCONNECTED
    ensures DoneCloses(OnRcvd(t, msg, desc))
  {
    var t0 := t.(rcvd := t.rcvd + [msg]);
    var more := RcvdEffect(t, msg, desc);
    if msg.typ == FINISH {
      SendEffect(t0, DoneMsg());
    } else if msg.typ == MR && t.st == CONNECTED {
      SendEffect(NewEpoch(t0, desc), MrMsg(t.mr));
    }
  }

  lemma {:induction false} DoneClosesStep(x: Ep, y: Ep, a: Act)
    requires Handshake(x.t, y.t.mr) && DoneCloses(x.t) && DoneCloses(y.t) && Enabled(x, y, a)
    ensures DoneCloses(Step(x, y, a).0.t) && DoneCloses(Step(x, y, a).1.t)
  {
    hide Batch, PostRecvs, Place;
    match a
    case Start => PostRecvsEffect(x.t.(st := CONNECTING), PrePostCount(x.t.recvSize));
    case Establish => SendEffect(x.t.(st := CONNECTED), MrMsg(x.t.mr));
    case AppSend(msg) => SendEffect(x.t, msg);
    case Timer(ok) =>
    case Deliver =>
    case Ack =>
    case Complete =>
      if x.cq[0].Rcvd? {
        DoneClosesRcvd(x.t, x.cq[0].msg, DescOf(x.cq[0].msg));
      }
  }

  lemma {:induction false} RunDoneCloses(mrC: Mr, mrS: Mr, moves: seq<Move>)
    ensures var z := Run(Init(mrC, mrS), moves); DoneCloses(z.c.t) && DoneCloses(z.s.t)
  {
    hide DoneCloses, TransInv, Flow, Step;
    if moves == [] {
      assert DoneCloses(NewEp(true, mrC).t) && DoneCloses(NewEp(false, mrS).t) by { NothingDone(mrC, mrS); }
    } else {
      RunDoneCloses(mrC, mrS, Front(moves));
      RunInv(mrC, mrS, Front(moves));
      var z, m := Run(Init(mrC, mrS), Front(moves)), Last(moves);
      if m.client && Enabled(z.c, z.s, m.act) {
        DoneClosesStep(z.c, z.s, m.act);
      } else if !m.client && Enabled(z.s, z.c, m.act) {
        DoneClosesStep(z.s, z.c, m.act);
      }
    }
  }

  lemma {:induction false} NothingDone(mrC: Mr, mrS: Mr)
    ensures DoneCloses(NewEp(true, mrC).t) && DoneCloses(NewEp(false, mrS).t)
  {
  }

  // ----- From an accepted FINISH to a freed DONE

  lemma {:induction false} ListedIn(ws: seq<Wr>, a: nat) returns (i: nat)
    requires a < |Listed(ws)|
    ensures i < |ws| && ws[i].task == Listed(ws)[a]
  {
    var j: nat;
    i, j := CollectFrom(ws, a, ListedTask);
  }

  lemma {:induction false} CarriedFind(q: seq<Task>, k: nat) returns (j: nat)
    requires k < |q| && !IsWrite(q[k])
    ensures j < |Carried(q)| && Carried(q)[j] == q[k].msg
  {
    j := CollectAt(q, k, CarriedMsg);
  }

  lemma {:induction false} AppMsgsIn(ms: seq<Msg>, j: nat) returns (k: nat)
    requires j < |AppMsgs(ms)|
    ensures k < |ms| && ms[k] == AppMsgs(ms)[j]
  {
    var i: nat;
    k, i := CollectFrom(ms, j, AppMsgOf);
  }

  lemma {:induction false} FinishesSome(ms: seq<Msg>, k: nat)
    requires k < |ms| && ms[k].typ == FINISH
    ensures Finishes(ms) >= 1
  {
    SumAt(ms, k, MsgIs(FINISH));
  }

  lemma {:induction false} DonesFind(q: seq<Task>) returns (k: nat)
    requires Dones(q) >= 1
    ensures k < |q| && q[k].typ == DONE
  {
    k := SumFind(q, OneDone);
  }

  ghost predicate FinishAccepted(t: Trans) {
    exists k :: 0 <= k < |t.accepted| && t.accepted[k].typ == FINISH
  }

  // When everything has settled, a FINISH of x has made y free a DONE.
  lemma {:induction false} FinishSettled(x: Ep, y: Ep)
    requires QueueInv(x.t) && QueueInv(y.t) && Both(x, y) && P.Settled(x, y) && P.Settled(y, x)
    requires FinishAccepted(x.t) && DoneCloses(y.t)
    ensures y.t.disc
  {
    hide Handshake, AddressInv, Flow;
    var a :| 0 <= a < |x.t.accepted| && x.t.accepted[a].typ == FINISH;
    assert x.t.accepted == Listed(x.t.posted) && y.t.accepted == Listed(y.t.posted);
    var i := ListedIn(x.t.posted, a);
    assert Kind(x.t.posted[i].task, x.t.mr);
    var j := CarriedFind(x.t.accepted, a);
    var k := AppMsgsIn(y.t.rcvd, j);
    FinishesSome(y.t.rcvd, k);
    var d := DonesFind(y.t.accepted);
    var n := ListedIn(y.t.posted, d);
    assert y.t.freed[n].task.typ == DONE;
  }

  // No step is possible although the lists fit a batch and the next writes fit.
  ghost predicate AtRest(x: Ep, y: Ep) {
    && P.Stuck(x, y) && |x.t.queue| <= MAX_SEND_WR
    && (x.delivered < |x.t.posted| ==> P.WriteFits(x.t.posted[x.delivered], y.t.mr))
  }

  /** In every reachable state at rest, a side has disconnected if and only if
      hmr_rdma_send accepted a FINISH on either side: an accepted FINISH is never left
      without its disconnect, and nothing else causes one. */
  lemma {:induction false} ClosedAtRest(mrC: Mr, mrS: Mr, moves: seq<Move>)
    requires var z := Run(Init(mrC, mrS), moves); AtRest(z.c, z.s) && AtRest(z.s, z.c)
    ensures var z := Run(Init(mrC, mrS), moves);
            z.c.t.disc || z.s.t.disc <==> FinishAccepted(z.c.t) || FinishAccepted(z.s.t)
  {
    hide P.Stuck, Both, TaskInv, WriteInv, RecvInv, DoneCloses, P.Settled;
    var z := Run(Init(mrC, mrS), moves);
    RunInv(mrC, mrS, moves);
    RunDoneCloses(mrC, mrS, moves);
    BothSymmetric(z.c, z.s);
    G.GracefulCloseEveryRun(mrC, mrS, moves);
    if !z.c.t.disc && !z.s.t.disc {
      P.StuckSettled(z.c, z.s);
      P.StuckSettled(z.s, z.c);
      if FinishAccepted(z.c.t) {
        FinishSettled(z.c, z.s);
      }
      if FinishAccepted(z.s.t) {
        FinishSettled(z.s, z.c);
      }
    }
  }
}
