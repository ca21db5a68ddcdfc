/** FINISH -> DONE -> rdma_disconnect: nothing queued before the handshake is cut off. */
module GracefulClose {
  import opened Wire
  import opened Allocator
  import opened Sequences
  import opened TransportModel
  import opened TransportInvariants
  import opened Connection
  import opened ConnectionInvariants
  import opened FifoDelivery

  lemma {:induction false} ListedFind(ws: seq<Wr>, i: nat) returns (a: nat)
    requires i < |ws| && ws[i].task.typ != MR
    ensures a < |Listed(ws)| && Listed(ws)[a] == ws[i].task
  {
    a := CollectAt(ws, i, ListedTask);
  }

  lemma {:induction false} DonesSome(q: seq<Task>, k: nat)
    requires k < |q| && q[k].typ == DONE
    ensures Dones(q) >= 1
  {
    SumAt(q, k, OneDone);
  }

  lemma {:induction false} FinishesFind(ms: seq<Msg>) returns (k: nat)
    requires Finishes(ms) >= 1
    ensures k < |ms| && ms[k].typ == FINISH
  {
    k := SumFind(ms, MsgIs(FINISH));
  }

  // Everything x accepted up to some task of type typ has taken effect at the peer.
  ghost predicate FlushedTo(x: Ep, typ: int) {
    && x.delivered <= |x.t.posted|
    && exists a :: 0 <= a < |x.t.accepted| && x.t.accepted[a].typ == typ
         && x.t.accepted[..a + 1] <= Listed(x.t.posted[..x.delivered])
  }

  // finisher sent FINISH, responder handled it, sent DONE, and all either side had
  // put on its list before that has taken effect at the other.
  ghost predicate ClosedBy(finisher: Ep, responder: Ep) {
    && FlushedTo(finisher, FINISH)
    && (exists k :: 0 <= k < |responder.t.rcvd| && responder.t.rcvd[k].typ == FINISH)
    && FlushedTo(responder, DONE)
  }

  lemma {:induction false} FlushedToPosted(x: Ep, i: nat)
    requires QueueInv(x.t) && i < x.delivered <= |x.t.posted| && x.t.posted[i].task.typ != MR
    ensures FlushedTo(x, x.t.posted[i].task.typ)
  {
    var ws := x.t.posted[..x.delivered];
    ListedPrefix(x.t, x.delivered);
    var a := ListedFind(ws, i);
    assert x.t.accepted[a] == ws[i].task;
    assert x.t.accepted[..a + 1] <= Listed(ws);
  }

  // A DONE of r that reached x means r had handled x's FINISH.
  lemma {:induction false} ClosedByDone(x: Ep, r: Ep, i: nat)
    requires TransInv(x.t) && TransInv(r.t) && Both(r, x)
    requires i < r.delivered && r.t.posted[i].task.typ == DONE
    ensures ClosedBy(x, r)
  {
    FlushedToPosted(r, i);
    ListedPrefix(r.t, r.delivered);
    var a := ListedFind(r.t.posted[..r.delivered], i);
    DonesSome(r.t.accepted, a);
    var k := FinishesFind(r.t.rcvd);
    assert r.t.rcvd[k] == (r.t.rcvd + RcvdMsgs(r.cq))[k];
    var j := SendMsgsFrom(x.t.posted[..x.delivered], k);
    assert Kind(x.t.posted[j].task, x.t.mr);
    FlushedToPosted(x, j);
  }

  lemma {:induction false} CloseOfInv(x: Ep, y: Ep)
    requires TransInv(x.t) && TransInv(y.t) && Both(x, y) && x.t.disc
    ensures ClosedBy(x, y) || ClosedBy(y, x)
  {
    hide Handshake, AddressInv, TransInv;
    if DoneFreed(x.t) {
      var k :| 0 <= k < |x.t.freed| && x.t.freed[k].task.typ == DONE;
      assert x.t.posted[..x.acked][k] == x.t.freed[k];
      ClosedByDone(y, x, k);
    } else {
      var k :| 0 <= k < |x.t.rcvd| && x.t.rcvd[k].typ == DONE;
      assert x.t.rcvd[k] == (x.t.rcvd + RcvdMsgs(x.cq))[k];
      var i := SendMsgsFrom(y.t.posted[..y.delivered], k);
      assert Kind(y.t.posted[i].task, y.t.mr);
      BothSymmetric(x, y);
      ClosedByDone(x, y, i);
    }
  }

  /** Whenever either side has called rdma_disconnect, one side sent FINISH and the
      other handled it and answered DONE; every send and remote write the finisher
      queued before FINISH, and every message the responder queued before DONE, had
      taken effect at its peer. */
  lemma {:induction false} GracefulCloseEveryRun(mrC: Mr, mrS: Mr, moves: seq<Move>)
    ensures var z := Run(Init(mrC, mrS), moves);
            z.c.t.disc || z.s.t.disc ==> ClosedBy(z.c, z.s) || ClosedBy(z.s, z.c)
  {
    var z := Run(Init(mrC, mrS), moves);
    RunInv(mrC, mrS, moves);
    BothSymmetric(z.c, z.s);
    if z.c.t.disc {
      CloseOfInv(z.c, z.s);
    } else if z.s.t.disc {
      CloseOfInv(z.s, z.c);
    }
  }
}
