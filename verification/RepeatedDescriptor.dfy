/** When the client sends its descriptor a second time, and when that makes remote writes
    of the server collide. */
module RepeatedDescriptor {
  import opened Wire
  import opened Allocator
  import opened Sequences
  import opened TransportModel
  import opened TransportInvariants
  import opened Connection
  import opened ConnectionInvariants
  import D = DescriptorExchange
  import H = HandshakeProgress
  import R = RemoteWrites

  // ----- The second descriptor

  // The state of a client tells whether it has handled the completion of its own SEND.
  ghost predicate OwnAcked(t: Trans) {
    t.isClient ==> (t.st <= CONNECTED ==> t.freed == []) && (t.st == SCONNECTED ==> t.freed != [])
  }

  lemma {:induction false} OwnAckedStep(x: Ep, y: Ep, a: Act)
    requires Both(x, y) && H.Led(x.t) && OwnAcked(x.t) && Enabled(x, y, a)
    ensures OwnAcked(Step(x, y, a).0.t)
  {
    hide AddressInv, CloseInv, RecvFlow;
    match a
    case Start => PostRecvsEffect(x.t.(st := CONNECTING), PrePostCount(x.t.recvSize));
    case Establish => SendEffect(x.t.(st := CONNECTED), MrMsg(x.t.mr));
    case AppSend(msg) => SendEffect(x.t, msg);
    case Timer(ok) =>
    case Deliver =>
    case Ack =>
    case Complete =>
      if x.cq[0].Rcvd? {
        RcvdAcked(x.t, x.cq[0].msg, DescOf(x.cq[0].msg));
      } else if x.t.isClient && x.t.st == CONNECTED {
        HeadSent(x);
        H.FirstIsDescriptor(x.t);
      }
  }

  lemma {:induction false} RcvdAcked(t: Trans, msg: Msg, desc: Mr)
    requires CONNECTED <= t.st <= RCONNECTED && OwnAcked(t)
    ensures OwnAcked(OnRcvd(t, msg, desc))
  {
    var more := RcvdEffect(t, msg, desc);
    SendEffect(t.(rcvd := t.rcvd + [msg]), DoneMsg());
  }

  lemma {:induction false} RunOwnAcked(mrC: Mr, mrS: Mr, moves: seq<Move>)
    ensures OwnAcked(Run(Init(mrC, mrS), moves).c.t)
  {
    hide H.Led, Both, TransInv, Step;
    if moves != [] {
      RunOwnAcked(mrC, mrS, Front(moves));
      H.RunLed(mrC, mrS, Front(moves));
      var z, m := Run(Init(mrC, mrS), Front(moves)), Last(moves);
      if m.client && Enabled(z.c, z.s, m.act) {
        OwnAckedStep(z.c, z.s, m.act);
      } else if !m.client && Enabled(z.s, z.c, m.act) {
        PeerSame(z.s, z.c, m.act);
      }
    }
  }

  // Move m makes the client handle a descriptor before the completion of its own SEND,
  // the first request it posted.
  ghost predicate AnswersAnswer(z: Sys, m: Move) {
    && m == R.Cl(Complete) && Enabled(z.c, z.s, Complete)
    && z.c.cq[0].Rcvd? && z.c.cq[0].msg.typ == MR && z.c.t.freed == []
  }

  ghost predicate AnsweredAnAnswer(z: Sys, moves: seq<Move>) {
    moves != [] && (AnsweredAnAnswer(z, Front(moves)) || AnswersAnswer(Run(z, Front(moves)), Last(moves)))
  }

  // What a step adds to the descriptors the client has posted.
  lemma {:induction false} ClientMrStep(x: Ep, y: Ep, a: Act)
    requires Both(x, y) && QueueInv(x.t) && x.t.isClient && OwnAcked(x.t) && Enabled(x, y, a)
    ensures CountMr(Step(x, y, a).0.t.posted) == CountMr(x.t.posted)
              + if a.Establish? || (a.Complete? && AnswersAnswer(Sys(x, y), R.Cl(a))) then 1 else 0
  {
    hide AddressInv, CloseInv, KindInv;
    match a
    case Start => PostRecvsEffect(x.t.(st := CONNECTING), PrePostCount(x.t.recvSize));
    case Establish =>
      var t1 := x.t.(st := CONNECTED);
      SendEffect(t1, MrMsg(x.t.mr));
      MrPosted(x.t, Wr(NewTask(t1, MrMsg(x.t.mr)), 0, 0, 0, t1.epoch));
    case AppSend(msg) => SendEffect(x.t, msg);
    case Timer(ok) =>
      if ok {
        FlushedMr(x.t);
      }
    case Deliver =>
    case Ack =>
    case Complete => ClientMrComplete(x, y);
  }

  lemma {:induction false} FlushedMr(t: Trans)
    requires QueueInv(t) && t.queue != []
    ensures CountMr(Flush(t, true).posted) == CountMr(t.posted)
  {
    var b := Batch(t, t.queue);
    forall k | 0 <= k < |b|
      ensures b[k].task.typ != MR
    {
      BatchTasks(t, t.queue, k);
    }
    CountMrNone(b);
    CountMrConcat(t.posted, b);
  }

  lemma {:induction false} ClientMrComplete(x: Ep, y: Ep)
    requires Both(x, y) && x.t.isClient && OwnAcked(x.t) && Enabled(x, y, Complete)
    ensures CountMr(Step(x, y, Complete).0.t.posted) == CountMr(x.t.posted)
              + if AnswersAnswer(Sys(x, y), R.Cl(Complete)) then 1 else 0
  {
    hide AddressInv, CloseInv, KindInv, Flow, CountMr, Mrs;
    if x.cq[0].Rcvd? {
      var msg := x.cq[0].msg;
      if msg.typ == MR {
        OnlyAnswer(x, y);
      }
      RcvdMr(x.t, msg, DescOf(msg));
    }
  }

  lemma {:induction false} RcvdMr(t: Trans, msg: Msg, desc: Mr)
    requires CONNECTED <= t.st <= RCONNECTED
    ensures CountMr(OnRcvd(t, msg, desc).posted)
              == CountMr(t.posted) + if msg.typ == MR && t.st == CONNECTED then 1 else 0
  {
    var t0 := t.(rcvd := t.rcvd + [msg]);
    SendEffect(t0, DoneMsg());
    if msg.typ == MR && t.st == CONNECTED {
      var t1 := NewEpoch(t0, desc);
      SendEffect(t1, MrMsg(t.mr));
      MrPosted(t, Wr(NewTask(t1, MrMsg(t.mr)), 0, 0, 0, t1.epoch));
    }
  }

  // The server sends one descriptor only, so the client handles its first one here.
  lemma {:induction false} OnlyAnswer(x: Ep, y: Ep)
    requires Both(x, y) && x.t.isClient && x.cq != [] && x.cq[0].Rcvd? && x.cq[0].msg.typ == MR
    ensures x.t.st != RCONNECTED
  {
    BothSymmetric(x, y);
    D.ExchangeOfInv(y, x);
    D.MrsBalance(y, x);
    H.MrsHead(x.cq);
  }

  /** In every run: the client has posted its descriptor twice if and only if it handled
      the server's while the completion of its own SEND was still unhandled. */
  lemma {:induction false} SecondDescriptorIff(mrC: Mr, mrS: Mr, moves: seq<Move>)
    ensures CountMr(Run(Init(mrC, mrS), moves).c.t.posted) == 2 <==> AnsweredAnAnswer(Init(mrC, mrS), moves)
  {
    hide Both, TransInv, CountMr, Step, H.SysLed;
    var z0 := Init(mrC, mrS);
    if moves == [] {
      assert CountMr(z0.c.t.posted) == 0 by { CountMrNone([]); }
    } else {
      SecondDescriptorIff(mrC, mrS, Front(moves));
      RunInv(mrC, mrS, moves);
      RunInv(mrC, mrS, Front(moves));
      RunOwnAcked(mrC, mrS, Front(moves));
      SecondStep(Run(z0, Front(moves)), Last(moves));
    }
  }

  lemma {:induction false} SecondStep(z: Sys, m: Move)
    requires SysInv(z) && SysInv(Next(z, m)) && OwnAcked(z.c.t)
    ensures CountMr(Next(z, m).c.t.posted) == 2 <==> CountMr(z.c.t.posted) == 2 || AnswersAnswer(z, m)
  {
    hide TransInv, KindInv, AddressInv, CloseInv, Flow, Step;
    if m.client && Enabled(z.c, z.s, m.act) {
      ClientCounts(z);
      ClientCounts(Next(z, m));
      ClientQueue(z);
      ClientMrStep(z.c, z.s, m.act);
    } else if !m.client && Enabled(z.s, z.c, m.act) {
      PeerSame(z.s, z.c, m.act);
    }
  }

  lemma {:induction false} ClientQueue(z: Sys)
    requires SysInv(z)
    ensures QueueInv(z.c.t)
  {
  }

  lemma {:induction false} ClientCounts(z: Sys)
    requires SysInv(z)
    ensures CountMr(z.c.t.posted) <= 2
    ensures z.c.t.st < CONNECTED ==> CountMr(z.c.t.posted) == 0
    ensures CONNECTED <= z.c.t.st < RCONNECTED ==> CountMr(z.c.t.posted) == 1
  {
    D.ExchangeOfInv(z.c, z.s);
  }

  // ----- Remote writes without failed posts

  predicate NoFailedPost(moves: seq<Move>, client: bool) {
    forall k :: 0 <= k < |moves| ==> moves[k] != Move(client, Timer(false))
  }

  // Every remote write starts where the earlier ones with the same base end.
  ghost predicate GapFree(t: Trans) {
    && t.lost == 0
    && forall i: nat :: R.IsWriteAt(t, i) ==> t.posted[i].off == EpochBytes(t.posted[..i], t.posted[i].epoch)
  }

  lemma {:induction false} GapFreeGrows(t: Trans, t': Trans, more: seq<Wr>)
    requires GapFree(t) && WriteInv(t') && t'.lost == 0 && t'.posted == t.posted + more
    requires forall k :: 0 <= k < |more| && IsWrite(more[k].task) ==> more[k].epoch == t'.epoch
    ensures GapFree(t')
  {
    hide EpochBytes;
    var n := |t.posted|;
    forall i: nat | R.IsWriteAt(t', i)
      ensures t'.posted[i].off == EpochBytes(t'.posted[..i], t'.posted[i].epoch)
    {
      if i < n {
        assert R.IsWriteAt(t, i) && t'.posted[..i] == t.posted[..i];
      } else {
        assert t'.posted[i] == more[i - n] && OffsetOk(t', i);
      }
    }
  }

  lemma {:induction false} GapFreeStep(x: Ep, y: Ep, a: Act)
    requires Handshake(x.t, y.t.mr) && GapFree(x.t) && Enabled(x, y, a) && a != Timer(false)
    requires WriteInv(Step(x, y, a).0.t)
    ensures GapFree(Step(x, y, a).0.t)
  {
    hide WriteInv, GapFree;
    var t, t' := x.t, Step(x, y, a).0.t;
    assert t.lost == 0 by { LostZero(t); }
    match a
    case Start =>
      PostRecvsEffect(t.(st := CONNECTING), PrePostCount(t.recvSize));
      GapFreeGrows(t, t', []);
    case Establish =>
      SendEffect(t.(st := CONNECTED), MrMsg(t.mr));
      GapFreeGrows(t, t', t'.posted[|t.posted|..]);
    case AppSend(msg) =>
      SendEffect(t, msg);
      GapFreeGrows(t, t', []);
    case Timer(ok) =>
      forall k | 0 <= k < |t.queue|
        ensures Batch(t, t.queue)[k].epoch == t.epoch
      {
        BatchTasks(t, t.queue, k);
      }
      GapFreeGrows(t, t', Batch(t, t.queue));
    case Deliver => GapFreeGrows(t, t', []);
    case Ack => GapFreeGrows(t, t', []);
    case Complete =>
      if x.cq[0].Sent? {
        GapFreeGrows(t, t', []);
      } else {
        GapFreeRcvd(t, x.cq[0].msg, DescOf(x.cq[0].msg));
      }
  }

  lemma {:induction false} LostZero(t: Trans)
    requires GapFree(t)
    ensures t.lost == 0
  {
  }

  lemma {:induction false} GapFreeRcvd(t: Trans, msg: Msg, desc: Mr)
    requires GapFree(t) && CONNECTED <= t.st <= RCONNECTED && WriteInv(OnRcvd(t, msg, desc))
    ensures GapFree(OnRcvd(t, msg, desc))
  {
    hide WriteInv, GapFree;
    LostZero(t);
    var t', t0 := OnRcvd(t, msg, desc), t.(rcvd := t.rcvd + [msg]);
    SendEffect(t0, DoneMsg());
    if msg.typ == MR && t.st == CONNECTED {
      var t1 := NewEpoch(t0, desc);
      SendEffect(t1, MrMsg(t.mr));
      GapFreeGrows(t, t', [Wr(NewTask(t1, MrMsg(t.mr)), 0, 0, 0, t1.epoch)]);
    } else {
      GapFreeGrows(t, t', []);
    }
  }

  lemma {:induction false} RunGapFree(mrC: Mr, mrS: Mr, moves: seq<Move>, client: bool)
    requires NoFailedPost(moves, client)
    ensures GapFree(H.Side(Run(Init(mrC, mrS), moves), client).t)
  {
    hide GapFree, Flow, Step, KindInv, AddressInv, CloseInv;
    if moves == [] {
      NothingPosted(mrC, mrS);
    } else {
      RunGapFree(mrC, mrS, Front(moves), client);
      RunInv(mrC, mrS, Front(moves));
      RunInv(mrC, mrS, moves);
      var z, m := Run(Init(mrC, mrS), Front(moves)), Last(moves);
      var x, y := H.Side(z, client), H.Side(z, !client);
      if m.client == client && Enabled(x, y, m.act) {
        GapFreeStep(x, y, m.act);
      } else if m.client != client && Enabled(y, x, m.act) {
        PeerSame(y, x, m.act);
      }
    }
  }

  lemma {:induction false} NothingPosted(mrC: Mr, mrS: Mr)
    ensures GapFree(NewEp(true, mrC).t) && GapFree(NewEp(false, mrS).t)
  {
  }

  // ----- When the server's writes collide

  // A remote write was posted while e descriptors had been handled.
  ghost predicate WroteIn(t: Trans, e: nat) {
    exists i: nat :: R.IsWriteAt(t, i) && t.posted[i].epoch == e
  }

  ghost predicate SomeCollision(t: Trans) {
    exists i: nat, j: nat :: i < j && R.IsWriteAt(t, i) && R.IsWriteAt(t, j) && R.Collide(t, i, j)
  }

  /** The first remote write posted after a descriptor goes to offset 0. */
  lemma {:induction false} FirstWriteAtZero(t: Trans, e: nat, k: nat) returns (i: nat)
    requires GapFree(t) && R.IsWriteAt(t, k) && t.posted[k].epoch == e
    ensures i <= k && R.IsWriteAt(t, i) && t.posted[i].epoch == e && t.posted[i].off == 0
    decreases k
  {
    if j: nat :| j < k && R.IsWriteAt(t, j) && t.posted[j].epoch == e {
      i := FirstWriteAtZero(t, e, j);
    } else {
      i := k;
      EpochBytesNone(t.posted[..k], e);
    }
  }

  lemma {:induction false} BothEpochsCollide(t: Trans)
    requires TaskInv(t) && GapFree(t) && WroteIn(t, 1) && WroteIn(t, 2)
    ensures SomeCollision(t)
  {
    hide TaskInv, GapFree;
    var a: nat :| R.IsWriteAt(t, a) && t.posted[a].epoch == 1;
    var b: nat :| R.IsWriteAt(t, b) && t.posted[b].epoch == 2;
    var i := FirstWriteAtZero(t, 1, a);
    var j := FirstWriteAtZero(t, 2, b);
    PostedLength(t, i);
    PostedLength(t, j);
    assert R.Collide(t, i, j) && R.Collide(t, j, i);
  }

  lemma {:induction false} PostedLength(t: Trans, i: nat)
    requires TaskInv(t) && i < |t.posted|
    ensures t.posted[i].task.len >= HEADER
  {
    assert Serialised(AllTasks(t)[i], t.lens);
  }

  /** In every run without a failed post of the server, two of its remote writes overlap
      in the client's region if and only if it posted one after the first descriptor it
      handled and one after the second; and there is a second only if the client answered
      the server's answer. */
  lemma {:induction false} ServerCollisionsIff(mrC: Mr, mrS: Mr, moves: seq<Move>)
    requires NoFailedPost(moves, false)
    ensures var t := Run(Init(mrC, mrS), moves).s.t;
            && (SomeCollision(t) <==> WroteIn(t, 1) && WroteIn(t, 2))
            && (SomeCollision(t) ==> AnsweredAnAnswer(Init(mrC, mrS), moves))
  {
    hide GapFree, Both, R.Collide;
    var z := Run(Init(mrC, mrS), moves);
    var t := z.s.t;
    RunInv(mrC, mrS, moves);
    RunGapFree(mrC, mrS, moves, false);
    BothSymmetric(z.c, z.s);
    if WroteIn(t, 1) && WroteIn(t, 2) {
      BothEpochsCollide(t);
    }
    if SomeCollision(t) {
      var i: nat, j: nat :| i < j && R.IsWriteAt(t, i) && R.IsWriteAt(t, j) && R.Collide(t, i, j);
      R.CollisionOfInv(z.s, z.c, i, j);
      D.ExchangeOfInv(z.c, z.s);
      SecondDescriptorIff(mrC, mrS, moves);
      R.WriteEpochs(z.s, z.c, i);
      R.WriteEpochs(z.s, z.c, j);
      assert R.IsWriteAt(t, i) && R.IsWriteAt(t, j);
    }
  }
}
