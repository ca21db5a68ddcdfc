/** The memory-region handshake CONNECTED -> SCONNECTED / RCONNECTED. */
module DescriptorExchange {
  import opened Wire
  import opened Allocator
  import opened Sequences
  import opened TransportModel
  import opened TransportInvariants
  import opened Connection
  import opened ConnectionInvariants

  lemma {:induction false} MrsConcat(a: seq<Msg>, b: seq<Msg>)
    ensures Mrs(a + b) == Mrs(a) + Mrs(b)
  {
    SumConcat(a, b, MsgIs(MR));
  }

  lemma {:induction false} MrsCarried(ws: seq<Wr>)
    requires forall k :: 0 <= k < |ws| ==> ws[k].task.typ == ws[k].task.msg.typ
    ensures Mrs(SendMsgs(ws)) == CountMr(ws)
  {
    if ws != [] {
      MrsCarried(Front(ws));
      var x := Last(ws).task;
      MrsConcat(SendMsgs(Front(ws)), if IsWrite(x) then [] else [x.msg]);
      assert Front([x.msg]) == [];
    }
  }

  // Descriptors handled by y, waiting at y, and still in flight add up to those sent.
  lemma {:induction false} MrsBalance(x: Ep, y: Ep)
    requires Both(x, y)
    ensures y.t.epoch + Mrs(RcvdMsgs(y.cq)) + CountMr(x.t.posted[x.delivered..]) == CountMr(x.t.posted)
  {
    var d := x.delivered;
    assert x.t.posted == x.t.posted[..d] + x.t.posted[d..];
    CountMrConcat(x.t.posted[..d], x.t.posted[d..]);
    forall k | 0 <= k < |x.t.posted[..d]|
      ensures x.t.posted[..d][k].task.typ == x.t.posted[..d][k].task.msg.typ
    {
      assert Kind(x.t.posted[k].task, x.t.mr);
    }
    MrsCarried(x.t.posted[..d]);
    MrsConcat(y.t.rcvd, RcvdMsgs(y.cq));
  }

  // Every remote write posted by x addresses y's registered region.
  ghost predicate WritesAddressPeer(x: Ep, y: Ep) {
    forall k :: 0 <= k < |x.t.posted| && IsWrite(x.t.posted[k].task) ==>
      && x.t.posted[k].rkey == MrRkey(y.t.mr)
      && x.t.posted[k].raddr == MrAddr(y.t.mr) + x.t.posted[k].off
  }

  // Every remote write of t carries the key of peer and an address based at its own.
  ghost predicate WritesCarry(t: Trans, peer: IbvMr) {
    forall k :: 0 <= k < |t.posted| && IsWrite(t.posted[k].task) ==>
      t.posted[k].rkey == peer.rkey && t.posted[k].raddr == peer.addr + t.posted[k].off
  }

  /** For all regions c and s that the two sides have registered, in every run: the client
      sends at most two descriptors and the server at most one; the client handles at most
      one and the server at most two; an endpoint is RCONNECTED exactly when it has handled
      one, and then it has stored its peer's own struct ibv_mr; and every remote write it
      ever posted carries the rkey of that struct and an address based at its addr. */
  lemma {:induction false} ExchangeEveryRun(c: IbvMr, s: IbvMr, padC: seq<Byte>, padS: seq<Byte>, moves: seq<Move>)
    requires |padC| == 4 && |padS| == 4
    ensures var z := Run(Init(Image(c, padC), Image(s, padS)), moves);
            && CountMr(z.c.t.posted) <= 2 && CountMr(z.s.t.posted) <= 1
            && z.c.t.epoch <= 1 && z.s.t.epoch <= 2
            && (z.c.t.st == RCONNECTED <==> z.c.t.epoch >= 1) && (z.s.t.st == RCONNECTED <==> z.s.t.epoch >= 1)
            && (z.c.t.st == RCONNECTED ==> StructOf(z.c.t.peerMr) == s)
            && (z.s.t.st == RCONNECTED ==> StructOf(z.s.t.peerMr) == c)
            && WritesCarry(z.c.t, s) && WritesCarry(z.s.t, c)
  {
    hide Image, StructOf, MrAddr, MrRkey, CountMr, TransInv, KindInv, AddressInv, CloseInv, Flow, Run;
    var mrC, mrS := Image(c, padC), Image(s, padS);
    var z := Run(Init(mrC, mrS), moves);
    RunInv(mrC, mrS, moves);
    RunRegions(mrC, mrS, moves);
    BothSymmetric(z.c, z.s);
    ExchangeOfInv(z.c, z.s);
    ExchangeOfInv(z.s, z.c);
    StructRead(c, padC);
    StructRead(s, padS);
  }

  lemma {:induction false} ExchangeOfInv(x: Ep, y: Ep)
    requires Both(x, y)
    ensures CountMr(x.t.posted) <= if x.t.isClient then 2 else 1
    ensures y.t.epoch <= CountMr(x.t.posted)
    ensures x.t.st == RCONNECTED <==> x.t.epoch >= 1
    ensures x.t.st == RCONNECTED ==> x.t.peerMr == y.t.mr
    ensures WritesAddressPeer(x, y)
  {
    MrsBalance(x, y);
  }

  ghost predicate StatesRise(z: Sys, z': Sys) {
    z.c.t.st <= z'.c.t.st <= RCONNECTED && z.s.t.st <= z'.s.t.st <= RCONNECTED
  }

  lemma {:induction false} RunMonotone(z: Sys, moves: seq<Move>)
    requires SysInv(z)
    ensures StatesRise(z, Run(z, moves))
  {
    if moves != [] {
      RunMonotone(z, Front(moves));
      RunFrom(z, Front(moves));
      NextMonotone(Run(z, Front(moves)), Last(moves));
    }
  }

  /** trans_state never decreases and never goes beyond RCONNECTED, whatever happens
      after moves. */
  lemma {:induction false} StateMonotone(mrC: Mr, mrS: Mr, moves: seq<Move>, more: seq<Move>)
    ensures StatesRise(Run(Init(mrC, mrS), moves), Run(Init(mrC, mrS), moves + more))
  {
    RunInv(mrC, mrS, moves);
    RunConcat(Init(mrC, mrS), moves, more);
    RunMonotone(Run(Init(mrC, mrS), moves), more);
  }

  lemma {:induction false} NextMonotone(z: Sys, m: Move)
    requires SysInv(z)
    ensures StatesRise(z, Next(z, m))
  {
    hide TransInv, KindInv, AddressInv, CloseInv, Flow;
    NextInv(z, m);
    if m.client && Enabled(z.c, z.s, m.act) {
      StepMonotone(z.c, z.s, m.act);
    } else if !m.client && Enabled(z.s, z.c, m.act) {
      StepMonotone(z.s, z.c, m.act);
    }
  }

  lemma {:induction false} StepMonotone(x: Ep, y: Ep, a: Act)
    requires Handshake(x.t, y.t.mr) && Enabled(x, y, a)
    ensures x.t.st <= Step(x, y, a).0.t.st && y.t.st == Step(x, y, a).1.t.st
  {
    if a.Start? {
      PostRecvsEffect(x.t.(st := CONNECTING), PrePostCount(x.t.recvSize));
    } else if a.Complete? && x.cq[0].Rcvd? {
      var more := RcvdEffect(x.t, HeadMsg(x), DescOf(HeadMsg(x)));
    }
  }

  // ----- When the event thread waits on itself

  // Messages a receive handler has to send: DONE for a FINISH, the own descriptor for a
  // descriptor that arrives in state CONNECTED.
  function Owed(t: Trans, msg: Msg): nat {
    if msg.typ == FINISH || (msg.typ == MR && t.st == CONNECTED) then 1 else 0
  }

  // Send tasks created between t and t'.
  function Created(t: Trans, t': Trans): int { |t'.lens| - |t.lens| }

  /** For every transport up to RCONNECTED and every message: the receive handler sends
      what it owes, without waiting in hmr_msg_check, if and only if it is not handling a
      FINISH before CONNECTED. */
  lemma {:induction false} HandlerSendsIff(t: Trans, msg: Msg, desc: Mr)
    requires t.st <= RCONNECTED
    ensures Created(t, OnRcvd(t, msg, desc)) == Owed(t, msg) <==> !(msg.typ == FINISH && t.st < CONNECTED)
    ensures msg.typ == FINISH && t.st < CONNECTED ==> MsgCheck(t.st, DONE) == Spin
  {
    var t0 := t.(rcvd := t.rcvd + [msg]);
    if msg.typ == MR && t.st == CONNECTED {
      SendEffect(NewEpoch(t0, desc), MrMsg(t.mr));
    }
  }

  /** on_cm_established never waits, whatever the state before: the client's descriptor is
      posted at once. */
  lemma {:induction false} EstablishedSends(t: Trans)
    ensures Created(t, Established(t)) == if t.isClient then 1 else 0
    ensures t.isClient ==>
              |Established(t).posted| == |t.posted| + 1 && Last(Established(t).posted).task.msg == MrMsg(t.mr)
  {
    SendEffect(t.(st := CONNECTED), MrMsg(t.mr));
  }

  // What the next completion makes the handler send is really sent: the DONE reply is on
  // the list, the descriptor is posted.
  ghost predicate RepliesAtOnce(x: Ep, y: Ep) {
    Enabled(x, y, Complete) && x.cq[0].Rcvd? ==>
      var t, t', msg := x.t, Step(x, y, Complete).0.t, x.cq[0].msg;
      && Created(t, t') == Owed(t, msg)
      && (msg.typ == FINISH ==> |t'.queue| == |t.queue| + 1 && Last(t'.queue).msg == DoneMsg())
      && (msg.typ == MR && t.st == CONNECTED ==>
            |t'.posted| == |t.posted| + 1 && Last(t'.posted).task.msg == MrMsg(t.mr))
  }

  lemma {:induction false} RepliesOfInv(x: Ep, y: Ep)
    requires Both(x, y)
    ensures RepliesAtOnce(x, y)
  {
    hide KindInv, AddressInv, CloseInv, Flow;
    if Enabled(x, y, Complete) && x.cq[0].Rcvd? {
      HandlerSendsIff(x.t, HeadMsg(x), DescOf(HeadMsg(x)));
      var t0 := x.t.(rcvd := x.t.rcvd + [HeadMsg(x)]);
      SendEffect(t0, DoneMsg());
      if x.cq[0].msg.typ == MR && x.t.st == CONNECTED {
        SendEffect(NewEpoch(t0, DescOf(HeadMsg(x))), MrMsg(x.t.mr));
      }
    }
  }

  /** In every run no handler waits in hmr_msg_check: what the receive handler owes and
      what on_cm_established sends is handed over at once. */
  lemma {:induction false} NeverSpinsEveryRun(mrC: Mr, mrS: Mr, moves: seq<Move>)
    ensures var z := Run(Init(mrC, mrS), moves);
            && RepliesAtOnce(z.c, z.s) && RepliesAtOnce(z.s, z.c)
            && (Enabled(z.c, z.s, Establish) ==> Created(z.c.t, Step(z.c, z.s, Establish).0.t) == 1)
            && (Enabled(z.s, z.c, Establish) ==> Created(z.s.t, Step(z.s, z.c, Establish).0.t) == 0)
  {
    hide Created;
    var z := Run(Init(mrC, mrS), moves);
    RunInv(mrC, mrS, moves);
    BothSymmetric(z.c, z.s);
    RepliesOfInv(z.c, z.s);
    RepliesOfInv(z.s, z.c);
    EstablishedSends(z.c.t);
    EstablishedSends(z.s.t);
  }
}
