/** The descriptor exchange is never stuck before a disconnect, and when a disconnect
    comes first. */
module HandshakeProgress {
  import opened Wire
  import opened Allocator
  import opened Sequences
  import opened TransportModel
  import opened TransportInvariants
  import opened Connection
  import opened ConnectionInvariants
  import D = DescriptorExchange
  import F = FifoDelivery
  import G = GracefulClose
  import P = Progress
  import R = RemoteWrites

  // ----- Remote writes and DONE follow a descriptor, and so does all a client posts.

  predicate NeedsDescriptor(isClient: bool, w: Wr) {
    isClient || IsWrite(w.task) || w.task.typ == DONE
  }

  ghost predicate Led(t: Trans) {
    forall k :: 0 <= k < |t.posted| && NeedsDescriptor(t.isClient, t.posted[k]) ==> CountMr(t.posted[..k + 1]) >= 1
  }

  lemma {:induction false} LedAppend(t: Trans, t': Trans, more: seq<Wr>)
    requires Led(t) && t'.posted == t.posted + more && t'.isClient == t.isClient
    requires CountMr(t.posted) >= 1 || (more != [] && more[0].task.typ == MR)
          || forall k :: 0 <= k < |more| ==> !NeedsDescriptor(t.isClient, more[k])
    ensures Led(t')
  {
    hide CountMr;
    var n := |t.posted|;
    forall k | 0 <= k < |t'.posted| && NeedsDescriptor(t'.isClient, t'.posted[k])
      ensures CountMr(t'.posted[..k + 1]) >= 1
    {
      if k < n {
        assert t'.posted[..k + 1] == t.posted[..k + 1];
      } else {
        assert t'.posted[..k + 1] == t.posted + more[..k + 1 - n];
        CountMrConcat(t.posted, more[..k + 1 - n]);
        if CountMr(t.posted) == 0 {
          assert NeedsDescriptor(t.isClient, more[k - n]);
          CountMrSome(more[..k + 1 - n], 0);
        }
      }
    }
  }

  lemma {:induction false} LedSame(t: Trans, t': Trans)
    requires Led(t) && t'.posted == t.posted && t'.isClient == t.isClient
    ensures Led(t')
  {
    assert t'.posted == t.posted + [];
    LedAppend(t, t', []);
  }

  lemma {:induction false} SendMsgsFirst(ws: seq<Wr>)
    requires ws != [] && !IsWrite(ws[0].task)
    ensures SendMsgs(ws) != [] && SendMsgs(ws)[0] == ws[0].task.msg
  {
    assert ws == [ws[0]] + ws[1..];
    CollectConcat([ws[0]], ws[1..], SendMsg);
    CollectOne(ws[0], SendMsg);
  }

  lemma {:induction false} MrsSome(ms: seq<Msg>, k: nat)
    requires k < |ms| && ms[k].typ == MR
    ensures Mrs(ms) >= 1
  {
    SumAt(ms, k, MsgIs(MR));
  }

  lemma {:induction false} CountMrNonzero(ws: seq<Wr>) returns (k: nat)
    requires CountMr(ws) >= 1
    ensures k < |ws| && ws[k].task.typ == MR
  {
    k := SumFind(ws, OneMr);
  }

  // The first message a server handles is the client's descriptor.
  lemma {:induction false} ServerHearsDescriptorFirst(x: Ep, y: Ep)
    requires Both(x, y) && Led(y.t) && y.t.isClient && x.t.rcvd != []
    ensures x.t.epoch >= 1
  {
    hide KindInv, AddressInv, CloseInv, CountMr;
    var ws := y.t.posted[..y.delivered];
    assert (x.t.rcvd + RcvdMsgs(x.cq))[0] == x.t.rcvd[0];
    var i := SendMsgsFrom(ws, 0);
    FirstIsDescriptor(y.t);
    SendMsgsFirst(ws);
    MrsSome(x.t.rcvd, 0);
  }

  lemma {:induction false} FirstIsDescriptor(t: Trans)
    requires KindInv(t) && Led(t) && t.isClient && t.posted != []
    ensures t.posted[0].task.typ == MR && t.posted[0].task.msg.typ == MR
  {
    assert NeedsDescriptor(t.isClient, t.posted[0]);
    assert Kind(t.posted[0].task, t.mr);
    var k := CountMrNonzero(t.posted[..0 + 1]);
  }

  // A server that has handled no descriptor has no DONE to send.
  lemma {:induction false} NoDoneEarly(x: Ep, y: Ep)
    requires Both(x, y) && QueueInv(x.t) && Led(y.t) && y.t.isClient && x.t.epoch == 0
    ensures forall k :: 0 <= k < |x.t.queue| ==> x.t.queue[k].typ != DONE
  {
    hide KindInv, AddressInv, Flow;
    forall k | 0 <= k < |x.t.queue|
      ensures x.t.queue[k].typ != DONE
    {
      if x.t.queue[k].typ == DONE {
        var n := |Listed(x.t.posted)|;
        assert x.t.accepted[n + k] == x.t.queue[k];
        G.DonesSome(x.t.accepted, n + k);
        ServerHearsDescriptorFirst(x, y);
      }
    }
  }

  // ----- Led is kept

  lemma {:induction false} LedEstablish(t: Trans, peer: Mr)
    requires Led(t) && t.st == CONNECTING
    ensures Led(Established(t))
  {
    var t1 := t.(st := CONNECTED);
    SendEffect(t1, MrMsg(t.mr));
    if t.isClient {
      LedAppend(t, Established(t), [Wr(NewTask(t1, MrMsg(t.mr)), 0, 0, 0, t1.epoch)]);
    } else {
      LedSame(t, t1);
    }
  }

  lemma {:induction false} LedFlush(x: Ep, y: Ep)
    requires Both(x, y) && QueueInv(x.t) && Led(x.t) && Led(y.t) && x.t.st >= CONNECTED && x.t.queue != []
    ensures Led(Flush(x.t, true))
  {
    var b := Batch(x.t, x.t.queue);
    if CountMr(x.t.posted) == 0 {
      NoDoneEarly(x, y);
      forall k | 0 <= k < |b|
        ensures !NeedsDescriptor(x.t.isClient, b[k])
      {
        BatchTasks(x.t, x.t.queue, k);
      }
    }
    LedAppend(x.t, Flush(x.t, true), b);
  }

  lemma {:induction false} LedRcvd(t: Trans, msg: Msg, desc: Mr)
    requires Led(t) && CONNECTED <= t.st <= RCONNECTED
    ensures Led(OnRcvd(t, msg, desc))
  {
    var t0 := t.(rcvd := t.rcvd + [msg]);
    if msg.typ == MR && t.st == CONNECTED {
      var t1 := NewEpoch(t0, desc);
      SendEffect(t1, MrMsg(t.mr));
      LedAppend(t, OnRcvd(t, msg, desc), [Wr(NewTask(t1, MrMsg(t.mr)), 0, 0, 0, t1.epoch)]);
    } else {
      if msg.typ == FINISH {
        SendEffect(t0, DoneMsg());
      }
      LedSame(t, OnRcvd(t, msg, desc));
    }
  }

  lemma {:induction false} LedStep(x: Ep, y: Ep, a: Act)
    requires Both(x, y) && QueueInv(x.t) && Led(x.t) && Led(y.t) && Enabled(x, y, a)
    ensures Led(Step(x, y, a).0.t) && Led(Step(x, y, a).1.t)
  {
    hide Led, QueueInv, Flow;
    var t' := Step(x, y, a).0.t;
    match a
    case Start =>
      PostRecvsEffect(x.t.(st := CONNECTING), PrePostCount(x.t.recvSize));
      LedSame(x.t, t');
    case Establish => LedEstablish(x.t, y.t.mr);
    case AppSend(msg) =>
      SendEffect(x.t, msg);
      LedSame(x.t, t');
    case Timer(ok) =>
      if ok {
        LedFlush(x, y);
      } else {
        LedSame(x.t, t');
      }
    case Deliver =>
    case Ack =>
    case Complete =>
      if x.cq[0].Sent? {
        LedSame(x.t, t');
      } else {
        LedRcvd(x.t, x.cq[0].msg, DescOf(x.cq[0].msg));
      }
  }

  ghost predicate SysLed(z: Sys) { SysInv(z) && Led(z.c.t) && Led(z.s.t) }

  lemma {:induction false} NextLed(z: Sys, m: Move)
    requires SysLed(z)
    ensures SysLed(Next(z, m))
  {
    hide Led, Both, TaskInv, WriteInv, RecvInv, Step;
    NextInv(z, m);
    BothSymmetric(z.c, z.s);
    if m.client && Enabled(z.c, z.s, m.act) {
      LedStep(z.c, z.s, m.act);
    } else if !m.client && Enabled(z.s, z.c, m.act) {
      LedStep(z.s, z.c, m.act);
    }
  }

  lemma {:induction false} RunLedFrom(z: Sys, moves: seq<Move>)
    requires SysLed(z)
    ensures SysLed(Run(z, moves))
  {
    hide Next, SysLed;
    if moves != [] {
      RunLedFrom(z, Front(moves));
      NextLed(Run(z, Front(moves)), Last(moves));
    }
  }

  lemma {:induction false} RunLed(mrC: Mr, mrS: Mr, moves: seq<Move>)
    ensures SysLed(Run(Init(mrC, mrS), moves))
  {
    InitInv(mrC, mrS);
    RunLedFrom(Init(mrC, mrS), moves);
  }

  // ----- Never stuck before a disconnect

  predicate HandshakeAct(a: Act) { a == Start || a == Establish || a == Deliver || a == Complete }

  ghost predicate CanMove(x: Ep, y: Ep) {
    Enabled(x, y, Start) || Enabled(x, y, Establish) || Enabled(x, y, Deliver) || Enabled(x, y, Complete)
  }

  // x's descriptor has taken effect at y, if x has posted one at all.
  lemma {:induction false} DescriptorGone(x: Ep, y: Ep)
    requires Both(x, y) && Led(x.t) && CountMr(x.t.posted) >= 1 && !x.t.disc && !y.t.disc
    requires y.cq == [] && y.t.st >= CONNECTED && !Enabled(x, y, Deliver)
    ensures y.t.epoch >= 1
  {
    hide KindInv, AddressInv, CloseInv, CountMr, SendMsgs, InRegion, Handshake;
    var ws, d := x.t.posted, x.delivered;
    D.MrsBalance(x, y);
    assert ws == ws[..d] + ws[d..];
    CountMrConcat(ws[..d], ws[d..]);
    assert Filled(y) < |y.t.recvs|;
    if d < |ws| {
      assert IsWrite(ws[d].task) && NeedsDescriptor(x.t.isClient, ws[d]);
      assert ws[..d + 1] == ws[..d] + [ws[d]];
      CountMrConcat(ws[..d], [ws[d]]);
      CountMrNone([ws[d]]);
    } else {
      assert ws[d..] == [];
      CountMrNone(ws[d..]);
    }
  }

  lemma {:induction false} NotStuck(c: Ep, s: Ep)
    requires Both(c, s) && Led(c.t) && Led(s.t) && c.t.isClient && !c.t.disc && !s.t.disc
    requires !CanMove(c, s) && !CanMove(s, c)
    ensures c.t.st == RCONNECTED && s.t.st == RCONNECTED
  {
    hide AddressInv, CloseInv, Flow, CountMr;
    BothSymmetric(c, s);
    assert c.t.st >= CONNECTED && s.t.st >= CONNECTED;
    assert c.cq == [] && s.cq == [];
    DescriptorGone(c, s);
    DescriptorGone(s, c);
  }

  /** In every reachable state in which nobody has disconnected, either both sides are
      RCONNECTED or some side can start, be established, have a request delivered or
      handle a completion.  (WorkDecreasesEveryRun bounds how many such steps there are.) */
  lemma {:induction false} NotStuckEveryRun(mrC: Mr, mrS: Mr, moves: seq<Move>)
    ensures var z := Run(Init(mrC, mrS), moves);
            z.c.t.disc || z.s.t.disc || (z.c.t.st == RCONNECTED && z.s.t.st == RCONNECTED)
            || CanMove(z.c, z.s) || CanMove(z.s, z.c)
  {
    hide CanMove;
    RunLed(mrC, mrS, moves);
    var z := Run(Init(mrC, mrS), moves);
    if !z.c.t.disc && !z.s.t.disc && !CanMove(z.c, z.s) && !CanMove(z.s, z.c) {
      NotStuck(z.c, z.s);
    }
  }

  // Either side disconnected, or both are RCONNECTED.
  predicate HandshakeOver(z: Sys) {
    z.c.t.disc || z.s.t.disc || (z.c.t.st == RCONNECTED && z.s.t.st == RCONNECTED)
  }

  predicate EnabledMove(z: Sys, m: Move) {
    if m.client then Enabled(z.c, z.s, m.act) else Enabled(z.s, z.c, m.act)
  }

  lemma {:induction false} PickMove(z: Sys) returns (m: Move)
    requires SysLed(z) && !HandshakeOver(z)
    ensures HandshakeAct(m.act) && EnabledMove(z, m)
  {
    hide Both, Led, TransInv;
    if !CanMove(z.c, z.s) && !CanMove(z.s, z.c) {
      NotStuck(z.c, z.s);
    }
    var client := CanMove(z.c, z.s);
    var x, y := if client then z.c else z.s, if client then z.s else z.c;
    m := Move(client, if Enabled(x, y, Start) then Start
                      else if Enabled(x, y, Establish) then Establish
                      else if Enabled(x, y, Deliver) then Deliver
                      else Complete);
  }

  // Each step of the handshake costs work, so it comes to its end.
  lemma {:induction false} HandshakeEnds(z: Sys) returns (more: seq<Move>)
    requires SysLed(z)
    ensures HandshakeOver(Run(z, more)) && |more| <= P.TotalWork(z)
    ensures forall k :: 0 <= k < |more| ==> HandshakeAct(more[k].act)
    decreases P.TotalWork(z)
  {
    hide Next, SysLed, P.Work;
    if HandshakeOver(z) {
      more := [];
    } else {
      var m := PickMove(z);
      var z' := Next(z, m);
      NextLed(z, m);
      HandshakeMoveWorks(z, m);
      var rest := HandshakeEnds(z');
      assert Front([m]) == [] && Run(z, [m]) == z';
      RunConcat(z, [m], rest);
      more := [m] + rest;
    }
  }

  lemma {:induction false} HandshakeMoveWorks(z: Sys, m: Move)
    requires SysLed(z) && HandshakeAct(m.act) && EnabledMove(z, m)
    ensures P.TotalWork(Next(z, m)) < P.TotalWork(z)
  {
    hide Both, Led, TransInv, P.Work, Step;
    BothSymmetric(z.c, z.s);
    if m.client {
      P.StepWorks(z.c, z.s, m.act);
    } else {
      P.StepWorks(z.s, z.c, m.act);
    }
  }

  // ----- A disconnect that comes first

  ghost predicate DescriptorWaits(x: Ep) { Mrs(RcvdMsgs(x.cq)) >= 1 }

  function Side(z: Sys, client: bool): Ep { if client then z.c else z.s }

  // Nothing reaches x any more, and no descriptor is on its way to x's handler.
  ghost predicate Doomed(x: Ep, y: Ep) {
    (x.t.disc || y.t.disc) && x.t.st != RCONNECTED && !DescriptorWaits(x)
  }

  lemma {:induction false} MrsHead(cq: seq<Wc>)
    requires cq != []
    ensures Mrs(RcvdMsgs(cq)) == Mrs(RcvdMsgs(cq[1..])) + if cq[0].Rcvd? && cq[0].msg.typ == MR then 1 else 0
  {
    CqHead(cq);
    if cq[0].Rcvd? {
      D.MrsConcat([cq[0].msg], RcvdMsgs(cq[1..]));
      SumOne(cq[0].msg, MsgIs(MR));
    } else {
      assert [] + RcvdMsgs(cq[1..]) == RcvdMsgs(cq[1..]);
    }
  }

  lemma {:induction false} DoomedOwnStep(x: Ep, y: Ep, a: Act)
    requires Handshake(x.t, y.t.mr) && Doomed(x, y) && Enabled(x, y, a)
    ensures Doomed(Step(x, y, a).0, y)
  {
    match a
    case Start => PostRecvsEffect(x.t.(st := CONNECTING), PrePostCount(x.t.recvSize));
    case Establish =>
      SendEffect(x.t.(st := CONNECTED), MrMsg(x.t.mr));
    case AppSend(msg) => SendEffect(x.t, msg);
    case Timer(ok) =>
    case Deliver =>
    case Ack =>
      CqPush(x.cq, Sent(x.t.posted[x.acked]));
      assert RcvdMsgs(x.cq) + [] == RcvdMsgs(x.cq);
    case Complete => DoomedComplete(x, y);
  }

  lemma {:induction false} DoomedComplete(x: Ep, y: Ep)
    requires Handshake(x.t, y.t.mr) && Doomed(x, y) && Enabled(x, y, Complete)
    ensures Doomed(Step(x, y, Complete).0, y)
  {
    MrsHead(x.cq);
    if x.cq[0].Rcvd? {
      var msg := x.cq[0].msg;
      SendEffect(x.t.(rcvd := x.t.rcvd + [msg]), DoneMsg());
    }
  }

  // A step of the other side.
  lemma {:induction false} DoomedPeerStep(x: Ep, y: Ep, a: Act)
    requires Doomed(x, y) && Enabled(y, x, a)
    ensures Doomed(Step(y, x, a).1, Step(y, x, a).0)
  {
    if a.Start? {
      PostRecvsEffect(y.t.(st := CONNECTING), PrePostCount(y.t.recvSize));
    }
  }

  lemma {:induction false} NextDoomed(z: Sys, m: Move, client: bool)
    requires SysInv(z) && Doomed(Side(z, client), Side(z, !client))
    ensures Doomed(Side(Next(z, m), client), Side(Next(z, m), !client))
  {
    hide Doomed, TransInv, Flow, Handshake, Step;
    var x, y := Side(z, client), Side(z, !client);
    BothSymmetric(z.c, z.s);
    if m.client == client && Enabled(x, y, m.act) {
      DoomedOwnStep(x, y, m.act);
      PeerFields(x, y, m.act);
    } else if m.client != client && Enabled(y, x, m.act) {
      DoomedPeerStep(x, y, m.act);
    }
  }

  // A step of x changes at most y's completion queue, and that only by a delivery.
  lemma {:induction false} PeerFields(x: Ep, y: Ep, a: Act)
    requires Enabled(x, y, a)
    ensures var y' := Step(x, y, a).1; y'.t == y.t && (Doomed(Step(x, y, a).0, y) ==> Doomed(Step(x, y, a).0, y'))
  {
  }

  lemma {:induction false} RunDoomed(z: Sys, more: seq<Move>, client: bool)
    requires SysInv(z) && Doomed(Side(z, client), Side(z, !client))
    ensures Doomed(Side(Run(z, more), client), Side(Run(z, more), !client))
  {
    hide Doomed, Next, SysInv;
    if more != [] {
      RunDoomed(z, Front(more), client);
      RunFrom(z, Front(more));
      NextDoomed(Run(z, Front(more)), Last(more), client);
    }
  }

  // A waiting descriptor is handled once everything before it is.
  lemma {:induction false} HandleWaiting(z: Sys, client: bool) returns (more: seq<Move>)
    requires SysInv(z) && Side(z, client).t.st >= CONNECTED && DescriptorWaits(Side(z, client))
    ensures Side(Run(z, more), client).t.st == RCONNECTED
    decreases |Side(z, client).cq|
  {
    hide TransInv, Both, Step;
    var x, y := Side(z, client), Side(z, !client);
    var m := Move(client, Complete);
    var z' := Next(z, m);
    NextInv(z, m);
    assert Front([m]) == [] && Run(z, [m]) == z';
    WaitingStep(z, client);
    if Side(z', client).t.st == RCONNECTED {
      more := [m];
    } else {
      var rest := HandleWaiting(z', client);
      RunConcat(z, [m], rest);
      more := [m] + rest;
    }
  }

  lemma {:induction false} WaitingStep(z: Sys, client: bool)
    requires SysInv(z) && Side(z, client).t.st >= CONNECTED && DescriptorWaits(Side(z, client))
    ensures var x, x' := Side(z, client), Side(Next(z, Move(client, Complete)), client);
            && x'.t.st >= CONNECTED && |x'.cq| < |x.cq|
            && (x'.t.st == RCONNECTED || DescriptorWaits(x'))
  {
    hide TransInv, KindInv, AddressInv, CloseInv, Flow;
    var x, y := Side(z, client), Side(z, !client);
    BothSymmetric(z.c, z.s);
    assert x.cq != [] && Enabled(x, y, Complete);
    MrsHead(x.cq);
    if x.cq[0].Rcvd? {
      var msg := x.cq[0].msg;
      var more := RcvdEffect(x.t, msg, DescOf(msg));
    }
  }

  // A side whose handler has work is established or can be.
  lemma {:induction false} Reachable(z: Sys, client: bool) returns (more: seq<Move>)
    requires SysInv(z) && DescriptorWaits(Side(z, client))
    ensures Side(Run(z, more), client).t.st == RCONNECTED
  {
    hide TransInv, KindInv, AddressInv, CloseInv;
    var x, y := Side(z, client), Side(z, !client);
    BothSymmetric(z.c, z.s);
    D.MrsBalance(y, x);
    RcvdLengths(x.cq);
    if x.t.st == CONNECTING {
      var m := Move(client, Establish);
      var z' := Next(z, m);
      NextInv(z, m);
      assert Front([m]) == [] && Run(z, [m]) == z';
      EstablishKeepsCq(x, y);
      var rest := HandleWaiting(z', client);
      RunConcat(z, [m], rest);
      more := [m] + rest;
    } else {
      assert x.t.st != INIT by {
        assert |x.t.recvs| == |x.t.rcvd| + if x.t.st == INIT then 0 else PrePostCount(MAX_RECV_SIZE);
        assert Mrs([]) == 0;
      }
      more := HandleWaiting(z, client);
    }
  }

  lemma {:induction false} EstablishKeepsCq(x: Ep, y: Ep)
    requires Enabled(x, y, Establish)
    ensures var x' := Step(x, y, Establish).0; x'.cq == x.cq && x'.t.st == CONNECTED
  {
    SendEffect(x.t.(st := CONNECTED), MrMsg(x.t.mr));
  }

  lemma {:induction false} StayPut(z: Sys) returns (none: seq<Move>)
    ensures Run(z, none) == z
  {
    none := [];
  }

  /** After a disconnect a side becomes RCONNECTED in some continuation if and only if it
      is already or a descriptor waits in its completion queue. */
  lemma {:induction false} AfterDisconnect(mrC: Mr, mrS: Mr, moves: seq<Move>, client: bool)
    requires var z := Run(Init(mrC, mrS), moves); z.c.t.disc || z.s.t.disc
    ensures var z := Run(Init(mrC, mrS), moves);
            (exists more :: Side(Run(z, more), client).t.st == RCONNECTED)
            <==> Side(z, client).t.st == RCONNECTED || DescriptorWaits(Side(z, client))
  {
    hide Next, SysInv, DescriptorWaits;
    var z := Run(Init(mrC, mrS), moves);
    RunInv(mrC, mrS, moves);
    if Side(z, client).t.st == RCONNECTED {
      var none := StayPut(z);
      assert Side(Run(z, none), client).t.st == RCONNECTED;
    } else if DescriptorWaits(Side(z, client)) {
      var more := Reachable(z, client);
    } else {
      forall more
        ensures Side(Run(z, more), client).t.st != RCONNECTED
      {
        RunDoomed(z, more, client);
      }
    }
  }

  // Where the DONE behind a disconnect comes from.
  lemma {:induction false} DiscDone(x: Ep, y: Ep) returns (own: bool, k: nat)
    requires Both(x, y) && (x.t.disc || y.t.disc)
    ensures var p := if own then x else y; k < p.delivered <= |p.t.posted| && p.t.posted[k].task.typ == DONE
  {
    BothSymmetric(x, y);
    if x.t.disc {
      own, k := DoneOf(x, y);
    } else {
      own, k := DoneOf(y, x);
      own := !own;
    }
  }

  lemma {:induction false} DoneOf(x: Ep, y: Ep) returns (own: bool, k: nat)
    requires Both(x, y) && x.t.disc
    ensures var p := if own then x else y; k < p.delivered <= |p.t.posted| && p.t.posted[k].task.typ == DONE
  {
    hide Handshake, AddressInv;
    if DoneFreed(x.t) {
      var i :| 0 <= i < |x.t.freed| && x.t.freed[i].task.typ == DONE;
      assert x.t.posted[..x.acked][i] == x.t.freed[i];
      own, k := true, i;
    } else {
      var i :| 0 <= i < |x.t.rcvd| && x.t.rcvd[i].typ == DONE;
      assert x.t.rcvd[i] == (x.t.rcvd + RcvdMsgs(x.cq))[i];
      k := SendMsgsFrom(y.t.posted[..y.delivered], i);
      assert Kind(y.t.posted[k].task, y.t.mr);
      own := false;
    }
  }

  /** A side can be left short of RCONNECTED for ever by a disconnect only if it is the
      client and it handled a FINISH of the server that was sent before the server's
      descriptor. */
  lemma {:induction false} DoomedByEarlyFinish(mrC: Mr, mrS: Mr, moves: seq<Move>, client: bool)
    requires var z := Run(Init(mrC, mrS), moves); Doomed(Side(z, client), Side(z, !client))
    ensures var z := Run(Init(mrC, mrS), moves);
            client && z.c.t.epoch == 0 && Finishes(z.c.t.rcvd) >= 1
  {
    hide Doomed;
    var z := Run(Init(mrC, mrS), moves);
    RunLed(mrC, mrS, moves);
    BothSymmetric(z.c, z.s);
    DoomedOfInv(Side(z, client), Side(z, !client));
  }

  lemma {:induction false} LedDelivered(x: Ep, y: Ep, k: nat)
    requires Both(x, y) && Led(x.t) && k < x.delivered && x.t.posted[k].task.typ == DONE
    ensures y.t.epoch + Mrs(RcvdMsgs(y.cq)) >= 1 && CountMr(x.t.posted) >= 1
  {
    hide KindInv, AddressInv, CloseInv, CountMr;
    var ws, d := x.t.posted, x.delivered;
    assert NeedsDescriptor(x.t.isClient, ws[k]);
    D.MrsBalance(x, y);
    assert ws == ws[..d] + ws[d..] && ws[..d] == ws[..k + 1] + ws[k + 1..d];
    CountMrConcat(ws[..d], ws[d..]);
    CountMrConcat(ws[..k + 1], ws[k + 1..d]);
  }

  lemma {:induction false} DoomedOfInv(x: Ep, y: Ep)
    requires TransInv(x.t) && Both(x, y) && Led(x.t) && Led(y.t) && Doomed(x, y)
    ensures x.t.isClient && x.t.epoch == 0 && Finishes(x.t.rcvd) >= 1
  {
    hide KindInv, AddressInv, TaskInv, WriteInv, RecvInv, Led;
    BothSymmetric(x, y);
    var own, k := DiscDone(x, y);
    if own {
      LedDelivered(x, y, k);
      F.ListedPrefix(x.t, x.delivered);
      var a := G.ListedFind(x.t.posted[..x.delivered], k);
      G.DonesSome(x.t.accepted, a);
    } else {
      LedDelivered(y, x, k);
    }
  }

  // ----- The run in which it happens

  // The server has sent FINISH and nothing else; the client has not handled it yet.
  ghost predicate FinishArrived(z: Sys, msg: Msg) {
    && z.c.t.st == CONNECTED && z.s.t.st == CONNECTED && !z.c.t.disc && !z.s.t.disc
    && |z.c.t.posted| == 1 && z.c.t.posted[0].task.msg == MrMsg(z.c.t.mr) && z.c.t.posted[0].task.typ == MR
    && z.c.delivered == 0 && z.c.t.queue == [] && z.c.t.freed == [] && z.c.t.rcvd == [] && |z.c.t.recvs| == 6
    && |z.c.cq| == 1 && z.c.cq[0].Rcvd? && z.c.cq[0].msg == msg
    && z.s.cq == [] && z.s.t.rcvd == [] && |z.s.t.recvs| == 6
  }

  lemma {:induction false} ServerFinishes(z: Sys, msg: Msg) returns (moves: seq<Move>)
    requires R.Opened(z) && AppMsg(msg) && msg.typ == FINISH
    ensures FinishArrived(Run(z, moves), msg)
  {
    hide Place, FrameFits, Handle, Sum, Batch;
    moves := [];
    var z1 := R.RunOne(z, moves, R.Sv(AppSend(msg)));
    moves := moves + [R.Sv(AppSend(msg))];
    SendEffect(z.s.t, msg);
    assert z1.s.t.queue == [NewTask(z.s.t, msg)];
    var z2 := R.RunOne(z, moves, R.Sv(Timer(true)));
    moves := moves + [R.Sv(Timer(true))];
    R.FlushOne(z1.s.t, NewTask(z.s.t, msg));
    assert |z2.s.t.posted| == 1 && z2.s.t.posted[0].task == NewTask(z.s.t, msg);
    var z3 := R.RunOne(z, moves, R.Sv(Deliver));
    moves := moves + [R.Sv(Deliver)];
    assert Filled(z2.c) == 0;
  }

  // The client has posted DONE behind its descriptor, still without the server's.
  ghost predicate DonePosted(z: Sys) {
    && z.c.t.st == CONNECTED && z.s.t.st == CONNECTED && !z.c.t.disc && !z.s.t.disc
    && |z.c.t.posted| == 2 && z.c.t.posted[0].task.msg == MrMsg(z.c.t.mr) && z.c.t.posted[0].task.typ == MR
    && z.c.t.posted[1].task.msg == DoneMsg() && z.c.t.posted[1].task.typ == DONE
    && z.c.delivered == 0 && z.c.cq == []
    && z.s.cq == [] && z.s.t.rcvd == [] && |z.s.t.recvs| == 6
  }

  lemma {:induction false} ClientAnswersFinish(z: Sys, msg: Msg) returns (moves: seq<Move>)
    requires FinishArrived(z, msg) && msg.typ == FINISH
    ensures DonePosted(Run(z, moves))
  {
    hide Place;
    moves := [];
    var z1 := R.RunOne(z, moves, R.Cl(Complete));
    moves := moves + [R.Cl(Complete)];
    var t0 := z.c.t.(rcvd := z.c.t.rcvd + [msg]);
    SendEffect(t0, DoneMsg());
    assert z1.c.t.queue == [NewTask(t0, DoneMsg())];
    var z2 := R.RunOne(z, moves, R.Cl(Timer(true)));
    moves := moves + [R.Cl(Timer(true))];
    R.FlushOne(z1.c.t, NewTask(t0, DoneMsg()));
  }

  ghost predicate DoneArrived(z: Sys) {
    && z.c.t.st == CONNECTED && z.s.t.st == CONNECTED && z.c.cq == []
    && |z.s.cq| == 2 && z.s.cq[0].Rcvd? && z.s.cq[1].Rcvd?
    && z.s.cq[0].msg.typ == MR && z.s.cq[1].msg == DoneMsg()
  }

  lemma {:induction false} ServerHearsDone(z: Sys) returns (moves: seq<Move>)
    requires DonePosted(z)
    ensures DoneArrived(Run(z, moves))
  {
    moves := [];
    var z1 := R.RunOne(z, moves, R.Cl(Deliver));
    moves := moves + [R.Cl(Deliver)];
    assert z1.s.cq == [Rcvd(z.s.t.recvs[0], MrMsg(z.c.t.mr))];
    CqOne(z1.s.cq[0]);
    var z2 := R.RunOne(z, moves, R.Cl(Deliver));
    moves := moves + [R.Cl(Deliver)];
  }

  lemma {:induction false} ServerDisconnects(z: Sys) returns (moves: seq<Move>)
    requires DoneArrived(z)
    ensures var z' := Run(z, moves); z'.s.t.disc && z'.s.t.st == RCONNECTED && z'.c.t.st == CONNECTED && z'.c.cq == []
  {
    moves := [];
    var z1 := R.RunOne(z, moves, R.Sv(Complete));
    moves := moves + [R.Sv(Complete)];
    R.HandleMr(z.s, z.s.cq[0].msg);
    var z2 := R.RunOne(z, moves, R.Sv(Complete));
    moves := moves + [R.Sv(Complete)];
  }

  /** For all descriptors and every FINISH message: the server sends FINISH before it has
      handled the client's descriptor, and ends up disconnected while the client is
      CONNECTED and never becomes RCONNECTED, whatever happens next. */
  lemma {:induction false} EarlyFinish(mrC: Mr, mrS: Mr, msg: Msg) returns (moves: seq<Move>)
    requires AppMsg(msg) && msg.typ == FINISH
    ensures var z := Run(Init(mrC, mrS), moves);
            && z.s.t.disc && z.s.t.st == RCONNECTED && z.c.t.st == CONNECTED
            && forall more :: Run(z, more).c.t.st != RCONNECTED
  {
    hide Next, SysInv, AppMsg;
    var z0 := Init(mrC, mrS);
    var a := R.Open(mrC, mrS);
    var b := ServerFinishes(Run(z0, a), msg);
    RunConcat(z0, a, b);
    var c := ClientAnswersFinish(Run(z0, a + b), msg);
    RunConcat(z0, a + b, c);
    var d := ServerHearsDone(Run(z0, a + b + c));
    RunConcat(z0, a + b + c, d);
    var e := ServerDisconnects(Run(z0, a + b + c + d));
    RunConcat(z0, a + b + c + d, e);
    moves := a + b + c + d + e;
    RunInv(mrC, mrS, moves);
    forall more
      ensures Run(Run(z0, moves), more).c.t.st != RCONNECTED
    {
      RunDoomed(Run(z0, moves), more, true);
    }
  }
}
