/** What the code does when a receive completion is handled before ESTABLISHED: the reason
    for the assumption that it is not.  Both states are reachable; only the order in which
    the event thread looks at its file descriptors keeps the handlers away from them. */
module EarlyCompletions {
  import opened Wire
  import opened Allocator
  import opened Sequences
  import opened TransportModel
  import opened TransportInvariants
  import opened Connection
  import opened ConnectionInvariants
  import D = DescriptorExchange
  import R = RemoteWrites

  /** A receive completion handled in state CONNECTING makes the later ESTABLISHED lower
      trans_state if and only if it brought a descriptor; that descriptor is then stored
      but not answered. */
  lemma {:induction false} EarlyDescriptorIff(t: Trans, msg: Msg, desc: Mr)
    requires t.st == CONNECTING
    ensures var t' := OnRcvd(t, msg, desc);
            && (Established(t').st < t'.st <==> msg.typ == MR)
            && (msg.typ == MR ==>
                  t'.st == RCONNECTED && t'.peerMr == desc && t'.posted == t.posted && t'.lens == t.lens)
  {
    var t' := OnRcvd(t, msg, desc);
    SendEffect(t'.(st := CONNECTED), MrMsg(t'.mr));
  }

  /** The server that handles the client's only descriptor too early is CONNECTED after
      ESTABLISHED and has still posted nothing, so the client never gets an answer to it. */
  lemma {:induction false} EarlyDescriptorUnanswered(t: Trans, desc: Mr)
    requires t.st == CONNECTING && !t.isClient && t.posted == []
    ensures var t' := Established(OnRcvd(t, MrMsg(desc), desc));
            t'.st == CONNECTED && t'.epoch == t.epoch + 1 && t'.posted == []
  {
  }

  // Started on both sides.
  ghost predicate BothStarted(z: Sys) {
    && z.c.t.st == CONNECTING && z.s.t.st == CONNECTING && z.c.t.isClient && !z.s.t.isClient
    && Idle(z.c) && Idle(z.s)
  }

  ghost predicate Idle(x: Ep) {
    && x.t.posted == [] && x.t.queue == [] && x.t.rcvd == [] && x.t.freed == [] && |x.t.recvs| == 6
    && x.cq == [] && x.delivered == 0 && !x.t.disc
  }

  lemma {:induction false} StartBoth(mrC: Mr, mrS: Mr) returns (moves: seq<Move>)
    ensures BothStarted(Run(Init(mrC, mrS), moves))
  {
    var z0 := Init(mrC, mrS);
    moves := [];
    var z1 := R.RunOne(z0, moves, R.Cl(Start));
    moves := moves + [R.Cl(Start)];
    PostRecvsEffect(z0.c.t.(st := CONNECTING), 6);
    var z2 := R.RunOne(z0, moves, R.Sv(Start));
    moves := moves + [R.Sv(Start)];
    PostRecvsEffect(z0.s.t.(st := CONNECTING), 6);
  }

  // The client is established first; its descriptor reaches the server.
  lemma {:induction false} DescriptorEarly(z: Sys) returns (moves: seq<Move>)
    requires BothStarted(z)
    ensures var z' := Run(z, moves);
            z'.s.t.st == CONNECTING && z'.s.cq != [] && z'.s.cq[0].Rcvd? && z'.s.cq[0].msg == MrMsg(z.c.t.mr)
  {
    moves := [];
    var z1 := R.RunOne(z, moves, R.Cl(Establish));
    moves := moves + [R.Cl(Establish)];
    SendEffect(z.c.t.(st := CONNECTED), MrMsg(z.c.t.mr));
    var z2 := R.RunOne(z, moves, R.Cl(Deliver));
    moves := moves + [R.Cl(Deliver)];
  }

  // The server is established first; its FINISH reaches the client.
  lemma {:induction false} FinishEarly(z: Sys, msg: Msg) returns (moves: seq<Move>)
    requires BothStarted(z) && AppMsg(msg) && msg.typ == FINISH
    ensures var z' := Run(z, moves);
            z'.c.t.st == CONNECTING && z'.c.cq != [] && z'.c.cq[0].Rcvd? && z'.c.cq[0].msg == msg
  {
    hide Place, FrameFits;
    moves := [];
    var z1 := R.RunOne(z, moves, R.Sv(Establish));
    moves := moves + [R.Sv(Establish)];
    var z2 := R.RunOne(z, moves, R.Sv(AppSend(msg)));
    moves := moves + [R.Sv(AppSend(msg))];
    SendEffect(z1.s.t, msg);
    assert z2.s.t.queue == [NewTask(z1.s.t, msg)];
    var z3 := R.RunOne(z, moves, R.Sv(Timer(true)));
    moves := moves + [R.Sv(Timer(true))];
    R.FlushOne(z2.s.t, NewTask(z1.s.t, msg));
    assert |z3.s.t.posted| == 1 && z3.s.t.posted[0].task == NewTask(z1.s.t, msg);
    var z4 := R.RunOne(z, moves, R.Sv(Deliver));
    moves := moves + [R.Sv(Deliver)];
    assert Filled(z3.c) == 0;
  }

  /** Both are reachable: the server CONNECTING with the client's descriptor at the head
      of its completion queue, and the client CONNECTING with a FINISH there, which its
      handler would answer by waiting for a state that only its own thread can set. */
  lemma {:induction false} EarlyCompletionsReachable(mrC: Mr, mrS: Mr, msg: Msg) returns (a: seq<Move>, b: seq<Move>)
    requires AppMsg(msg) && msg.typ == FINISH
    ensures var x := Run(Init(mrC, mrS), a).s;
            x.t.st == CONNECTING && x.cq != [] && x.cq[0].Rcvd? && x.cq[0].msg == MrMsg(mrC)
    ensures var x := Run(Init(mrC, mrS), b).c;
            && x.t.st == CONNECTING && x.cq != [] && x.cq[0].Rcvd? && x.cq[0].msg == msg
            && D.Owed(x.t, msg) == 1 && D.Created(x.t, OnRcvd(x.t, msg, DescOf(msg))) == 0
            && MsgCheck(x.t.st, DONE) == Spin
  {
    hide Next, AppMsg;
    var z0 := Init(mrC, mrS);
    var s := StartBoth(mrC, mrS);
    var d := DescriptorEarly(Run(z0, s));
    RunConcat(z0, s, d);
    a := s + d;
    RunRegions(mrC, mrS, s);
    var f := FinishEarly(Run(z0, s), msg);
    RunConcat(z0, s, f);
    b := s + f;
    D.HandlerSendsIff(Run(z0, b).c.t, msg, DescOf(msg));
  }
}
