/** Where remote writes land in the peer's region. */
module RemoteWrites {
  import opened Wire
  import opened Allocator
  import opened Sequences
  import opened TransportModel
  import opened TransportInvariants
  import opened Connection
  import opened ConnectionInvariants
  import D = DescriptorExchange

  predicate IsWriteAt(t: Trans, i: nat) { i < |t.posted| && IsWrite(t.posted[i].task) }

  // Writes i and j of t touch a common byte at the peer.
  predicate Collide(t: Trans, i: nat, j: nat)
    requires i < |t.posted| && j < |t.posted|
  {
    !Apart(t.posted[i].off, t.posted[i].task.len, t.posted[j].off, t.posted[j].task.len)
  }

  lemma {:induction false} CollisionOfInv(x: Ep, y: Ep, i: nat, j: nat)
    requires TransInv(x.t) && Both(x, y) && i < j && IsWriteAt(x.t, i) && IsWriteAt(x.t, j) && Collide(x.t, i, j)
    ensures !x.t.isClient && x.t.epoch == 2 && x.t.posted[i].epoch != x.t.posted[j].epoch
  {
    BothSymmetric(x, y);
    D.ExchangeOfInv(y, x);
    WriteEpochs(x, y, i);
    WriteEpochs(x, y, j);
  }

  /** In every run two colliding remote writes come from the server, one assigned its
      address before and one after it handled the client's second descriptor. */
  lemma {:induction false} CollisionsEveryRun(mrC: Mr, mrS: Mr, moves: seq<Move>, i: nat, j: nat)
    requires i < j
    ensures var z := Run(Init(mrC, mrS), moves);
            && (IsWriteAt(z.c.t, i) && IsWriteAt(z.c.t, j) ==> !Collide(z.c.t, i, j))
            && (IsWriteAt(z.s.t, i) && IsWriteAt(z.s.t, j) && Collide(z.s.t, i, j) ==>
                  z.s.t.posted[i].epoch != z.s.t.posted[j].epoch && z.s.t.epoch == 2)
  {
    var z := Run(Init(mrC, mrS), moves);
    RunInv(mrC, mrS, moves);
    BothSymmetric(z.c, z.s);
    if IsWriteAt(z.c.t, i) && IsWriteAt(z.c.t, j) && Collide(z.c.t, i, j) {
      CollisionOfInv(z.c, z.s, i, j);
    }
    if IsWriteAt(z.s.t, i) && IsWriteAt(z.s.t, j) && Collide(z.s.t, i, j) {
      CollisionOfInv(z.s, z.c, i, j);
    }
  }

  lemma {:induction false} WriteEpochs(x: Ep, y: Ep, i: nat)
    requires TransInv(x.t) && Both(x, y) && IsWriteAt(x.t, i)
    ensures 1 <= x.t.posted[i].epoch <= x.t.epoch
  {
  }

  // ----- Tiling

  // Exactly one write of the current epoch covers the byte at offset b.
  ghost predicate CoveredOnce(t: Trans, b: nat) {
    && Covered(t, b)
    && (forall i, j :: Covers(t, i, b) && Covers(t, j, b) ==> i == j)
  }

  ghost predicate Covered(t: Trans, b: nat) { exists i :: Covers(t, i, b) }

  // Every byte below used_normal_size was written since the last descriptor.
  ghost predicate NothingMissed(t: Trans) { forall b: nat :: b < t.used ==> Covered(t, b) }

  predicate Covers(t: Trans, i: nat, b: nat) {
    && i < |t.posted| && IsWrite(t.posted[i].task) && t.posted[i].epoch == t.epoch
    && t.posted[i].off <= b < t.posted[i].off + t.posted[i].task.len
  }

  lemma {:induction false} FindCover(t: Trans, n: nat, b: nat) returns (i: nat)
    requires WriteInv(t) && t.lost == 0 && n <= |t.posted| && b < EpochBytes(t.posted[..n], t.epoch)
    ensures i < n && Covers(t, i, b)
    decreases n
  {
    assert Front(t.posted[..n]) == t.posted[..n - 1];
    if b < EpochBytes(t.posted[..n - 1], t.epoch) {
      i := FindCover(t, n - 1, b);
    } else {
      i := n - 1;
      assert OffsetOk(t, i);
    }
  }

  // Write i of t was assigned its address after the last descriptor.
  predicate Current(t: Trans, i: nat) {
    i < |t.posted| && IsWrite(t.posted[i].task) && t.posted[i].epoch == t.epoch
  }

  function End(w: Wr): nat { w.off + w.task.len }

  // When no byte below used is missed, the first n requests leave no gap.
  lemma {:induction false} NoGap(t: Trans, n: nat)
    requires WriteInv(t) && n <= |t.posted| && NothingMissed(t)
    ensures forall i :: 0 <= i < n && Current(t, i) ==> End(t.posted[i]) <= EpochBytes(t.posted[..n], t.epoch)
    ensures EpochBytes(t.posted[..n], t.epoch) == 0
         || exists i :: 0 <= i < n && Current(t, i) && End(t.posted[i]) == EpochBytes(t.posted[..n], t.epoch)
  {
    if n > 0 {
      NoGap(t, n - 1);
      assert Front(t.posted[..n]) == t.posted[..n - 1];
      if Current(t, n - 1) {
        NextAbuts(t, n - 1);
      }
    }
  }

  lemma {:induction false} NextAbuts(t: Trans, i: nat)
    requires WriteInv(t) && Current(t, i) && NothingMissed(t)
    requires forall k :: 0 <= k < i && Current(t, k) ==> End(t.posted[k]) <= EpochBytes(t.posted[..i], t.epoch)
    requires EpochBytes(t.posted[..i], t.epoch) == 0
          || exists k :: 0 <= k < i && Current(t, k) && End(t.posted[k]) == EpochBytes(t.posted[..i], t.epoch)
    ensures t.posted[i].off == EpochBytes(t.posted[..i], t.epoch)
  {
    var e := EpochBytes(t.posted[..i], t.epoch);
    assert OffsetOk(t, i);
    assert e <= t.posted[i].off;
    if e < t.posted[i].off {
      assert Covered(t, e);
      var k :| Covers(t, k, e);
      assert Current(t, k);
    }
  }

  /** The writes posted since the last descriptor cover every byte below used_normal_size
      exactly once if and only if no post carrying remote writes failed since then; and if
      used_normal_size fits the peer's region, each of them lies inside it. */
  lemma {:induction false} WritesTile(x: Ep, y: Ep)
    requires TransInv(x.t) && Both(x, y)
    ensures (forall b: nat :: b < x.t.used ==> CoveredOnce(x.t, b)) <==> x.t.lost == 0
    ensures x.t.used <= ALLOC_MEM_SIZE ==>
              forall i :: 0 <= i < |x.t.posted| && Current(x.t, i) ==> InRegion(x.t.posted[i], y.t.mr)
  {
    TilesIff(x.t);
    var t := x.t;
    forall i | 0 <= i < |t.posted| && Current(t, i)
      ensures t.used <= ALLOC_MEM_SIZE ==> InRegion(t.posted[i], y.t.mr)
    {
      assert OffsetOk(t, i);
    }
  }

  lemma {:induction false} TilesIff(t: Trans)
    requires WriteInv(t)
    ensures (forall b: nat :: b < t.used ==> CoveredOnce(t, b)) <==> t.lost == 0
  {
    assert t.posted[..|t.posted|] == t.posted;
    if t.lost == 0 {
      forall b: nat | b < t.used
        ensures CoveredOnce(t, b)
      {
        var i := FindCover(t, |t.posted|, b);
      }
    } else if forall b: nat :: b < t.used ==> CoveredOnce(t, b) {
      forall b: nat | b < t.used
        ensures Covered(t, b)
      {
        assert CoveredOnce(t, b);
      }
      NoGap(t, |t.posted|);
      assert Covered(t, EpochBytes(t.posted, t.epoch));
      var i :| Covers(t, i, EpochBytes(t.posted, t.epoch));
      assert Current(t, i);
    }
  }

  /** The same for both sides in every run. */
  lemma {:induction false} TilingEveryRun(mrC: Mr, mrS: Mr, moves: seq<Move>, client: bool)
    ensures var z := Run(Init(mrC, mrS), moves);
            var t, peer := if client then z.c.t else z.s.t, if client then mrS else mrC;
            && ((forall b: nat :: b < t.used ==> CoveredOnce(t, b)) <==> t.lost == 0)
            && (t.used <= ALLOC_MEM_SIZE ==>
                  forall i :: 0 <= i < |t.posted| && Current(t, i) ==> InRegion(t.posted[i], peer))
  {
    hide CoveredOnce, InRegion, TransInv, Both;
    var z := Run(Init(mrC, mrS), moves);
    RunInv(mrC, mrS, moves);
    RunRegions(mrC, mrS, moves);
    BothSymmetric(z.c, z.s);
    WritesTile(z.c, z.s);
    WritesTile(z.s, z.c);
  }

  // ----- The restart of used_normal_size

  // Some remote write of t's current epoch touches a byte of [0, len).
  ghost predicate HitsStart(t: Trans, len: nat) {
    exists i: nat :: IsWriteAt(t, i) && t.posted[i].epoch == t.epoch
      && !Apart(t.posted[i].off, t.posted[i].task.len, 0, len)
  }

  lemma {:induction false} HitsStartIff(t: Trans, len: nat)
    requires WriteInv(t) && t.lost == 0 && len > 0
    ensures HitsStart(t, len) <==> t.used > 0
  {
    if t.used > 0 {
      assert t.posted[..|t.posted|] == t.posted;
      var i := FindCover(t, |t.posted|, 0);
      assert IsWriteAt(t, i);
    } else {
      forall i: nat | IsWriteAt(t, i) && t.posted[i].epoch == t.epoch
        ensures Apart(t.posted[i].off, t.posted[i].task.len, 0, len)
      {
        assert OffsetOk(t, i);
      }
    }
  }

  // The first remote write of a batch that starts at used_normal_size zero.
  lemma {:induction false} FirstOfBatch(t: Trans, k: nat) returns (i: nat)
    requires k < |t.queue| && IsWrite(t.queue[k]) && t.used == 0
    ensures i <= k && IsWrite(t.queue[i]) && Batch(t, t.queue)[i].off == 0 && Batch(t, t.queue)[i].task == t.queue[i]
  {
    if j :| 0 <= j < k && IsWrite(t.queue[j]) {
      i := FirstOfBatch(t, j);
    } else {
      i := k;
      BatchTasks(t, t.queue, k);
      NoWriteBytes(t.queue[..k]);
    }
  }

  lemma {:induction false} NoWriteBytes(q: seq<Task>)
    requires forall k :: 0 <= k < |q| ==> !IsWrite(q[k])
    ensures WriteBytes(q) == 0
  {
    SumZero(q, WriteLen);
  }

  /** What handling one more descriptor breaks.  After an RCONNECTED endpoint handles one,
      the first remote write it flushes, whether listed before or after, is placed at
      offset 0; as long as no post had failed it hits bytes of a write posted before if
      and only if used_normal_size was not zero. */
  lemma {:induction false} RestartCollides(t: Trans, desc: Mr, t': Trans, k: nat) returns (i: nat)
    requires TransInv(t) && t.lost == 0 && t.st == RCONNECTED
    requires t' == OnMr(t, desc).(queue := t'.queue) && k < |t'.queue| && IsWrite(t'.queue[k])
    requires forall j :: 0 <= j < |t'.queue| ==> t'.queue[j].len > 0
    ensures var p := Flush(t', true).posted;
            && |t.posted| <= i < |p| && p[..|t.posted|] == t.posted
            && IsWrite(p[i].task) && p[i].off == 0
            && (HitsStart(t, p[i].task.len) <==> t.used > 0)
  {
    var j := FirstOfBatch(t', k);
    i := |t.posted| + j;
    HitsStartIff(t, t'.queue[j].len);
  }

  // ----- A run in which the server's writes collide

  function Cl(a: Act): Move { Move(true, a) }

  function Sv(a: Act): Move { Move(false, a) }

  // Started, established, nothing delivered yet: the client has posted its descriptor.
  ghost predicate Opened(z: Sys) {
    && z.c.t.st == CONNECTED && z.s.t.st == CONNECTED
    && |z.c.t.posted| == 1 && z.c.t.posted[0].task.msg == MrMsg(z.c.t.mr) && z.c.t.posted[0].task.typ == MR
    && z.s.t.posted == [] && z.c.t.queue == [] && z.s.t.queue == []
    && Fresh(z.c) && Fresh(z.s)
  }

  ghost predicate Fresh(x: Ep) {
    && x.delivered == x.acked == 0 && x.cq == [] && x.t.rcvd == [] && x.t.freed == []
    && |x.t.recvs| == 6 && !x.t.disc && x.t.epoch == 0
  }

  lemma {:induction false} Open(mrC: Mr, mrS: Mr) returns (moves: seq<Move>)
    ensures Opened(Run(Init(mrC, mrS), moves))
  {
    var z0 := Init(mrC, mrS);
    moves := [];
    var z1 := RunOne(z0, moves, Cl(Start));
    moves := moves + [Cl(Start)];
    PostRecvsEffect(z0.c.t.(st := CONNECTING), 6);
    var z2 := RunOne(z0, moves, Sv(Start));
    moves := moves + [Sv(Start)];
    PostRecvsEffect(z0.s.t.(st := CONNECTING), 6);
    var z3 := RunOne(z0, moves, Cl(Establish));
    moves := moves + [Cl(Establish)];
    SendEffect(z2.c.t.(st := CONNECTED), MrMsg(z2.c.t.mr));
    var z4 := RunOne(z0, moves, Sv(Establish));
    moves := moves + [Sv(Establish)];
  }

  lemma {:induction false} RunOne(z: Sys, moves: seq<Move>, m: Move) returns (z': Sys)
    ensures z' == Run(z, moves + [m]) == Next(Run(z, moves), m)
  {
    z' := Run(z, moves + [m]);
    assert Front(moves + [m]) == moves;
  }

  // The server answered the client's descriptor, and the client, which had not yet
  // handled the completion of its own, answered the answer.
  ghost predicate Answered(z: Sys) {
    && z.c.t.st == RCONNECTED && z.s.t.st == RCONNECTED && z.s.t.epoch == 1
    && |z.c.t.posted| == 2 && z.c.delivered == 1 && |z.s.t.posted| == 1
    && z.c.t.posted[0].task.typ == MR && z.c.t.posted[1].task.typ == MR
    && z.c.t.posted[1].task.msg == MrMsg(z.c.t.mr)
    && z.s.t.used == 0 && z.s.t.queue == [] && z.s.cq == [] && z.s.t.freed == []
    && |z.s.t.rcvd| == 1 && |z.s.t.recvs| == 7 && !z.c.t.disc && !z.s.t.disc
  }

  // The server has answered; the client has handled nothing yet.
  ghost predicate ServerAnswered(z: Sys) {
    && z.c.t.st == CONNECTED && z.s.t.st == RCONNECTED && z.s.t.epoch == 1
    && |z.c.t.posted| == 1 && z.c.t.posted[0].task.typ == MR && z.c.delivered == 1
    && z.c.cq == [] && z.c.t.rcvd == [] && |z.c.t.recvs| == 6
    && |z.s.t.posted| == 1 && z.s.t.posted[0].task.typ == MR && z.s.t.posted[0].task.msg == MrMsg(z.s.t.mr)
    && z.s.delivered == 0 && z.s.t.used == 0 && z.s.t.queue == [] && z.s.cq == [] && z.s.t.freed == []
    && |z.s.t.rcvd| == 1 && |z.s.t.recvs| == 7 && !z.c.t.disc && !z.s.t.disc
  }

  lemma {:induction false} AnswerClient(z: Sys) returns (moves: seq<Move>)
    requires Opened(z)
    ensures ServerAnswered(Run(z, moves))
  {
    moves := [];
    var z1 := RunOne(z, moves, Cl(Deliver));
    moves := moves + [Cl(Deliver)];
    assert z1.s.cq == [Rcvd(z.s.t.recvs[0], MrMsg(z.c.t.mr))];
    var z2 := RunOne(z, moves, Sv(Complete));
    moves := moves + [Sv(Complete)];
    HandleMr(z1.s, MrMsg(z.c.t.mr));
  }

  lemma {:induction false} AnswerServer(z: Sys) returns (moves: seq<Move>)
    requires ServerAnswered(z)
    ensures Answered(Run(z, moves))
  {
    moves := [];
    var z1 := RunOne(z, moves, Sv(Deliver));
    moves := moves + [Sv(Deliver)];
    assert z1.c.cq == [Rcvd(z.c.t.recvs[0], MrMsg(z.s.t.mr))];
    var z2 := RunOne(z, moves, Cl(Complete));
    moves := moves + [Cl(Complete)];
    HandleMr(z1.c, MrMsg(z.s.t.mr));
  }

  lemma {:induction false} Answer(z: Sys) returns (moves: seq<Move>)
    requires Opened(z)
    ensures Answered(Run(z, moves))
  {
    var a := AnswerClient(z);
    var b := AnswerServer(Run(z, a));
    RunConcat(z, a, b);
    moves := a + b;
  }

  ghost predicate AddsMr(t: Trans, t': Trans) {
    && |t'.posted| == |t.posted| + 1 && t'.posted[..|t.posted|] == t.posted
    && Last(t'.posted).task.typ == MR && Last(t'.posted).task.msg == MrMsg(t.mr)
  }

  // Handling a descriptor.
  lemma {:induction false} HandleMr(x: Ep, msg: Msg)
    requires x.cq != [] && x.cq[0].Rcvd? && x.cq[0].msg == msg && msg.typ == MR
    requires x.t.st == CONNECTED || x.t.st == RCONNECTED
    ensures var t, t' := x.t, Completed(x, msg, DescOf(msg)).t;
            && t'.st == RCONNECTED && t'.epoch == t.epoch + 1 && t'.used == 0 && t'.mr == t.mr
            && t'.queue == t.queue && t'.freed == t.freed && t'.disc == t.disc
            && |t'.rcvd| == |t.rcvd| + 1 && |t'.recvs| == |t.recvs| + 1
            && (t.st == RCONNECTED ==> t'.posted == t.posted)
            && (t.st == CONNECTED ==> AddsMr(t, t'))
  {
    var t1 := NewEpoch(x.t.(rcvd := x.t.rcvd + [msg]), DescOf(msg));
    if x.t.st == CONNECTED {
      SendEffect(t1, MrMsg(x.t.mr));
    }
  }

  // The flush of a list of one.
  lemma {:induction false} FlushOne(t: Trans, x: Task)
    requires t.queue == [x]
    ensures Flush(t, true)
            == t.(posted := t.posted + [WrFor(t, x, t.used)], queue := [], used := t.used + WriteLen(x))
  {
    BatchTasks(t, t.queue, 0);
    SumOne(x, WriteLen);
    assert t.queue[..0] == [] && WriteBytes([]) == 0;
    assert Batch(t, t.queue) == [WrFor(t, x, t.used)];
  }

  // An RCONNECTED server with an empty list sends a remote write and flushes it.
  lemma {:induction false} SendWrite(z: Sys, msg: Msg) returns (moves: seq<Move>)
    requires z.s.t.st == RCONNECTED && z.s.t.queue == [] && AppMsg(msg) && msg.typ == WRITE
    requires |z.s.t.posted| < MAX_SEND_WR
    ensures var z' := Run(z, moves);
            && z'.c == z.c
            && |z'.s.t.posted| == |z.s.t.posted| + 1 && z'.s.t.posted[..|z.s.t.posted|] == z.s.t.posted
            && IsWrite(Last(z'.s.t.posted).task) && Last(z'.s.t.posted).task.msg == msg
            && Last(z'.s.t.posted).task.len == HEADER + |msg.data|
            && Last(z'.s.t.posted).off == z.s.t.used && Last(z'.s.t.posted).epoch == z.s.t.epoch
            && z'.s == z.s.(t := z'.s.t)
            && z'.s.t == z.s.t.(posted := z'.s.t.posted, used := z'.s.t.used, usedSend := z'.s.t.usedSend,
                                lens := z'.s.t.lens, accepted := z'.s.t.accepted)
  {
    hide FrameFits, Place, Handle, Sum, Batch, Started;
    moves := [];
    var z1 := RunOne(z, moves, Sv(AppSend(msg)));
    moves := moves + [Sv(AppSend(msg))];
    SendEffect(z.s.t, msg);
    assert z1.s.t.queue == [NewTask(z.s.t, msg)];
    var z2 := RunOne(z, moves, Sv(Timer(true)));
    moves := moves + [Sv(Timer(true))];
    FlushOne(z1.s.t, NewTask(z.s.t, msg));
  }

  // The client's second descriptor arrives and is handled.
  lemma {:induction false} SecondDescriptor(z: Sys) returns (moves: seq<Move>)
    requires z.c.delivered == 1 && |z.c.t.posted| == 2 && z.c.t.posted[1].task.msg == MrMsg(z.c.t.mr)
    requires z.c.t.posted[1].task.typ == MR && !z.c.t.disc && !z.s.t.disc
    requires z.s.cq == [] && z.s.t.st == RCONNECTED && |z.s.t.rcvd| < |z.s.t.recvs|
    ensures var z' := Run(z, moves);
            && z'.c.t == z.c.t
            && z'.s.t.st == RCONNECTED && z'.s.t.epoch == z.s.t.epoch + 1 && z'.s.t.used == 0
            && z'.s.t.posted == z.s.t.posted && z'.s.t.queue == z.s.t.queue
  {
    moves := [];
    var z1 := RunOne(z, moves, Cl(Deliver));
    moves := moves + [Cl(Deliver)];
    assert |z1.s.cq| == 1 && z1.s.cq[0].Rcvd? && z1.s.cq[0].msg == MrMsg(z.c.t.mr);
    var z2 := RunOne(z, moves, Sv(Complete));
    moves := moves + [Sv(Complete)];
    HandleMr(z1.s, MrMsg(z.c.t.mr));
  }

  /** For any descriptors and any remote write that fits, there is a run in which the
      client sends two descriptors and two remote writes of the server are placed on
      the same bytes of the client's region. */
  lemma {:induction false} ServerWritesCollide(mrC: Mr, mrS: Mr, msg: Msg) returns (moves: seq<Move>)
    requires AppMsg(msg) && msg.typ == WRITE
    ensures var z := Run(Init(mrC, mrS), moves);
            && CountMr(z.c.t.posted) == 2
            && IsWriteAt(z.s.t, 1) && IsWriteAt(z.s.t, 2) && Collide(z.s.t, 1, 2)
            && z.s.t.posted[1].raddr == z.s.t.posted[2].raddr
  {
    hide Next;
    var z0 := Init(mrC, mrS);
    var a := Open(mrC, mrS);
    var z1 := Run(z0, a);
    var b := Answer(z1);
    var z2 := Run(z1, b);
    var c := SendWrite(z2, msg);
    var z3 := Run(z2, c);
    var d := SecondDescriptor(z3);
    var z4 := Run(z3, d);
    var e := SendWrite(z4, msg);
    var z5 := Run(z4, e);
    RunConcat(z0, a, b);
    RunConcat(z0, a + b, c);
    RunConcat(z0, a + b + c, d);
    RunConcat(z0, a + b + c + d, e);
    moves := a + b + c + d + e;
    assert z5.s.t.posted[1] == z3.s.t.posted[1];
    RunInv(mrC, mrS, moves);
    BothSymmetric(z5.c, z5.s);
    D.ExchangeOfInv(z5.s, z5.c);
    var p := z5.c.t.posted;
    CountMrTwo(p);
  }

  lemma {:induction false} CountMrTwo(p: seq<Wr>)
    requires |p| == 2 && p[0].task.typ == MR && p[1].task.typ == MR
    ensures CountMr(p) == 2
  {
    assert p == [p[0]] + [p[1]];
    CountMrConcat([p[0]], [p[1]]);
    SumOne(p[0], OneMr);
    SumOne(p[1], OneMr);
  }
}
