/** One byte beyond the allocator's window a message is delivered corrupted. */
module Overrun {
  import opened Wire
  import opened Allocator
  import opened Sequences
  import opened TransportModel
  import opened TransportInvariants
  import opened Connection
  import opened ConnectionInvariants
  import opened FifoDelivery
  import M = SharedMemory
  import P = SharedMemoryProofs
  import R = RemoteWrites

  // ----- Runs that allocate little are windowed throughout

  lemma {:induction false} BytesPrefix(a: seq<nat>, b: seq<nat>, i: nat, j: nat)
    requires a <= b && i <= j <= |a|
    ensures Bytes(a, i, j) == Bytes(b, i, j)
    decreases j
  {
    if i < j {
      BytesPrefix(a, b, i, j - 1);
    }
  }

  lemma {:induction false} SendLens(t: Trans, msg: Msg)
    ensures t.lens <= RdmaSend(t, msg).lens
  {
  }

  lemma {:induction false} LensGrow(x: Ep, y: Ep, a: Act)
    requires Enabled(x, y, a)
    ensures x.t.lens <= Step(x, y, a).0.t.lens
  {
    hide RdmaSend, Batch, PostRecvs;
    match a
    case Start => PostRecvsEffect(x.t.(st := CONNECTING), PrePostCount(x.t.recvSize));
    case Establish => SendLens(x.t.(st := CONNECTED), MrMsg(x.t.mr));
    case AppSend(msg) => SendLens(x.t, msg);
    case Timer(ok) =>
    case Deliver =>
    case Ack =>
    case Complete =>
      if x.cq[0].Rcvd? {
        RcvdLens(x.t, x.cq[0].msg, DescOf(x.cq[0].msg));
      }
  }

  lemma {:induction false} RcvdLens(t: Trans, msg: Msg, desc: Mr)
    ensures t.lens <= OnRcvd(t, msg, desc).lens
  {
    hide RdmaSend, Place;
    var t0 := t.(rcvd := t.rcvd + [msg]);
    SendLens(t0, DoneMsg());
    SendLens(NewEpoch(t0, desc), MrMsg(t.mr));
  }

  // Everything allocated on either side fits the window.
  ghost predicate Small(z: Sys, L: nat)
    requires HEADER <= L <= ALLOC_MEM_SIZE
  {
    && Bounded(z.c.t.lens, 0, L) && Bytes(z.c.t.lens, 0, |z.c.t.lens|) <= Window(HEADER, L)
    && Bounded(z.s.t.lens, 0, L) && Bytes(z.s.t.lens, 0, |z.s.t.lens|) <= Window(HEADER, L)
  }

  lemma {:induction false} SmallBefore(z: Sys, m: Move, L: nat)
    requires SysInv(z) && HEADER <= L <= ALLOC_MEM_SIZE && Small(Next(z, m), L)
    ensures Small(z, L)
  {
    hide TransInv, KindInv, AddressInv, CloseInv, Flow, Step;
    var z' := Next(z, m);
    if m.client && Enabled(z.c, z.s, m.act) {
      LensGrow(z.c, z.s, m.act);
      PeerSame(z.c, z.s, m.act);
    } else if !m.client && Enabled(z.s, z.c, m.act) {
      LensGrow(z.s, z.c, m.act);
      PeerSame(z.s, z.c, m.act);
    }
    PrefixSmall(z.c.t.lens, z'.c.t.lens, L);
    PrefixSmall(z.s.t.lens, z'.s.t.lens, L);
  }

  lemma {:induction false} PrefixSmall(a: seq<nat>, b: seq<nat>, L: nat)
    requires a <= b && Bounded(b, 0, L)
    ensures Bounded(a, 0, L) && Bytes(a, 0, |a|) <= Bytes(b, 0, |b|)
  {
    assert forall k :: 0 <= k < |a| ==> a[k] == b[k];
    BytesPrefix(a, b, 0, |a|);
    BytesSplit(b, 0, |a|, |b|);
  }

  // The tasks x still needs are numbered from `from` on.
  ghost predicate LiveFrom(x: Ep, from: nat) {
    && (forall k :: 0 <= k < |x.t.queue| ==> x.t.queue[k].id >= from)
    && (forall k :: x.delivered <= k < |x.t.posted| ==> x.t.posted[k].task.id >= from)
  }

  lemma {:induction false} WindowedFrom(x: Ep, L: nat, from: nat)
    requires HEADER <= L <= ALLOC_MEM_SIZE && Bounded(x.t.lens, 0, L) && from <= |x.t.lens| && LiveFrom(x, from)
    requires Bytes(x.t.lens, from, |x.t.lens|) <= Window(HEADER, L)
    ensures M.Windowed(x, L)
  {
    forall task | M.Live(x, task) && task.id <= |x.t.lens|
      ensures Bytes(x.t.lens, task.id, |x.t.lens|) <= Window(HEADER, L)
    {
      BytesSplit(x.t.lens, from, task.id, |x.t.lens|);
    }
  }

  lemma {:induction false} SmallRun(z: Sys, moves: seq<Move>, L: nat)
    requires SysInv(z) && HEADER <= L <= ALLOC_MEM_SIZE && Small(Run(z, moves), L)
    ensures M.WindowedRun(z, moves, L)
  {
    hide Next, SysInv, M.Windowed;
    var z' := Run(z, moves);
    WindowedFrom(z'.c, L, 0);
    WindowedFrom(z'.s, L, 0);
    if moves != [] {
      RunFrom(z, Front(moves));
      SmallBefore(Run(z, Front(moves)), Last(moves), L);
      SmallRun(z, Front(moves), L);
    }
  }

  // ----- The messages of the run

  // A message whose frame has n bytes.
  function Plain(n: nat, v: Byte): (m: Msg)
    requires n >= HEADER
    ensures m.typ == NORMAL && HEADER + |m.data| == n
  {
    Msg(NORMAL, seq(n - HEADER, i => v))
  }

  // The server has sent one message, which the client has handled.
  ghost predicate Primed(z: Sys) {
    && z.c.t.st == CONNECTED && z.s.t.st == CONNECTED && !z.c.t.disc && !z.s.t.disc
    && z.c.cq == [] && |z.c.t.rcvd| == 1 && |z.c.t.recvs| == 7 && z.c.t.lens == [HEADER + MR_SIZE]
    && |z.s.t.posted| == 1 && z.s.delivered == 1 && z.s.t.freed == []
    && PlainOnly(z.s.t)
  }

  ghost predicate PlainOnly(t: Trans) {
    forall k :: 0 <= k < |t.accepted| ==> t.accepted[k].typ == NORMAL && t.accepted[k].msg.typ == NORMAL
  }

  lemma {:induction false} OpenedLens(z: Sys)
    requires SysInv(z) && R.Opened(z)
    ensures z.c.t.lens == [HEADER + MR_SIZE] && z.s.t.lens == [] && z.s.t.accepted == []
  {
    hide WriteInv, RecvInv, Both;
    assert AllTasks(z.s.t) == [];
    assert AllTasks(z.c.t) == [z.c.t.posted[0].task];
    assert Serialised(AllTasks(z.c.t)[0], z.c.t.lens);
  }

  // The message has reached the client.
  ghost predicate Primer(z: Sys, msg: Msg) {
    && z.c.t.st == CONNECTED && z.s.t.st == CONNECTED && !z.c.t.disc && !z.s.t.disc
    && |z.c.cq| == 1 && z.c.cq[0].Rcvd? && z.c.cq[0].msg == msg
    && z.c.t.rcvd == [] && |z.c.t.recvs| == 6 && z.c.t.lens == [HEADER + MR_SIZE]
    && z.s.t.lens == [HEADER + |msg.data|] && z.s.t.queue == []
    && |z.s.t.posted| == 1 && z.s.delivered == 1 && z.s.t.freed == []
    && PlainOnly(z.s.t)
  }

  lemma {:induction false} SendPrimer(z: Sys, msg: Msg) returns (moves: seq<Move>)
    requires SysInv(z) && R.Opened(z) && msg.typ == NORMAL && FrameFits(msg)
    ensures Primer(Run(z, moves), msg)
  {
    hide SysInv, Place, FrameFits, Handle, Sum, Batch, Started;
    OpenedLens(z);
    moves := [];
    var z1 := R.RunOne(z, moves, R.Sv(AppSend(msg)));
    moves := moves + [R.Sv(AppSend(msg))];
    SendEffect(z.s.t, msg);
    assert z1.s.t.queue == [NewTask(z.s.t, msg)];
    var z2 := R.RunOne(z, moves, R.Sv(Timer(true)));
    moves := moves + [R.Sv(Timer(true))];
    R.FlushOne(z1.s.t, NewTask(z.s.t, msg));
    assert |z2.s.t.posted| == 1 && z2.s.t.posted[0].task == NewTask(z.s.t, msg);
    var z3 := R.RunOne(z, moves, R.Sv(Deliver));
    moves := moves + [R.Sv(Deliver)];
    assert Filled(z2.c) == 0;
  }

  lemma {:induction false} Prime(z: Sys, L: nat) returns (moves: seq<Move>)
    requires SysInv(z) && R.Opened(z) && HEADER < L <= MAX_RECV_SIZE
    ensures Loaded(Run(z, moves), L, [])
  {
    hide SysInv, R.Opened, Place, RdmaSend;
    var msg := Plain(L - 1, 0);
    moves := SendPrimer(z, msg);
    var z3 := Run(z, moves);
    var z4 := R.RunOne(z, moves, R.Cl(Complete));
    moves := moves + [R.Cl(Complete)];
    var more := RcvdEffect(z3.c.t, msg, DescOf(msg));
  }

  // That message had a frame of L - 1 bytes; further ones, with frames of the lengths s,
  // have been listed but not flushed.
  ghost predicate Loaded(z: Sys, L: nat, s: seq<nat>) {
    && Primed(z)
    && z.s.t.lens == [L - 1] + s && |z.s.t.queue| == |s|
    && (forall k :: 0 <= k < |s| ==> z.s.t.queue[k].id == k + 1)
  }

  lemma {:induction false} Load(z: Sys, moves: seq<Move>, L: nat, s: seq<nat>, k: nat) returns (more: seq<Move>)
    requires SysInv(z) && Loaded(Run(z, moves), L, []) && 56 <= L <= MAX_RECV_SIZE && k <= |s|
    requires Bounded(s, HEADER, L) && Bytes(s, 0, |s|) <= Window(HEADER, L)
    requires M.WindowedRun(z, moves, L)
    ensures Loaded(Run(z, moves + more), L, s[..k]) && M.WindowedRun(z, moves + more, L)
    decreases k
  {
    hide Next, SysInv, M.Windowed;
    if k == 0 {
      more := [];
      assert moves + more == moves && s[..0] == [];
    } else {
      var rest := Load(z, moves, L, s, k - 1);
      var m := R.Sv(AppSend(Plain(s[k - 1], 0)));
      more := rest + [m];
      assert Front(moves + more) == moves + rest && moves + more == (moves + rest) + [m];
      LoadOne(Run(z, moves + rest), L, s, k - 1);
    }
  }

  lemma {:induction false} LoadOne(z: Sys, L: nat, s: seq<nat>, k: nat)
    requires k < |s| && Loaded(z, L, s[..k]) && 56 <= L <= MAX_RECV_SIZE
    requires Bounded(s, HEADER, L) && Bytes(s, 0, |s|) <= Window(HEADER, L)
    ensures var z' := Next(z, R.Sv(AppSend(Plain(s[k], 0))));
            Loaded(z', L, s[..k + 1]) && M.Windowed(z'.c, L) && M.Windowed(z'.s, L)
  {
    hide M.Windowed;
    var msg := Plain(s[k], 0);
    SendEffect(z.s.t, msg);
    var z' := Next(z, R.Sv(AppSend(msg)));
    assert s[..k + 1] == s[..k] + [s[k]];
    assert z'.s.t.lens == [L - 1] + s[..k + 1];
    LoadedWindow(z', L, s, k + 1);
  }

  lemma {:induction false} LoadedWindow(z: Sys, L: nat, s: seq<nat>, k: nat)
    requires k <= |s| && Loaded(z, L, s[..k]) && 56 <= L <= MAX_RECV_SIZE
    requires Bounded(s, HEADER, L) && Bytes(s, 0, |s|) <= Window(HEADER, L)
    ensures M.Windowed(z.c, L) && M.Windowed(z.s, L)
  {
    hide M.Windowed;
    var lens := z.s.t.lens;
    assert Bytes(z.c.t.lens, 1, 1) == 0 && Bytes(z.c.t.lens, 0, 0) == 0;
    WindowedFrom(z.c, L, 0);
    BytesInside([L - 1], s[..k], [], k);
    assert [L - 1] + s[..k] + [] == lens;
    PrefixSmall(s[..k], s, L);
    assert forall i :: 0 <= i < |lens| ==> lens[i] == if i == 0 then L - 1 else s[i - 1];
    WindowedFrom(z.s, L, 1);
  }

  // ----- The last message

  // The frames of the listed messages are where the allocator put them.
  lemma {:induction false} VictimPlace(t: Trans, L: nat, s: seq<nat>)
    requires TaskInv(t) && t.lens == [L - 1] + s && HEADER < L <= MAX_RECV_SIZE && s != [] && Bounded(s, HEADER, L)
    requires |t.queue| == |s| && t.queue[0].id == 1
    ensures var task := t.queue[0];
            task.addr == L - 1 && HEADER <= task.len <= L && t.usedSend == Used(t.lens)
  {
    assert AllTasks(t)[|t.posted|] == t.queue[0];
    assert Serialised(t.queue[0], t.lens);
    assert t.lens[..0] == [];
    UsedStep(t.lens, 0);
    assert t.lens[1] == s[0];
  }

  // The cursor stands so that L more bytes do not fit.
  lemma {:induction false} CursorFull(L: nat, lens: seq<nat>)
    requires HEADER < L <= MAX_RECV_SIZE && lens == [L - 1] + Middle(HEADER, L)
    ensures Place(Used(lens), L) == 0 && Bytes(lens + [L], 1, |lens| + 1) == Window(HEADER, L) + 1
  {
    CollisionOverlaps(HEADER, L);
    assert LastLength(HEADER, L) == L;
    assert Collision(HEADER, L) == lens + [L];
    assert (lens + [L])[..|lens|] == lens;
  }

  // The first byte of a buffer decides the low byte of the message type.
  lemma {:induction false} TypeByte(buf: seq<Byte>)
    requires |buf| >= HEADER && buf[0] != MR && buf[0] != NORMAL
    ensures Parse(buf).typ != MR && Parse(buf).typ != NORMAL
  {
    var q := Quad(buf[..4], 0);
    assert q % 256 == buf[0];
  }

  // A message was handled whose type no accepted message has.
  lemma {:induction false} NotAccepted(rcvd: seq<Msg>, msg: Msg, t: Trans)
    requires PlainOnly(t) && msg.typ != MR && msg.typ != NORMAL
    ensures !(AppMsgs(rcvd + [msg]) <= Carried(t.accepted))
  {
    assert Front(rcvd + [msg]) == rcvd;
    PlainCarried(t.accepted);
    var n := |AppMsgs(rcvd)|;
    assert AppMsgs(rcvd + [msg])[n] == msg;
  }

  lemma {:induction false} PlainCarried(q: seq<Task>)
    requires forall k :: 0 <= k < |q| ==> q[k].msg.typ == NORMAL
    ensures forall k :: 0 <= k < |Carried(q)| ==> Carried(q)[k].typ == NORMAL
  {
    forall k | 0 <= k < |Carried(q)|
      ensures Carried(q)[k].typ == NORMAL
    {
      var i, j := CollectFrom(q, k, CarriedMsg);
    }
  }

  // The frame of task begins with v, and the connection can carry it to the client's
  // second receive buffer.
  ghost predicate Overwritten(n: M.Net, task: Task, v: Byte) {
    && n.c.ep.t.st == CONNECTED && n.s.ep.t.st == CONNECTED && !n.c.ep.t.disc && !n.s.ep.t.disc
    && n.c.ep.cq == [] && |n.c.ep.t.rcvd| == 1 && |n.c.ep.t.recvs| == 7
    && |n.s.ep.t.posted| >= 1 && n.s.ep.delivered == 1 && n.s.ep.t.freed == []
    && PlainOnly(n.s.ep.t)
    && |n.s.mem| == POOL_SIZE && |n.c.mem| == POOL_SIZE && n.c.ep.t.recvs[1] + MAX_RECV_SIZE <= POOL_SIZE
    && task.typ == NORMAL && HEADER <= task.len <= MAX_RECV_SIZE
    && task.addr + task.len <= POOL_SIZE && n.s.mem[task.addr] == v
  }

  lemma {:induction false} ListTail(n: M.Net, L: nat, msg: Msg, s: seq<nat>)
    requires SysInv(M.Eps(n)) && P.NetInv(n) && HEADER < L <= MAX_RECV_SIZE
    requires s == Middle(HEADER, L) && Loaded(M.Eps(n), L, s) && s != [] && Bounded(s, HEADER, L)
    requires msg.typ == NORMAL && HEADER + |msg.data| == L
    ensures var n1 := M.Next(n, R.Sv(AppSend(msg)));
            && |n1.s.ep.t.queue| == |s| + 1 && |n1.s.ep.t.posted| == 1
            && Overwritten(n1, n1.s.ep.t.queue[0], Frame(msg)[L - 1])
            && n1.s.ep.t.lens == n.s.ep.t.lens + [L]
  {
    hide TransInv, Both, M.SendFrames, M.RecvFrames, M.WritesLanded, Frame, Used, Middle;
    hide M.Next, M.Put, PlainOnly, Bytes, TaskInv;
    var t := n.s.ep.t;
    TasksOf(M.Eps(n));
    VictimPlace(t, L, s);
    CursorFull(L, t.lens);
    Victim(n, L, s);
    TailOverwrites(n.s.mem, msg, L);
    AppSendNet(n, msg);
  }

  // What the next send of the server changes.
  lemma {:induction false} AppSendNet(n: M.Net, msg: Msg)
    requires n.s.ep.t.st == CONNECTED && msg.typ == NORMAL && HEADER + |msg.data| <= MAX_RECV_SIZE
    ensures var n1, t := M.Next(n, R.Sv(AppSend(msg))), n.s.ep.t;
            var task := NewTask(t, msg);
            && n1.c == n.c && n1.s.mem == M.Put(n.s.mem, task.addr, Frame(msg))
            && n1.s.ep == n.s.ep.(t := n1.s.ep.t) && n1.s.ep.t.st == CONNECTED && n1.s.ep.t.disc == t.disc
            && n1.s.ep.t.posted == t.posted && n1.s.ep.t.freed == t.freed && n1.s.ep.t.queue == t.queue + [task]
            && n1.s.ep.t.lens == t.lens + [task.len]
            && (PlainOnly(t) ==> PlainOnly(n1.s.ep.t))
  {
    hide Frame, Place;
    SendEffect(n.s.ep.t, msg);
  }

  // The first listed message, before the last one is sent.
  lemma {:induction false} Victim(n: M.Net, L: nat, s: seq<nat>)
    requires SysInv(M.Eps(n)) && P.NetInv(n) && HEADER < L <= MAX_RECV_SIZE
    requires Loaded(M.Eps(n), L, s) && s != [] && Bounded(s, HEADER, L)
    ensures n.s.ep.t.queue[0].typ == NORMAL
    ensures |n.s.mem| == POOL_SIZE && |n.c.mem| == POOL_SIZE && n.c.ep.t.recvs[1] + MAX_RECV_SIZE <= POOL_SIZE
  {
    hide M.SendFrames, M.RecvFrames, M.WritesLanded, TaskInv, WriteInv, RecvInv, Both;
    ClientBuffers(M.Eps(n));
    var t := n.s.ep.t;
    assert t.accepted[|Listed(t.posted)|] == t.queue[0];
  }

  lemma {:induction false} TasksOf(z: Sys)
    requires SysInv(z)
    ensures TaskInv(z.s.t)
  {
    hide Both;
  }

  lemma {:induction false} ClientBuffers(z: Sys)
    requires SysInv(z) && |z.c.t.recvs| > 1
    ensures z.c.t.recvs[1] + MAX_RECV_SIZE <= POOL_SIZE
  {
    M.RecvBuffers(z.c.t);
  }

  // The frame at offset zero reaches one byte into the one that starts at L - 1.
  lemma {:induction false} TailOverwrites(mem: seq<Byte>, msg: Msg, L: nat)
    requires |mem| == POOL_SIZE && Sendable(msg) && HEADER + |msg.data| == L && L <= MAX_RECV_SIZE
    ensures M.Put(mem, SEND_BASE, Frame(msg))[L - 1] == Frame(msg)[L - 1]
  {
    hide Frame;
    var f := Frame(msg);
    assert Copy(mem, 0, f)[0..0 + |f|] == f;
  }

  lemma {:induction false} PostTail(n: M.Net, v: Byte)
    requires n.s.ep.t.queue != [] && |n.s.ep.t.queue| < MAX_SEND_WR && |n.s.ep.t.posted| == 1
    requires Overwritten(n, n.s.ep.t.queue[0], v)
    ensures var n' := M.Next(n, R.Sv(Timer(true)));
            && |n'.s.ep.t.posted| > 1 && Overwritten(n', n'.s.ep.t.posted[1].task, v)
            && n'.s.ep.t.lens == n.s.ep.t.lens
  {
    BatchTasks(n.s.ep.t, n.s.ep.t.queue, 0);
  }

  // The victim has reached the client.
  ghost predicate VictimArrived(n: M.Net, v: Byte) {
    && n.c.ep.t.st == CONNECTED && PlainOnly(n.s.ep.t)
    && |n.c.ep.cq| == 1 && n.c.ep.cq[0].Rcvd? && n.c.ep.cq[0].addr + MAX_RECV_SIZE <= |n.c.mem|
    && n.c.mem[n.c.ep.cq[0].addr] == v
  }

  lemma {:induction false} DeliverVictim(n: M.Net, v: Byte)
    requires |n.s.ep.t.posted| > 1 && Overwritten(n, n.s.ep.t.posted[1].task, v)
    ensures VictimArrived(M.Next(n, R.Sv(Deliver)), v)
    ensures M.Next(n, R.Sv(Deliver)).s.ep.t == n.s.ep.t
  {
    var task, at := n.s.ep.t.posted[1].task, n.c.ep.t.recvs[1];
    assert Filled(n.c.ep) == 1;
    var bytes := M.Get(n.s.mem, task.addr, task.len);
    assert bytes[0] == v;
    assert Copy(n.c.mem, at, bytes)[at..at + |bytes|][0] == v;
  }

  lemma {:induction false} HandleVictim(n: M.Net, v: Byte)
    requires VictimArrived(n, v) && v != MR && v != NORMAL
    ensures var n' := M.Next(n, R.Cl(Complete));
            !(AppMsgs(n'.c.ep.t.rcvd) <= Carried(n'.s.ep.t.accepted)) && n'.s.ep.t == n.s.ep.t
  {
    hide Parse, AppMsgs, Carried, PlainOnly, M.RcvdMem;
    var buf := M.Get(n.c.mem, n.c.ep.cq[0].addr, MAX_RECV_SIZE);
    assert buf[0] == v;
    TypeByte(buf);
    var more := RcvdEffect(n.c.ep.t, Parse(buf), DescIn(buf));
    NotAccepted(n.c.ep.t.rcvd, Parse(buf), n.s.ep.t);
  }

  function LastMoves(L: nat, v: Byte): seq<Move>
    requires L >= HEADER
  {
    [R.Sv(AppSend(Plain(L, v))), R.Sv(Timer(true)), R.Sv(Deliver), R.Cl(Complete)]
  }

  lemma {:induction false} MemRunNext(n: M.Net, ms: seq<Move>, k: nat)
    requires k < |ms|
    ensures M.Run(n, ms[..k + 1]) == M.Next(M.Run(n, ms[..k]), ms[k])
  {
    hide M.Next;
    assert Front(ms[..k + 1]) == ms[..k];
  }

  lemma {:induction false} FourMoves(n: M.Net, ms: seq<Move>)
    requires |ms| == 4
    ensures M.Run(n, ms) == M.Next(M.Next(M.Next(M.Next(n, ms[0]), ms[1]), ms[2]), ms[3])
  {
    hide M.Next;
    MemRunNext(n, ms, 3);
    MemRunNext(n, ms, 2);
    MemRunNext(n, ms, 1);
    MemRunNext(n, ms, 0);
    assert ms[..4] == ms && M.Run(n, ms[..0]) == n;
  }

  lemma {:induction false} MemRunConcat(n: M.Net, a: seq<Move>, b: seq<Move>)
    ensures M.Run(n, a + b) == M.Run(M.Run(n, a), b)
  {
    hide M.Next;
    if b == [] {
      assert a + b == a;
    } else {
      MemRunConcat(n, a, Front(b));
      assert Front(a + b) == a + Front(b);
    }
  }

  // The four moves deliver the second message with v in its first byte.
  lemma {:induction false} Corrupt(n: M.Net, L: nat, v: Byte)
    requires SysInv(M.Eps(n)) && P.NetInv(n) && 56 <= L <= MAX_RECV_SIZE && v != MR && v != NORMAL
    requires Loaded(M.Eps(n), L, Middle(HEADER, L))
    ensures var n' := M.Run(n, LastMoves(L, v));
            && !(AppMsgs(n'.c.ep.t.rcvd) <= Carried(n'.s.ep.t.accepted))
            && n'.s.ep.t.lens == n.s.ep.t.lens + [L]
  {
    hide M.Next, Overwritten, VictimArrived, SysInv, P.NetInv, Loaded;
    var msg, s := Plain(L, v), Middle(HEADER, L);
    MiddleTotal(HEADER, L);
    FourMoves(n, LastMoves(L, v));
    var n1 := M.Next(n, R.Sv(AppSend(msg)));
    ListTail(n, L, msg, s);
    PlainEnds(L, v);
    PostTail(n1, v);
    var n2 := M.Next(n1, R.Sv(Timer(true)));
    DeliverVictim(n2, v);
    HandleVictim(M.Next(n2, R.Sv(Deliver)), v);
  }

  lemma {:induction false} PlainEnds(L: nat, v: Byte)
    requires HEADER < L <= MAX_RECV_SIZE
    ensures Frame(Plain(L, v))[L - 1] == v
  {
  }

  /** The window is exact for the system, not only for the allocator.  For every bound L
      on the frames from that of a descriptor to MAX_RECV_SIZE, and for any memory
      contents, there is a run that respects the window up to its last send; that send
      makes the bytes allocated since the oldest frame still needed, the server's second,
      one more than the window; and then the client handles a message that was never
      accepted: what it handled is no prefix of what the server sent. */
  lemma {:induction false} OverrunCorrupts(mrC: Mr, mrS: Mr, memC: seq<Byte>, memS: seq<Byte>, L: nat, v: Byte)
    returns (moves: seq<Move>)
    requires |memC| == POOL_SIZE && |memS| == POOL_SIZE
    requires HEADER + MR_SIZE <= L <= MAX_RECV_SIZE && v != MR && v != NORMAL
    ensures M.WindowedRun(Init(mrC, mrS), moves, L)
    ensures var n := M.Run(P.Boot(mrC, mrS, memC, memS), moves + LastMoves(L, v));
            && |n.s.ep.t.lens| > 1 && Bytes(n.s.ep.t.lens, 1, |n.s.ep.t.lens|) == Window(HEADER, L) + 1
            && !(AppMsgs(n.c.ep.t.rcvd) <= Carried(n.s.ep.t.accepted))
  {
    hide Next, M.Next, SysInv, Loaded, M.Windowed, M.WindowedRun, P.NetInv, Middle, LastMoves, AppMsgs, Carried;
    var z0, s := Init(mrC, mrS), Middle(HEADER, L);
    MiddleTotal(HEADER, L);
    var a := R.Open(mrC, mrS);
    RunInv(mrC, mrS, a);
    var b := Prime(Run(z0, a), L);
    RunConcat(z0, a, b);
    InitInv(mrC, mrS);
    RunInv(mrC, mrS, a + b);
    PrimedSmall(Run(z0, a + b), L);
    SmallRun(z0, a + b, L);
    var c := Load(z0, a + b, L, s, |s|);
    assert s[..|s|] == s;
    moves := a + b + c;
    var n := M.Run(P.Boot(mrC, mrS, memC, memS), moves);
    P.MemoryRefinesMessages(mrC, mrS, memC, memS, moves, L);
    RunInv(mrC, mrS, moves);
    Corrupt(n, L, v);
    LoadedLens(M.Eps(n), L, s);
    CursorFull(L, n.s.ep.t.lens);
    MemRunConcat(P.Boot(mrC, mrS, memC, memS), moves, LastMoves(L, v));
  }

  lemma {:induction false} LoadedLens(z: Sys, L: nat, s: seq<nat>)
    requires Loaded(z, L, s)
    ensures z.s.t.lens == [L - 1] + s
  {
  }

  lemma {:induction false} PrimedSmall(z: Sys, L: nat)
    requires Loaded(z, L, []) && HEADER + MR_SIZE <= L <= MAX_RECV_SIZE
    ensures Small(z, L)
  {
    assert Bytes(z.c.t.lens, 0, 0) == 0 && Bytes(z.s.t.lens, 0, 0) == 0;
  }
}
