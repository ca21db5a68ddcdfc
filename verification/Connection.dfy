/** Two connected endpoints and the network between them, as a transition system.

    The environment: the reliable connection takes posted requests in order;
    a SEND needs a posted receive buffer and a remote write must lie in the peer's
    registered region; a send completion follows the delivery; completions of one
    queue come in order; posting takes a whole chain or nothing and always takes a
    descriptor.  A connection is started (receives posted) before it is reported
    established, and completions are handled only after that report. */
module Connection {
  import opened Wire
  import opened Allocator
  import opened Sequences
  import opened TransportModel

  // delivered and acked count the posted requests that have taken effect at the
  // peer, and those for which a completion was put on the completion queue cq.
  datatype Ep = Ep(t: Trans, delivered: nat, acked: nat, cq: seq<Wc>)

  datatype Act =
    | Start
    | Establish
    | AppSend(msg: Msg)
    | Timer(ok: bool)
    | Deliver
    | Ack
    | Complete

  function RcvdMsg(wc: Wc): seq<Msg> { if wc.Rcvd? then [wc.msg] else [] }

  function RcvdMsgs(cq: seq<Wc>): seq<Msg> { Collect(cq, RcvdMsg) }

  function SentWr(wc: Wc): seq<Wr> { if wc.Sent? then [wc.wr] else [] }

  function SentWrs(cq: seq<Wc>): seq<Wr> { Collect(cq, SentWr) }

  // The messages carried by the SENDs among ws.
  function SendMsgs(ws: seq<Wr>): seq<Msg> { Collect(ws, SendMsg) }

  function SendMsg(w: Wr): seq<Msg> { if IsWrite(w.task) then [] else [w.task.msg] }

  // Receive buffers of x that the network card has filled.
  function Filled(x: Ep): nat { |x.t.rcvd| + |RcvdMsgs(x.cq)| }

  function DescOf(msg: Msg): Mr {
    if |msg.data| == MR_SIZE then msg.data else seq(48, i => 0)
  }

  // What the application may pass to hmr_rdma_send.
  predicate AppMsg(msg: Msg) {
    && (msg.typ == NORMAL || msg.typ == WRITE || msg.typ == FINISH)
    && FrameFits(msg)
  }

  predicate FrameFits(msg: Msg) {
    HEADER + |msg.data| <= if msg.typ == WRITE then ALLOC_MEM_SIZE else MAX_RECV_SIZE
  }

  // The address range of a remote write lies in the region that desc describes.
  predicate InRegion(wr: Wr, desc: Mr) {
    MrAddr(desc) <= wr.raddr && wr.raddr + wr.task.len <= MrAddr(desc) + ALLOC_MEM_SIZE && wr.rkey == MrRkey(desc)
  }

  predicate CanDeliver(x: Ep, y: Ep) {
    && !x.t.disc && !y.t.disc
    && x.delivered < |x.t.posted|
    && var wr := x.t.posted[x.delivered];
       if IsWrite(wr.task) then InRegion(wr, y.t.mr) else Filled(y) < |y.t.recvs|
  }

  predicate Enabled(x: Ep, y: Ep, a: Act) {
    match a
    case Start => x.t.st == INIT && x.t.recvSize > 0
    case Establish => x.t.st == CONNECTING && y.t.st >= CONNECTING
    case AppSend(msg) => AppMsg(msg) && MsgCheck(x.t.st, msg.typ) == Pass
    case Timer(ok) =>
      && x.t.st >= CONNECTED
      && 1 <= |x.t.queue| <= MAX_SEND_WR + 1
      && (ok ==> |x.t.posted| - |x.t.freed| + |x.t.queue| <= MAX_SEND_WR)
    case Deliver => CanDeliver(x, y)
    case Ack => x.acked < x.delivered <= |x.t.posted|
    case Complete => x.cq != [] && x.t.st >= CONNECTED
  }

  // The completion at the head of the queue is handled.  msg and desc are what the
  // handler reads in the receive buffer.
  function Completed(x: Ep, msg: Msg, desc: Mr): Ep
    requires x.cq != []
  {
    x.(t := Handle(x.t, x.cq[0], msg, desc), cq := x.cq[1..])
  }

  function HeadMsg(x: Ep): Msg
    requires x.cq != []
  {
    if x.cq[0].Rcvd? then x.cq[0].msg else x.cq[0].wr.task.msg
  }

  function Step(x: Ep, y: Ep, a: Act): (Ep, Ep)
    requires Enabled(x, y, a)
  {
    match a
    case Start => (x.(t := Started(x.t)), y)
    case Establish => (x.(t := Established(x.t)), y)
    case AppSend(msg) => (x.(t := RdmaSend(x.t, msg)), y)
    case Timer(ok) => (x.(t := Flush(x.t, ok)), y)
    case Deliver =>
      var wr := x.t.posted[x.delivered];
      (x.(delivered := x.delivered + 1),
       if IsWrite(wr.task) then y else y.(cq := y.cq + [Rcvd(y.t.recvs[Filled(y)], wr.task.msg)]))
    case Ack => (x.(acked := x.acked + 1, cq := x.cq + [Sent(x.t.posted[x.acked])]), y)
    case Complete => (Completed(x, HeadMsg(x), DescOf(HeadMsg(x))), y)
  }

  datatype Sys = Sys(c: Ep, s: Ep)

  datatype Move = Move(client: bool, act: Act)

  function NewEp(isClient: bool, mr: Mr): Ep {
    Ep(Create(isClient, MAX_RECV_SIZE, mr), 0, 0, [])
  }

  function Init(mrC: Mr, mrS: Mr): Sys { Sys(NewEp(true, mrC), NewEp(false, mrS)) }

  // A move that is not enabled leaves the system as it is.
  function Next(z: Sys, m: Move): Sys {
    if m.client then
      if Enabled(z.c, z.s, m.act) then var (x, y) := Step(z.c, z.s, m.act); Sys(x, y) else z
    else
      if Enabled(z.s, z.c, m.act) then var (x, y) := Step(z.s, z.c, m.act); Sys(y, x) else z
  }

  function Run(z: Sys, moves: seq<Move>): Sys {
    if moves == [] then z else Next(Run(z, Front(moves)), Last(moves))
  }
}
