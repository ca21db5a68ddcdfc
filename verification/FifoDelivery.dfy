/** Per direction the connection is a FIFO: what the peer's receive handler saw is a
    prefix of what hmr_rdma_send accepted. */
module FifoDelivery {
  import opened Wire
  import opened Allocator
  import opened Sequences
  import opened TransportModel
  import opened TransportInvariants
  import opened Connection
  import opened ConnectionInvariants

  // The messages a receive handler passes to process_resp.
  function AppMsgs(ms: seq<Msg>): seq<Msg> { Collect(ms, AppMsgOf) }

  function AppMsgOf(m: Msg): seq<Msg> { if m.typ != MR then [m] else [] }

  // The messages of the accepted tasks that are to arrive as messages.
  function Carried(q: seq<Task>): seq<Msg> { Collect(q, CarriedMsg) }

  function CarriedMsg(task: Task): seq<Msg> { if IsWrite(task) then [] else [task.msg] }

  lemma {:induction false} CarriedConcat(a: seq<Task>, b: seq<Task>)
    ensures Carried(a + b) == Carried(a) + Carried(b)
  {
    CollectConcat(a, b, CarriedMsg);
  }

  lemma {:induction false} AppMsgsConcat(a: seq<Msg>, b: seq<Msg>)
    ensures AppMsgs(a + b) == AppMsgs(a) + AppMsgs(b)
  {
    CollectConcat(a, b, AppMsgOf);
  }

  lemma {:induction false} CarriedListed(ws: seq<Wr>)
    requires forall k :: 0 <= k < |ws| ==> ws[k].task.typ == ws[k].task.msg.typ
    ensures AppMsgs(SendMsgs(ws)) == Carried(Listed(ws))
  {
    if ws != [] {
      CarriedListed(Front(ws));
      var x := Last(ws).task;
      AppMsgsConcat(SendMsgs(Front(ws)), if IsWrite(x) then [] else [x.msg]);
      CarriedConcat(Listed(Front(ws)), if x.typ != MR then [x] else []);
      assert Front([x.msg]) == [] && Front([x]) == [];
    }
  }

  // What x posted up to d is what it carried up to some point of the accepted list.
  lemma {:induction false} ListedPrefix(t: Trans, d: nat)
    requires QueueInv(t) && d <= |t.posted|
    ensures Listed(t.posted[..d]) <= t.accepted
    ensures t.accepted == Listed(t.posted[..d]) + Listed(t.posted[d..]) + t.queue
  {
    assert t.posted == t.posted[..d] + t.posted[d..];
    ListedConcat(t.posted[..d], t.posted[d..]);
  }

  // The messages handled, then those waiting in the completion queue, then those
  // posted but not delivered, then those still listed, are all those accepted.
  ghost predicate FifoOk(x: Ep, y: Ep) {
    && x.delivered <= |x.t.posted|
    && AppMsgs(y.t.rcvd) + AppMsgs(RcvdMsgs(y.cq)) + Carried(Listed(x.t.posted[x.delivered..])) + Carried(x.t.queue)
       == Carried(x.t.accepted)
    && Listed(x.t.posted) + x.t.queue == x.t.accepted
  }

  lemma {:induction false} FifoOfInv(x: Ep, y: Ep)
    requires TransInv(x.t) && Both(x, y)
    ensures FifoOk(x, y) && AppMsgs(y.t.rcvd) <= Carried(x.t.accepted)
  {
    var d := x.delivered;
    ListedPrefix(x.t, d);
    AppMsgsConcat(y.t.rcvd, RcvdMsgs(y.cq));
    forall k | 0 <= k < |x.t.posted[..d]|
      ensures x.t.posted[..d][k].task.typ == x.t.posted[..d][k].task.msg.typ
    {
      assert Kind(x.t.posted[k].task, x.t.mr);
    }
    CarriedListed(x.t.posted[..d]);
    CarriedConcat(Listed(x.t.posted[..d]), Listed(x.t.posted[d..]));
    CarriedConcat(Listed(x.t.posted[..d]) + Listed(x.t.posted[d..]), x.t.queue);
  }

  /** In every run, in both directions: the messages handled are a prefix of the
      accepted ones, nothing is lost, duplicated or reordered on the way, and
      accepted == posted ++ still queued. */
  lemma {:induction false} FifoEveryRun(mrC: Mr, mrS: Mr, moves: seq<Move>)
    ensures var z := Run(Init(mrC, mrS), moves);
            && FifoOk(z.c, z.s) && AppMsgs(z.s.t.rcvd) <= Carried(z.c.t.accepted)
            && FifoOk(z.s, z.c) && AppMsgs(z.c.t.rcvd) <= Carried(z.s.t.accepted)
  {
    var z := Run(Init(mrC, mrS), moves);
    RunInv(mrC, mrS, moves);
    BothSymmetric(z.c, z.s);
    FifoOfInv(z.c, z.s);
    FifoOfInv(z.s, z.c);
  }
}
