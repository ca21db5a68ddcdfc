/** hmr_pre_post_recv and the reposting receive handler keep a sliding window of
    receive buffers, for every default receive size. */
module ReceiveWindow {
  import opened Wire
  import opened Allocator
  import opened Sequences
  import opened TransportModel
  import opened TransportInvariants
  import opened Connection
  import opened ConnectionInvariants

  // A completion together with what the handler reads in its buffer.
  datatype Event = Event(wc: Wc, msg: Msg, desc: Mr)

  function HandleAll(t: Trans, evs: seq<Event>): Trans {
    if evs == [] then t else var e := Last(evs); Handle(HandleAll(t, Front(evs)), e.wc, e.msg, e.desc)
  }

  // The buffers from the most recently handled receive on are pairwise disjoint and lie
  // in the receive region.
  ghost predicate WindowApart(t: Trans) {
    forall i, j :: 0 <= i < j < |t.recvs| && |t.rcvd| <= i + 1 ==> BuffersApart(t.recvSize, t.recvs[i], t.recvs[j])
  }

  predicate BuffersApart(d: nat, a: nat, b: nat) {
    && RECV_BASE <= a && a + d <= RDMA_BASE && RECV_BASE <= b && b + d <= RDMA_BASE
    && Apart(a, d, b, d)
  }

  lemma {:induction false} WindowOfInv(t: Trans)
    requires RecvInv(t) && ALLOC_MEM_SIZE / t.recvSize >= 2
    requires |t.recvs| <= |t.rcvd| + ALLOC_MEM_SIZE / t.recvSize - 2
    ensures WindowApart(t)
  {
    hide Slot;
    forall i, j | 0 <= i < j < |t.recvs| && |t.rcvd| <= i + 1
      ensures BuffersApart(t.recvSize, t.recvs[i], t.recvs[j])
    {
      RecvBufferAt(t.recvSize, |t.recvs|, i);
      RecvBufferAt(t.recvSize, |t.recvs|, j);
      RecvWindow(t.recvSize, i, j);
    }
  }

  lemma {:induction false} SendRecvs(t: Trans, msg: Msg)
    ensures var t' := RdmaSend(t, msg);
            t'.recvs == t.recvs && t'.rcvd == t.rcvd && t'.usedRecv == t.usedRecv && t'.recvSize == t.recvSize
  {
  }

  // Handling a completion returns exactly as many buffers as it takes.
  lemma {:induction false} HandleBalance(t: Trans, wc: Wc, msg: Msg, desc: Mr)
    requires RecvInv(t)
    ensures var t' := Handle(t, wc, msg, desc);
            && RecvInv(t') && t'.recvSize == t.recvSize
            && |t'.recvs| - |t'.rcvd| == |t.recvs| - |t.rcvd|
  {
    hide RdmaSend, Slot;
    match wc
    case Sent(wr) =>
    case Rcvd(_, _) =>
      SendRecvs(t.(rcvd := t.rcvd + [msg]), DoneMsg());
      SendRecvs(NewEpoch(t.(rcvd := t.rcvd + [msg]), desc), MrMsg(t.mr));
      var t1 := OnClose(t.(rcvd := t.rcvd + [msg]), msg.typ);
      PostKeepsRecvs(if msg.typ == MR then OnMr(t1, desc) else t1);
  }

  lemma {:induction false} HandleAllBalance(t: Trans, evs: seq<Event>)
    requires RecvInv(t)
    ensures var t' := HandleAll(t, evs);
            && RecvInv(t') && t'.recvSize == t.recvSize
            && |t'.recvs| - |t'.rcvd| == |t.recvs| - |t.rcvd|
  {
    hide Handle, RecvInv;
    if evs != [] {
      HandleAllBalance(t, Front(evs));
      HandleBalance(HandleAll(t, Front(evs)), Last(evs).wc, Last(evs).msg, Last(evs).desc);
    }
  }

  /** For every default receive size d of which two fit the region, after any number of
      completions: exactly ALLOC_MEM_SIZE / d - 2 receives are posted and not handled,
      and their buffers, with that of the receive handled last, are pairwise disjoint. */
  lemma {:induction false} WindowSlides(isClient: bool, d: nat, mr: Mr, evs: seq<Event>)
    requires d > 0 && ALLOC_MEM_SIZE / d >= 2
    ensures var t := HandleAll(Started(Create(isClient, d, mr)), evs);
            && |t.recvs| == |t.rcvd| + ALLOC_MEM_SIZE / d - 2
            && WindowApart(t)
            && forall k :: 0 <= k < |t.recvs| ==> t.recvs[k] == RECV_BASE + d * (k % (ALLOC_MEM_SIZE / d))
  {
    hide Handle;
    var t0 := Create(isClient, d, mr).(st := CONNECTING);
    PrePostKeepsRecvs(t0, PrePostCount(d));
    HandleAllBalance(Started(Create(isClient, d, mr)), evs);
    WindowOfInv(HandleAll(Started(Create(isClient, d, mr)), evs));
  }

  /** Starting a connection posts all the buffers of the receive region but two, none when
      there are not more. */
  lemma {:induction false} StartPosts(t: Trans)
    requires t.recvSize > 0
    ensures var t', n := Started(t), 1024 / t.recvSize;
            && t'.st == CONNECTING && |t'.recvs| == |t.recvs| + (if n > 2 then n - 2 else 0)
            && t' == t.(st := t'.st, usedRecv := t'.usedRecv, recvs := t'.recvs)
  {
    PostRecvsEffect(t.(st := CONNECTING), PrePostCount(t.recvSize));
  }

  /** In every run of two connected endpoints each started side has six receives posted
      or waiting in its completion queue, in pairwise disjoint buffers; the buffers used
      are the eight of 128 bytes behind the send region, in turn. */
  lemma {:induction false} WindowEveryRun(mrC: Mr, mrS: Mr, moves: seq<Move>, client: bool)
    ensures var z := Run(Init(mrC, mrS), moves);
            var t := if client then z.c.t else z.s.t;
            && (t.st != INIT ==> |t.recvs| == |t.rcvd| + 6 && WindowApart(t))
            && forall k :: 0 <= k < |t.recvs| ==> t.recvs[k] == 1024 + 128 * (k % 8)
  {
    hide Run;
    var z := Run(Init(mrC, mrS), moves);
    RunInv(mrC, mrS, moves);
    var t := if client then z.c.t else z.s.t;
    if t.st != INIT {
      WindowOfInv(t);
    }
  }
}
