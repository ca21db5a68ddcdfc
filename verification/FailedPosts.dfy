/** What a failed ibv_post_send of a batch leaves behind: the offset in the peer's region
    has advanced all the same. */
module FailedPosts {
  import opened Wire
  import opened Allocator
  import opened Sequences
  import opened TransportModel
  import opened TransportInvariants
  import opened Connection
  import opened ConnectionInvariants
  import H = HandshakeProgress
  import R = RemoteWrites

  /** After a failed post the list and the posted requests are what they were, but the
      offset has moved on by the bytes of the listed writes, and these are lost. */
  lemma {:induction false} FailedFlush(t: Trans)
    ensures var t' := Flush(t, false);
            && t'.queue == t.queue && t'.posted == t.posted
            && t'.used == t.used + WriteBytes(t.queue) && t'.lost == t.lost + WriteBytes(t.queue)
            && t' == t.(used := t'.used, lost := t'.lost)
  {
  }

  /** The retry of a failed batch places its first write behind the bytes of the failed
      attempt, and every write as far on. */
  lemma {:induction false} RetryOffset(t: Trans, k: nat)
    requires k < |t.queue| && IsWrite(t.queue[k])
    ensures var p := Flush(Flush(t, false), true).posted;
            && |p| == |t.posted| + |t.queue|
            && p[|t.posted| + k].off == t.used + WriteBytes(t.queue) + WriteBytes(t.queue[..k])
  {
    BatchTasks(Flush(t, false), t.queue, k);
  }

  ghost predicate ListsWrite(t: Trans) { exists k :: 0 <= k < |t.queue| && IsWrite(t.queue[k]) }

  lemma {:induction false} WriteBytesIff(t: Trans)
    requires TaskInv(t)
    ensures WriteBytes(t.queue) > 0 <==> ListsWrite(t)
  {
    if ListsWrite(t) {
      var k :| 0 <= k < |t.queue| && IsWrite(t.queue[k]);
      assert Serialised(AllTasks(t)[|t.posted| + k], t.lens);
      SumAt(t.queue, k, WriteLen);
    } else {
      SumZero(t.queue, WriteLen);
    }
  }

  // Move m makes x handle a descriptor.
  ghost predicate HandlesDescriptor(z: Sys, m: Move, client: bool) {
    var x, y := H.Side(z, client), H.Side(z, !client);
    m == Move(client, Complete) && Enabled(x, y, Complete) && x.cq[0].Rcvd? && x.cq[0].msg.typ == MR
  }

  // Move m is a flush of x with a remote write on the list whose post fails.
  ghost predicate LosesWrites(z: Sys, m: Move, client: bool) {
    var x, y := H.Side(z, client), H.Side(z, !client);
    m == Move(client, Timer(false)) && Enabled(x, y, Timer(false)) && ListsWrite(x.t)
  }

  // Such a flush has happened in the run from z since the side last handled a descriptor.
  ghost predicate FailedSince(z: Sys, moves: seq<Move>, client: bool) {
    moves != [] && var w, m := Run(z, Front(moves)), Last(moves);
                   && !HandlesDescriptor(w, m, client)
                   && (LosesWrites(w, m, client) || FailedSince(z, Front(moves), client))
  }

  lemma {:induction false} LostStep(x: Ep, y: Ep, a: Act)
    requires Enabled(x, y, a) && TaskInv(x.t) && Handshake(x.t, y.t.mr)
    ensures var lost := Step(x, y, a).0.t.lost;
            if a.Complete? && x.cq[0].Rcvd? && x.cq[0].msg.typ == MR then lost == 0
            else if a == Timer(false) && ListsWrite(x.t) then lost > x.t.lost
            else lost == x.t.lost
  {
    hide ListsWrite, TaskInv, Batch, PostRecvs, Place;
    match a
    case Start => PostRecvsEffect(x.t.(st := CONNECTING), PrePostCount(x.t.recvSize));
    case Establish => SendEffect(x.t.(st := CONNECTED), MrMsg(x.t.mr));
    case AppSend(msg) => SendEffect(x.t, msg);
    case Timer(ok) => WriteBytesIff(x.t);
    case Deliver =>
    case Ack =>
    case Complete =>
      if x.cq[0].Rcvd? {
        LostRcvd(x.t, x.cq[0].msg, DescOf(x.cq[0].msg));
      }
  }

  lemma {:induction false} LostRcvd(t: Trans, msg: Msg, desc: Mr)
    requires CONNECTED <= t.st <= RCONNECTED
    ensures OnRcvd(t, msg, desc).lost == if msg.typ == MR then 0 else t.lost
  {
    var t0 := t.(rcvd := t.rcvd + [msg]);
    SendEffect(t0, DoneMsg());
    SendEffect(NewEpoch(t0, desc), MrMsg(t.mr));
  }

  lemma {:induction false} LostIff(mrC: Mr, mrS: Mr, moves: seq<Move>, client: bool)
    ensures H.Side(Run(Init(mrC, mrS), moves), client).t.lost > 0 <==> FailedSince(Init(mrC, mrS), moves, client)
  {
    hide Step, Flow, KindInv, AddressInv, CloseInv, QueueInv, TaskInv, WriteInv, RecvInv, ListsWrite;
    if moves != [] {
      LostIff(mrC, mrS, Front(moves), client);
      RunInv(mrC, mrS, Front(moves));
      var w, m := Run(Init(mrC, mrS), Front(moves)), Last(moves);
      var x, y := H.Side(w, client), H.Side(w, !client);
      if m.client == client && Enabled(x, y, m.act) {
        LostStep(x, y, m.act);
      } else if m.client != client && Enabled(y, x, m.act) {
        PeerSame(y, x, m.act);
      }
    }
  }

  /** In every run, on either side: the writes posted since the last descriptor cover every
      byte below used_normal_size exactly once, unless a post of a batch with a remote
      write failed since then; then some byte is missed. */
  lemma {:induction false} TilesUnlessFailed(mrC: Mr, mrS: Mr, moves: seq<Move>, client: bool)
    ensures var t := H.Side(Run(Init(mrC, mrS), moves), client).t;
            (forall b: nat :: b < t.used ==> R.CoveredOnce(t, b)) <==> !FailedSince(Init(mrC, mrS), moves, client)
  {
    hide R.CoveredOnce, FailedSince;
    R.TilingEveryRun(mrC, mrS, moves, client);
    LostIff(mrC, mrS, moves, client);
  }
}
