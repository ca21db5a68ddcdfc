/** What every software step of one connection keeps, whatever completions the
    network card hands it: nothing here mentions the peer. */
module TransportInvariants {
  import opened Wire
  import opened Allocator
  import opened Sequences
  import opened TransportModel

  // ----- The send list is a FIFO: accepted == posted ++ queued.

  ghost predicate QueueInv(t: Trans) {
    && t.accepted == Listed(t.posted) + t.queue
    && (forall k :: 0 <= k < |t.queue| ==> t.queue[k].typ != MR)
  }

  lemma {:induction false} ListedConcat(a: seq<Wr>, b: seq<Wr>)
    ensures Listed(a + b) == Listed(a) + Listed(b)
  {
    CollectConcat(a, b, ListedTask);
  }

  lemma {:induction false} ListedBatch(t: Trans, q: seq<Task>)
    requires forall k :: 0 <= k < |q| ==> q[k].typ != MR
    ensures Listed(Batch(t, q)) == q
  {
    if q != [] {
      ListedBatch(t, Front(q));
      var b, w := Batch(t, Front(q)), WrFor(t, Last(q), t.used + WriteBytes(Front(q)));
      assert Front(b + [w]) == b && Last(b + [w]) == w && w.task == Last(q);
      assert q == Front(q) + [Last(q)];
    }
  }

  lemma {:induction false} SendKeepsQueue(t: Trans, msg: Msg)
    requires QueueInv(t)
    ensures QueueInv(RdmaSend(t, msg))
  {
    if MsgCheck(t.st, msg.typ) == Pass && msg.typ == MR {
      var t' := RdmaSend(t, msg);
      assert Front(t'.posted) == t.posted;
    }
  }

  lemma {:induction false} FlushKeepsQueue(t: Trans, ok: bool)
    requires QueueInv(t)
    ensures QueueInv(Flush(t, ok))
  {
    if t.queue != [] && ok {
      var t' := Flush(t, ok);
      ListedConcat(t.posted, Batch(t, t.queue));
      ListedBatch(t, t.queue);
      assert t'.posted == t.posted + Batch(t, t.queue) && t'.queue == [];
    }
  }

  // ----- Every task has one place, its own address and its own frame.

  ghost predicate Numbered(s: seq<Task>, n: nat) {
    && |s| == n
    && (forall i :: 0 <= i < |s| ==> s[i].id < n)
    && (forall i, j :: 0 <= i < j < |s| ==> s[i].id != s[j].id)
  }

  ghost predicate Serialised(task: Task, lens: seq<nat>) {
    && task.id < |lens|
    && Sendable(task.msg)
    && task.typ == task.msg.typ
    && task.len == HEADER + |task.msg.data| == lens[task.id]
    && task.addr == SEND_BASE + Pos(lens, task.id)
  }

  ghost predicate TaskInv(t: Trans) {
    && Numbered(AllTasks(t), |t.lens|)
    && (forall k :: 0 <= k < |t.lens| ==> t.lens[k] >= HEADER)
    && (forall k :: 0 <= k < |AllTasks(t)| ==> Serialised(AllTasks(t)[k], t.lens))
    && t.usedSend == Used(t.lens)
  }

  lemma {:induction false} NumberedInsert(s: seq<Task>, x: Task, at: nat)
    requires Numbered(s, x.id) && at <= |s|
    ensures Numbered(s[..at] + [x] + s[at..], x.id + 1)
  {
    var s' := s[..at] + [x] + s[at..];
    assert forall k :: 0 <= k < |s'| ==> s'[k] == if k < at then s[k] else if k == at then x else s[k - 1];
  }

  lemma {:induction false} AllTasksInsert(t: Trans, t': Trans, x: Task, at: nat)
    requires TaskInv(t) && at <= |t.lens|
    requires AllTasks(t') == AllTasks(t)[..at] + [x] + AllTasks(t)[at..]
    requires x.id == |t.lens| && t'.lens == t.lens + [x.len] && Serialised(x, t'.lens)
    requires t'.usedSend == Used(t'.lens)
    ensures TaskInv(t')
  {
    var s, s' := AllTasks(t), AllTasks(t');
    NumberedInsert(s, x, at);
    forall k | 0 <= k < |s'|
      ensures Serialised(s'[k], t'.lens)
    {
      if k != at {
        var y := if k < at then s[k] else s[k - 1];
        assert s'[k] == y && Serialised(y, t.lens);
        PosStable(t.lens, [x.len], y.id);
      }
    }
  }

  lemma {:induction false} NewTaskSerialised(t: Trans, msg: Msg)
    requires t.usedSend == Used(t.lens) && Sendable(msg)
    ensures var x := NewTask(t, msg);
            Serialised(x, t.lens + [x.len]) && Used(t.lens + [x.len]) == Place(t.usedSend, x.len) + x.len
  {
    var x := NewTask(t, msg);
    var lens := t.lens + [x.len];
    assert Front(lens) == t.lens == lens[..|t.lens|];
  }

  // hmr_rdma_send puts the new task behind the queued ones, or, for a descriptor,
  // between the posted and the queued ones.
  lemma {:induction false} SendInserts(t: Trans, msg: Msg, at: nat)
    requires MsgCheck(t.st, msg.typ) == Pass
    requires at == |t.posted| + if msg.typ != MR then |t.queue| else 0
    ensures AllTasks(RdmaSend(t, msg)) == AllTasks(t)[..at] + [NewTask(t, msg)] + AllTasks(t)[at..]
  {
    var t', x := RdmaSend(t, msg), NewTask(t, msg);
    if msg.typ != MR {
      assert t'.posted == t.posted && t'.queue == t.queue + [x];
    } else {
      assert t'.posted == t.posted + [Wr(x, 0, 0, 0, t.epoch)] && t'.queue == t.queue;
    }
  }

  lemma {:induction false} SendKeepsTasks(t: Trans, msg: Msg)
    requires TaskInv(t) && Sendable(msg)
    ensures TaskInv(RdmaSend(t, msg))
  {
    if MsgCheck(t.st, msg.typ) == Pass {
      var at := |t.posted| + if msg.typ != MR then |t.queue| else 0;
      SendInserts(t, msg, at);
      NewTaskSerialised(t, msg);
      AllTasksInsert(t, RdmaSend(t, msg), NewTask(t, msg), at);
    }
  }

  lemma {:induction false} BatchTasks(t: Trans, q: seq<Task>, k: nat)
    requires k < |q|
    ensures Batch(t, q)[k] == WrFor(t, q[k], t.used + WriteBytes(q[..k]))
  {
    if k < |q| - 1 {
      BatchTasks(t, Front(q), k);
      assert Front(q)[..k] == q[..k];
    }
  }

  lemma {:induction false} FlushKeepsTasks(t: Trans, ok: bool)
    requires TaskInv(t)
    ensures AllTasks(Flush(t, ok)) == AllTasks(t)
    ensures TaskInv(Flush(t, ok))
  {
    forall k | 0 <= k < |t.queue|
      ensures Batch(t, t.queue)[k].task == t.queue[k]
    {
      BatchTasks(t, t.queue, k);
    }
  }

  // ----- Remote writes.

  ghost predicate WriteInv(t: Trans) {
    && (forall i, j :: 0 <= i < j < |t.posted| && IsWrite(t.posted[i].task) && IsWrite(t.posted[j].task)
          && t.posted[i].epoch == t.posted[j].epoch
          ==> t.posted[i].off + t.posted[i].task.len <= t.posted[j].off)
    && (forall i :: 0 <= i < |t.posted| && IsWrite(t.posted[i].task) ==> t.posted[i].epoch <= t.epoch)
    && (forall i :: 0 <= i < |t.posted| && IsWrite(t.posted[i].task) && t.posted[i].epoch == t.epoch
          ==> OffsetOk(t, i))
    && t.used == EpochBytes(t.posted, t.epoch) + t.lost
  }

  // Write i of the current epoch: based at the stored descriptor, below the counter,
  // and without a gap before it as long as no post failed.
  ghost predicate OffsetOk(t: Trans, i: nat)
    requires i < |t.posted|
  {
    var w := t.posted[i];
    && w.raddr == MrAddr(t.peerMr) + w.off
    && w.rkey == MrRkey(t.peerMr)
    && w.off + w.task.len <= t.used
    && (t.lost == 0 ==> w.off == EpochBytes(t.posted[..i], t.epoch))
  }

  lemma {:induction false} EpochBytesConcat(a: seq<Wr>, b: seq<Wr>, e: nat)
    ensures EpochBytes(a + b, e) == EpochBytes(a, e) + EpochBytes(b, e)
  {
    SumConcat(a, b, EpochLen(e));
  }

  lemma {:induction false} EpochBytesBatch(t: Trans, q: seq<Task>, k: nat)
    requires k <= |q|
    ensures EpochBytes(Batch(t, q)[..k], t.epoch) == WriteBytes(q[..k])
    decreases k
  {
    if k > 0 {
      EpochBytesBatch(t, q, k - 1);
      BatchTasks(t, q, k - 1);
      assert Front(Batch(t, q)[..k]) == Batch(t, q)[..k - 1];
      assert Front(q[..k]) == q[..k - 1];
    }
  }

  lemma {:induction false} WriteBytesGrows(q: seq<Task>, i: nat, j: nat)
    requires i < j <= |q|
    ensures WriteBytes(q[..i]) + (if IsWrite(q[i]) then q[i].len else 0) <= WriteBytes(q[..j])
    decreases j
  {
    assert Front(q[..j]) == q[..j - 1];
    if i < j - 1 {
      WriteBytesGrows(q, i, j - 1);
    }
  }

  lemma {:induction false} EpochBytesNone(ws: seq<Wr>, e: nat)
    requires forall i :: 0 <= i < |ws| && IsWrite(ws[i].task) ==> ws[i].epoch != e
    ensures EpochBytes(ws, e) == 0
  {
    SumZero(ws, EpochLen(e));
  }

  lemma {:induction false} SendKeepsWrites(t: Trans, msg: Msg)
    requires WriteInv(t)
    ensures WriteInv(RdmaSend(t, msg))
  {
    var t' := RdmaSend(t, msg);
    if MsgCheck(t.st, msg.typ) == Pass && msg.typ == MR {
      PlainPost(t, t', Wr(NewTask(t, msg), 0, 0, 0, t.epoch));
    } else {
      SameWrites(t, t');
    }
  }

  // Posting a request that is no remote write.
  lemma {:induction false} PlainPost(t: Trans, t': Trans, wr: Wr)
    requires WriteInv(t) && !IsWrite(wr.task)
    requires t'.posted == t.posted + [wr]
    requires t'.used == t.used && t'.epoch == t.epoch && t'.lost == t.lost && t'.peerMr == t.peerMr
    ensures WriteInv(t')
  {
    assert Front(t'.posted) == t.posted;
    forall i | 0 <= i < |t'.posted| && IsWrite(t'.posted[i].task) && t'.posted[i].epoch == t'.epoch
      ensures OffsetOk(t', i)
    {
      assert OffsetOk(t, i);
      assert t'.posted[..i] == t.posted[..i];
    }
  }

  lemma {:induction false} FlushKeepsWrites(t: Trans, ok: bool)
    requires WriteInv(t)
    ensures WriteInv(Flush(t, ok))
  {
    var t' := Flush(t, ok);
    if t.queue != [] && ok {
      BatchPost(t, t');
    } else {
      forall i | 0 <= i < |t'.posted| && IsWrite(t'.posted[i].task) && t'.posted[i].epoch == t'.epoch
        ensures OffsetOk(t', i)
      {
        assert OffsetOk(t, i);
      }
    }
  }

  lemma {:induction false} BatchPost(t: Trans, t': Trans)
    requires WriteInv(t)
    requires t'.posted == t.posted + Batch(t, t.queue)
    requires t'.used == t.used + WriteBytes(t.queue)
    requires t'.epoch == t.epoch && t'.lost == t.lost && t'.peerMr == t.peerMr
    ensures WriteInv(t')
  {
    BatchSum(t);
    BatchEpochs(t, t');
    BatchOffsets(t, t');
    BatchOrder(t, t');
  }

  lemma {:induction false} BatchSum(t: Trans)
    ensures EpochBytes(t.posted + Batch(t, t.queue), t.epoch) == EpochBytes(t.posted, t.epoch) + WriteBytes(t.queue)
  {
    var b := Batch(t, t.queue);
    EpochBytesConcat(t.posted, b, t.epoch);
    EpochBytesBatch(t, t.queue, |t.queue|);
    assert b[..|b|] == b && t.queue[..|t.queue|] == t.queue;
  }

  lemma {:induction false} BatchEpochs(t: Trans, t': Trans)
    requires forall i :: 0 <= i < |t.posted| && IsWrite(t.posted[i].task) ==> t.posted[i].epoch <= t.epoch
    requires t'.posted == t.posted + Batch(t, t.queue) && t'.epoch == t.epoch
    ensures forall i :: 0 <= i < |t'.posted| && IsWrite(t'.posted[i].task) ==> t'.posted[i].epoch <= t'.epoch
  {
    forall i | |t.posted| <= i < |t'.posted|
      ensures t'.posted[i].epoch == t.epoch
    {
      BatchTasks(t, t.queue, i - |t.posted|);
    }
  }

  lemma {:induction false} BatchOffsets(t: Trans, t': Trans)
    requires WriteInv(t) && t'.posted == t.posted + Batch(t, t.queue)
    requires t'.used == t.used + WriteBytes(t.queue)
    requires t'.epoch == t.epoch && t'.lost == t.lost && t'.peerMr == t.peerMr
    ensures forall i :: 0 <= i < |t'.posted| && IsWrite(t'.posted[i].task) && t'.posted[i].epoch == t'.epoch
              ==> OffsetOk(t', i)
  {
    hide EpochBytes, MrAddr, MrRkey, Batch;
    var n := |t.posted|;
    forall i | 0 <= i < |t'.posted| && IsWrite(t'.posted[i].task) && t'.posted[i].epoch == t'.epoch
      ensures OffsetOk(t', i)
    {
      if i < n {
        assert OffsetOk(t, i);
        assert t'.posted[..i] == t.posted[..i];
      } else {
        BatchOffset(t, t', i - n);
      }
    }
  }

  lemma {:induction false} BatchOrder(t: Trans, t': Trans)
    requires WriteInv(t) && t'.posted == t.posted + Batch(t, t.queue)
    ensures forall i, j :: 0 <= i < j < |t'.posted| && IsWrite(t'.posted[i].task) && IsWrite(t'.posted[j].task)
              && t'.posted[i].epoch == t'.posted[j].epoch
              ==> t'.posted[i].off + t'.posted[i].task.len <= t'.posted[j].off
  {
    hide EpochBytes, MrAddr, MrRkey, Batch;
    var b, n := Batch(t, t.queue), |t.posted|;
    forall i | 0 <= i < |b|
      ensures b[i] == WrFor(t, t.queue[i], t.used + WriteBytes(t.queue[..i]))
    {
      BatchTasks(t, t.queue, i);
    }
    forall i, j | 0 <= i < j < |t'.posted| && IsWrite(t'.posted[i].task) && IsWrite(t'.posted[j].task)
      && t'.posted[i].epoch == t'.posted[j].epoch
      ensures t'.posted[i].off + t'.posted[i].task.len <= t'.posted[j].off
    {
      if i < n <= j {
        assert t'.posted[i] == t.posted[i] && t'.posted[j] == b[j - n];
        assert t.posted[i].epoch == t.epoch ==> OffsetOk(t, i);
      } else if n <= i {
        assert t'.posted[i] == b[i - n] && t'.posted[j] == b[j - n];
        WriteBytesGrows(t.queue, i - n, j - n);
      }
    }
  }

  lemma {:induction false} BatchOffset(t: Trans, t': Trans, k: nat)
    requires k < |t.queue| && IsWrite(Batch(t, t.queue)[k].task) && t.used == EpochBytes(t.posted, t.epoch) + t.lost
    requires t'.posted == t.posted + Batch(t, t.queue)
    requires t'.used == t.used + WriteBytes(t.queue)
    requires t'.epoch == t.epoch && t'.lost == t.lost && t'.peerMr == t.peerMr
    ensures OffsetOk(t', |t.posted| + k)
  {
    hide MrAddr, MrRkey;
    var b, i := Batch(t, t.queue), |t.posted| + k;
    BatchTasks(t, t.queue, k);
    EpochBytesBatch(t, t.queue, k);
    WriteBytesGrows(t.queue, k, |t.queue|);
    assert t.queue[..|t.queue|] == t.queue;
    assert t'.posted[..i] == t.posted + b[..k];
    EpochBytesConcat(t.posted, b[..k], t.epoch);
  }

  // The first half of OnMr: the descriptor is replaced and the offset restarts.
  function NewEpoch(t: Trans, desc: Mr): Trans {
    t.(peerMr := desc, used := 0, epoch := t.epoch + 1, lost := 0)
  }

  lemma {:induction false} EpochKeepsWrites(t: Trans, desc: Mr)
    requires WriteInv(t)
    ensures WriteInv(NewEpoch(t, desc))
  {
    EpochBytesNone(t.posted, t.epoch + 1);
  }

  lemma {:induction false} SameWrites(t: Trans, t': Trans)
    requires WriteInv(t)
    requires t'.posted == t.posted && t'.used == t.used && t'.epoch == t.epoch && t'.lost == t.lost
    requires t'.peerMr == t.peerMr
    ensures WriteInv(t')
  {
    forall i | 0 <= i < |t'.posted| && IsWrite(t'.posted[i].task) && t'.posted[i].epoch == t'.epoch
      ensures OffsetOk(t', i)
    {
      assert OffsetOk(t, i);
    }
  }

  // ----- Receive buffers.

  ghost predicate RecvInv(t: Trans) {
    && 0 < t.recvSize <= ALLOC_MEM_SIZE
    && t.usedRecv == Used(Same(t.recvSize, |t.recvs|))
    && (forall k :: 0 <= k < |t.recvs| ==> t.recvs[k] == RECV_BASE + Slot(t.recvSize, k))
  }

  lemma {:induction false} PostKeepsRecvs(t: Trans)
    requires RecvInv(t)
    ensures RecvInv(PostRecv(t))
  {
    var n := |t.recvs|;
    SameUsed(t.recvSize, n);
    assert Front(Same(t.recvSize, n + 1)) == Same(t.recvSize, n);
  }

  lemma {:induction false} PrePostKeepsRecvs(t: Trans, n: nat)
    requires RecvInv(t)
    ensures RecvInv(PostRecvs(t, n))
    ensures |PostRecvs(t, n).recvs| == |t.recvs| + n
    ensures PostRecvs(t, n) == t.(usedRecv := PostRecvs(t, n).usedRecv, recvs := PostRecvs(t, n).recvs)
    decreases n
  {
    if n > 0 {
      PrePostKeepsRecvs(t, n - 1);
      PostKeepsRecvs(PostRecvs(t, n - 1));
    }
  }

  // ----- All of it, for every step.

  ghost predicate TransInv(t: Trans) {
    QueueInv(t) && TaskInv(t) && WriteInv(t) && RecvInv(t)
  }

  lemma {:induction false} CreateInv(isClient: bool, recvSize: nat, mr: Mr)
    requires 0 < recvSize <= ALLOC_MEM_SIZE
    ensures TransInv(Create(isClient, recvSize, mr))
  {
  }

  lemma {:induction false} SendInv(t: Trans, msg: Msg)
    requires TransInv(t) && Sendable(msg)
    ensures TransInv(RdmaSend(t, msg))
  {
    SendKeepsQueue(t, msg);
    SendKeepsTasks(t, msg);
    SendKeepsWrites(t, msg);
  }

  lemma {:induction false} FlushInv(t: Trans, ok: bool)
    requires TransInv(t)
    ensures TransInv(Flush(t, ok))
  {
    FlushKeepsQueue(t, ok);
    FlushKeepsTasks(t, ok);
    FlushKeepsWrites(t, ok);
  }

  // Steps that leave the fields of QueueInv, TaskInv and WriteInv alone.
  lemma {:induction false} QuietInv(t: Trans, t': Trans)
    requires TransInv(t) && RecvInv(t')
    requires t' == t.(st := t'.st, disc := t'.disc, rcvd := t'.rcvd, freed := t'.freed,
                      usedRecv := t'.usedRecv, recvs := t'.recvs)
    ensures TransInv(t')
  {
    assert AllTasks(t') == AllTasks(t);
    SameWrites(t, t');
  }

  lemma {:induction false} StartInv(t: Trans)
    requires TransInv(t)
    ensures TransInv(Started(t))
  {
    var t1 := t.(st := CONNECTING);
    PrePostKeepsRecvs(t1, PrePostCount(t.recvSize));
    QuietInv(t, Started(t));
  }

  lemma {:induction false} EstablishedInv(t: Trans)
    requires TransInv(t)
    ensures TransInv(Established(t))
  {
    QuietInv(t, t.(st := CONNECTED));
    SendInv(t.(st := CONNECTED), MrMsg(t.mr));
  }

  lemma {:induction false} OnCloseInv(t: Trans, typ: int)
    requires TransInv(t)
    ensures TransInv(OnClose(t, typ))
  {
    if typ == FINISH {
      SendInv(t, DoneMsg());
    } else {
      QuietInv(t, OnClose(t, typ));
    }
  }

  lemma {:induction false} HandleInv(t: Trans, wc: Wc, msg: Msg, desc: Mr)
    requires TransInv(t)
    ensures TransInv(Handle(t, wc, msg, desc))
  {
    hide QueueInv, TaskInv, WriteInv;
    match wc
    case Sent(wr) =>
      QuietInv(t, OnSent(t, wr));
    case Rcvd(_, _) =>
      var t0 := t.(rcvd := t.rcvd + [msg]);
      QuietInv(t, t0);
      OnCloseInv(t0, msg.typ);
      var t1 := OnClose(t0, msg.typ);
      MrInv(t1, desc);
      var t2 := if msg.typ == MR then OnMr(t1, desc) else t1;
      PostKeepsRecvs(t2);
      QuietInv(t2, PostRecv(t2));
  }

  lemma {:induction false} MrInv(t: Trans, desc: Mr)
    requires TransInv(t)
    ensures TransInv(OnMr(t, desc))
  {
    hide TransInv, QueueInv, TaskInv, WriteInv, RecvInv;
    var t1 := NewEpoch(t, desc);
    EpochInv(t, desc);
    SendInv(t1, MrMsg(t1.mr));
    var t2 := if t1.st == CONNECTED then RdmaSend(t1, MrMsg(t1.mr)) else t1;
    SameRecvs(t2, OnMr(t, desc));
    QuietInv(t2, OnMr(t, desc));
  }

  lemma {:induction false} EpochInv(t: Trans, desc: Mr)
    requires TransInv(t)
    ensures TransInv(NewEpoch(t, desc))
  {
    hide WriteInv;
    EpochKeepsWrites(t, desc);
    assert AllTasks(NewEpoch(t, desc)) == AllTasks(t);
  }

  lemma {:induction false} SameRecvs(t: Trans, t': Trans)
    requires TransInv(t) && t' == t.(st := t'.st)
    ensures RecvInv(t')
  {
    hide QueueInv, TaskInv, WriteInv;
  }
}
