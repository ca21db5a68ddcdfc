/** The array of work requests hmr_send_task_handler builds: send_wr[] chained by next,
    each pointing to an entry of the parallel array sge[]. */
module SendBatch {
  import opened Allocator
  import opened Sequences
  import opened TransportModel
  import opened Wire
  import V = TransportInvariants

  // next is an index into the same array; -1 is the null pointer.
  datatype SendWr = SendWr(wrId: Task, next: int, sg: nat, raddr: int, rkey: int, off: nat, epoch: nat)

  datatype Sge = Sge(addr: nat, length: nat)

  // Following next from request i visits k requests of wrs and ends in null.
  ghost predicate Chain(wrs: seq<SendWr>, sges: seq<Sge>, i: int, k: nat)
    decreases k
  {
    if k == 0 then i == -1
    else 0 <= i < |wrs| && wrs[i].sg < |sges| && Chain(wrs, sges, wrs[i].next, k - 1)
  }

  // What the network card makes of request i: the task of wr_id, sent from the buffer
  // that the scatter/gather entry names.
  function Fetch(wrs: seq<SendWr>, sges: seq<Sge>, i: nat): Wr
    requires i < |wrs| && wrs[i].sg < |sges|
  {
    var w, g := wrs[i], sges[wrs[i].sg];
    Wr(w.wrId.(addr := g.addr, len := g.length), w.raddr, w.rkey, w.off, w.epoch)
  }

  ghost function Gather(wrs: seq<SendWr>, sges: seq<Sge>, i: int, k: nat): (r: seq<Wr>)
    requires Chain(wrs, sges, i, k)
    ensures |r| == k
    decreases k
  {
    if k == 0 then [] else [Fetch(wrs, sges, i)] + Gather(wrs, sges, wrs[i].next, k - 1)
  }

  // w and g describe queued task j of t, in a batch of n.
  ghost predicate Entry(t: Trans, w: SendWr, g: Sge, j: nat, n: nat)
    requires j < |t.queue|
  {
    var x := WrFor(t, t.queue[j], t.used + WriteBytes(t.queue[..j]));
    && w == SendWr(t.queue[j], if j == n - 1 then -1 else j + 1, j, x.raddr, x.rkey, x.off, x.epoch)
    && g == Sge(t.queue[j].addr, t.queue[j].len)
  }

  // The first n entries of the arrays describe the first n queued tasks.
  ghost predicate Described(t: Trans, wrs: seq<SendWr>, sges: seq<Sge>, n: nat, size: nat)
    requires n <= |t.queue| && n <= |wrs| && n <= |sges|
  {
    forall i :: 0 <= i < n ==> Entry(t, wrs[i], sges[i], i, size)
  }

  lemma {:induction false} DescribeNone(t: Trans, wrs: seq<SendWr>, sges: seq<Sge>, size: nat)
    ensures Described(t, wrs, sges, 0, size) && WriteBytes(t.queue[..0]) == 0
  {
  }

  // The counter of the record is not used when it is given separately.
  lemma {:induction false} WrForUsed(t: Trans, t': Trans, task: Task, used: nat)
    requires t'.peerMr == t.peerMr && t'.epoch == t.epoch
    ensures WrFor(t, task, used) == WrFor(t', task, used)
  {
  }

  // One more entry is filled; its next still points to the following element.
  lemma {:induction false} DescribeNext(t: Trans, wrs: seq<SendWr>, sges: seq<Sge>, wrs': seq<SendWr>,
                                        sges': seq<Sge>, n: nat, used: nat)
    requires n < |t.queue| && n < |wrs| == |wrs'| && n < |sges| == |sges'|
    requires Described(t, wrs, sges, n, |t.queue| + 1) && used == t.used + WriteBytes(t.queue[..n])
    requires wrs'[..n] == wrs[..n] && sges'[..n] == sges[..n]
    requires var x := WrFor(t, t.queue[n], used);
             wrs'[n] == SendWr(t.queue[n], n + 1, n, x.raddr, x.rkey, x.off, x.epoch)
    requires sges'[n] == Sge(t.queue[n].addr, t.queue[n].len)
    ensures Described(t, wrs', sges', n + 1, |t.queue| + 1)
    ensures WriteBytes(t.queue[..n + 1]) == WriteBytes(t.queue[..n]) + if IsWrite(t.queue[n]) then t.queue[n].len else 0
  {
    forall i | 0 <= i < n
      ensures Entry(t, wrs'[i], sges'[i], i, |t.queue| + 1)
    {
      assert wrs'[i] == wrs'[..n][i] && wrs[i] == wrs[..n][i] && sges'[i] == sges'[..n][i] && sges[i] == sges[..n][i];
    }
    assert Front(t.queue[..n + 1]) == t.queue[..n];
  }

  // After the loop the last next is cleared.
  lemma {:induction false} DescribeAll(t: Trans, wrs: seq<SendWr>, sges: seq<Sge>, wrs': seq<SendWr>)
    requires var n := |t.queue|; 0 < n <= |wrs| == |wrs'| && n <= |sges| && Described(t, wrs, sges, n, n + 1)
    requires var n := |t.queue|; wrs'[..n - 1] == wrs[..n - 1] && wrs'[n - 1] == wrs[n - 1].(next := -1)
    ensures Described(t, wrs', sges, |t.queue|, |t.queue|)
  {
    var n := |t.queue|;
    forall i | 0 <= i < n
      ensures Entry(t, wrs'[i], sges[i], i, n)
    {
      assert Entry(t, wrs[i], sges[i], i, n + 1);
      assert i < n - 1 ==> wrs'[i] == wrs'[..n - 1][i] == wrs[..n - 1][i];
    }
  }

  lemma {:induction false} WrForTask(t: Trans, task: Task, used: nat)
    ensures WrFor(t, task, used).task == task
  {
  }

  lemma {:induction false} ChainFrom(t: Trans, wrs: seq<SendWr>, sges: seq<Sge>, j: nat)
    requires |t.queue| <= |wrs| && |t.queue| <= |sges| && j < |t.queue|
    requires Described(t, wrs, sges, |t.queue|, |t.queue|)
    ensures Chain(wrs, sges, j, |t.queue| - j)
    ensures Gather(wrs, sges, j, |t.queue| - j) == Batch(t, t.queue)[j..]
    decreases |t.queue| - j
  {
    hide Batch, WriteBytes, WrFor;
    var n := |t.queue|;
    assert Entry(t, wrs[j], sges[j], j, n);
    WrForTask(t, t.queue[j], t.used + WriteBytes(t.queue[..j]));
    V.BatchTasks(t, t.queue, j);
    if j < n - 1 {
      ChainFrom(t, wrs, sges, j + 1);
      assert Batch(t, t.queue)[j..] == [Batch(t, t.queue)[j]] + Batch(t, t.queue)[j + 1..];
    } else {
      assert Batch(t, t.queue)[j..] == [Batch(t, t.queue)[j]];
    }
  }

  /** The chain that starts at send_wr[0] visits the queued tasks once each and in order,
      ends in null, and describes exactly the batch the model posts: every request its
      own task, buffer, remote address and key. */
  lemma {:induction false} ChainIsBatch(t: Trans, wrs: seq<SendWr>, sges: seq<Sge>)
    requires t.queue != [] && |t.queue| <= |wrs| && |t.queue| <= |sges|
    requires Described(t, wrs, sges, |t.queue|, |t.queue|)
    ensures Chain(wrs, sges, 0, |t.queue|)
    ensures Gather(wrs, sges, 0, |t.queue|) == Batch(t, t.queue)
  {
    hide Batch, WriteBytes, Described;
    ChainFrom(t, wrs, sges, 0);
    assert Batch(t, t.queue)[0..] == Batch(t, t.queue);
  }
}
