/** Who owns a send task: the list, the queue pair, or nobody (freed). */
module Ownership {
  import opened Wire
  import opened Allocator
  import opened Sequences
  import opened TransportModel
  import opened TransportInvariants
  import opened Connection
  import opened ConnectionInvariants

  ghost predicate OnList(t: Trans, id: nat) {
    exists k :: 0 <= k < |t.queue| && t.queue[k].id == id
  }

  // Posted, and its completion not yet handled.
  ghost predicate Outstanding(x: Ep, id: nat) {
    exists k :: |x.t.freed| <= k < |x.t.posted| && x.t.posted[k].task.id == id
  }

  ghost predicate Freed(t: Trans, id: nat) {
    exists k :: 0 <= k < |t.freed| && t.freed[k].task.id == id
  }

  ghost predicate OneOwner(x: Ep, id: nat) {
    && (OnList(x.t, id) || Outstanding(x, id) || Freed(x.t, id))
    && !(OnList(x.t, id) && Outstanding(x, id))
    && !(OnList(x.t, id) && Freed(x.t, id))
    && !(Outstanding(x, id) && Freed(x.t, id))
  }

  ghost predicate FreedOnce(t: Trans) {
    forall i, j :: 0 <= i < j < |t.freed| ==> t.freed[i].task.id != t.freed[j].task.id
  }

  function IdSet(s: seq<Task>): set<nat> { set k | 0 <= k < |s| :: s[k].id }

  function Below(n: nat): (s: set<nat>)
    ensures forall k :: k in s <==> 0 <= k < n
  {
    if n == 0 then {} else Below(n - 1) + {n - 1}
  }

  lemma {:induction false} IdCount(s: seq<Task>)
    requires forall i, j :: 0 <= i < j < |s| ==> s[i].id != s[j].id
    ensures |IdSet(s)| == |s|
  {
    if s != [] {
      IdCount(Front(s));
      assert IdSet(s) == IdSet(Front(s)) + {Last(s).id};
    }
  }

  lemma {:induction false} BelowCount(n: nat)
    ensures |Below(n)| == n
  {
    if n > 0 {
      BelowCount(n - 1);
    }
  }

  // n numbered tasks carry all the numbers below n.
  lemma {:induction false} NumberedCovers(s: seq<Task>, n: nat, id: nat)
    requires Numbered(s, n) && id < n
    ensures exists k :: 0 <= k < |s| && s[k].id == id
  {
    IdCount(s);
    BelowCount(n);
    assert IdSet(s) <= Below(n);
    if id !in IdSet(s) {
      assert IdSet(s) <= Below(n) - {id};
      SubsetCount(IdSet(s), Below(n) - {id});
    }
  }

  lemma {:induction false} SubsetCount(a: set<nat>, b: set<nat>)
    requires a <= b
    ensures |a| <= |b|
    decreases |a|
  {
    if a != {} {
      var x :| x in a;
      SubsetCount(a - {x}, b - {x});
    }
  }

  lemma {:induction false} FreedIsPosted(x: Ep)
    requires SendFlow(x)
    ensures |x.t.freed| <= |x.t.posted| && x.t.freed == x.t.posted[..|x.t.freed|]
  {
    assert x.t.freed == x.t.posted[..x.acked][..|x.t.freed|];
  }

  // Where position k of AllTasks is, and where it is not.
  lemma {:induction false} OwnerAt(x: Ep, k: nat)
    requires TaskInv(x.t) && SendFlow(x) && k < |AllTasks(x.t)|
    ensures var id, p, f := AllTasks(x.t)[k].id, |x.t.posted|, |x.t.freed|;
            && (Freed(x.t, id) <==> k < f)
            && (Outstanding(x, id) <==> f <= k < p)
            && (OnList(x.t, id) <==> p <= k)
  {
    FreedIsPosted(x);
    var s, id := AllTasks(x.t), AllTasks(x.t)[k].id;
    var p, f := |x.t.posted|, |x.t.freed|;
    assert forall i :: 0 <= i < p ==> s[i] == x.t.posted[i].task;
    assert forall i :: 0 <= i < |x.t.queue| ==> s[p + i] == x.t.queue[i];
    assert forall i :: 0 <= i < f ==> x.t.freed[i] == x.t.posted[i];
    if k < f {
      assert x.t.freed[k].task.id == id;
    } else if k < p {
      assert x.t.posted[k].task.id == id;
    } else {
      assert x.t.queue[k - p].id == id;
    }
  }

  lemma {:induction false} OwnerOfInv(x: Ep, id: nat)
    requires TaskInv(x.t) && SendFlow(x) && id < |x.t.lens|
    ensures OneOwner(x, id)
  {
    FreedIsPosted(x);
    NumberedCovers(AllTasks(x.t), |x.t.lens|, id);
    var k :| 0 <= k < |AllTasks(x.t)| && AllTasks(x.t)[k].id == id;
    OwnerAt(x, k);
  }

  lemma {:induction false} FreedOnceOfInv(x: Ep)
    requires TaskInv(x.t) && SendFlow(x)
    ensures FreedOnce(x.t)
  {
    FreedIsPosted(x);
    assert forall k :: 0 <= k < |x.t.freed| ==> AllTasks(x.t)[k] == x.t.freed[k].task;
  }

  // The task whose completion is handled next is outstanding, not listed, not freed.
  lemma {:induction false} HeadOutstanding(x: Ep)
    requires TaskInv(x.t) && SendFlow(x) && x.cq != [] && x.cq[0].Sent?
    ensures var id := x.cq[0].wr.task.id;
            id < |x.t.lens| && Outstanding(x, id) && !OnList(x.t, id) && !Freed(x.t, id)
  {
    HeadSent(x);
    var f := |x.t.freed|;
    assert AllTasks(x.t)[f] == x.t.posted[f].task;
    OwnerOfInv(x, x.t.posted[f].task.id);
  }

  /** In every reachable state each send task ever created is on the list, outstanding
      in the queue pair, or freed, and only one of these; no task is freed twice; and a
      task about to be freed by a completion is neither listed nor already freed. */
  lemma {:induction false} OwnershipEveryRun(mrC: Mr, mrS: Mr, moves: seq<Move>, client: bool)
    ensures var z := Run(Init(mrC, mrS), moves);
            var x := if client then z.c else z.s;
            && (forall id: nat :: id < |x.t.lens| ==> OneOwner(x, id))
            && FreedOnce(x.t)
            && (x.cq != [] && x.cq[0].Sent? ==>
                  !OnList(x.t, x.cq[0].wr.task.id) && !Freed(x.t, x.cq[0].wr.task.id))
  {
    var z := Run(Init(mrC, mrS), moves);
    RunInv(mrC, mrS, moves);
    var x := if client then z.c else z.s;
    forall id: nat | id < |x.t.lens|
      ensures OneOwner(x, id)
    {
      OwnerOfInv(x, id);
    }
    FreedOnceOfInv(x);
    if x.cq != [] && x.cq[0].Sent? {
      HeadOutstanding(x);
    }
  }
}
