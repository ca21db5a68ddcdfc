/** hmr_cq_comp_channel_handler against a network card that may add completions between
    any two of its steps.

    Requesting notification arms the queue; the next completion then puts one event on
    the channel and disarms it.  The handler runs when an event is pending: it takes the
    event, acknowledges it, re-arms the queue, and drains the completions. */
module CompletionChannel {
  import opened Sequences
  import opened TransportModel

  datatype Pc = Idle | Got | Acked | Draining

  // added and taken record the completions the card has put on the queue and those that
  // ibv_poll_cq has returned.
  datatype Chan = Chan(pc: Pc, queue: seq<Wc>, armed: bool, events: nat, gets: nat, acks: nat,
                       added: seq<Wc>, taken: seq<Wc>)

  // hmr_cq_get: the queue is armed before it is used.
  const Created := Chan(Idle, [], true, 0, 0, 0, [], [])

  datatype Act = Complete(wc: Wc) | Get | AckOne | Rearm | Poll

  predicate Enabled(c: Chan, a: Act) {
    match a
    case Complete(_) => true
    case Get => c.pc == Idle && c.events > 0
    case AckOne => c.pc == Got
    case Rearm => c.pc == Acked
    case Poll => c.pc == Draining
  }

  function Step(c: Chan, a: Act): Chan
    requires Enabled(c, a)
  {
    match a
    case Complete(wc) =>
      c.(queue := c.queue + [wc], added := c.added + [wc],
         armed := false, events := c.events + if c.armed then 1 else 0)
    case Get => c.(pc := Got, events := c.events - 1, gets := c.gets + 1)
    case AckOne => c.(pc := Acked, acks := c.acks + 1)
    case Rearm => c.(pc := Draining, armed := true)
    case Poll =>
      if c.queue != [] then c.(queue := c.queue[1..], taken := c.taken + [c.queue[0]]) else c.(pc := Idle)
  }

  // Some step that has not run yet will look at the queue again.
  predicate Watched(c: Chan) {
    && (c.pc == Idle && c.queue != [] ==> c.events > 0)
    && (c.pc == Idle || c.pc == Draining ==> c.armed || c.events > 0)
    && c.acks == c.gets - (if c.pc == Got then 1 else 0)
  }

  function Next(c: Chan, a: Act): Chan { if Enabled(c, a) then Step(c, a) else c }

  function Run(c: Chan, acts: seq<Act>): Chan {
    if acts == [] then c else Next(Run(c, Front(acts)), Last(acts))
  }

  /** No lost wakeup: in every interleaving, when the handler is idle and the queue is not
      empty an event is pending, and then every event taken has been acknowledged. */
  lemma {:induction false} NoLostWakeup(acts: seq<Act>)
    ensures var c := Run(Created, acts);
            && Watched(c)
            && (c.pc == Idle && c.queue != [] ==> c.events > 0)
            && (c.pc == Idle ==> c.acks == c.gets)
  {
    if acts != [] {
      NoLostWakeup(Front(acts));
    }
  }

  function RearmOf(a: Act): nat { if a.Rearm? then 1 else 0 }

  /** Every event needs an arming of its own: the events taken and pending, and the arming
      still in force, are no more than the first arming and the re-armings. */
  lemma {:induction false} EventsNeedArming(acts: seq<Act>)
    ensures var c := Run(Created, acts);
            c.gets + c.events + (if c.armed then 1 else 0) <= 1 + Sum(acts, RearmOf)
  {
    if acts != [] {
      EventsNeedArming(Front(acts));
    }
  }

  // The completions the card adds in the course of acts, and the turns of the drain loop.
  function AddedBy(a: Act): seq<Wc> { if a.Complete? then [a.wc] else [] }

  function PollOf(a: Act): nat { if a.Poll? then 1 else 0 }

  /** No lost completion: in every interleaving the completions taken, followed by those
      still queued, are exactly those the card added, in order; and a turn of the drain
      loop takes one at most. */
  lemma {:induction false} NoLostCompletion(acts: seq<Act>)
    ensures var c := Run(Created, acts);
            && c.taken + c.queue == Collect(acts, AddedBy) == c.added
            && |c.taken| <= Sum(acts, PollOf)
  {
    if acts != [] {
      NoLostCompletion(Front(acts));
      var c, a := Run(Created, Front(acts)), Last(acts);
      if a.Complete? {
        assert c.taken + (c.queue + [a.wc]) == (c.taken + c.queue) + [a.wc];
      } else if a.Poll? && Enabled(c, a) && c.queue != [] {
        assert c.taken + [c.queue[0]] + c.queue[1..] == c.taken + c.queue;
      }
    }
  }

  function All(wcs: seq<Wc>): seq<Wc> { wcs }

  function Flat(s: seq<seq<Wc>>): seq<Wc> { Collect(s, All) }

  // The same queue as an object.  plan is what the network card will do: the completions
  // it adds at each of the following points of the handler.
  class Queue {
    var chan: Chan
    var plan: seq<seq<Wc>>
    ghost var trace: seq<Act>

    constructor (plan: seq<seq<Wc>>)
      ensures Valid() && chan == Created && trace == [] && this.plan == plan
    {
      chan, trace := Created, [];
      this.plan := plan;
    }

    ghost predicate Valid()
      reads this
    {
      chan == Run(Created, trace)
    }

    method Do(a: Act)
      requires Valid() && Enabled(chan, a)
      modifies this`chan, this`trace
      ensures Valid() && chan == Step(old(chan), a)
    {
      chan := Step(chan, a);
      trace := trace + [a];
      assert Front(trace) == old(trace);
    }

    // The network card's turn.  all is its plan from the start, of which it has done k.
    method Card(ghost all: seq<seq<Wc>>, ghost k: nat) returns (ghost k': nat)
      requires Valid() && k <= |all| && plan == all[k..]
      modifies this
      ensures Valid() && chan.pc == old(chan.pc) && chan.gets == old(chan.gets) && chan.acks == old(chan.acks)
      ensures k' == (if k < |all| then k + 1 else k) && plan == all[k'..]
      ensures chan.queue == old(chan.queue) + if k < |all| then all[k] else []
      ensures Flat(all[..k']) == Flat(all[..k]) + if k < |all| then all[k] else []
    {
      k' := k;
      if plan != [] {
        var news := plan[0];
        plan := plan[1..];
        k' := k + 1;
        assert Front(all[..k']) == all[..k];
        ghost var before := chan;
        for i := 0 to |news|
          invariant Valid() && chan.pc == before.pc && chan.gets == before.gets && chan.acks == before.acks
          invariant plan == all[k'..] && chan.queue == before.queue + news[..i]
        {
          Do(Complete(news[i]));
        }
      }
    }

    // ibv_poll_cq for one completion; n says whether there was one.
    method PollCq() returns (n: nat, wcs: seq<Wc>)
      requires Valid() && chan.pc == Draining
      modifies this`chan, this`trace
      ensures Valid() && n == |wcs| <= 1 && (n == 0 <==> old(chan.queue) == [])
      ensures old(chan.queue) == wcs + chan.queue
      ensures chan.pc == if n == 0 then Idle else Draining
      ensures chan.gets == old(chan.gets) && chan.acks == old(chan.acks)
    {
      wcs := if chan.queue == [] then [] else [chan.queue[0]];
      n := |wcs|;
      Do(Poll);
    }

    // One turn of the drain loop: the card acts, then the handler polls.  What was handled
    // and what is queued stay, together, what was there first and what the card added.
    method Turn(ghost all: seq<seq<Wc>>, ghost k: nat, ghost first: seq<Wc>, ghost handled: seq<Wc>)
      returns (ghost k': nat, n: nat, wcs: seq<Wc>)
      requires Valid() && chan.pc == Draining && k <= |all| && plan == all[k..]
      requires handled + chan.queue == first + Flat(all[..k])
      modifies this
      ensures Valid() && chan.pc == if n == 0 then Idle else Draining
      ensures chan.gets == old(chan.gets) && chan.acks == old(chan.acks)
      ensures n == |wcs| <= 1 && (n == 0 ==> chan.queue == [])
      ensures k <= k' <= |all| && plan == all[k'..]
      ensures k' == k ==> plan == [] && |chan.queue| + n == |old(chan.queue)|
      ensures handled + wcs + chan.queue == first + Flat(all[..k'])
    {
      hide Run, Flat;
      k' := Card(all, k);
      ghost var news := if k < |all| then all[k] else [];
      assert handled + chan.queue == (first + Flat(all[..k])) + news;
      assert handled + chan.queue == first + Flat(all[..k']);
      n, wcs := PollCq();
    }

    /** The handler, with the card acting before each of its steps.  It ends with an empty
        queue that is armed or has an event pending, whatever the card does; and it has
        handed to the completion handler, one per turn, what was queued before and then
        all that the card added, each once and in order. */
    method CompChannelHandler() returns (handled: seq<Wc>, turns: nat)
      requires Valid() && chan.pc == Idle && chan.events > 0
      modifies this
      ensures Valid() && chan.pc == Idle && chan.queue == []
      ensures chan.armed || chan.events > 0
      ensures chan.gets == old(chan.gets) + 1 && chan.acks == chan.gets
      ensures |plan| <= |old(plan)| && plan == old(plan)[|old(plan)| - |plan|..]
      ensures handled == old(chan.queue) + Flat(old(plan)[..|old(plan)| - |plan|])
      ensures turns == |handled|
      ensures chan.taken == chan.added
    {
      hide Run;
      ghost var all, first := plan, chan.queue;
      NoLostWakeup(trace);
      Do(Get);
      ghost var k := Card(all, 0);
      Do(AckOne);
      k := Card(all, k);
      Do(Rearm);
      handled, turns := [], 0;
      var n := 1;
      while n != 0
        invariant Valid() && chan.gets == old(chan.gets) + 1
        invariant chan.pc == if n != 0 then Draining else Idle
        invariant n == 0 ==> chan.queue == []
        invariant k <= |all| && plan == all[k..]
        invariant handled + chan.queue == first + Flat(all[..k])
        invariant turns == |handled|
        decreases n, |plan|, |chan.queue|
      {
        var wcs;
        k, n, wcs := Turn(all, k, first, handled);
        handled := handled + wcs;
        turns := turns + n;
      }
      NoLostWakeup(trace);
      NoLostCompletion(trace);
    }
  }
}
