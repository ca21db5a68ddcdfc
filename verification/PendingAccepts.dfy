/** The stack of connection requests a listener keeps in the accept_rdma_trans links:
    on_cm_connect_request pushes, hmr_rdma_accept pops. */
module PendingAccepts {
  import opened Sequences

  class Conn {
    const id: nat
    var accept: Conn?

    constructor (id: nat)
      ensures this.id == id && accept == null
    {
      this.id := id;
      accept := null;
    }
  }

  // From c the links lead through exactly the connections of s and then to null.
  ghost predicate Stack(c: Conn?, s: seq<Conn>)
    reads s
    decreases |s|
  {
    if s == [] then c == null else c == s[0] && Stack(s[0].accept, s[1..])
  }

  class Listener {
    var accept: Conn?

    // Requests not accepted yet, newest first; those accepted, and those taken from
    // the stack for which rdma_accept then failed.
    ghost var pending: seq<Conn>
    ghost var accepted: seq<Conn>
    ghost var dropped: seq<Conn>

    // Every request ever queued.
    ghost var requests: set<Conn>

    ghost predicate Valid()
      reads this, pending
    {
      && Stack(accept, pending)
      && Distinct(pending + accepted + dropped)
      && requests == (set x | x in pending + accepted + dropped)
    }

    constructor ()
      ensures Valid() && pending == accepted == dropped == [] && requests == {}
    {
      accept, requests := null, {};
      pending, accepted, dropped := [], [], [];
    }

    // on_cm_connect_request, once the endpoint and its queue pair exist.
    method ConnectRequest(c: Conn)
      requires Valid() && c !in requests
      modifies this`accept, this`pending, this`requests, c
      ensures Valid() && pending == [c] + old(pending) && requests == old(requests) + {c}
    {
      ghost var all := pending + accepted + dropped;
      c.accept := accept;
      accept := c;
      pending, requests := [c] + pending, requests + {c};
      assert pending[1..] == old(pending);
      assert pending + accepted + dropped == [c] + all;
      assert forall i :: 0 <= i < |all| ==> all[i] in all;
      assert c !in old(pending);
    }

    // hmr_rdma_accept, from the moment a request is there; ok is the outcome of rdma_accept.
    method Accept(ok: bool) returns (c: Conn?)
      requires Valid() && pending != []
      modifies this, pending
      ensures Valid() && pending == old(pending)[1..] && requests == old(requests)
      ensures c == if ok then old(pending)[0] else null
      ensures accepted == old(accepted) + if ok then [old(pending)[0]] else []
      ensures dropped == old(dropped) + if ok then [] else [old(pending)[0]]
      ensures old(pending)[0].accept == null
    {
      ghost var rest := pending[1..];
      var top: Conn := accept;
      assert pending == [top] + rest && top !in rest by {
        assert forall i :: 0 <= i < |pending| ==> (pending + accepted + dropped)[i] == pending[i];
      }
      accept := top.accept;
      top.accept := null;
      ghost var all := pending + accepted + dropped;
      Moved(top, rest, accepted, dropped, all);
      pending := rest;
      if ok {
        accepted := accepted + [top];
        c := top;
      } else {
        dropped := dropped + [top];
        c := null;
      }
    }
  }

  lemma {:induction false} Moved(x: Conn, p: seq<Conn>, a: seq<Conn>, d: seq<Conn>, all: seq<Conn>)
    requires all == [x] + p + a + d && Distinct(all)
    ensures Distinct(p + (a + [x]) + d) && Distinct(p + a + (d + [x]))
  {
    var n, m := |p|, |p| + |a|;
    var u, v := p + (a + [x]) + d, p + a + (d + [x]);
    forall i, j | 0 <= i < j < |u|
      ensures u[i] != u[j] && v[i] != v[j]
    {
      assert u[i] == if i < m then all[i + 1] else if i == m then all[0] else all[i];
      assert u[j] == if j < m then all[j + 1] else if j == m then all[0] else all[j];
      assert v[i] == all[i + 1] && v[j] == if j < |v| - 1 then all[j + 1] else all[0];
    }
  }
}
