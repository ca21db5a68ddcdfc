/** Which messages hmr_rdma_send takes, and what it does with them. */
module Acceptance {
  import opened Wire
  import opened Allocator
  import opened Sequences
  import opened TransportModel
  import opened TransportInvariants
  import opened Connection
  import opened ConnectionInvariants
  import D = DescriptorExchange
  import H = HandshakeProgress

  // The state from which on a message of this type may be sent; RCONNECTED is the last.
  function FirstState(typ: int): int { if typ == READ || typ == WRITE then RCONNECTED else CONNECTED }

  predicate Open(st: int, typ: int) { FirstState(typ) <= st <= RCONNECTED }

  // A task of its own kind, with the next number, that carries msg.
  predicate Carries(task: Task, msg: Msg, id: nat) {
    task.id == id && task.typ == msg.typ && task.msg == msg && task.len == 8 + |msg.data|
  }

  // One task was added at the end of the list and of the accepted tasks, and no more.
  predicate TookIn(t: Trans, t': Trans, msg: Msg) {
    && |t'.queue| == |t.queue| + 1 && t'.queue[..|t.queue|] == t.queue
    && Carries(Last(t'.queue), msg, |t.lens|)
    && t'.accepted == t.accepted + [Last(t'.queue)]
    && t'.posted == t.posted
  }

  // One request was posted, and no task listed.
  predicate PostedIt(t: Trans, t': Trans, msg: Msg) {
    && |t'.posted| == |t.posted| + 1 && t'.posted[..|t.posted|] == t.posted
    && Carries(Last(t'.posted).task, msg, |t.lens|)
    && t'.queue == t.queue && t'.accepted == t.accepted
  }

  // The fields that hmr_rdma_send never changes.
  predicate SameRest(t: Trans, t': Trans) {
    t' == t.(usedSend := t'.usedSend, lens := t'.lens, queue := t'.queue, accepted := t'.accepted, posted := t'.posted)
  }

  /** For every connection and message: one task is created if and only if the state is
      CONNECTED to RCONNECTED, or RCONNECTED for READ and WRITE.  It goes to the end of the
      list, or, for a descriptor, to the queue pair; otherwise nothing changes. */
  lemma {:induction false} SendIff(t: Trans, msg: Msg)
    ensures var t' := RdmaSend(t, msg);
            && (Open(t.st, msg.typ) <==> |t'.lens| == |t.lens| + 1)
            && (Open(t.st, msg.typ) ==>
                  SameRest(t, t') && if msg.typ == MR then PostedIt(t, t', msg) else TookIn(t, t', msg))
            && (!Open(t.st, msg.typ) ==> t' == t)
  {
  }

  /** The call waits if and only if the state lies below that range, and fails if and only
      if it lies above. */
  lemma {:induction false} CheckIff(st: int, typ: int)
    ensures MsgCheck(st, typ) == Spin <==> st < FirstState(typ)
    ensures MsgCheck(st, typ) == Fail <==> st > RCONNECTED
    ensures MsgCheck(st, typ) == Pass <==> Open(st, typ)
  {
  }

  // ----- The completion of a send

  /** For every connection and request: the completion disconnects if and only if the
      request was a DONE, acknowledges the descriptor if and only if it was one and the
      state is CONNECTED, frees the task unless it was a READ, and changes nothing else. */
  lemma {:induction false} SentIff(t: Trans, wr: Wr)
    ensures var t' := OnSent(t, wr);
            && (t'.disc <==> t.disc || wr.task.typ == DONE)
            && (t'.st != t.st <==> wr.task.typ == MR && t.st == CONNECTED)
            && (t'.st != t.st ==> t'.st == SCONNECTED)
            && (if wr.task.typ == READ then t'.freed == t.freed else t'.freed == t.freed + [wr])
            && t' == t.(disc := t'.disc, st := t'.st, freed := t'.freed)
  {
  }

  // ----- Over runs

  // z' is z after client (or server) passed msg to hmr_rdma_send, which took it.
  ghost predicate Sent(z: Sys, z': Sys, client: bool, msg: Msg) {
    && TookIn(H.Side(z, client).t, H.Side(z', client).t, msg)
    && H.Side(z', client) == H.Side(z, client).(t := H.Side(z', client).t)
    && H.Side(z', !client) == H.Side(z, !client)
  }

  /** In every state of every run an application message is taken, and put behind all
      others, if and only if the connection is open for its type; otherwise the call has no
      effect yet. */
  lemma {:induction false} SendsEveryRun(mrC: Mr, mrS: Mr, moves: seq<Move>, client: bool, msg: Msg)
    requires msg.typ == NORMAL || msg.typ == WRITE || msg.typ == FINISH
    requires 8 + |msg.data| <= if msg.typ == WRITE then 1024 else 128
    ensures var z := Run(Init(mrC, mrS), moves);
            var z' := Run(Init(mrC, mrS), moves + [Move(client, AppSend(msg))]);
            if Open(H.Side(z, client).t.st, msg.typ) then Sent(z, z', client, msg) else z' == z
  {
    hide TookIn, RdmaSend;
    var z, m := Run(Init(mrC, mrS), moves), Move(client, AppSend(msg));
    assert Front(moves + [m]) == moves;
    CheckIff(H.Side(z, client).t.st, msg.typ);
    SendIff(H.Side(z, client).t, msg);
  }

  /** Once a side is open for a type of message it stays so: after the handshake the
      application is never turned away. */
  lemma {:induction false} StaysOpen(mrC: Mr, mrS: Mr, moves: seq<Move>, more: seq<Move>, client: bool, typ: int)
    requires Open(H.Side(Run(Init(mrC, mrS), moves), client).t.st, typ)
    ensures Open(H.Side(Run(Init(mrC, mrS), moves + more), client).t.st, typ)
  {
    D.StateMonotone(mrC, mrS, moves, more);
  }

  // ----- The DONE message

  // A C string with its terminating zero.
  function CString(s: string): (b: seq<Byte>)
    requires forall k :: 0 <= k < |s| ==> s[k] < 128 as char
    ensures |b| == |s| + 1
  {
    seq(|s|, k requires 0 <= k < |s| => s[k] as int) + [0]
  }

  lemma {:induction false} DoneText()
    ensures DoneMsg() == Msg(DONE, CString("the connection is closing."))
  {
    var text := "the connection is closing.";
    assert forall k :: 0 <= k < |text| ==> DoneMsg().data[k] == text[k] as int;
  }
}
