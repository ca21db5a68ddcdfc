/** The circular doubly linked list of linux/list.h on the heap.

    A list_head and the structure it is embedded in are one object here (container_of
    is the identity); data stands for the structure's other fields.  The poison values
    list_del stores are modelled by null.  Contents are described by ghost sequences:
    Ring(r) says the nodes of r are linked in this order and closed into a circle, and
    a list with head h and entries s is Ring([h] + s). */
module LinuxList {
  import opened Sequences

  class ListHead<T> {
    var next: ListHead?<T>
    var prev: ListHead?<T>
    var data: T

    // calloc and the list_head initialiser
    constructor (data: T)
      ensures this.data == data && next == this && prev == this && Ring([this])
    {
      this.data := data;
      next := this;
      prev := this;
    }
  }

  ghost predicate Ring<T>(r: seq<ListHead<T>>)
    reads r
  {
    && |r| >= 1
    && (forall i, j :: 0 <= i < j < |r| ==> r[i] != r[j])
    && (forall i {:trigger r[i].next} :: 0 <= i < |r| - 1 ==> r[i].next == r[i + 1])
    && (forall i {:trigger r[i].prev} :: 1 <= i < |r| ==> r[i].prev == r[i - 1])
    && r[|r| - 1].next == r[0] && r[0].prev == r[|r| - 1]
  }

  // The structures the entries are embedded in.
  ghost function DataOf<T>(s: seq<ListHead<T>>): (d: seq<T>)
    reads s
    ensures |d| == |s| && forall i :: 0 <= i < |s| ==> d[i] == s[i].data
  {
    seq(|s|, i requires 0 <= i < |s| reads s => s[i].data)
  }

  // A circle has no first element.
  lemma {:induction false} Rotate<T>(r: seq<ListHead<T>>, k: nat)
    requires Ring(r) && k <= |r|
    ensures Ring(r[k..] + r[..k])
  {
    var q := r[k..] + r[..k];
    assert forall i :: 0 <= i < |q| ==> q[i] == if i < |r| - k then r[k + i] else r[i - (|r| - k)];
  }

  lemma {:induction false} RotateBy<T>(a: seq<ListHead<T>>, b: seq<ListHead<T>>)
    requires Ring(a + b)
    ensures Ring(b + a)
  {
    Rotate(a + b, |a|);
    assert (a + b)[|a|..] + (a + b)[..|a|] == b + a;
  }

  // INIT_LIST_HEAD
  method Init<T>(h: ListHead<T>)
    modifies h`next, h`prev
    ensures Ring([h]) && h.next == h
  {
    h.next := h;
    h.prev := h;
  }

  // __list_add, in the circle cut open between prev and next.
  method AddBetween<T>(n: ListHead<T>, prev: ListHead<T>, next: ListHead<T>, ghost r: seq<ListHead<T>>)
    requires Ring(r) && prev == r[|r| - 1] && next == r[0] && n !in r
    modifies n`next, n`prev, prev`next, next`prev
    ensures Ring(r + [n])
  {
    next.prev := n;
    n.next := next;
    n.prev := prev;
    prev.next := n;
  }

  // list_add
  method Add<T>(n: ListHead<T>, head: ListHead<T>, ghost s: seq<ListHead<T>>)
    requires Ring([head] + s) && n !in [head] + s
    modifies n`next, n`prev, head`next, head.next`prev
    ensures Ring([head] + ([n] + s))
  {
    RotateBy([head], s);
    AddBetween(n, head, head.next, s + [head]);
    assert s + [head] + [n] == s + [head, n];
    RotateBy(s, [head, n]);
    assert [head, n] + s == [head] + ([n] + s);
  }

  // list_add_tail
  method AddTail<T>(n: ListHead<T>, head: ListHead<T>, ghost s: seq<ListHead<T>>)
    requires Ring([head] + s) && n !in [head] + s
    modifies n`next, n`prev, head`prev, head.prev`next
    ensures Ring([head] + (s + [n]))
  {
    AddBetween(n, head.prev, head, [head] + s);
    assert [head] + s + [n] == [head] + (s + [n]);
  }

  // __list_del
  method DelBetween<T>(prev: ListHead<T>, next: ListHead<T>, ghost entry: ListHead<T>, ghost t: seq<ListHead<T>>)
    requires Ring([entry] + t) && prev == entry.prev && next == entry.next
    modifies next`prev, prev`next
    ensures if t == [] then Ring([entry]) else Ring(t) && entry.prev == prev && entry.next == next
  {
    ghost var r := [entry] + t;
    assert forall i :: 0 <= i < |t| ==> t[i] == r[i + 1];
    next.prev := prev;
    prev.next := next;
  }

  // list_del: also legal on an entry that is its own circle, where it only poisons it.
  method Del<T>(entry: ListHead<T>, ghost t: seq<ListHead<T>>)
    requires Ring([entry] + t)
    modifies entry`next, entry`prev, entry.next`prev, entry.prev`next
    ensures t != [] ==> Ring(t)
    ensures entry.next == null && entry.prev == null
  {
    DelBetween(entry.prev, entry.next, entry, t);
    assert entry !in t by { assert forall i :: 0 <= i < |t| ==> t[i] == ([entry] + t)[i + 1]; }
    entry.next := null;
    entry.prev := null;
  }

  // list_del_init
  method DelInit<T>(entry: ListHead<T>, ghost t: seq<ListHead<T>>)
    requires Ring([entry] + t)
    modifies entry`next, entry`prev, entry.next`prev, entry.prev`next
    ensures t != [] ==> Ring(t)
    ensures Ring([entry]) && entry.next == entry
  {
    DelBetween(entry.prev, entry.next, entry, t);
    assert entry !in t by { assert forall i :: 0 <= i < |t| ==> t[i] == ([entry] + t)[i + 1]; }
    Init(entry);
  }

  // The links inside a stretch of a circle.
  ghost predicate Linked<T>(t: seq<ListHead<T>>)
    reads t
  {
    && (forall i, j :: 0 <= i < j < |t| ==> t[i] != t[j])
    && (forall i {:trigger t[i].next} :: 0 <= i < |t| - 1 ==> t[i].next == t[i + 1])
    && (forall i {:trigger t[i].prev} :: 1 <= i < |t| ==> t[i].prev == t[i - 1])
  }

  lemma {:induction false} Stretch<T>(a: seq<ListHead<T>>, t: seq<ListHead<T>>, b: seq<ListHead<T>>)
    requires Ring(a + t + b)
    ensures Linked(t)
    ensures forall x :: x in t ==> x !in a && x !in b
    ensures forall x :: x in b ==> x !in a
    ensures t != [] && a != [] ==> a[|a| - 1].next == t[0] && t[0].prev == a[|a| - 1]
    ensures t != [] && b != [] ==> t[|t| - 1].next == b[0] && b[0].prev == t[|t| - 1]
    ensures b == [] && a != [] && t != [] ==> t[|t| - 1].next == a[0] && a[0].prev == t[|t| - 1]
  {
    var r := a + t + b;
    assert forall i :: 0 <= i < |a| ==> r[i] == a[i];
    assert forall i :: 0 <= i < |t| ==> r[|a| + i] == t[i];
    assert forall i :: 0 <= i < |b| ==> r[|a| + |t| + i] == b[i];
  }

  lemma {:induction false} Close<T>(h: ListHead<T>, t: seq<ListHead<T>>)
    requires Linked(t) && h !in t
    requires if t == [] then h.next == h && h.prev == h
             else h.next == t[0] && t[0].prev == h && h.prev == t[|t| - 1] && t[|t| - 1].next == h
    ensures Ring([h] + t)
  {
    var r := [h] + t;
    assert forall i :: 0 <= i < |t| ==> r[i + 1] == t[i];
  }

  // list_replace.  When before is its own circle, the four assignments read the links
  // they have just written and leave n as its own circle.
  method Replace<T>(before: ListHead<T>, n: ListHead<T>, ghost t: seq<ListHead<T>>)
    requires Ring([before] + t) && n !in [before] + t
    modifies n`next, n`prev, before.next`prev, before.prev`next
    ensures Ring([n] + t)
    ensures before.next == old(before.next)
    ensures before.prev == if t == [] then n else old(before.prev)
  {
    assert [before] + t == [before] + t + [];
    Stretch([before], t, []);
    n.next := before.next;
    n.next.prev := n;
    n.prev := before.prev;
    n.prev.next := n;
    assert Linked(t);
    Close(n, t);
  }

  // list_empty
  method Empty<T>(head: ListHead<T>, ghost s: seq<ListHead<T>>) returns (b: bool)
    requires Ring([head] + s)
    ensures b <==> s == []
  {
    assert s != [] ==> ([head] + s)[1] == s[0];
    b := head.next == head;
  }

  // list_is_singular
  method IsSingular<T>(head: ListHead<T>, ghost s: seq<ListHead<T>>) returns (b: bool)
    requires Ring([head] + s)
    ensures b <==> |s| == 1
  {
    ghost var r := [head] + s;
    var e := Empty(head, s);
    assert s != [] ==> head.next == r[1] && head.prev == r[|r| - 1];
    b := !e && head.next == head.prev;
  }

  // list_move_tail.  The entry lies between p and q on the list of from; the target list
  // has the entries s, or is the same list.
  method MoveTail<T>(entry: ListHead<T>, head: ListHead<T>,
                     ghost from: ListHead<T>, ghost p: seq<ListHead<T>>, ghost q: seq<ListHead<T>>,
                     ghost s: seq<ListHead<T>>)
    requires Ring([from] + p + [entry] + q)
    requires if from == head then s == p + q
             else Ring([head] + s) && forall x :: x in [head] + s ==> x !in [from] + p + [entry] + q
    modifies entry, head, from, p, q, s
    ensures Ring([head] + (s + [entry]))
    ensures from != head ==> Ring([from] + (p + q))
    ensures forall x :: x in [from] + p + [entry] + q || x in [head] + s ==> x.data == old(x.data)
  {
    hide Ring;
    ghost var target := [head] + s;
    Unlinking(from, p, entry, q);
    assert from != head ==> entry.prev !in target && entry.next !in target;
    DelBetween(entry.prev, entry.next, entry, q + [from] + p);
    Relinked(from, p, q);
    assert Ring(target);
    PrevInRing(head, s);
    AddTail(entry, head, s);
  }

  // The circle of an entry, seen from the entry.
  lemma {:induction false} Unlinking<T>(from: ListHead<T>, p: seq<ListHead<T>>, entry: ListHead<T>, q: seq<ListHead<T>>)
    requires Ring([from] + p + [entry] + q)
    ensures Ring([entry] + (q + [from] + p))
    ensures entry !in [from] + (p + q)
    ensures entry.prev in [from] + p + [entry] + q && entry.next in [from] + p + [entry] + q
    ensures forall x :: x in [from] + (p + q) ==> x in [from] + p + [entry] + q
  {
    var r, n := [from] + p + [entry] + q, |p| + 1;
    assert r == ([from] + p) + ([entry] + q);
    RotateBy([from] + p, [entry] + q);
    assert [entry] + q + ([from] + p) == [entry] + (q + [from] + p);
    assert r[n] == entry && r[n - 1] == ([from] + p)[n - 1];
    assert q != [] ==> r[n + 1] == q[0];
    forall i | 0 <= i < |[from] + (p + q)|
      ensures ([from] + (p + q))[i] != entry
    {
      assert ([from] + (p + q))[i] == r[if i < n then i else i + 1];
    }
  }

  lemma {:induction false} PrevInRing<T>(head: ListHead<T>, s: seq<ListHead<T>>)
    requires Ring([head] + s)
    ensures head.prev in [head] + s
  {
    var r := [head] + s;
    assert head.prev == r[|r| - 1];
  }

  lemma {:induction false} Relinked<T>(from: ListHead<T>, p: seq<ListHead<T>>, q: seq<ListHead<T>>)
    requires Ring(q + [from] + p)
    ensures Ring([from] + (p + q))
  {
    assert q + [from] + p == q + ([from] + p);
    RotateBy(q, [from] + p);
    assert [from] + p + q == [from] + (p + q);
  }

  // list_rotate_left
  method RotateLeft<T>(head: ListHead<T>, ghost s: seq<ListHead<T>>)
    requires Ring([head] + s)
    modifies head, s
    ensures Ring([head] + if s == [] then [] else s[1..] + [s[0]])
    ensures head.data == old(head.data) && forall x :: x in s ==> x.data == old(x.data)
  {
    var e := Empty(head, s);
    if !e {
      assert ([head] + s)[1] == s[0];
      ghost var q := s[1..];
      assert [head] + s == [head] + [] + [s[0]] + q;
      assert [] + q == q;
      MoveTail(head.next, head, head, [], q, q);
    }
  }

  // The list [head] + a + b, seen as two stretches hanging on head.
  ghost predicate TwoStretches<T>(head: ListHead<T>, a: seq<ListHead<T>>, b: seq<ListHead<T>>)
    reads head, a, b
  {
    && Linked(a) && Linked(b) && a != []
    && head !in a && head !in b && (forall x :: x in b ==> x !in a)
    && head.next == a[0] && a[0].prev == head
    && a[|a| - 1].next == (if b == [] then head else b[0])
    && (if b == [] then head else b[0]).prev == a[|a| - 1]
    && (b != [] ==> b[|b| - 1].next == head && head.prev == b[|b| - 1])
  }

  lemma {:induction false} SplitList<T>(head: ListHead<T>, a: seq<ListHead<T>>, b: seq<ListHead<T>>)
    requires Ring([head] + a + b) && a != []
    ensures TwoStretches(head, a, b)
  {
    var r := [head] + a + b;
    assert r == ([head] + a) + b + [];
    Stretch([head], a, b);
    Stretch([head] + a, b, []);
    assert head in [head] && head in [head] + a;
    assert b != [] ==> ([head] + a)[0] == head;
  }

  // __list_cut_position
  method Cut<T>(list: ListHead<T>, head: ListHead<T>, entry: ListHead<T>, ghost a: seq<ListHead<T>>,
                ghost b: seq<ListHead<T>>)
    requires TwoStretches(head, a, b) && entry == a[|a| - 1]
    requires list != head && list !in a && list !in b
    modifies list, head, a, b
    ensures Ring([list] + a) && Ring([head] + b)
    ensures list.data == old(list.data) && head.data == old(head.data)
    ensures forall x :: x in a || x in b ==> x.data == old(x.data)
  {
    assert entry in a && a[0] in a && (b != [] ==> b[0] in b);
    var newFirst := entry.next;
    list.next := head.next;
    list.next.prev := list;
    list.prev := entry;
    entry.next := list;
    head.next := newFirst;
    newFirst.prev := head;
    Close(list, a);
    Close(head, b);
  }

  // list_cut_position: entries up to and including entry move to list.  entry is an
  // element of head's list or head itself; only for lists of at most one element does
  // the code tolerate any other pointer, and then it does nothing.
  method CutPosition<T>(list: ListHead<T>, head: ListHead<T>, entry: ListHead<T>, ghost s: seq<ListHead<T>>,
                        ghost k: nat)
    requires Ring([head] + s) && list !in [head] + s && k <= |s|
    requires |s| >= 2 ==> entry == ([head] + s)[k]
    requires entry in [head] + s ==> entry == ([head] + s)[k]
    modifies list, head, s
    ensures if s == [] || entry !in [head] + s then
              Ring([head] + s) && list.next == old(list.next) && list.prev == old(list.prev)
            else Ring([list] + s[..k]) && Ring([head] + s[k..])
    ensures list.data == old(list.data) && head.data == old(head.data)
    ensures forall x :: x in s ==> x.data == old(x.data)
  {
    var e := Empty(head, s);
    if e {
      return;
    }
    var single := IsSingular(head, s);
    assert ([head] + s)[1] == s[0];
    if single && head.next != entry && head != entry {
      assert entry !in [head] + s;
      return;
    }
    if entry == head {
      assert k == 0;
      Init(list);
      assert s[..0] == [] && [list] + s[..0] == [list] && s[0..] == s;
    } else {
      assert entry == s[k - 1];
      assert [head] + s == [head] + s[..k] + s[k..];
      SplitList(head, s[..k], s[k..]);
      assert forall x :: x in s[..k] || x in s[k..] ==> x in s;
      assert list != head && list !in s;
      Cut(list, head, entry, s[..k], s[k..]);
    }
  }

  // __list_splice
  method SpliceBetween<T>(list: ListHead<T>, prev: ListHead<T>, next: ListHead<T>, ghost s: seq<ListHead<T>>,
                          ghost r: seq<ListHead<T>>)
    requires Ring([list] + s) && s != [] && Ring(r) && prev == r[|r| - 1] && next == r[0]
    requires list !in r && forall x :: x in s ==> x !in r
    modifies list.next`prev, prev`next, list.prev`next, next`prev
    ensures Ring(r + s) && list.next == old(list.next) && list.prev == old(list.prev)
  {
    assert [list] + s == [list] + s + [];
    Stretch([list], s, []);
    assert prev in r && next in r;
    assert forall i, j :: 0 <= i < |r| && 0 <= j < |s| ==> r[i] != s[j] by {
      forall i, j | 0 <= i < |r| && 0 <= j < |s|
        ensures r[i] != s[j]
      {
        assert r[i] in r && s[j] in s;
      }
    }
    var first := list.next;
    var last := list.prev;
    first.prev := prev;
    prev.next := first;
    last.next := next;
    next.prev := last;
    ghost var q := r + s;
    assert forall i :: 0 <= i < |r| ==> q[i] == r[i];
    assert forall i :: 0 <= i < |s| ==> q[|r| + i] == s[i];
    assert Linked(s);
  }

  // list_splice: the entries of list go in front of those of head.
  method Splice<T>(list: ListHead<T>, head: ListHead<T>, ghost s: seq<ListHead<T>>, ghost t: seq<ListHead<T>>)
    requires Ring([list] + s) && Ring([head] + t)
    requires list !in [head] + t && forall x :: x in s ==> x !in [head] + t
    modifies s, head, t
    ensures Ring([head] + (s + t)) && list.next == old(list.next) && list.prev == old(list.prev)
    ensures forall x :: x in s + [head] + t ==> x.data == old(x.data)
  {
    var e := Empty(list, s);
    if !e {
      RotateBy([head], t);
      assert ([list] + s)[1] == s[0] && ([list] + s)[|s|] == s[|s| - 1];
      assert list !in t + [head] && forall x :: x in s ==> x !in t + [head];
      assert t != [] ==> (t + [head])[0] == t[0] == head.next;
      SpliceBetween(list, head, head.next, s, t + [head]);
      assert t + [head] + s == t + ([head] + s);
      RotateBy(t, [head] + s);
      assert [head] + s + t == [head] + (s + t);
    } else {
      assert s + t == t;
    }
  }

  // list_splice_tail_init: the entries of list go behind those of head; list is empty.
  method SpliceTailInit<T>(list: ListHead<T>, head: ListHead<T>, ghost s: seq<ListHead<T>>, ghost t: seq<ListHead<T>>)
    requires Ring([list] + s) && Ring([head] + t)
    requires list !in [head] + t && forall x :: x in s ==> x !in [head] + t
    modifies list, s, head, t
    ensures Ring([head] + (t + s)) && Ring([list])
    ensures list.data == old(list.data) && forall x :: x in s + [head] + t ==> x.data == old(x.data)
  {
    var e := Empty(list, s);
    if !e {
      ghost var q := [list] + s;
      assert q[1] == s[0] && q[|s|] == s[|s| - 1];
      assert t != [] ==> ([head] + t)[|t|] == t[|t| - 1];
      assert list !in [head] + (t + s) by {
        assert forall i :: 0 <= i < |s| ==> s[i] == q[i + 1];
      }
      SpliceBetween(list, head.prev, head, s, [head] + t);
      assert [head] + t + s == [head] + (t + s);
      Init(list);
    } else {
      assert t + s == t && [list] + s == [list];
    }
  }

  // ----- list_for_each_entry and list_for_each_entry_safe

  // The first entry of a list, or its head.
  ghost function First<T>(head: ListHead<T>, s: seq<ListHead<T>>): ListHead<T> {
    if s == [] then head else s[0]
  }

  lemma {:induction false} ListFacts<T>(head: ListHead<T>, s: seq<ListHead<T>>)
    requires Ring([head] + s)
    ensures head.next == First(head, s) && head !in s && Distinct(s)
    ensures s != [] ==> s[0].next == First(head, s[1..])
  {
    var r := [head] + s;
    assert forall i :: 0 <= i < |s| ==> s[i] == r[i + 1];
  }

  // Going from entry k to the next one.
  lemma {:induction false} NextEntry<T>(head: ListHead<T>, s: seq<ListHead<T>>, k: nat)
    requires Ring([head] + s) && k < |s|
    ensures s[k] != head && s[k].next == if k + 1 < |s| then s[k + 1] else head
  {
    var r := [head] + s;
    assert r[k + 1] == s[k] && (k + 1 < |s| ==> r[k + 2] == s[k + 1]);
  }

  // Entries 0, ..., k - 1 of s have been taken off their list and are circles of one.
  ghost predicate Unlinked<T>(s: seq<ListHead<T>>, k: nat)
    requires k <= |s|
    reads s
  {
    forall i :: 0 <= i < k ==> s[i].next == s[i] && s[i].prev == s[i]
  }

  method UnlinkFirst<T>(entry: ListHead<T>, head: ListHead<T>, ghost rest: seq<ListHead<T>>)
    requires Ring([head] + ([entry] + rest))
    modifies entry`next, entry`prev, head`next, First(head, rest)`prev
    ensures Ring([head] + rest) && Ring([entry]) && entry.next == entry && entry !in [head] + rest
  {
    RotateBy([head], [entry] + rest);
    ghost var t := rest + [head];
    assert [entry] + rest + [head] == [entry] + t;
    assert t[0] == First(head, rest) && ([entry] + t)[1] == t[0] && ([entry] + t)[|t|] == head;
    assert entry !in t by { assert forall k :: 0 <= k < |t| ==> t[k] == ([entry] + t)[k + 1]; }
    DelInit(entry, t);
    RotateBy(rest, [head]);
  }

  method UnlinkNth<T>(entry: ListHead<T>, head: ListHead<T>, ghost s: seq<ListHead<T>>, ghost k: nat)
    requires Distinct(s) && head !in s && k < |s| && entry == s[k] && Ring([head] + s[k..]) && Unlinked(s, k)
    modifies head, s
    ensures Ring([head] + s[k + 1..]) && Unlinked(s, k + 1)
    ensures head.data == old(head.data) && forall i :: 0 <= i < |s| ==> s[i].data == old(s[i].data)
    ensures old(entry.next) == First(head, s[k + 1..]) && First(head, s[k + 1..]).next != null
  {
    ghost var rest := s[k + 1..];
    assert s[k..] == [entry] + rest && (rest != [] ==> rest[0] == s[k + 1]);
    ListFacts(head, s[k..]);
    UnlinkFirst(entry, head, rest);
    ListFacts(head, rest);
  }

  /** The loop list_for_each_entry_safe { list_del_init } empties the list, and leaves
      every former entry a circle of one. */
  method DrainAll<T>(head: ListHead<T>, ghost s: seq<ListHead<T>>)
    requires Ring([head] + s)
    modifies head, s
    ensures Ring([head]) && Unlinked(s, |s|)
    ensures head.data == old(head.data) && forall i :: 0 <= i < |s| ==> s[i].data == old(s[i].data)
  {
    ListFacts(head, s);
    var pos: ListHead<T> := head.next;
    var n: ListHead<T> := pos.next;
    ghost var k := 0;
    assert s[0..] == s;
    while pos != head
      invariant k <= |s| && Ring([head] + s[k..]) && Unlinked(s, k)
      invariant pos == First(head, s[k..]) && n == pos.next
      invariant head.data == old(head.data) && forall i :: 0 <= i < |s| ==> s[i].data == old(s[i].data)
      decreases |s| - k
    {
      UnlinkNth(pos, head, s, k);
      k := k + 1;
      pos := n;
      n := n.next;
    }
    assert [head] + s[|s|..] == [head];
  }
}
