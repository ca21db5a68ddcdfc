/** Releasing the device list (hmr_rdma_release_handle). */
module Devices {
  import opened Sequences
  import opened LinuxList

  // The fields of struct hmr_device that the release uses.
  datatype Device = Device(verbs: nat, pd: nat)

  // hmr_rdma_dev_release: the entry is already its own circle when it is unlinked
  // again; the protection domain is released and the structure freed.
  method DevRelease(dev: ListHead<Device>) returns (pd: nat)
    requires Ring([dev])
    modifies dev`next, dev`prev
    ensures dev.next == null && dev.prev == null && pd == dev.data.pd
  {
    assert [dev] + [] == [dev];
    Del(dev, []);
    pd := dev.data.pd;
  }

  // One turn of the loop body, on the first entry of the list.
  method ReleaseFirst(dev: ListHead<Device>, head: ListHead<Device>, ghost rest: seq<ListHead<Device>>)
    returns (pd: nat)
    requires Ring([head] + ([dev] + rest))
    modifies dev`next, dev`prev, head`next, First(head, rest)`prev
    ensures Ring([head] + rest)
    ensures dev.next == null && dev.prev == null && pd == dev.data.pd
  {
    UnlinkFirst(dev, head, rest);
    pd := DevRelease(dev);
  }

  // The first k entries of s have been released.
  ghost predicate Released(s: seq<ListHead<Device>>, k: nat)
    requires k <= |s|
    reads s
  {
    forall i :: 0 <= i < k ==> s[i].next == null && s[i].prev == null
  }

  // The same turn for entry k of s, the ones before it being released already.
  method ReleaseNth(dev: ListHead<Device>, head: ListHead<Device>, ghost s: seq<ListHead<Device>>, ghost k: nat)
    returns (pd: nat)
    requires Distinct(s) && head !in s && k < |s| && dev == s[k] && Ring([head] + s[k..]) && Released(s, k)
    modifies head, s
    ensures Ring([head] + s[k + 1..]) && Released(s, k + 1) && pd == dev.data.pd
    ensures forall i :: 0 <= i < |s| ==> s[i].data == old(s[i].data)
    ensures old(dev.next) == First(head, s[k + 1..]) && First(head, s[k + 1..]).next != null
  {
    ghost var rest := s[k + 1..];
    assert s[k..] == [dev] + rest && (rest != [] ==> rest[0] == s[k + 1]);
    ListFacts(head, s[k..]);
    pd := ReleaseFirst(dev, head, rest);
    ListFacts(head, rest);
  }

  /** Every device of the list is unlinked (twice), its protection domain released and
      its structure freed, exactly once and in list order; the cursors only ever point
      to entries not freed yet or to the head; dev_list is left an empty circle. */
  method ReleaseAll(head: ListHead<Device>, ghost s: seq<ListHead<Device>>) returns (pds: seq<nat>)
    requires Ring([head] + s)
    modifies head, s
    ensures Ring([head])
    ensures |pds| == |s| && forall i :: 0 <= i < |s| ==> pds[i] == old(s[i].data.pd)
    ensures Released(s, |s|)
  {
    pds := [];
    ListFacts(head, s);
    var pos: ListHead<Device> := head.next;
    var n: ListHead<Device> := pos.next;
    assert s[0..] == s;
    while pos != head
      invariant |pds| <= |s| && Ring([head] + s[|pds|..])
      invariant pos == First(head, s[|pds|..]) && n == pos.next
      invariant forall i :: 0 <= i < |s| ==> s[i].data == old(s[i].data)
      invariant forall i :: 0 <= i < |pds| ==> pds[i] == old(s[i].data.pd)
      invariant Released(s, |pds|)
      decreases |s| - |pds|
    {
      var pd := ReleaseNth(pos, head, s, |pds|);
      pds := pds + [pd];
      pos := n;
      n := n.next;
    }
    assert [head] + s[|s|..] == [head];
  }
}
