/** hmr_mempool_alloc_addr: a bump allocator over a fixed region that restarts at
    zero when a request does not fit in the tail, and never frees.  Nothing in the
    code tracks which ranges are still in use; this module proves how many bytes
    may be in use before a new range overlaps an old one. */
module Allocator {
  import opened Wire
  import opened Sequences

  const ALLOC_MEM_SIZE := 1024

  // Offset handed out for a request of length len when used bytes are taken.
  function Place(used: nat, len: nat): nat {
    if used + len > ALLOC_MEM_SIZE then 0 else used
  }

  // Value of used_send_region (used_recv_region) after the requests lens.
  function Used(lens: seq<nat>): nat {
    if lens == [] then 0 else Place(Used(Front(lens)), Last(lens)) + Last(lens)
  }

  // Offset handed out for the k-th request.
  function Pos(lens: seq<nat>, k: nat): nat
    requires k < |lens|
  {
    Place(Used(lens[..k]), lens[k])
  }

  // Bytes requested by the requests i, ..., j - 1.
  function Bytes(lens: seq<nat>, i: nat, j: nat): nat
    requires i <= j <= |lens|
  {
    if i == j then 0 else Bytes(lens, i, j - 1) + lens[j - 1]
  }

  predicate Bounded(lens: seq<nat>, m: nat, L: nat) {
    forall k :: 0 <= k < |lens| ==> m <= lens[k] <= L
  }

  predicate Apart(p: nat, n: nat, q: nat, m: nat) {
    p + n <= q || q + m <= p
  }

  // Request j reuses a byte that request i was given.
  predicate Overlap(lens: seq<nat>, i: nat, j: nat)
    requires i < |lens| && j < |lens|
  {
    !Apart(Pos(lens, i), lens[i], Pos(lens, j), lens[j])
  }

  // A wrap happens at request k: the tail is skipped.
  predicate WrapsAt(lens: seq<nat>, k: nat)
    requires k < |lens|
  {
    Used(lens[..k]) + lens[k] > ALLOC_MEM_SIZE
  }

  // The largest number of bytes that can safely be live when every request has at
  // least m and at most L bytes.
  function Window(m: nat, L: nat): nat
    requires 1 <= m <= L <= ALLOC_MEM_SIZE
  {
    if L == m then m * (ALLOC_MEM_SIZE / m) + m - 1
    else if 2 * L + m <= ALLOC_MEM_SIZE + 2 then ALLOC_MEM_SIZE - L + 1
    else (ALLOC_MEM_SIZE + m + 1) / 2
  }

  lemma {:induction false} UsedStep(lens: seq<nat>, k: nat)
    requires k < |lens|
    ensures Used(lens[..k + 1]) == Pos(lens, k) + lens[k]
  {
    assert Front(lens[..k + 1]) == lens[..k];
  }

  // Later requests do not change where earlier ones were placed.
  lemma {:induction false} PosStable(lens: seq<nat>, more: seq<nat>, k: nat)
    requires k < |lens|
    ensures Pos(lens + more, k) == Pos(lens, k)
  {
    assert (lens + more)[..k] == lens[..k];
  }

  lemma {:induction false} BytesSplit(lens: seq<nat>, i: nat, j: nat, k: nat)
    requires i <= j <= k <= |lens|
    ensures Bytes(lens, i, k) == Bytes(lens, i, j) + Bytes(lens, j, k)
    decreases k
  {
    if j < k {
      BytesSplit(lens, i, j, k - 1);
    }
  }

  lemma {:induction false} UsedInRegion(lens: seq<nat>)
    requires Bounded(lens, 0, ALLOC_MEM_SIZE)
    ensures Used(lens) <= ALLOC_MEM_SIZE
  {
    if lens != [] {
      UsedInRegion(Front(lens));
    }
  }

  /** A range handed out lies in the region exactly when the request is no longer
      than the region: an oversized request is placed at zero and runs past the end. */
  lemma {:induction false} InRegionIff(lens: seq<nat>, k: nat)
    requires k < |lens|
    ensures Pos(lens, k) + lens[k] <= ALLOC_MEM_SIZE <==> lens[k] <= ALLOC_MEM_SIZE
  {
  }

  lemma {:induction false} BytesAtLeast(lens: seq<nat>, m: nat, L: nat, i: nat, j: nat)
    requires Bounded(lens, m, L) && i < j <= |lens|
    ensures Bytes(lens, i, j) >= lens[i] && Bytes(lens, i, j) >= m
  {
    BytesSplit(lens, i, i + 1, j);
    assert Bytes(lens, i, i) == 0;
  }

  // What the allocator remembers about request i while later bytes stay within the
  // window: either no wrap happened, or the cursor is back below request i.
  lemma {:induction false} Track(lens: seq<nat>, m: nat, L: nat, i: nat, j: nat)
    requires 1 <= m < L <= ALLOC_MEM_SIZE && Bounded(lens, m, L) && i < j <= |lens|
    requires Bytes(lens, i, j) <= Window(m, L)
    ensures Used(lens[..j]) == Pos(lens, i) + Bytes(lens, i, j)
         || Used(lens[..j]) + Window(m, L) <= Bytes(lens, i, j) + Pos(lens, i)
    decreases j
  {
    UsedStep(lens, j - 1);
    if j == i + 1 {
      assert Bytes(lens, i, i) == 0;
    } else {
      BytesAtLeast(lens, m, L, i, j - 1);
      Track(lens, m, L, i, j - 1);
      UsedInRegion(lens[..i]);
    }
  }

  lemma {:induction false} StaysWrapped(lens: seq<nat>, m: nat, L: nat, i: nat, h: nat, j: nat)
    requires 1 <= m < L <= ALLOC_MEM_SIZE && Bounded(lens, m, L) && i < h < j < |lens|
    requires Bytes(lens, i, j + 1) <= Window(m, L) && WrapsAt(lens, h)
    ensures Used(lens[..j]) + Window(m, L) <= Bytes(lens, i, j) + Pos(lens, i)
    ensures !WrapsAt(lens, j)
    decreases j
  {
    UsedInRegion(lens[..i]);
    UsedStep(lens, j - 1);
    if h < j - 1 {
      StaysWrapped(lens, m, L, i, h, j - 1);
    } else {
      Track(lens, m, L, i, h);
      BytesAtLeast(lens, m, L, i, h);
    }
  }

  lemma {:induction false} SafeUnequal(lens: seq<nat>, m: nat, L: nat, i: nat, j: nat)
    requires 1 <= m < L <= ALLOC_MEM_SIZE && Bounded(lens, m, L) && i < j < |lens|
    requires Bytes(lens, i, j + 1) <= Window(m, L)
    ensures !Overlap(lens, i, j)
    ensures forall h :: i < h < j && WrapsAt(lens, h) ==> !WrapsAt(lens, j)
  {
    Track(lens, m, L, i, j);
    Track(lens, m, L, i, j + 1);
    UsedStep(lens, j);
    UsedInRegion(lens[..i]);
    BytesAtLeast(lens, m, L, i, j);
    forall h | i < h < j && WrapsAt(lens, h)
      ensures !WrapsAt(lens, j)
    {
      StaysWrapped(lens, m, L, i, h, j);
    }
  }

  lemma {:induction false} SafeEqual(lens: seq<nat>, m: nat, i: nat, j: nat)
    requires 1 <= m <= ALLOC_MEM_SIZE && Bounded(lens, m, m) && i < j < |lens|
    requires Bytes(lens, i, j + 1) <= Window(m, m)
    ensures !Overlap(lens, i, j)
    ensures forall h :: i < h < j && WrapsAt(lens, h) ==> !WrapsAt(lens, j)
  {
    var n := ALLOC_MEM_SIZE / m;
    assert lens == Same(m, |lens|);
    BytesSame(m, |lens|, i, j + 1);
    assert m * (n + 1) == m * n + m;
    if j - i >= n {
      MulMono(m, n + 1, j + 1 - i);
    }
    RecvBufferAt(m, |lens|, i);
    RecvBufferAt(m, |lens|, j);
    RecvWindow(m, i, j);
    forall h | i < h < j && WrapsAt(lens, h)
      ensures !WrapsAt(lens, j)
    {
      RecvBufferAt(m, |lens|, h);
      RecvWindow(m, h, j);
    }
  }

  /** Inside the window, request j never reuses a byte of request i, and the run from
      i to j skips the tail at most once. */
  lemma {:induction false} Safe(lens: seq<nat>, m: nat, L: nat, i: nat, j: nat)
    requires 1 <= m <= L <= ALLOC_MEM_SIZE && Bounded(lens, m, L) && i < j < |lens|
    requires Bytes(lens, i, j + 1) <= Window(m, L)
    ensures !Overlap(lens, i, j)
    ensures forall h :: i < h < j && WrapsAt(lens, h) ==> !WrapsAt(lens, j)
  {
    if m < L {
      SafeUnequal(lens, m, L, i, j);
    } else {
      SafeEqual(lens, m, i, j);
    }
  }

  // Total T is safe for requests of m to L bytes: no run of at most T bytes overlaps
  // itself.
  ghost predicate SafeTotal(m: nat, L: nat, T: nat) {
    forall lens: seq<nat>, i: nat, j: nat ::
      Bounded(lens, m, L) && i < j < |lens| && Bytes(lens, i, j + 1) <= T ==> !Overlap(lens, i, j)
  }

  // q requests of m bytes each, with r more bytes spread over them, at most d to each.
  function Fill(q: nat, r: nat, m: nat, d: nat): (s: seq<nat>)
    ensures |s| == q
  {
    if q == 0 then [] else var e := if r <= d then r else d; Fill(q - 1, r - e, m, d) + [m + e]
  }

  lemma {:induction false} FillTotal(q: nat, r: nat, m: nat, d: nat)
    requires r <= q * d
    ensures Bounded(Fill(q, r, m, d), m, m + d)
    ensures Bytes(Fill(q, r, m, d), 0, q) == m * q + r
  {
    if q > 0 {
      var e := if r <= d then r else d;
      var s := Fill(q - 1, r - e, m, d);
      FillRest(q, r, d);
      FillTotal(q - 1, r - e, m, d);
      BytesInside([], s, [m + e], q - 1);
      assert [] + s + [m + e] == Fill(q, r, m, d);
      MulNext(m, q - 1);
    }
  }

  lemma {:induction false} FillRest(q: nat, r: nat, d: nat)
    requires q > 0 && r <= q * d
    ensures r <= d || r - d <= (q - 1) * d
    ensures 0 <= (q - 1) * d
  {
    assert q * d == (q - 1) * d + d;
    MulMono(d, 0, q - 1);
  }

  lemma {:induction false} MulNext(m: nat, q: nat)
    ensures m * (q + 1) == m * q + m
  {
  }

  // The bytes of the first k requests of s are the same inside a longer sequence.
  lemma {:induction false} BytesInside(pre: seq<nat>, s: seq<nat>, post: seq<nat>, k: nat)
    requires k <= |s|
    ensures Bytes(pre + s + post, |pre|, |pre| + k) == Bytes(s, 0, k)
    decreases k
  {
    if k > 0 {
      BytesInside(pre, s, post, k - 1);
    }
  }

  // Requests that fit behind the cursor move it by their total.
  lemma {:induction false} Advance(lens: seq<nat>, a: nat, b: nat)
    requires a <= b <= |lens| && Used(lens[..a]) + Bytes(lens, a, b) <= ALLOC_MEM_SIZE
    ensures Used(lens[..b]) == Used(lens[..a]) + Bytes(lens, a, b)
    decreases b
  {
    if a < b {
      Advance(lens, a, b - 1);
      UsedStep(lens, b - 1);
    }
  }

  // The shortest run of requests of m to L bytes that overlaps itself: behind a first
  // request of h - 1 bytes come x bytes, up to the last offset that still refuses h
  // bytes, then a request of h bytes.
  function LastLength(m: nat, L: nat): (h: nat)
    requires 1 <= m < L <= ALLOC_MEM_SIZE && m <= HEADER
    ensures m < h <= L
  {
    if 2 * L + m <= ALLOC_MEM_SIZE + 2 then L else (ALLOC_MEM_SIZE - m + 3) / 2
  }

  function Between(m: nat, L: nat): (x: nat)
    requires 1 <= m < L <= ALLOC_MEM_SIZE && m <= HEADER
    ensures m <= x && LastLength(m, L) - 1 + x <= ALLOC_MEM_SIZE < 2 * LastLength(m, L) - 1 + x
    ensures LastLength(m, L) + x == Window(m, L) + 1
  {
    Window(m, L) + 1 - LastLength(m, L)
  }

  function Middle(m: nat, L: nat): seq<nat>
    requires 1 <= m < L <= ALLOC_MEM_SIZE && m <= HEADER
  {
    Fill(Between(m, L) / m, Between(m, L) % m, m, L - m)
  }

  function Collision(m: nat, L: nat): (s: seq<nat>)
    requires 1 <= m < L <= ALLOC_MEM_SIZE && m <= HEADER
  {
    [LastLength(m, L) - 1] + Middle(m, L) + [LastLength(m, L)]
  }

  lemma {:induction false} MiddleTotal(m: nat, L: nat)
    requires 1 <= m < L <= ALLOC_MEM_SIZE && m <= HEADER
    ensures var s := Middle(m, L);
            |s| > 0 && Bounded(s, m, L) && Bytes(s, 0, |s|) == Between(m, L)
  {
    var x, d := Between(m, L), L - m;
    var q, r := x / m, x % m;
    assert x == m * q + r;
    assert q >= 1;
    if q < m {
      MulMono(m, q, m - 1);
      MulMono(m, m, HEADER);
      MulMono(d, 1, q);
    } else {
      MulMono(q, 1, d);
    }
    FillTotal(q, r, m, d);
  }

  lemma {:induction false} CollisionOverlaps(m: nat, L: nat)
    requires 1 <= m < L <= ALLOC_MEM_SIZE && m <= HEADER
    ensures var lens, j := Collision(m, L), |Collision(m, L)| - 1;
            && Bounded(lens, m, L) && 1 < j && Overlap(lens, 1, j)
            && Pos(lens, 1) == LastLength(m, L) - 1 && Pos(lens, j) == 0
            && Bytes(lens, 1, j + 1) == Window(m, L) + 1
  {
    var h, s := LastLength(m, L), Middle(m, L);
    var lens, j := Collision(m, L), |s| + 1;
    MiddleTotal(m, L);
    BytesInside([h - 1], s, [h], |s|);
    assert lens[..0] == [];
    UsedStep(lens, 0);
    Advance(lens, 1, j);
    assert Bounded(lens, m, L) by {
      assert forall k :: 1 <= k <= |s| ==> lens[k] == s[k - 1];
    }
    BytesSplit(lens, 1, 2, j);
    assert Bytes(lens, 1, 1) == 0;
  }

  lemma {:induction false} EqualOverlaps(m: nat)
    requires 1 <= m <= ALLOC_MEM_SIZE
    ensures var n := ALLOC_MEM_SIZE / m;
            var lens := Same(m, n + 1);
            Bounded(lens, m, m) && Overlap(lens, 0, n) && Bytes(lens, 0, n + 1) == Window(m, m) + 1
  {
    var n := ALLOC_MEM_SIZE / m;
    RecvBufferAt(m, n + 1, 0);
    RecvBufferAt(m, n + 1, n);
    BytesSame(m, n + 1, 0, n + 1);
    assert m * (n + 1) == m * n + m;
  }

  /** The exact safe window: when every request has m to L bytes, runs of T bytes never
      overlap themselves if and only if T <= Window(m, L).  The allocator by itself takes
      requests of one byte and more; frames have at least HEADER bytes. */
  lemma {:induction false} WindowExact(m: nat, L: nat, T: nat)
    requires 1 <= m <= HEADER && m <= L <= ALLOC_MEM_SIZE
    ensures SafeTotal(m, L, T) <==> T <= Window(m, L)
  {
    if T <= Window(m, L) {
      forall lens: seq<nat>, i: nat, j: nat |
        Bounded(lens, m, L) && i < j < |lens| && Bytes(lens, i, j + 1) <= T
        ensures !Overlap(lens, i, j)
      {
        Safe(lens, m, L, i, j);
      }
    } else if m < L {
      CollisionOverlaps(m, L);
      assert !SafeTotal(m, L, T);
    } else {
      EqualOverlaps(m);
      assert !SafeTotal(m, L, T);
    }
  }

  /** The window of frames in bytes. */
  lemma {:induction false} FrameWindow(L: nat)
    requires HEADER <= L <= 1024
    ensures Window(HEADER, L) == if L == 8 then 1031 else if L <= 509 then 1025 - L else 516
  {
  }

  // ----- Receive buffers: every request has the same length d.

  function Same(d: nat, n: nat): (s: seq<nat>)
    ensures |s| == n && forall k :: 0 <= k < n ==> s[k] == d
  {
    seq(n, i => d)
  }

  lemma {:induction false} BytesSame(d: nat, n: nat, i: nat, j: nat)
    requires i <= j <= n
    ensures Bytes(Same(d, n), i, j) == d * (j - i)
    decreases j
  {
    if i < j {
      BytesSame(d, n, i, j - 1);
      assert d * (j - i) == d * (j - 1 - i) + d;
    }
  }

  function Slot(d: nat, k: nat): nat
    requires 0 < d <= ALLOC_MEM_SIZE
  {
    d * (k % (ALLOC_MEM_SIZE / d))
  }

  lemma {:induction false} SlotsFit(d: nat, q: nat)
    requires 0 < d <= ALLOC_MEM_SIZE && q < ALLOC_MEM_SIZE / d
    ensures d * q + d <= ALLOC_MEM_SIZE
    ensures q + 1 == ALLOC_MEM_SIZE / d ==> d * q + d + d > ALLOC_MEM_SIZE
  {
    var m := ALLOC_MEM_SIZE / d;
    assert d * m <= ALLOC_MEM_SIZE < d * m + d;
    MulStep(d, q, m);
    assert d * (q + 1) == d * q + d;
  }

  lemma {:induction false} ModNext(k: nat, m: nat)
    requires m > 0
    ensures (k + 1) % m == if k % m + 1 == m then 0 else k % m + 1
  {
    var q, r := k / m, k % m;
    assert k + 1 == m * q + (r + 1);
    if r + 1 == m {
      assert k + 1 == m * (q + 1);
      DivUnique(k + 1, m, q + 1, 0);
    } else {
      DivUnique(k + 1, m, q, r + 1);
    }
  }

  // Quotient and remainder are determined by x == m * q + r and 0 <= r < m.
  lemma {:induction false} DivUnique(x: nat, m: nat, q: nat, r: nat)
    requires m > 0 && x == m * q + r && r < m
    ensures x % m == r && x / m == q
  {
    var q', r' := x / m, x % m;
    QuotientLe(m, q, r, q', r');
    QuotientLe(m, q', r', q, r);
  }

  lemma {:induction false} QuotientLe(m: nat, q: nat, r: nat, q': nat, r': nat)
    requires r < m && r' < m && m * q + r == m * q' + r'
    ensures q <= q'
  {
    if q' < q {
      MulStep(m, q', q);
    }
  }

  lemma {:induction false} MulStep(m: nat, a: nat, b: nat)
    requires a < b
    ensures m * a + m <= m * b
    decreases b
  {
    assert m * b == m * (b - 1) + m;
    if a < b - 1 {
      MulStep(m, a, b - 1);
    }
  }

  lemma {:induction false} MulMono(m: nat, a: nat, b: nat)
    requires a <= b
    ensures m * a <= m * b
  {
    if a < b {
      MulStep(m, a, b);
    }
  }

  // The slot after slot k: the next one, or the first when no more fits.
  lemma {:induction false} SlotNext(d: nat, k: nat)
    requires 0 < d <= ALLOC_MEM_SIZE
    ensures Place(Slot(d, k) + d, d) == Slot(d, k + 1)
  {
    var m := ALLOC_MEM_SIZE / d;
    var q := k % m;
    ModNext(k, m);
    SlotsFit(d, q);
    if q + 1 < m {
      SlotsFit(d, q + 1);
      assert d * (q + 1) == d * q + d;
    }
  }

  // The cursor after k equal requests.
  lemma {:induction false} SameUsed(d: nat, k: nat)
    requires 0 < d <= ALLOC_MEM_SIZE
    ensures Place(Used(Same(d, k)), d) == Slot(d, k)
    decreases k
  {
    hide Place, Slot;
    if k == 0 {
      FirstSlot(d);
    } else {
      SameUsed(d, k - 1);
      assert Front(Same(d, k)) == Same(d, k - 1);
      SlotNext(d, k - 1);
    }
  }

  lemma {:induction false} FirstSlot(d: nat)
    requires 0 < d <= ALLOC_MEM_SIZE
    ensures Place(0, d) == Slot(d, 0)
  {
    assert 0 % (ALLOC_MEM_SIZE / d) == 0;
  }

  /** The k-th receive buffer of a connection sits at d * (k mod (ALLOC_MEM_SIZE / d)). */
  lemma {:induction false} RecvBufferAt(d: nat, n: nat, k: nat)
    requires 0 < d <= ALLOC_MEM_SIZE && k < n
    ensures Pos(Same(d, n), k) == Slot(d, k)
    ensures Slot(d, k) + d <= ALLOC_MEM_SIZE
  {
    assert Same(d, n)[..k] == Same(d, k);
    SameUsed(d, k);
  }

  lemma {:induction false} ModApart(i: nat, j: nat, m: nat)
    requires i < j < i + m
    ensures i % m != j % m
  {
    var q, q' := i / m, j / m;
    if q < q' {
      MulStep(m, q, q');
    } else if q' < q {
      MulStep(m, q', q);
    }
  }

  /** The sliding window: any ALLOC_MEM_SIZE / d consecutive receive buffers are
      pairwise disjoint, however many messages came before. */
  lemma {:induction false} RecvWindow(d: nat, i: nat, j: nat)
    requires 0 < d <= ALLOC_MEM_SIZE && i < j < i + ALLOC_MEM_SIZE / d
    ensures Apart(Slot(d, i), d, Slot(d, j), d)
  {
    var m := ALLOC_MEM_SIZE / d;
    ModApart(i, j, m);
    var a, b := i % m, j % m;
    if a < b {
      assert d * (a + 1) <= d * b;
    } else {
      assert d * (b + 1) <= d * a;
    }
  }
}
