/** Sums and flattened images of a sequence, taken from its end, where the source's
    queues grow. */
module Sequences {

  ghost predicate Distinct<T>(s: seq<T>) { forall i, j :: 0 <= i < j < |s| ==> s[i] != s[j] }

  function Last<T>(s: seq<T>): T
    requires s != []
  {
    s[|s| - 1]
  }

  function Front<T>(s: seq<T>): seq<T>
    requires s != []
  {
    s[..|s| - 1]
  }

  function Sum<T>(s: seq<T>, f: T -> nat): nat {
    if s == [] then 0 else Sum(Front(s), f) + f(Last(s))
  }

  function Collect<T, U>(s: seq<T>, f: T -> seq<U>): seq<U> {
    if s == [] then [] else Collect(Front(s), f) + f(Last(s))
  }

  lemma {:induction false} SumConcat<T>(a: seq<T>, b: seq<T>, f: T -> nat)
    ensures Sum(a + b, f) == Sum(a, f) + Sum(b, f)
  {
    if b == [] {
      assert a + b == a;
    } else {
      SumConcat(a, Front(b), f);
      assert Front(a + b) == a + Front(b);
    }
  }

  lemma {:induction false} CollectConcat<T, U>(a: seq<T>, b: seq<T>, f: T -> seq<U>)
    ensures Collect(a + b, f) == Collect(a, f) + Collect(b, f)
  {
    if b == [] {
      assert a + b == a;
    } else {
      CollectConcat(a, Front(b), f);
      assert Front(a + b) == a + Front(b);
    }
  }

  lemma {:induction false} SumOne<T>(x: T, f: T -> nat)
    ensures Sum([x], f) == f(x)
  {
    assert Front([x]) == [];
  }

  lemma {:induction false} CollectOne<T, U>(x: T, f: T -> seq<U>)
    ensures Collect([x], f) == f(x)
  {
    assert Front([x]) == [];
  }

  // Each element counts towards the sum.
  lemma {:induction false} SumAt<T>(s: seq<T>, k: nat, f: T -> nat)
    requires k < |s|
    ensures f(s[k]) <= Sum(s, f)
  {
    if k < |s| - 1 {
      SumAt(Front(s), k, f);
    }
  }

  // A positive sum has a positive element.
  lemma {:induction false} SumFind<T>(s: seq<T>, f: T -> nat) returns (k: nat)
    requires Sum(s, f) > 0
    ensures k < |s| && f(s[k]) > 0
  {
    if f(Last(s)) > 0 {
      k := |s| - 1;
    } else {
      k := SumFind(Front(s), f);
    }
  }

  lemma {:induction false} SumZero<T>(s: seq<T>, f: T -> nat)
    requires forall k :: 0 <= k < |s| ==> f(s[k]) == 0
    ensures Sum(s, f) == 0
  {
    if s != [] {
      SumZero(Front(s), f);
    }
  }

  // Element i of the image comes from some element k, at place j of its image.
  lemma {:induction false} CollectFrom<T, U>(s: seq<T>, i: nat, f: T -> seq<U>) returns (k: nat, j: nat)
    requires i < |Collect(s, f)|
    ensures k < |s| && j < |f(s[k])| && Collect(s, f)[i] == f(s[k])[j]
  {
    var n := |Collect(Front(s), f)|;
    if i < n {
      k, j := CollectFrom(Front(s), i, f);
    } else {
      k, j := |s| - 1, i - n;
    }
  }

  // The first element of element k's image is found in the whole image.
  lemma {:induction false} CollectAt<T, U>(s: seq<T>, k: nat, f: T -> seq<U>) returns (i: nat)
    requires k < |s| && f(s[k]) != []
    ensures i < |Collect(s, f)| && Collect(s, f)[i] == f(s[k])[0]
  {
    if k == |s| - 1 {
      i := |Collect(Front(s), f)|;
    } else {
      i := CollectAt(Front(s), k, f);
    }
  }
}
