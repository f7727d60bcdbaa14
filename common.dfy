/** Small generic building blocks shared by the transfer model. */
module Common {

  datatype Option<+T> = None | Some(value: T)

  datatype Result<+T, +E> = Ok(value: T) | Err(error: E)

  datatype Outcome<+E> = Pass | Fail(error: E)

  /** No element occurs twice in `s`. */
  predicate NoDuplicates<T(==)>(s: seq<T>)
  {
    forall i, j :: 0 <= i < j < |s| ==> s[i] != s[j]
  }

  /** LINQ's `Where`: the elements of `s` that satisfy `p`, in their original order. */
  function Where<T>(s: seq<T>, p: T -> bool): (r: seq<T>)
    ensures |r| <= |s|
    decreases |s|
  {
    if s == [] then []
    else
      Where(s[..|s| - 1], p) + (if p(s[|s| - 1]) then [s[|s| - 1]] else [])
  }

  /** `Where` keeps every element that satisfies `p` and nothing else. */
  lemma {:induction false} WhereMembers<T>(s: seq<T>, p: T -> bool)
    ensures forall i :: 0 <= i < |Where(s, p)| ==> Where(s, p)[i] in s && p(Where(s, p)[i])
    ensures forall i :: 0 <= i < |s| && p(s[i]) ==> s[i] in Where(s, p)
    decreases |s|
  {
    if s != [] {
      WhereMembers(s[..|s| - 1], p);
    }
  }

  /** Taking the head off a concatenation takes it off the first part. */
  lemma ConcatTail<T>(a: seq<T>, b: seq<T>)
    requires a != []
    ensures (a + b)[0] == a[0]
    ensures (a + b)[1..] == a[1..] + b
  {
  }

  /** The positions of `s` whose elements satisfy `p`, in increasing order. */
  function KeptPositions<T>(s: seq<T>, p: T -> bool): (idx: seq<nat>)
    ensures forall k :: 0 <= k < |idx| ==> idx[k] < |s| && p(s[idx[k]])
    ensures forall k, l :: 0 <= k < l < |idx| ==> idx[k] < idx[l]
    ensures forall i :: 0 <= i < |s| && p(s[i]) ==> i in idx
    decreases |s|
  {
    if s == [] then []
    else KeptPositions(s[..|s| - 1], p) + (if p(s[|s| - 1]) then [|s| - 1] else [])
  }

  /** `Where` keeps exactly the elements at the positions `KeptPositions` lists:
      nothing is reordered, dropped twice or duplicated. */
  lemma {:induction false} WhereAtKeptPositions<T>(s: seq<T>, p: T -> bool)
    ensures |Where(s, p)| == |KeptPositions(s, p)|
    ensures forall k :: 0 <= k < |Where(s, p)| ==> Where(s, p)[k] == s[KeptPositions(s, p)[k]]
    decreases |s|
  {
    if s != [] {
      WhereAtKeptPositions(s[..|s| - 1], p);
    }
  }

  /** Filtering commutes with concatenation, so it never reorders elements. */
  lemma {:induction false} WhereDistributes<T>(a: seq<T>, b: seq<T>, p: T -> bool)
    ensures Where(a + b, p) == Where(a, p) + Where(b, p)
    decreases |b|
  {
    if b == [] {
      assert a + b == a;
    } else {
      assert (a + b)[..|a + b| - 1] == a + b[..|b| - 1];
      assert (a + b)[|a + b| - 1] == b[|b| - 1];
      WhereDistributes(a, b[..|b| - 1], p);
    }
  }

  /** Lists the elements of a finite set once each, in an order the method chooses
      (how a directory listing or a service listing enumerates its entries). */
  method Enumerate<T(==)>(keys: set<T>) returns (s: seq<T>)
    ensures NoDuplicates(s)
    ensures forall x :: x in s <==> x in keys
  {
    s := [];
    var rest := keys;
    while rest != {}
      invariant rest <= keys
      invariant NoDuplicates(s)
      invariant forall x :: x in s <==> x in keys && x !in rest
      decreases rest
    {
      var x :| x in rest;
      s := s + [x];
      rest := rest - {x};
    }
  }
}
