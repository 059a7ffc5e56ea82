/** The usual Some/None datatype, standing for Python's "value or nothing" results. */
module Wrappers {

  datatype Option<+T> = None | Some(value: T)
}

/**
 Sequence helpers shared by the models of the two source files: the
 filter-and-map shape of a list comprehension with an `if`, the key order of
 a Python dict filled by assignment, and the name-to-position dict built by an
 `enumerate` loop.
 All three are defined on prefixes (by their last element), the way the
 loops that compute them grow their results.
 */
module Seqs {

  ghost predicate Distinct<T>(s: seq<T>)
  {
    forall i, j :: 0 <= i < j < |s| ==> s[i] != s[j]
  }

  /** The images under f of the elements of s that keep selects, in order. */
  function FilterMap<T, U>(s: seq<T>, keep: T -> bool, f: T -> U): (r: seq<U>)
    ensures |r| <= |s|
  {
    if s == [] then []
    else
      var n := |s| - 1;
      FilterMap(s[..n], keep, f) + (if keep(s[n]) then [f(s[n])] else [])
  }

  /** `idx` lists, in increasing order, exactly the positions of `s` whose element is kept. */
  ghost predicate Selects<T>(s: seq<T>, keep: T -> bool, idx: seq<int>)
  {
    && (forall j :: 0 <= j < |idx| ==> 0 <= idx[j] < |s| && keep(s[idx[j]]))
    && (forall j, j' :: 0 <= j < j' < |idx| ==> idx[j] < idx[j'])
    && (forall i :: 0 <= i < |s| && keep(s[i]) ==> i in idx)
  }

  /** The positions of `s` whose element is kept, in increasing order. */
  function KeptAt<T>(s: seq<T>, keep: T -> bool): (idx: seq<int>)
    ensures |idx| <= |s|
  {
    if s == [] then []
    else
      var n := |s| - 1;
      KeptAt(s[..n], keep) + (if keep(s[n]) then [n] else [])
  }

  lemma {:induction false} KeptAtSelects<T>(s: seq<T>, keep: T -> bool)
    ensures Selects(s, keep, KeptAt(s, keep))
  {
    if s != [] {
      var n := |s| - 1;
      var p := KeptAt(s[..n], keep);
      KeptAtSelects(s[..n], keep);
      assert forall i :: 0 <= i < n ==> s[..n][i] == s[i];
      var idx := KeptAt(s, keep);
      assert idx == p + (if keep(s[n]) then [n] else []);
      forall i | 0 <= i < |s| && keep(s[i])
        ensures i in idx
      {
        if i < n { assert s[..n][i] == s[i]; assert i in p; }
      }
    }
  }

  lemma {:induction false} FilterMapKeptAt<T, U>(s: seq<T>, keep: T -> bool, f: T -> U)
    ensures |FilterMap(s, keep, f)| == |KeptAt(s, keep)|
    ensures forall j :: 0 <= j < |KeptAt(s, keep)| ==> 0 <= KeptAt(s, keep)[j] < |s|
    ensures forall j :: 0 <= j < |KeptAt(s, keep)| ==> FilterMap(s, keep, f)[j] == f(s[KeptAt(s, keep)[j]])
  {
    if s != [] {
      var n := |s| - 1;
      FilterMapKeptAt(s[..n], keep, f);
      assert forall i :: 0 <= i < n ==> s[..n][i] == s[i];
    }
  }

  /** A filtered comprehension keeps exactly the kept elements, in their original order. */
  lemma FilterMapSelects<T, U>(s: seq<T>, keep: T -> bool, f: T -> U)
    returns (idx: seq<int>)
    ensures Selects(s, keep, idx)
    ensures |FilterMap(s, keep, f)| == |idx|
    ensures forall j :: 0 <= j < |idx| ==> FilterMap(s, keep, f)[j] == f(s[idx[j]])
  {
    idx := KeptAt(s, keep);
    KeptAtSelects(s, keep);
    FilterMapKeptAt(s, keep, f);
  }


  /** Key order of a dict that is assigned the keys of `s` in turn: first occurrences, in order. */
  function Dedup<T(==)>(s: seq<T>): (r: seq<T>)
  {
    if s == [] then []
    else
      var n := |s| - 1;
      var d := Dedup(s[..n]);
      if s[n] in d then d else d + [s[n]]
  }

  /** One more assignment to the dict: a new key goes to the end, a known one keeps its place. */
  lemma DedupSnoc<T>(s: seq<T>, x: T)
    ensures Dedup(s + [x]) == if x in Dedup(s) then Dedup(s) else Dedup(s) + [x]
  {
    assert (s + [x])[..|s|] == s;
  }

  /** The keys of a dict keep their first-insertion order: deduplicating a
      prefix gives a prefix of the deduplicated whole. */
  lemma {:induction false} DedupPrefix<T>(s: seq<T>, m: nat)
    requires m <= |s|
    ensures Dedup(s[..m]) <= Dedup(s)
    decreases |s|
  {
    if m < |s| {
      var n := |s| - 1;
      DedupPrefix(s[..n], m);
      assert s[..n][..m] == s[..m];
    } else {
      assert s[..m] == s;
    }
  }

  /** Each element of `s` is listed once, and nothing else is. */
  lemma {:induction false} DedupMembers<T>(s: seq<T>)
    ensures Distinct(Dedup(s))
    ensures forall x :: x in Dedup(s) <==> x in s
  {
    if s != [] {
      var n := |s| - 1;
      DedupMembers(s[..n]);
      assert s == s[..n] + [s[n]];
    }
  }

  /** A sequence without repetitions is its own key order. */
  lemma {:induction false} DedupDistinct<T>(s: seq<T>)
    requires Distinct(s)
    ensures Dedup(s) == s
  {
    if s != [] {
      var n := |s| - 1;
      DedupDistinct(s[..n]);
      assert s[n] !in s[..n];
      assert s[..n] + [s[n]] == s;
    }
  }

  /** Each element mapped to its position in s, a later position overwriting
      an earlier one, starting from an empty dict. */
  function Enumerate<T(==)>(s: seq<T>): (m: map<T, nat>)
  {
    if s == [] then map[]
    else
      var n := |s| - 1;
      Enumerate(s[..n])[s[n] := n]
  }

  lemma EnumerateSnoc<T>(s: seq<T>, x: T)
    ensures Enumerate(s + [x]) == Enumerate(s)[x := |s|]
  {
    assert (s + [x])[..|s|] == s;
  }

  /** Each element is mapped to the position of its LAST occurrence. */
  lemma {:induction false} EnumerateLast<T>(s: seq<T>)
    ensures forall x :: x in Enumerate(s) <==> x in s
    ensures forall x :: x in Enumerate(s) ==>
      Enumerate(s)[x] < |s| && s[Enumerate(s)[x]] == x &&
      forall j :: Enumerate(s)[x] < j < |s| ==> s[j] != x
  {
    if s != [] {
      var n := |s| - 1;
      EnumerateLast(s[..n]);
      assert s == s[..n] + [s[n]];
    }
  }

  /** Distinct elements get distinct positions. */
  lemma EnumerateInjective<T>(s: seq<T>)
    ensures forall x, y :: x in Enumerate(s) && y in Enumerate(s) && Enumerate(s)[x] == Enumerate(s)[y] ==> x == y
  {
    EnumerateLast(s);
  }

  /** Without repetitions, every element is mapped to its own position. */
  lemma EnumerateDistinct<T>(s: seq<T>)
    requires Distinct(s)
    ensures forall i :: 0 <= i < |s| ==> s[i] in Enumerate(s) && Enumerate(s)[s[i]] == i
  {
    EnumerateLast(s);
  }
}
