/** Order-preserving list operations shared by the reconciler, the presence lists and the listener registry. */
module Seqs {

  /** Every element occurs at most once (a JavaScript `Set` kept as an insertion-ordered list). */
  predicate NoDup<T(==,!new)>(s: seq<T>) {
    forall i, j :: 0 <= i < j < |s| ==> s[i] != s[j]
  }

  /** `a` can be obtained from `b` by deleting elements: order is preserved. */
  ghost predicate IsSubseq<T>(a: seq<T>, b: seq<T>)
    decreases |b|
  {
    if a == [] then true
    else if b == [] then false
    else (a[0] == b[0] && IsSubseq(a[1..], b[1..])) || IsSubseq(a, b[1..])
  }

  lemma {:induction false} IsSubseqMembers<T>(a: seq<T>, b: seq<T>)
    requires IsSubseq(a, b)
    ensures forall x :: x in a ==> x in b
    decreases |b|
  {
    if a != [] && b != [] {
      if a[0] == b[0] && IsSubseq(a[1..], b[1..]) {
        IsSubseqMembers(a[1..], b[1..]);
        assert forall x :: x in a ==> x == a[0] || x in a[1..];
      } else {
        IsSubseqMembers(a, b[1..]);
      }
    }
  }

  lemma {:induction false} IsSubseqRefl<T>(s: seq<T>)
    ensures IsSubseq(s, s)
    decreases |s|
  {
    if s != [] {
      IsSubseqRefl(s[1..]);
    }
  }

  /** Dropping one element keeps the rest in order. */
  lemma {:induction false} IsSubseqRemoveAt<T>(s: seq<T>, k: nat)
    requires k < |s|
    ensures IsSubseq(s[..k] + s[k + 1..], s)
    decreases k
  {
    var r := s[..k] + s[k + 1..];
    if k == 0 {
      assert r == s[1..];
      IsSubseqRefl(s[1..]);
    } else {
      assert r[0] == s[0];
      assert r[1..] == s[1..][..k - 1] + s[1..][k..];
      IsSubseqRemoveAt(s[1..], k - 1);
    }
  }

  /** `s.filter(y => y !== x)`. */
  function Remove<T(==,!new)>(s: seq<T>, x: T): (r: seq<T>)
    ensures forall y :: y in r <==> y in s && y != x
    ensures |r| <= |s|
    ensures x !in s ==> r == s
  {
    if s == [] then []
    else if s[0] == x then Remove(s[1..], x)
    else [s[0]] + Remove(s[1..], x)
  }

  lemma {:induction false} RemoveNoDup<T(!new)>(s: seq<T>, x: T)
    requires NoDup(s)
    ensures NoDup(Remove(s, x))
    decreases |s|
  {
    if s != [] {
      assert NoDup(s[1..]);
      RemoveNoDup(s[1..], x);
      if s[0] != x {
        var rest := Remove(s[1..], x);
        assert s[0] !in rest;
        NoDupCons(s[0], rest);
      }
    }
  }

  lemma NoDupSnoc<T(!new)>(s: seq<T>, x: T)
    requires NoDup(s) && x !in s
    ensures NoDup(s + [x])
  {
    var r := s + [x];
    forall i, j | 0 <= i < j < |r| ensures r[i] != r[j] {
      assert r[i] == s[i];
      if j < |s| {
        assert r[j] == s[j];
      }
    }
  }

  lemma NoDupCons<T(!new)>(x: T, s: seq<T>)
    requires NoDup(s) && x !in s
    ensures NoDup([x] + s)
  {
    var r := [x] + s;
    forall i, j | 0 <= i < j < |r| ensures r[i] != r[j] {
      assert r[j] == s[j - 1];
      if i > 0 {
        assert r[i] == s[i - 1];
      }
    }
  }

  lemma {:induction false} RemoveIsSubseq<T(!new)>(s: seq<T>, x: T)
    ensures IsSubseq(Remove(s, x), s)
    decreases |s|
  {
    if s != [] {
      RemoveIsSubseq(s[1..], x);
      var r := Remove(s, x);
      if s[0] == x {
        if r != [] {
          assert r[0] in r;
          assert r[0] != s[0];
        }
      } else {
        assert r[1..] == Remove(s[1..], x);
      }
    }
  }

  lemma {:induction false} RemoveAppend<T(!new)>(a: seq<T>, b: seq<T>, x: T)
    ensures Remove(a + b, x) == Remove(a, x) + Remove(b, x)
    decreases |a|
  {
    if a != [] {
      assert (a + b)[0] == a[0] && (a + b)[1..] == a[1..] + b;
      RemoveAppend(a[1..], b, x);
    } else {
      assert a + b == b;
    }
  }

  /** Dropping position `i` takes exactly one copy of `s[i]` out of the multiset. */
  lemma MultisetRemoveAt<T>(s: seq<T>, i: int)
    requires 0 <= i < |s|
    ensures multiset(s[..i] + s[i + 1..]) + multiset{s[i]} == multiset(s)
  {
    var a, b := s[..i], s[i + 1..];
    assert s == (a + [s[i]]) + b;
  }

  /** Dropping position `i` removes exactly that element and keeps the rest in order. */
  lemma RemoveAtFacts<T>(s: seq<T>, i: int)
    requires 0 <= i < |s|
    ensures multiset(s[..i] + s[i + 1..]) + multiset{s[i]} == multiset(s)
    ensures IsSubseq(s[..i] + s[i + 1..], s)
  {
    MultisetRemoveAt(s, i);
    IsSubseqRemoveAt(s, i);
  }

  /** Removing an element that was just appended, and was absent before, undoes the append. */
  lemma RemoveSnocAbsent<T(!new)>(s: seq<T>, x: T)
    requires x !in s
    ensures Remove(s + [x], x) == s
  {
    RemoveAppend(s, [x], x);
    assert Remove([x], x) == Remove([], x);
  }

  /** `Array.from(new Set(s))`: the first occurrence of every element, in order. */
  function Distinct<T(==,!new)>(s: seq<T>): (r: seq<T>)
    ensures forall y :: y in r <==> y in s
  {
    if s == [] then [] else [s[0]] + Remove(Distinct(s[1..]), s[0])
  }

  lemma {:induction false} DistinctNoDup<T(!new)>(s: seq<T>)
    ensures NoDup(Distinct(s))
    decreases |s|
  {
    if s != [] {
      DistinctNoDup(s[1..]);
      RemoveNoDup(Distinct(s[1..]), s[0]);
      NoDupCons(s[0], Remove(Distinct(s[1..]), s[0]));
    }
  }

  lemma {:induction false} DistinctOfNoDup<T(!new)>(s: seq<T>)
    requires NoDup(s)
    ensures Distinct(s) == s
    decreases |s|
  {
    if s != [] {
      assert NoDup(s[1..]);
      DistinctOfNoDup(s[1..]);
      assert s[0] !in s[1..];
      assert s == [s[0]] + s[1..];
    }
  }

  /** Adding to a duplicate-free list through `new Set` is set insertion at the end. */
  lemma AddDistinct<T(!new)>(s: seq<T>, x: T)
    requires NoDup(s)
    ensures Distinct(s + [x]) == if x in s then s else s + [x]
  {
    if x in s {
      DistinctAppendPresent(s, x);
    } else {
      assert NoDup(s + [x]);
      DistinctOfNoDup(s + [x]);
    }
  }

  lemma {:induction false} DistinctAppendPresent<T(!new)>(s: seq<T>, x: T)
    requires NoDup(s) && x in s
    ensures Distinct(s + [x]) == s
    decreases |s|, 1
  {
    DistinctSnocUnfold(s, x);
    ConsSplit(s);
    if s[0] == x {
      DistinctSnocFresh(s[1..], x);
    } else {
      DistinctAppendPresentTail(s, x);
    }
  }

  lemma {:induction false} DistinctAppendPresentTail<T(!new)>(s: seq<T>, x: T)
    requires NoDup(s) && x in s && s[0] != x
    ensures Remove(Distinct(s[1..] + [x]), s[0]) == s[1..]
    decreases |s|, 0
  {
    var tail := s[1..];
    assert x in tail;
    assert NoDup(tail) && s[0] !in tail;
    DistinctAppendPresent(tail, x);
  }

  /** `new Set` on a list extended at the end, one step unfolded. */
  lemma DistinctSnocUnfold<T(!new)>(s: seq<T>, x: T)
    requires s != []
    ensures Distinct(s + [x]) == [s[0]] + Remove(Distinct(s[1..] + [x]), s[0])
  {
    var t := s + [x];
    assert t[1..] == s[1..] + [x];
  }

  lemma ConsSplit<T>(s: seq<T>)
    requires s != []
    ensures s == [s[0]] + s[1..]
  {
  }

  /** Appending an element absent from a duplicate-free list and removing it again. */
  lemma DistinctSnocFresh<T(!new)>(s: seq<T>, x: T)
    requires NoDup(s) && x !in s
    ensures Remove(Distinct(s + [x]), x) == s
  {
    assert NoDup(s + [x]);
    DistinctOfNoDup(s + [x]);
    RemoveSnocAbsent(s, x);
  }

  /** The set of elements of a list. */
  function Elements<T(==,!new)>(s: seq<T>): (r: set<T>)
    ensures forall x :: x in r <==> x in s
  {
    set x | x in s
  }

  lemma ElementsSnoc<T(!new)>(s: seq<T>, i: int)
    requires 0 <= i < |s|
    ensures Elements(s[..i + 1]) == Elements(s[..i]) + {s[i]}
  {
    assert forall x :: x in s[..i + 1] <==> x in s[..i] || x == s[i] by {
      assert s[..i + 1] == s[..i] + [s[i]];
    }
  }

  /** The elements of `s` that lie in `t`, in order. */
  function Keep<T(==,!new)>(s: seq<T>, t: set<T>): seq<T> {
    if s == [] then [] else (if s[0] in t then [s[0]] else []) + Keep(s[1..], t)
  }

  lemma {:induction false} KeepMembers<T(!new)>(s: seq<T>, t: set<T>)
    ensures forall y :: y in Keep(s, t) <==> y in s && y in t
    decreases |s|
  {
    if s != [] {
      KeepMembers(s[1..], t);
      assert forall y :: y in s <==> y == s[0] || y in s[1..];
    }
  }

  lemma {:induction false} KeepSnoc<T(!new)>(s: seq<T>, x: T, t: set<T>)
    ensures Keep(s + [x], t) == Keep(s, t) + (if x in t then [x] else [])
    decreases |s|
  {
    var tail := if x in t then [x] else [];
    if s == [] {
      assert s + [x] == [x] && [x][1..] == [];
      assert Keep([x], t) == tail + Keep([], t);
    } else {
      var head := if s[0] in t then [s[0]] else [];
      assert (s + [x])[0] == s[0] && (s + [x])[1..] == s[1..] + [x];
      assert Keep(s + [x], t) == head + Keep(s[1..] + [x], t);
      KeepSnoc(s[1..], x, t);
      assert Keep(s, t) == head + Keep(s[1..], t);
      assert head + (Keep(s[1..], t) + tail) == (head + Keep(s[1..], t)) + tail;
    }
  }
}
