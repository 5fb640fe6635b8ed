/** Sequence helpers shared by the model: the array operations the source
    uses (`filter`, `map`, `join`, `slice` with a negative start). */
module Seqs {

  /** `Array.prototype.filter`: the elements satisfying `p`, in order. */
  function Filter<T(!new)>(p: T -> bool, s: seq<T>): (r: seq<T>)
    ensures |r| <= |s|
    ensures forall x :: x in r <==> x in s && p(x)
  {
    if |s| == 0 then []
    else if p(s[0]) then [s[0]] + Filter(p, s[1..])
    else Filter(p, s[1..])
  }

  lemma {:induction false} FilterConcat<T(!new)>(p: T -> bool, a: seq<T>, b: seq<T>)
    ensures Filter(p, a + b) == Filter(p, a) + Filter(p, b)
  {
    if |a| == 0 {
      assert a + b == b;
    } else {
      assert (a + b)[1..] == a[1..] + b;
      FilterConcat(p, a[1..], b);
    }
  }

  /** Filtering twice by the same predicate filters once. */
  lemma {:induction false} FilterIdempotent<T(!new)>(p: T -> bool, s: seq<T>)
    ensures Filter(p, Filter(p, s)) == Filter(p, s)
  {
    if |s| > 0 {
      FilterIdempotent(p, s[1..]);
    }
  }

  /** When every element satisfies `p`, filtering keeps the whole sequence. */
  lemma {:induction false} FilterAll<T(!new)>(p: T -> bool, s: seq<T>)
    requires forall x :: x in s ==> p(x)
    ensures Filter(p, s) == s
  {
    if |s| > 0 {
      FilterAll(p, s[1..]);
    }
  }

  lemma FilterCons<T(!new)>(p: T -> bool, x: T, s: seq<T>)
    ensures Filter(p, [x] + s) == (if p(x) then [x] else []) + Filter(p, s)
  {
    assert ([x] + s)[1..] == s;
  }

  /** Filtering by two predicates that agree everywhere gives the same
      result. */
  lemma {:induction false} FilterSame<T(!new)>(p: T -> bool, q: T -> bool, s: seq<T>)
    requires forall x :: p(x) == q(x)
    ensures Filter(p, s) == Filter(q, s)
  {
    if |s| > 0 {
      FilterSame(p, q, s[1..]);
    }
  }

  /** What a filter keeps and what it drops add up to the whole sequence. */
  lemma {:induction false} FilterPartition<T(!new)>(p: T -> bool, s: seq<T>)
    ensures |Filter(p, s)| + |Filter(x => !p(x), s)| == |s|
  {
    if |s| > 0 {
      FilterPartition(p, s[1..]);
    }
  }

  /** `Array.prototype.map`. */
  function Map<T, U>(f: T -> U, s: seq<T>): (r: seq<U>)
    ensures |r| == |s|
    ensures forall i :: 0 <= i < |s| ==> r[i] == f(s[i])
  {
    if |s| == 0 then [] else [f(s[0])] + Map(f, s[1..])
  }

  /** An element of the mapped sequence is the image of an element of the
      original one, and every image occurs. */
  lemma MapMember<T, U>(f: T -> U, s: seq<T>, y: U)
    ensures y in Map(f, s) <==> exists x :: x in s && y == f(x)
  {
    var r := Map(f, s);
    if y in r {
      var k :| 0 <= k < |r| && r[k] == y;
      assert s[k] in s;
    }
    if exists x :: x in s && y == f(x) {
      var x :| x in s && y == f(x);
      var k :| 0 <= k < |s| && s[k] == x;
      assert r[k] == y;
    }
  }

  lemma {:induction false} MapConcat<T, U>(f: T -> U, a: seq<T>, b: seq<T>)
    ensures Map(f, a + b) == Map(f, a) + Map(f, b)
  {
    assert |Map(f, a + b)| == |Map(f, a) + Map(f, b)|;
    forall i | 0 <= i < |a + b|
      ensures Map(f, a + b)[i] == (Map(f, a) + Map(f, b))[i]
    {
      if i < |a| {
        assert (a + b)[i] == a[i];
      } else {
        assert (a + b)[i] == b[i - |a|];
      }
    }
  }

  /** `Array.prototype.join(sep)` over strings. */
  function Join(parts: seq<string>, sep: string): (r: string)
    ensures |parts| == 1 ==> r == parts[0]
    ensures |parts| == 0 ==> r == ""
  {
    if |parts| == 0 then ""
    else if |parts| == 1 then parts[0]
    else parts[0] + sep + Join(parts[1..], sep)
  }

  /** `Array.prototype.slice(-n)`: JavaScript reads `-0` as `0`, so a zero
      count keeps the whole sequence, and a count beyond the length is
      clamped to the start. */
  function SliceLast<T>(s: seq<T>, n: nat): (r: seq<T>)
    ensures n == 0 ==> r == s
    ensures 0 < n <= |s| ==> |r| == n && r == s[|s| - n..]
    ensures n > |s| ==> r == s
  {
    if n == 0 || n > |s| then s else s[|s| - n..]
  }

  /** No element occurs twice. */
  predicate Distinct<T(==)>(s: seq<T>) {
    forall i, j :: 0 <= i < j < |s| ==> s[i] != s[j]
  }

  /** Appends to `acc` the elements of `s` not seen before, in order, as
      building a JavaScript `Set` and reading it back with `Array.from` does. */
  function Dedup<T(==,!new)>(acc: seq<T>, s: seq<T>): (r: seq<T>)
    requires Distinct(acc)
    ensures Distinct(r)
    ensures forall x :: x in r <==> x in acc || x in s
    ensures |acc| <= |r| && r[..|acc|] == acc
    decreases s
  {
    if |s| == 0 then acc
    else if s[0] in acc then Dedup(acc, s[1..])
    else Dedup(acc + [s[0]], s[1..])
  }
}
