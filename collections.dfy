/**
 * Small sequence and option utilities shared by the report models.
 * They mirror the Ruby Array operations the reports rely on:
 * `uniq` (keep the first occurrence), `a - b` (drop every element of b)
 * and `select` by membership.
 */
module Collections {

  datatype Option<+T> = None | Some(value: T)

  /** A Ruby call either returns a value or raises; the reason names the exception. */
  datatype Result<+T> = Ok(value: T) | Raised(reason: string)

  predicate NoDuplicates<T(==,!new)>(s: seq<T>) {
    forall i, j :: 0 <= i < j < |s| ==> s[i] != s[j]
  }

  lemma NoDuplicatesCons<T(!new)>(x: T, s: seq<T>)
    requires x !in s && NoDuplicates(s)
    ensures NoDuplicates([x] + s)
  {
    forall i, j | 0 <= i < j < |[x] + s| ensures ([x] + s)[i] != ([x] + s)[j] {
      if i > 0 {
        assert ([x] + s)[i] == s[i - 1] && ([x] + s)[j] == s[j - 1];
      } else {
        assert ([x] + s)[j] == s[j - 1];
      }
    }
  }

  /** Ruby `Array#uniq`: the first occurrence of each element, in order. */
  function Uniq<T(==,!new)>(s: seq<T>): (r: seq<T>)
    ensures NoDuplicates(r)
    ensures forall x :: x in r <==> x in s
    ensures |r| <= |s|
    decreases |s|
  {
    if |s| == 0 then []
    else
      var front := Uniq(s[..|s| - 1]);
      assert forall x :: x in s <==> x in s[..|s| - 1] || x == s[|s| - 1];
      if s[|s| - 1] in front then front else front + [s[|s| - 1]]
  }

  /** Uniq leaves a duplicate-free sequence as it is. */
  lemma {:induction false} UniqOfDistinct<T(!new)>(s: seq<T>)
    requires NoDuplicates(s)
    ensures Uniq(s) == s
    decreases |s|
  {
    if |s| > 0 {
      var front := s[..|s| - 1];
      assert NoDuplicates(front);
      UniqOfDistinct(front);
      assert s[|s| - 1] !in front;
      assert front + [s[|s| - 1]] == s;
    }
  }

  /** Ruby `a - b`: every element of a that does not occur in b, in order. */
  function Without<T(==,!new)>(a: seq<T>, b: seq<T>): (r: seq<T>)
    ensures forall x :: x in r <==> x in a && x !in b
    ensures |r| <= |a|
    decreases |a|
  {
    if |a| == 0 then []
    else if a[0] in b then Without(a[1..], b)
    else [a[0]] + Without(a[1..], b)
  }

  /** The elements of s that belong to the set m, in order (a `select` by membership). */
  function Keep<T(==,!new)>(s: seq<T>, m: set<T>): (r: seq<T>)
    ensures forall x :: x in r <==> x in s && x in m
    ensures |r| <= |s|
    decreases |s|
  {
    if |s| == 0 then []
    else if s[0] in m then [s[0]] + Keep(s[1..], m)
    else Keep(s[1..], m)
  }

  /** Sum of a sequence of integers (Ruby `Array#sum`). */
  function Sum(s: seq<int>): int
    decreases |s|
  {
    if |s| == 0 then 0 else s[0] + Sum(s[1..])
  }

  /** Ruby `compact`: the values of the non-nil entries, in order. */
  function Compact<T(!new)>(s: seq<Option<T>>): (r: seq<T>)
    ensures |r| <= |s|
    ensures forall x :: x in r <==> Some(x) in s
    decreases |s|
  {
    if |s| == 0 then []
    else match s[0]
      case None => Compact(s[1..])
      case Some(v) => [v] + Compact(s[1..])
  }

  lemma {:induction false} SumAppend(a: seq<int>, b: seq<int>)
    ensures Sum(a + b) == Sum(a) + Sum(b)
    decreases |a|
  {
    if |a| > 0 {
      assert (a + b)[1..] == a[1..] + b;
      SumAppend(a[1..], b);
    } else {
      assert a + b == b;
    }
  }

  /** Ruby `rows.select { |q| p(q) }`: the rows satisfying p, in order. */
  function Select<T(==,!new)>(rows: seq<T>, p: T -> bool): (r: seq<T>)
    ensures forall q :: q in r <==> q in rows && p(q)
    ensures |r| <= |rows|
    decreases |rows|
  {
    if |rows| == 0 then []
    else if p(rows[0]) then [rows[0]] + Select(rows[1..], p)
    else Select(rows[1..], p)
  }

  /** A selection and its complement split the rows between them. */
  lemma {:induction false} SelectSplits<T(!new)>(rows: seq<T>, p: T -> bool)
    ensures |Select(rows, p)| + |Select(rows, q => !p(q))| == |rows|
    decreases |rows|
  {
    if |rows| > 0 {
      SelectSplits(rows[1..], p);
    }
  }

  /** Nothing is selected when no row satisfies p. */
  lemma {:induction false} EmptySelect<T(!new)>(rows: seq<T>, p: T -> bool)
    requires forall q :: q in rows ==> !p(q)
    ensures Select(rows, p) == []
    decreases |rows|
  {
    if |rows| > 0 {
      assert rows[0] in rows;
      assert forall q :: q in rows[1..] ==> q in rows;
      EmptySelect(rows[1..], p);
    }
  }
}
