/** Small pieces of the Go runtime the other modules lean on. */
module Basics {
  datatype Option<+T> = None | Some(value: T)

  // int64 and time.Duration share one range; durations count nanoseconds.
  const MIN_INT64: int := -0x8000_0000_0000_0000
  const MAX_INT64: int := 0x7FFF_FFFF_FFFF_FFFF
  const DAY: int := 86_400_000_000_000

  /** Go's int64 arithmetic keeps the low 64 bits. */
  function Wrap64(x: int): (r: int)
    ensures MIN_INT64 <= r <= MAX_INT64 && (x - r) % 0x1_0000_0000_0000_0000 == 0
    ensures MIN_INT64 <= x <= MAX_INT64 ==> r == x
  {
    (x - MIN_INT64) % 0x1_0000_0000_0000_0000 + MIN_INT64
  }

  /** time.Time.Sub saturates instead of wrapping. */
  function TimeSub(a: int, b: int): (r: int)
    ensures MIN_INT64 <= r <= MAX_INT64
    ensures MIN_INT64 <= a - b <= MAX_INT64 ==> r == a - b
    ensures (a - b < MIN_INT64 ==> r == MIN_INT64) && (a - b > MAX_INT64 ==> r == MAX_INT64)
  {
    if a - b < MIN_INT64 then MIN_INT64 else if a - b > MAX_INT64 then MAX_INT64 else a - b
  }

  function Max(a: int, b: int): int { if a >= b then a else b }

  /** The next key of a Go map: any of those not visited yet. */
  method NextKey<K>(rest: set<K>) returns (k: K)
    requires rest != {}
    ensures k in rest
  {
    k :| k in rest;
  }
}

/** sort.Slice: a rearrangement in non-decreasing order. Elements the comparison does not
    separate may come out in any order, so callers learn no more than SortSlice ensures. */
module Sorting {
  ghost predicate StrictWeakOrder<T(!new)>(less: (T, T) -> bool) {
    && (forall x :: !less(x, x))
    && (forall x, y, z :: less(x, y) && less(y, z) ==> less(x, z))
    && (forall x, y, z :: !less(x, y) && !less(y, z) ==> !less(x, z))
  }

  ghost predicate Sorted<T>(s: seq<T>, less: (T, T) -> bool) {
    forall i, j :: 0 <= i < j < |s| ==> !less(s[j], s[i])
  }

  lemma Asymmetric<T(!new)>(less: (T, T) -> bool, x: T, y: T)
    requires StrictWeakOrder(less) && less(x, y)
    ensures !less(y, x)
  {
  }

  lemma NegativelyTransitive<T(!new)>(less: (T, T) -> bool, x: T, y: T, z: T)
    requires StrictWeakOrder(less) && !less(x, y) && !less(y, z)
    ensures !less(x, z)
  {
  }

  lemma InsertionSorted<T(!new)>(s: seq<T>, i: nat, x: T, less: (T, T) -> bool)
    requires StrictWeakOrder(less) && Sorted(s, less) && i <= |s|
    requires i > 0 ==> !less(x, s[i - 1])
    requires i < |s| ==> less(x, s[i])
    ensures Sorted(s[..i] + [x] + s[i..], less)
  {
    var r := s[..i] + [x] + s[i..];
    forall a, b | 0 <= a < b < |r| ensures !less(r[b], r[a]) {
      if b == i {
        NegativelyTransitive(less, x, s[i - 1], s[a]);
      } else if a == i {
        Asymmetric(less, x, s[i]);
        if b - 1 > i {
          NegativelyTransitive(less, s[b - 1], s[i], x);
        }
      }
    }
  }

  method Insert<T(!new)>(s: seq<T>, x: T, less: (T, T) -> bool) returns (r: seq<T>)
    requires StrictWeakOrder(less) && Sorted(s, less)
    ensures Sorted(r, less)
    ensures multiset(r) == multiset(s) + multiset{x}
  {
    var i := |s|;
    while i > 0 && less(x, s[i - 1])
      invariant 0 <= i <= |s|
      invariant i < |s| ==> less(x, s[i])
    {
      i := i - 1;
    }
    r := s[..i] + [x] + s[i..];
    InsertionSorted(s, i, x, less);
    assert s == s[..i] + s[i..];
  }

  method SortSlice<T(!new)>(s: seq<T>, less: (T, T) -> bool) returns (r: seq<T>)
    requires StrictWeakOrder(less)
    ensures Sorted(r, less)
    ensures multiset(r) == multiset(s)
  {
    r := [];
    for i := 0 to |s|
      invariant Sorted(r, less)
      invariant multiset(r) == multiset(s[..i])
    {
      assert s[..i + 1] == s[..i] + [s[i]];
      r := Insert(r, s[i], less);
    }
    assert s[..|s|] == s;
  }
}
