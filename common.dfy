/** Small helpers shared by the model: failure-carrying results, sequence
    lookups and Python's ordering of `str` values. */
module Common {

  datatype Option<T> = None | Some(value: T)

  datatype Result<T, E> = Ok(value: T) | Err(error: E)

  /** No element occurs twice: the keys of a Python dict, the columns of a frame. */
  predicate Distinct<T(==)>(s: seq<T>) {
    forall i, j | 0 <= i < j < |s| :: s[i] != s[j]
  }

  lemma DistinctConcat<T>(a: seq<T>, b: seq<T>)
    requires Distinct(a) && Distinct(b) && forall x | x in a :: x !in b
    ensures Distinct(a + b)
  {
    forall i, j | 0 <= i < j < |a + b| ensures (a + b)[i] != (a + b)[j] {
      if i < |a| && |a| <= j {
        assert (a + b)[i] in a && (a + b)[j] == b[j - |a|];
      }
    }
  }

  /** Without its first element a duplicate-free sequence stays so, and
      does not hold that element. */
  lemma DistinctTail<T>(s: seq<T>)
    requires Distinct(s) && |s| > 0
    ensures Distinct(s[1..]) && s[0] !in s[1..]
  {
    forall k | 0 <= k < |s| - 1 ensures s[1..][k] != s[0] {
      assert s[1..][k] == s[k + 1];
    }
  }

  /** Position of the first occurrence of `x` in `s`, or -1 when there is none. */
  function IndexOf<T(==)>(s: seq<T>, x: T): (k: int)
    ensures -1 <= k < |s|
  {
    if |s| == 0 then -1
    else if s[0] == x then 0
    else
      var k := IndexOf(s[1..], x);
      if k < 0 then -1 else k + 1
  }

  lemma {:induction false} IndexOfSpec<T>(s: seq<T>, x: T)
    ensures IndexOf(s, x) >= 0 ==> s[IndexOf(s, x)] == x && x !in s[..IndexOf(s, x)]
    ensures IndexOf(s, x) == -1 <==> x !in s
  {
    if |s| > 0 && s[0] != x {
      IndexOfSpec(s[1..], x);
      var k := IndexOf(s[1..], x);
      if k >= 0 {
        assert s[..k + 1] == [s[0]] + s[1..][..k];
      } else {
        assert s == [s[0]] + s[1..];
      }
    }
  }

  lemma IndexOfDistinct<T>(s: seq<T>, i: nat)
    requires Distinct(s) && i < |s|
    ensures IndexOf(s, s[i]) == i
  {
    IndexOfSpec(s, s[i]);
  }

  // ---------------------------------------------------------------------
  // Python compares `str` values code point by code point; a proper
  // prefix sorts first.

  predicate StrLt(a: string, b: string)
    decreases |a|
  {
    if |a| == 0 then |b| > 0
    else if |b| == 0 then false
    else if a[0] != b[0] then a[0] < b[0]
    else StrLt(a[1..], b[1..])
  }

  lemma {:induction false} StrLtIrreflexive(a: string)
    ensures !StrLt(a, a)
    decreases |a|
  {
    if |a| > 0 {
      StrLtIrreflexive(a[1..]);
    }
  }

  lemma {:induction false} StrLtTransitive(a: string, b: string, c: string)
    requires StrLt(a, b) && StrLt(b, c)
    ensures StrLt(a, c)
    decreases |a|
  {
    if |a| > 0 && |b| > 0 && |c| > 0 && a[0] == b[0] && b[0] == c[0] {
      StrLtTransitive(a[1..], b[1..], c[1..]);
    }
  }

  lemma {:induction false} StrLtTotal(a: string, b: string)
    requires a != b
    ensures StrLt(a, b) || StrLt(b, a)
    decreases |a|
  {
    if |a| > 0 && |b| > 0 && a[0] == b[0] {
      assert a == [a[0]] + a[1..] && b == [b[0]] + b[1..];
      StrLtTotal(a[1..], b[1..]);
    }
  }

  lemma StrLtAsymmetric(a: string, b: string)
    requires StrLt(a, b)
    ensures !StrLt(b, a)
  {
    if StrLt(b, a) {
      StrLtTransitive(a, b, a);
      StrLtIrreflexive(a);
    }
  }

  /** Strictly increasing under Python's `str` order, hence also free of duplicates. */
  predicate StrictlySorted(s: seq<string>) {
    forall i, j | 0 <= i < j < |s| :: StrLt(s[i], s[j])
  }

  /** Adds `x` to a strictly increasing sequence, keeping it strictly increasing. */
  function InsertSorted(x: string, s: seq<string>): (r: seq<string>)
    requires StrictlySorted(s)
    ensures StrictlySorted(r)
    ensures forall y :: y in r <==> y == x || y in s
  {
    if |s| == 0 then [x]
    else if x == s[0] then s
    else if StrLt(x, s[0]) then
      assert forall j | 0 < j < |s| :: StrLt(x, s[j]) by {
        forall j | 0 < j < |s| ensures StrLt(x, s[j]) {
          StrLtTransitive(x, s[0], s[j]);
        }
      }
      [x] + s
    else
      StrLtTotal(x, s[0]);
      var t := InsertSorted(x, s[1..]);
      assert forall y :: y in t ==> StrLt(s[0], y) by {
        forall y | y in t ensures StrLt(s[0], y) {
          if y != x {
            var j :| 0 <= j < |s[1..]| && s[1..][j] == y;
            assert s[j + 1] == y;
          }
        }
      }
      [s[0]] + t
  }

  /** The distinct values of `xs` in ascending order, as pandas sorts the
      categories it finds in a column of strings. */
  function SortedUnique(xs: seq<string>): (r: seq<string>)
    ensures StrictlySorted(r)
    ensures forall y :: y in r <==> y in xs
  {
    if |xs| == 0 then []
    else
      var r := InsertSorted(xs[|xs| - 1], SortedUnique(xs[..|xs| - 1]));
      assert xs == xs[..|xs| - 1] + [xs[|xs| - 1]];
      r
  }

  /** In a strictly increasing sequence the first element is the smallest:
      below every other element, and the only one not above some element. */
  lemma {:induction false} FirstIsSmallest(s: seq<string>, y: string)
    requires StrictlySorted(s) && |s| > 0 && y in s
    ensures y == s[0] || StrLt(s[0], y)
    ensures y == s[0] <==> forall z | z in s :: !StrLt(z, y)
  {
    var j :| 0 <= j < |s| && s[j] == y;
    if y == s[0] {
      forall z | z in s ensures !StrLt(z, y) {
        var k :| 0 <= k < |s| && s[k] == z;
        if k > 0 {
          StrLtAsymmetric(s[0], s[k]);
        } else {
          StrLtIrreflexive(y);
        }
      }
    } else {
      assert j > 0;
      assert StrLt(s[0], y) && s[0] in s;
    }
  }
}
