/** The PHP array functions the evaluator leans on, as functions on sequences:
    `sort` (numeric, ascending), `array_reverse`, and the running sum of a
    `foreach` loop. */
module Seqs {

  lemma SplitAt<T>(s: seq<T>, i: nat)
    requires i <= |s|
    ensures s == s[..i] + s[i..]
  {
  }

  lemma ConcatHalves<T>(a: seq<T>, b: seq<T>)
    ensures (a + b)[..|a|] == a && (a + b)[|a|..] == b
  {
  }

  function Sum(s: seq<int>): int
  {
    if s == [] then 0 else Sum(s[..|s| - 1]) + s[|s| - 1]
  }

  lemma {:induction false} SumConcat(a: seq<int>, b: seq<int>)
    ensures Sum(a + b) == Sum(a) + Sum(b)
  {
    if b != [] {
      assert (a + b)[..|a + b| - 1] == a + b[..|b| - 1];
      SumConcat(a, b[..|b| - 1]);
    } else {
      assert a + b == a;
    }
  }

  lemma SplitAround(b: seq<int>, j: nat)
    requires j < |b|
    ensures b == b[..j] + [b[j]] + b[j + 1..]
  {
  }

  /** Taking out the value at j: what remains, as a multiset and as a sum. */
  lemma RemoveAt(b: seq<int>, j: nat)
    requires j < |b|
    ensures multiset(b) == multiset(b[..j] + b[j + 1..]) + multiset{b[j]}
    ensures Sum(b) == Sum(b[..j] + b[j + 1..]) + b[j]
  {
    var left, x, right := b[..j], b[j], b[j + 1..];
    SplitAround(b, j);
    RemoveMiddle(left, x, right);
  }

  lemma RemoveMiddle(left: seq<int>, x: int, right: seq<int>)
    ensures multiset(left + [x] + right) == multiset(left + right) + multiset{x}
    ensures Sum(left + [x] + right) == Sum(left + right) + x
  {
    SumConcat(left + [x], right);
    SumConcat(left, [x]);
    SumConcat(left, right);
    assert Sum([x]) == x by { assert [x][..0] == []; }
  }

  lemma Cancel(m: multiset<int>, n: multiset<int>, x: int)
    requires m + multiset{x} == n + multiset{x}
    ensures m == n
  {
    assert m == (m + multiset{x}) - multiset{x};
    assert n == (n + multiset{x}) - multiset{x};
  }

  lemma DropLast(a: seq<int>)
    requires a != []
    ensures multiset(a) == multiset(a[..|a| - 1]) + multiset{a[|a| - 1]}
  {
    assert a == a[..|a| - 1] + [a[|a| - 1]];
  }

  /** The sum does not depend on the order of the values: the total of the kept
      dice is the same whatever order `shuffle` leaves them in. */
  lemma {:induction false} SumPermutation(a: seq<int>, b: seq<int>)
    requires multiset(a) == multiset(b)
    ensures Sum(a) == Sum(b)
    decreases |a|
  {
    if a != [] {
      var x := a[|a| - 1];
      var init := a[..|a| - 1];
      DropLast(a);
      var j := PermutedMember(b, a, |a| - 1);
      RemoveAt(b, j);
      var rest := b[..j] + b[j + 1..];
      Cancel(multiset(init), multiset(rest), x);
      SumPermutation(init, rest);
    } else {
      assert |multiset(b)| == 0;
    }
  }

  /** A value of one arrangement is found in any other arrangement of it. */
  lemma PermutedMember(a: seq<int>, b: seq<int>, k: nat) returns (m: nat)
    requires multiset(a) == multiset(b) && k < |b|
    ensures m < |a| && a[m] == b[k]
  {
    assert b[k] in multiset(b);
    assert b[k] in a;
    m :| 0 <= m < |a| && a[m] == b[k];
  }

  /** Every value in [lo, hi] puts the sum of n values in [n*lo, n*hi]. */
  lemma MulSucc(n: int, c: int)
    ensures (n + 1) * c == n * c + c
  {
  }

  lemma {:induction false} SumBounds(s: seq<int>, lo: int, hi: int)
    requires forall k :: 0 <= k < |s| ==> lo <= s[k] <= hi
    ensures |s| * lo <= Sum(s) <= |s| * hi
  {
    if s != [] {
      var n := |s| - 1;
      SumBounds(s[..n], lo, hi);
      assert n * lo <= Sum(s[..n]) <= n * hi;
      assert Sum(s) == Sum(s[..n]) + s[n];
      MulSucc(n, lo);
      MulSucc(n, hi);
    }
  }

  /** `array_reverse`. */
  function Reverse(s: seq<int>): (r: seq<int>)
    ensures |r| == |s|
  {
    seq(|s|, k requires 0 <= k < |s| => s[|s| - 1 - k])
  }

  lemma {:induction false} ReversePermutes(s: seq<int>)
    ensures multiset(Reverse(s)) == multiset(s)
    decreases |s|
  {
    if s != [] {
      var init := s[..|s| - 1];
      assert Reverse(s) == [s[|s| - 1]] + Reverse(init);
      ReversePermutes(init);
      assert s == init + [s[|s| - 1]];
    }
  }

  lemma ReverseTwicePrefix(s: seq<int>, k: nat)
    requires k <= |s|
    ensures Reverse(Reverse(s))[..k] == s[..k]
  {
  }

  /** The first |s|-q values of the reversal are the last |s|-q values of s,
      rearranged. */
  lemma ReversedRest(s: seq<int>, q: nat)
    requires q <= |s|
    ensures multiset(Reverse(s)[..|s| - q]) == multiset(s[q..])
  {
    ReversePrefix(s, |s| - q);
    assert s[|s| - (|s| - q)..] == s[q..];
    ReversePermutes(s[q..]);
  }

  /** Dropping the first k values of the reversal is reversing all but the
      last k values. */
  lemma ReverseSuffix(s: seq<int>, k: nat)
    requires k <= |s|
    ensures Reverse(s)[k..] == Reverse(s[..|s| - k])
  {
  }

  /** Taking the first k values of the reversal is reversing the last k values. */
  lemma ReversePrefix(s: seq<int>, k: nat)
    requires k <= |s|
    ensures Reverse(s)[..k] == Reverse(s[|s| - k..])
  {
  }

  predicate Ascends(s: seq<int>) {
    forall i, j :: 0 <= i < j < |s| ==> s[i] <= s[j]
  }

  predicate Descends(s: seq<int>) {
    forall i, j :: 0 <= i < j < |s| ==> s[i] >= s[j]
  }

  lemma AscendsAcross(s: seq<int>, q: nat, i: nat, m: nat)
    requires Ascends(s) && i < q && q + m < |s|
    ensures s[..q][i] <= s[q..][m]
  {
    assert s[..q][i] == s[i] && s[q..][m] == s[q + m];
  }

  lemma DescendsAcross(s: seq<int>, q: nat, i: nat, m: nat)
    requires Descends(s) && i < q && q + m < |s|
    ensures s[..q][i] >= s[q..][m]
  {
    assert s[..q][i] == s[i] && s[q..][m] == s[q + m];
  }

  lemma ConsAscends(v: int, s: seq<int>)
    requires Ascends(s) && (s != [] ==> v <= s[0])
    ensures Ascends([v] + s)
  {
  }

  /** One step of insertion sort: `x` placed before the first element not
      below it. */
  function Insert(x: int, s: seq<int>): (r: seq<int>)
    ensures |r| == |s| + 1
  {
    if s == [] then [x]
    else if x <= s[0] then [x] + s
    else [s[0]] + Insert(x, s[1..])
  }

  /** Inserting keeps the values. */
  lemma {:induction false} InsertPermutes(x: int, s: seq<int>)
    ensures multiset(Insert(x, s)) == multiset(s) + multiset{x}
  {
    if s != [] && x > s[0] {
      InsertPermutes(x, s[1..]);
      assert s == [s[0]] + s[1..];
    }
  }

  /** Inserting into ascending values keeps them ascending. */
  lemma {:induction false} InsertSorts(x: int, s: seq<int>)
    requires Ascends(s)
    ensures Ascends(Insert(x, s))
  {
    if s != [] && x > s[0] {
      var rest := s[1..];
      assert Ascends(rest);
      InsertSorts(x, rest);
      var r := Insert(x, rest);
      assert r[0] == x || r[0] == s[1] by { InsertHead(x, rest); }
      ConsAscends(s[0], r);
    }
  }

  lemma InsertHead(x: int, s: seq<int>)
    ensures Insert(x, s)[0] == x || (s != [] && Insert(x, s)[0] == s[0])
  {
  }

  /** `sort($results, SORT_NUMERIC)`: the values in ascending order. */
  function Ascending(s: seq<int>): (r: seq<int>)
    ensures |r| == |s|
  {
    if s == [] then [] else Insert(s[0], Ascending(s[1..]))
  }

  /** `sort` rearranges the values into ascending order. */
  lemma {:induction false} AscendingSorts(s: seq<int>)
    ensures Ascends(Ascending(s))
    ensures multiset(Ascending(s)) == multiset(s)
  {
    if s != [] {
      AscendingSorts(s[1..]);
      InsertSorts(s[0], Ascending(s[1..]));
      InsertPermutes(s[0], Ascending(s[1..]));
      assert s == [s[0]] + s[1..];
    }
  }

  lemma ReverseOfAscendingDescends(s: seq<int>)
    requires Ascends(s)
    ensures Descends(Reverse(s))
  {
  }
}
