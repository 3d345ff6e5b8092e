/** `preg_match_all` as a loop over start positions, independent of the pattern:
    `matchAt(p)` is the pattern's match starting exactly at p, if any.  The
    search tries p, p + 1, ... in turn; after a match it resumes where the
    match ended. */
module PregMatchAll {
  import opened Optional

  datatype Match<T> = Match(token: T, end: nat)

  /** All matches from offset p on, in order.  The pattern of the notation
      never matches the empty string (`Notation.MatchAt` ends every match after
      its start); a match that did not move past its start would resume one
      position later. */
  function MatchAll<T>(n: nat, p: nat, matchAt: nat -> Option<Match<T>>): (r: seq<T>)
    requires p <= n
    ensures |r| <= n - p
    decreases n - p
  {
    if p == n then []
    else
      match matchAt(p)
      case Some(m) => [m.token] + (if p < m.end <= n then MatchAll(n, m.end, matchAt) else MatchAll(n, p + 1, matchAt))
      case None => MatchAll(n, p + 1, matchAt)
  }

  /** A match anywhere from p on makes the result non-empty. */
  lemma {:induction false} FindsMatch<T>(n: nat, p: nat, i: nat, matchAt: nat -> Option<Match<T>>)
    requires p <= i < n && matchAt(i).Some?
    ensures MatchAll(n, p, matchAt) != []
    decreases i - p
  {
    if matchAt(p).None? {
      FindsMatch(n, p + 1, i, matchAt);
    }
  }

  /** A non-empty result has a match at some start position from p on. */
  lemma {:induction false} NeedsMatch<T>(n: nat, p: nat, matchAt: nat -> Option<Match<T>>) returns (i: nat)
    requires p <= n && MatchAll(n, p, matchAt) != []
    ensures p <= i < n && matchAt(i).Some?
    decreases n - p
  {
    if matchAt(p).Some? {
      i := p;
    } else {
      i := NeedsMatch(n, p + 1, matchAt);
    }
  }

  /** Start positions without a match are skipped. */
  lemma {:induction false} Skips<T>(n: nat, p: nat, q: nat, matchAt: nat -> Option<Match<T>>)
    requires p <= q <= n
    requires forall k :: p <= k < q ==> matchAt(k).None?
    ensures MatchAll(n, p, matchAt) == MatchAll(n, q, matchAt)
    decreases q - p
  {
    if p < q {
      Skips(n, p + 1, q, matchAt);
    }
  }

  /** A match at p comes first, and the search resumes at its end. */
  lemma Takes<T>(n: nat, p: nat, matchAt: nat -> Option<Match<T>>)
    requires p < n && matchAt(p).Some? && p < matchAt(p).value.end <= n
    ensures MatchAll(n, p, matchAt) == [matchAt(p).value.token] + MatchAll(n, matchAt(p).value.end, matchAt)
  {
  }

  /** Every result is the token of some match. */
  lemma {:induction false} FromMatches<T>(n: nat, p: nat, matchAt: nat -> Option<Match<T>>, k: nat) returns (q: nat)
    requires p <= n && k < |MatchAll(n, p, matchAt)|
    ensures p <= q < n && matchAt(q).Some? && matchAt(q).value.token == MatchAll(n, p, matchAt)[k]
    decreases n - p
  {
    var m := matchAt(p);
    if m.Some? {
      if k == 0 {
        q := p;
      } else {
        var next := if p < m.value.end <= n then m.value.end else p + 1;
        q := FromMatches(n, next, matchAt, k - 1);
      }
    } else {
      q := FromMatches(n, p + 1, matchAt, k);
    }
  }
}
