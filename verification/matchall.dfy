/** `String.prototype.matchAll` with a global regular expression: the scan tries the
    expression at the search index, yields the match it finds and resumes where that match
    ends, or moves one index on when the attempt fails. The scan is defined over any attempt
    function and instantiated with the diagnostic pattern's engine. */
module MatchAll {
  import opened Wrappers
  import opened DiagnosticPattern

  /** At every index below n, the attempt either fails or reports a non-empty match that
      starts at that index and ends by n. */
  predicate AttemptsWithin(n: nat, attempt: nat -> Option<Match>) {
    forall p: nat :: p < n && attempt(p).Some? ==>
      attempt(p).value.start == p < attempt(p).value.end <= n
  }

  /** The matches a global scan of a text of length n yields when it starts at index i. */
  function Scan(n: nat, i: nat, attempt: nat -> Option<Match>): (ms: seq<Match>)
    requires i <= n && AttemptsWithin(n, attempt)
    ensures |ms| <= n - i
    decreases n - i
  {
    if i == n then []
    else
      match attempt(i)
      case Some(m) => [m] + Scan(n, m.end, attempt)
      case None => Scan(n, i + 1, attempt)
  }

  /** The scan's matches are non-empty, disjoint, in order, and between i and n. */
  lemma {:induction false} ScanOrdered(n: nat, i: nat, attempt: nat -> Option<Match>)
    requires i <= n && AttemptsWithin(n, attempt)
    ensures forall k :: 0 <= k < |Scan(n, i, attempt)| ==>
      i <= Scan(n, i, attempt)[k].start < Scan(n, i, attempt)[k].end <= n
    ensures forall k, k2 :: 0 <= k < k2 < |Scan(n, i, attempt)| ==>
      Scan(n, i, attempt)[k].end <= Scan(n, i, attempt)[k2].start
    decreases n - i
  {
    if i < n {
      match attempt(i)
      case Some(m) =>
        ScanOrdered(n, m.end, attempt);
      case None =>
        ScanOrdered(n, i + 1, attempt);
    }
  }

  /** Each match the scan yields is the attempt's report at the index where it starts. */
  lemma {:induction false} ScanReported(n: nat, i: nat, attempt: nat -> Option<Match>)
    requires i <= n && AttemptsWithin(n, attempt)
    ensures forall k :: 0 <= k < |Scan(n, i, attempt)| ==>
      attempt(Scan(n, i, attempt)[k].start) == Some(Scan(n, i, attempt)[k])
    decreases n - i
  {
    if i < n {
      match attempt(i)
      case Some(m) => ScanReported(n, m.end, attempt);
      case None => ScanReported(n, i + 1, attempt);
    }
  }

  /** No successful attempt is lost: wherever an attempt at or after i succeeds, the scan
      yields a match that starts there and is that report, or one that starts earlier and
      spans the index, since the scan resumes only where a match ends. */
  lemma {:induction false} ScanCovers(n: nat, i: nat, attempt: nat -> Option<Match>, p: nat, r: Match)
    returns (k: nat)
    requires i <= p < n && AttemptsWithin(n, attempt) && attempt(p) == Some(r)
    ensures k < |Scan(n, i, attempt)|
    ensures Scan(n, i, attempt)[k].start <= p < Scan(n, i, attempt)[k].end
    ensures Scan(n, i, attempt)[k].start == p ==> Scan(n, i, attempt)[k] == r
    decreases n - i
  {
    var ms := Scan(n, i, attempt);
    match attempt(i)
    case Some(m) =>
      if p < m.end {
        k := 0;
      } else {
        var k' := ScanCovers(n, m.end, attempt, p, r);
        assert ms[k' + 1] == Scan(n, m.end, attempt)[k'];
        k := k' + 1;
      }
    case None =>
      k := ScanCovers(n, i + 1, attempt, p, r);
  }

  /** The diagnostic pattern's engine, tried at each index of s. */
  function Attempts(s: string): nat -> Option<Match> {
    (p: nat) => if p <= |s| then MatchAt(s, p) else None
  }

  /** The engine's attempts stay within s. */
  lemma AttemptsInside(s: string)
    ensures AttemptsWithin(|s|, Attempts(s))
  {
    forall p: nat | p < |s| && Attempts(s)(p).Some?
      ensures Attempts(s)(p).value.start == p < Attempts(s)(p).value.end <= |s|
    {
      assert Attempts(s)(p) == MatchAt(s, p);
    }
  }

  /** The matches `matchAll` yields for the diagnostic pattern over s from index i on. */
  function MatchesFrom(s: string, i: nat): (ms: seq<Match>)
    requires i <= |s|
    ensures |ms| <= |s| - i
  {
    AttemptsInside(s);
    Scan(|s|, i, Attempts(s))
  }

  /** The matches are non-empty, disjoint, in text order, and inside s after i. */
  lemma MatchesFromOrdered(s: string, i: nat)
    requires i <= |s|
    ensures forall k :: 0 <= k < |MatchesFrom(s, i)| ==>
      i <= MatchesFrom(s, i)[k].start < MatchesFrom(s, i)[k].end <= |s|
    ensures forall k, k2 :: 0 <= k < k2 < |MatchesFrom(s, i)| ==>
      MatchesFrom(s, i)[k].end <= MatchesFrom(s, i)[k2].start
  {
    AttemptsInside(s);
    ScanOrdered(|s|, i, Attempts(s));
  }

  /** The matches `matchAll` yields over the whole of s. */
  function Matches(s: string): (ms: seq<Match>)
    ensures |ms| <= |s|
  {
    MatchesFrom(s, 0)
  }

  /** The scan has nothing left to yield at the end of the text. */
  lemma MatchesFromEnd(s: string)
    ensures MatchesFrom(s, |s|) == []
  {
  }

  /** One step of the scan: at index i it yields the engine's match and resumes where that
      match ends, or yields nothing and moves on to the next index. */
  lemma MatchesFromStep(s: string, i: nat)
    requires i < |s|
    ensures MatchAt(s, i).Some? ==>
      MatchesFrom(s, i) == [MatchAt(s, i).value] + MatchesFrom(s, MatchAt(s, i).value.end)
    ensures MatchAt(s, i).None? ==> MatchesFrom(s, i) == MatchesFrom(s, i + 1)
  {
    AttemptsInside(s);
    assert Attempts(s)(i) == MatchAt(s, i);
  }

  /** After a match the scan resumes at the start of the next line: the match ends the
      text, or ends at a line terminator and the scan goes on just after it. */
  lemma ResumeAtNextLine(s: string, i: nat)
    requires i < |s| && MatchAt(s, i).Some?
    ensures var m := MatchAt(s, i).value;
      && (m.end == |s| ==> MatchesFrom(s, i) == [m])
      && (m.end < |s| ==> IsLineTerminator(s[m.end])
                          && MatchesFrom(s, i) == [m] + MatchesFrom(s, m.end + 1))
  {
    var m := MatchAt(s, i).value;
    MatchesFromStep(s, i);
    if m.end == |s| {
      MatchesFromEnd(s);
    } else {
      MatchAtSound(s, i, m);
      MatchesFromStep(s, m.end);
    }
  }

  /** Every match the scan yields is the engine's report at the index where it starts. */
  lemma MatchesFromReported(s: string, i: nat)
    requires i <= |s|
    ensures forall k :: 0 <= k < |MatchesFrom(s, i)| ==>
      MatchesFrom(s, i)[k].start <= |s|
      && MatchAt(s, MatchesFrom(s, i)[k].start) == Some(MatchesFrom(s, i)[k])
  {
    AttemptsInside(s);
    var ms := MatchesFrom(s, i);
    MatchesFromOrdered(s, i);
    ScanReported(|s|, i, Attempts(s));
    forall k | 0 <= k < |ms|
      ensures ms[k].start <= |s| && MatchAt(s, ms[k].start) == Some(ms[k])
    {
      assert Attempts(s)(ms[k].start) == Some(ms[k]);
    }
  }

  /** Every match `matchAll` yields is a match of the pattern where it starts. */
  lemma MatchesFromSound(s: string, i: nat)
    requires i <= |s|
    ensures forall k :: 0 <= k < |MatchesFrom(s, i)| ==>
      IsMatchAt(s, MatchesFrom(s, i)[k].start, MatchesFrom(s, i)[k])
  {
    var ms := MatchesFrom(s, i);
    MatchesFromReported(s, i);
    forall k | 0 <= k < |ms|
      ensures IsMatchAt(s, ms[k].start, ms[k])
    {
      MatchAtSound(s, ms[k].start, ms[k]);
    }
  }

  /** No match of the pattern is missed: wherever the pattern matches at or after index i,
      `matchAll` yields a match that starts there and agrees with it up to the rule/message
      split, or one that starts earlier and spans that index. */
  lemma MatchesFromComplete(s: string, i: nat, p: nat, m: Match) returns (k: nat)
    requires i <= p && IsMatchAt(s, p, m)
    ensures k < |MatchesFrom(s, i)|
    ensures MatchesFrom(s, i)[k].start <= p < MatchesFrom(s, i)[k].end
    ensures MatchesFrom(s, i)[k].start == p ==> ChosenOver(MatchesFrom(s, i)[k], m)
  {
    var r := MatchAtComplete(s, p, m);
    MatchAtSound(s, p, r);
    AttemptsInside(s);
    assert Attempts(s)(p) == Some(r);
    k := ScanCovers(|s|, i, Attempts(s), p, r);
  }
}
