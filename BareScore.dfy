/**
 * The score `analyze_questions` in main.py reads out of the auditor's reply:
 * the first match of the regular expression `\b(\d{1,3})\b`, converted with
 * `int()`, or 50 when nothing matches. The value is not clamped to 0..100.
 */
module BareScore {
  import opened Text
  import opened Wrappers

  /** The score used when the auditor's reply holds no standalone number. */
  const DefaultScore := 50

  /** `\b` at position p: the characters on either side differ in being word characters (the string's ends count as non-word). */
  predicate WordBoundary(s: string, p: nat): (b: bool)
    requires p <= |s|
    ensures s == [] ==> !b
    ensures 0 < p < |s| && IsDigit(s[p - 1]) && IsDigit(s[p]) ==> !b
    ensures 0 < p < |s| && IsDigit(s[p - 1]) && !IsWordChar(s[p]) ==> b
  {
    (p > 0 && IsWordChar(s[p - 1])) != (p < |s| && IsWordChar(s[p]))
  }

  /** The k characters from p are all digits. */
  predicate DigitsAt(s: string, p: nat, k: nat)
    requires p + k <= |s|
  {
    forall j :: p <= j < p + k ==> IsDigit(s[j])
  }

  /**
   * `(\d{1,k})\b` tried at p the way the greedy quantifier backtracks: k digits
   * first, then k - 1, down to one. The result is the length of the group.
   */
  function GroupAt(s: string, p: nat, k: nat): (g: Option<nat>)
    requires p <= |s|
    ensures g.Some? ==> 1 <= g.value <= k && p + g.value <= |s|
    ensures g.Some? ==> DigitsAt(s, p, g.value) && WordBoundary(s, p + g.value)
    decreases k
  {
    if k == 0 then None
    else if p + k <= |s| && DigitsAt(s, p, k) && WordBoundary(s, p + k) then Some(k)
    else GroupAt(s, p, k - 1)
  }

  /** One attempt of `\b(\d{1,3})\b` at position p: the length of group 1 if it matches there. */
  function MatchAt(s: string, p: nat): (m: Option<nat>)
    requires p <= |s|
    ensures m.Some? ==> WordBoundary(s, p) && 1 <= m.value <= 3 && p + m.value <= |s|
    ensures m.Some? ==> DigitsAt(s, p, m.value) && WordBoundary(s, p + m.value)
  {
    if WordBoundary(s, p) then GroupAt(s, p, 3) else None
  }

  /**
   * The independent reading of that pattern: p starts a maximal run of one to
   * three digits whose neighbours are non-word characters or the string's ends.
   */
  predicate StandaloneNumberAt(s: string, p: nat)
    requires p <= |s|
  {
    var n := DigitRun(s, p);
    && 1 <= n <= 3
    && (p == 0 || !IsWordChar(s[p - 1]))
    && (p + n == |s| || !IsWordChar(s[p + n]))
  }

  /** The greedy attempt of at most k digits finds the whole run when the run is no longer than k, and nothing otherwise. */
  lemma {:induction false} GroupAtFindsRun(s: string, p: nat, k: nat)
    requires p <= |s|
    requires p == 0 || !IsWordChar(s[p - 1])
    ensures GroupAt(s, p, k).Some? <==>
      (1 <= DigitRun(s, p) <= k && (p + DigitRun(s, p) == |s| || !IsWordChar(s[p + DigitRun(s, p)])))
    ensures GroupAt(s, p, k).Some? ==> GroupAt(s, p, k).value == DigitRun(s, p)
    decreases k
  {
    var n := DigitRun(s, p);
    if k > 0 {
      GroupAtFindsRun(s, p, k - 1);
      if k < n {
        // the k-th character after p is still a digit: no boundary there
        assert p + k < |s| && IsWordChar(s[p + k]);
      } else if k > n {
        // fewer than k digits are available
        assert p + k <= |s| ==> !DigitsAt(s, p, k) by {
          if p + k <= |s| {
            assert !IsDigit(s[p + n]);
          }
        }
      } else if n >= 1 {
        assert IsWordChar(s[p + k - 1]);
      }
    }
  }

  /** The regular expression matches at p exactly at a standalone number, and its group is the whole run. */
  lemma MatchAtIffStandalone(s: string, p: nat)
    requires p <= |s|
    ensures MatchAt(s, p).Some? <==> StandaloneNumberAt(s, p)
    ensures MatchAt(s, p).Some? ==> MatchAt(s, p).value == DigitRun(s, p)
  {
    var n := DigitRun(s, p);
    if p == 0 || !IsWordChar(s[p - 1]) {
      GroupAtFindsRun(s, p, 3);
      if n >= 1 {
        assert IsWordChar(s[p]);
      } else {
        assert GroupAt(s, p, 3).None?;
      }
    } else {
      assert MatchAt(s, p).None? by {
        if n >= 1 {
          assert IsWordChar(s[p]);
        }
      }
    }
  }

  /** `re.search` from position `from`: the first position where the pattern matches. */
  function SearchFrom(s: string, from: nat): (r: Option<nat>)
    requires from <= |s|
    ensures r.Some? ==> from <= r.value <= |s| && MatchAt(s, r.value).Some?
    ensures forall q :: from <= q <= |s| && (r.None? || q < r.value) ==> MatchAt(s, q).None?
    decreases |s| - from
  {
    if MatchAt(s, from).Some? then Some(from)
    else if from == |s| then None
    else SearchFrom(s, from + 1)
  }

  /** main.py: `int(score_match.group(1)) if score_match else 50`; at most three digits, so at most 999. */
  function ExtractScore(audit: string): (score: nat)
    ensures score <= 999
  {
    match SearchFrom(audit, 0)
    case Some(p) =>
      var n := MatchAt(audit, p).value;
      MatchAtIffStandalone(audit, p);
      DecimalValue(audit[p..p + n])
    case None => DefaultScore
  }

  /** The score is the value of the first standalone number of one to three digits. */
  lemma ScoreIsFirstStandaloneNumber(audit: string, p: nat)
    requires p <= |audit| && StandaloneNumberAt(audit, p)
    requires forall q :: 0 <= q < p ==> !StandaloneNumberAt(audit, q)
    ensures AllDigits(audit[p..p + DigitRun(audit, p)])
    ensures ExtractScore(audit) == DecimalValue(audit[p..p + DigitRun(audit, p)])
  {
    FirstNumberIsFound(audit, p);
    ScoreOfFoundNumber(audit, p);
  }

  /** When the search stops at a standalone number, the score is the value of its digits. */
  lemma ScoreOfFoundNumber(audit: string, p: nat)
    requires p <= |audit| && StandaloneNumberAt(audit, p)
    requires SearchFrom(audit, 0) == Some(p)
    ensures AllDigits(audit[p..p + DigitRun(audit, p)])
    ensures ExtractScore(audit) == DecimalValue(audit[p..p + DigitRun(audit, p)])
  {
    MatchAtIffStandalone(audit, p);
  }

  /** The search stops at the first standalone number. */
  lemma FirstNumberIsFound(audit: string, p: nat)
    requires p <= |audit| && StandaloneNumberAt(audit, p)
    requires forall q :: 0 <= q < p ==> !StandaloneNumberAt(audit, q)
    ensures SearchFrom(audit, 0) == Some(p)
  {
    var r := SearchFrom(audit, 0);
    assert r.Some? && r.value <= p by {
      MatchAtIffStandalone(audit, p);
    }
    MatchAtIffStandalone(audit, r.value);
  }

  /** With no standalone number of one to three digits, the score is exactly 50. */
  lemma ScoreDefaultsWithoutStandaloneNumber(audit: string)
    requires forall p :: 0 <= p <= |audit| ==> !StandaloneNumberAt(audit, p)
    ensures ExtractScore(audit) == DefaultScore
  {
    var r := SearchFrom(audit, 0);
    if r.Some? {
      MatchAtIffStandalone(audit, r.value);
    }
  }

  /**
   * A run of four or more digits, or one glued to a letter, digit or `_` on
   * either side (`v2`, `1234`, `7_`), never matches.
   */
  lemma LongOrGluedRunNeverMatches(s: string, p: nat)
    requires p < |s| && IsDigit(s[p])
    requires || DigitRun(s, p) >= 4
             || (p > 0 && IsWordChar(s[p - 1]))
             || (p + DigitRun(s, p) < |s| && IsWordChar(s[p + DigitRun(s, p)]))
    ensures MatchAt(s, p).None?
  {
    MatchAtIffStandalone(s, p);
  }
}
