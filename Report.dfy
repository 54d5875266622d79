/**
 * The two decisions `create_html_report` in main.py makes about what it prints:
 * the enumeration marker taken off each variation, and the colour class of the
 * auditor's score.
 */
module Report {
  import opened Text

  /** The pattern `^\d+\.` applies: s starts with one or more digits and a dot. */
  predicate HasMarker(s: string) {
    var n := DigitRun(s, 0);
    0 < n < |s| && s[n] == '.'
  }

  /** m is an enumeration marker as `\d+\.\s*` reads it: digits, one dot, then only whitespace. */
  predicate IsMarker(m: string) {
    var n := DigitRun(m, 0);
    0 < n < |m| && m[n] == '.' && AllSpace(m[n + 1..])
  }

  /**
   * `re.sub(r'^\d+\.\s*', '', s)`. The anchor allows a match only at the start,
   * so at most one marker goes: its digits, its dot and all the whitespace after
   * it. What is left is a suffix of s; s is returned unchanged when it has no
   * marker.
   */
  function StripEnumeration(s: string): (r: string)
    ensures |r| <= |s| && r == s[|s| - |r|..]
    ensures r == s <==> !HasMarker(s)
    ensures HasMarker(s) ==> IsMarker(s[..|s| - |r|]) && (r == [] || !IsSpace(r[0]))
  {
    var n := DigitRun(s, 0);
    if 0 < n < |s| && s[n] == '.' then
      var m := n + 1 + SpaceRun(s, n + 1);
      assert DigitRun(s[..m], 0) == n by {
        PrefixKeepsRun(s, m, 0);
      }
      assert s[..m][n + 1..] == s[n + 1..m];
      s[m..]
    else s
  }

  lemma {:induction false} PrefixKeepsRun(s: string, m: nat, p: nat)
    requires p <= m <= |s|
    requires DigitRun(s, p) + p < m
    ensures DigitRun(s[..m], p) == DigitRun(s, p)
    decreases m - p
  {
    if p < m && IsDigit(s[p]) {
      PrefixKeepsRun(s, m, p + 1);
    }
  }

  /** Stripping happens once, not until no marker is left: "1. 2. x" keeps its second marker. */
  lemma StripEnumerationIsNotIdempotent()
    ensures StripEnumeration("1. 2. x") == "2. x"
    ensures StripEnumeration(StripEnumeration("1. 2. x")) == "x"
  {
    var s := "1. 2. x";
    assert DigitRun(s, 0) == 1 by {
      assert DigitRun(s, 1) == 0;
    }
    assert SpaceRun(s, 2) == 1 by {
      assert SpaceRun(s, 3) == 0;
    }
    var t := "2. x";
    assert s[3..] == t;
    assert DigitRun(t, 0) == 1 by {
      assert DigitRun(t, 1) == 0;
    }
    assert SpaceRun(t, 2) == 1 by {
      assert SpaceRun(t, 3) == 0;
    }
    assert t[3..] == "x";
  }

  /** The class of the auditor's block: "audit-high" for scores of 95 and above, "audit-low" below. */
  function AuditClass(score: int): (c: string)
    ensures c == "audit-high" <==> score >= 95
    ensures c == "audit-low" <==> score < 95
  {
    if score >= 95 then "audit-high" else "audit-low"
  }
}
