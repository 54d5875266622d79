/**
 * `extract_score_from_file` in agents.py: the first match of `Score:\s*(\d+)`
 * in the analysis file, converted with `int()`, or `None`. A missing file or a
 * failed read also gives `None`. The file is the one `analyze_questions` has
 * just written: a header naming the PDF, the PDF text, the simulated response
 * and the auditor's reply, in that order.
 */
module LabelledScore {
  import opened Text
  import opened Wrappers

  const Label := "Score:"

  /** `Score:` starts at position p. */
  predicate LabelAt(s: string, p: nat) {
    p + |Label| <= |s| && s[p..p + |Label|] == Label
  }

  /** Where the digits of a match at p would start: after the label and all the whitespace behind it. */
  function DigitsStart(s: string, p: nat): (q: nat)
    requires LabelAt(s, p)
    ensures q <= |s|
  {
    p + |Label| + SpaceRun(s, p + |Label|)
  }

  /**
   * One attempt of `Score:\s*(\d+)` at p, giving the value of group 1. The
   * greedy `\s*` takes all the whitespace; giving any of it back would leave a
   * whitespace character where a digit is needed, so backtracking never helps,
   * and `\d+` takes the whole digit run.
   */
  function MatchAt(s: string, p: nat): (v: Option<nat>)
    ensures v.Some? ==> LabelAt(s, p)
  {
    if LabelAt(s, p) && DigitRun(s, DigitsStart(s, p)) > 0 then
      var q := DigitsStart(s, p);
      Some(DecimalValue(s[q..q + DigitRun(s, q)]))
    else None
  }

  /** `re.search` from position `from`: the first position at which the pattern matches. */
  function SearchFrom(s: string, from: nat): (r: Option<nat>)
    requires from <= |s|
    ensures r.Some? ==> from <= r.value < |s| && MatchAt(s, r.value).Some?
    ensures forall q :: from <= q < |s| && (r.None? || q < r.value) ==> MatchAt(s, q).None?
    decreases |s| - from
  {
    if from == |s| then None
    else if MatchAt(s, from).Some? then Some(from)
    else SearchFrom(s, from + 1)
  }

  /** The labelled score of a text: the value after the first `Score:` that is followed by digits. */
  function ScoreIn(s: string): (r: Option<nat>)
    ensures r.Some? <==> exists p :: 0 <= p < |s| && MatchAt(s, p).Some?
    ensures r.Some? ==> exists p :: 0 <= p < |s| && MatchAt(s, p) == r
  {
    match SearchFrom(s, 0)
    case Some(p) => MatchAt(s, p)
    case None => None
  }

  /** The first match of the pattern decides the score. */
  lemma ScoreIsFirstLabelled(s: string, p: nat)
    requires p < |s| && MatchAt(s, p).Some?
    requires forall q :: 0 <= q < p ==> MatchAt(s, q).None?
    ensures ScoreIn(s) == MatchAt(s, p)
  {
    var r := SearchFrom(s, 0);
    assert r.Some? && r.value <= p;
  }

  /** With no `Score:` followed by optional whitespace and a digit, there is no score. */
  lemma NoLabelNoScore(s: string)
    requires forall p :: 0 <= p < |s| && LabelAt(s, p) ==>
      DigitsStart(s, p) == |s| || !IsDigit(s[DigitsStart(s, p)])
    ensures ScoreIn(s).None?
  {
    forall p | 0 <= p < |s|
      ensures MatchAt(s, p).None?
    {
      if LabelAt(s, p) {
        assert DigitRun(s, DigitsStart(s, p)) == 0;
      }
    }
  }

  /** How reading the analysis file back ended. */
  datatype ReadBack = ReadsContent | FileMissing | ReadFails

  /**
   * `extract_score_from_file`: `FileNotFoundError` and every other exception of
   * the read are swallowed and give `None`, as does a file without a labelled score.
   */
  function ScoreFromFile(read: ReadBack, content: string): (r: Option<nat>)
    ensures read != ReadsContent ==> r.None?
    ensures read == ReadsContent ==> r == ScoreIn(content)
  {
    match read
    case ReadsContent => ScoreIn(content)
    case FileMissing => None
    case ReadFails => None
  }

  /** The header and the two sections `analyze_questions` writes before the auditor's part. */
  function BeforeAuditor(path: string, text: string, simulated: string): string {
    ("--- QC Testing Agent (" + path + ") ---\n")
      + ("Questions and Answers:\n" + text + "\n")
      + ("Simulated Response:\n" + simulated + "\n")
      + "\n--- Auditor Agent ---\n"
  }

  /** The auditor's part of the file. */
  function AuditorSection(audit: string): string {
    "Evaluation and Score:\n" + audit + "\n"
  }

  /** Everything agents.py writes to the analysis file, in order. */
  function AnalysisFile(path: string, text: string, simulated: string, audit: string): (file: string)
    ensures BeforeAuditor(path, text, simulated) <= file
    ensures |file| == |BeforeAuditor(path, text, simulated)| + 23 + |audit|
    ensures file[|file| - |audit| - 1..] == audit + "\n"
  {
    BeforeAuditor(path, text, simulated) + AuditorSection(audit)
  }

  /** A whitespace run that starts inside a is not changed by appending b, when b does not start with whitespace. */
  lemma {:induction false} SpaceRunIgnoresAppend(a: string, b: string, p: nat)
    requires p <= |a|
    requires b == [] || !IsSpace(b[0])
    ensures SpaceRun(a + b, p) == SpaceRun(a, p)
    decreases |a| - p
  {
    if p < |a| {
      assert (a + b)[p] == a[p];
      if IsSpace(a[p]) {
        SpaceRunIgnoresAppend(a, b, p + 1);
      }
    } else if b != [] {
      assert (a + b)[p] == b[0];
    }
  }

  /** A digit run that starts inside a is not changed by appending b, when b does not start with a digit. */
  lemma {:induction false} DigitRunIgnoresAppend(a: string, b: string, p: nat)
    requires p <= |a|
    requires b == [] || !IsDigit(b[0])
    ensures DigitRun(a + b, p) == DigitRun(a, p)
    decreases |a| - p
  {
    if p < |a| {
      assert (a + b)[p] == a[p];
      if IsDigit(a[p]) {
        DigitRunIgnoresAppend(a, b, p + 1);
      }
    } else if b != [] {
      assert (a + b)[p] == b[0];
    }
  }

  /** A match attempt that starts early enough in a does not depend on what follows a. */
  lemma MatchIgnoresAppend(a: string, b: string, p: nat)
    requires p + |Label| <= |a|
    requires b == [] || (!IsSpace(b[0]) && !IsDigit(b[0]))
    ensures MatchAt(a + b, p) == MatchAt(a, p)
  {
    LabelIgnoresAppend(a, b, p);
    if LabelAt(a, p) {
      LabelledMatchIgnoresAppend(a, b, p);
    } else {
      assert MatchAt(a, p).None?;
      assert MatchAt(a + b, p).None?;
    }
  }

  lemma LabelledMatchIgnoresAppend(a: string, b: string, p: nat)
    requires LabelAt(a, p) && LabelAt(a + b, p)
    requires b == [] || (!IsSpace(b[0]) && !IsDigit(b[0]))
    ensures MatchAt(a + b, p) == MatchAt(a, p)
  {
    var q := DigitsStart(a, p);
    assert DigitsStart(a + b, p) == q by {
      SpaceRunIgnoresAppend(a, b, p + |Label|);
    }
    var n := DigitRun(a, q);
    assert DigitRun(a + b, q) == n by {
      DigitRunIgnoresAppend(a, b, q);
    }
    if n > 0 {
      assert (a + b)[q..q + n] == a[q..q + n] by {
        SliceIgnoresAppend(a, b, q, n);
      }
      MatchOfRun(a, p, q, n, a[q..q + n]);
      MatchOfRun(a + b, p, q, n, a[q..q + n]);
    }
  }

  lemma LabelIgnoresAppend(a: string, b: string, p: nat)
    requires p + |Label| <= |a|
    ensures LabelAt(a + b, p) == LabelAt(a, p)
  {
    assert (a + b)[p..p + |Label|] == a[p..p + |Label|];
  }

  lemma SliceIgnoresAppend(a: string, b: string, q: nat, n: nat)
    requires q + n <= |a|
    ensures (a + b)[q..q + n] == a[q..q + n]
  {
  }

  /**
   * Once a holds a labelled score, appending text that does not start with
   * whitespace or a digit leaves the score as it is: the first match wins.
   */
  lemma ScoreSurvivesAppend(a: string, b: string)
    requires ScoreIn(a).Some?
    requires b == [] || (!IsSpace(b[0]) && !IsDigit(b[0]))
    ensures ScoreIn(a + b) == ScoreIn(a)
  {
    var p := SearchFrom(a, 0).value;
    assert LabelAt(a, p);
    MatchIgnoresAppend(a, b, p);
    forall q | 0 <= q < p
      ensures MatchAt(a + b, q).None?
    {
      MatchIgnoresAppend(a, b, q);
    }
    ScoreIsFirstLabelled(a + b, p);
  }

  /**
   * A `Score:` label followed by digits in the PDF text, the simulated
   * response or the header takes precedence over anything the auditor wrote.
   */
  lemma EarlierLabelTakesPrecedence(path: string, text: string, simulated: string, audit: string)
    requires ScoreIn(BeforeAuditor(path, text, simulated)).Some?
    ensures ScoreIn(AnalysisFile(path, text, simulated, audit)) == ScoreIn(BeforeAuditor(path, text, simulated))
  {
    ScoreSurvivesAuditor(BeforeAuditor(path, text, simulated), audit);
  }

  /** The auditor's section, which starts with `E`, does not change a score found before it. */
  lemma ScoreSurvivesAuditor(a: string, audit: string)
    requires ScoreIn(a).Some?
    ensures ScoreIn(a + AuditorSection(audit)) == ScoreIn(a)
  {
    ScoreSurvivesAppend(a, AuditorSection(audit));
  }

  /**
   * When no `Score:` starts before position k, the score is decided by the
   * first match at or after k.
   */
  lemma ScoreAfterUnlabelledPrefix(s: string, k: nat)
    requires k <= |s|
    requires forall q :: 0 <= q < k ==> !LabelAt(s, q)
    ensures ScoreIn(s) == match SearchFrom(s, k) case Some(p) => MatchAt(s, p) case None => None
  {
    SearchSkips(s, 0, k);
  }

  /**
   * The auditor's reply decides the score only when neither the header, the PDF
   * text nor the simulated response holds a `Score:`; the search then starts at
   * the auditor's section, whose own heading `Evaluation and Score:` is a label
   * too, 15 characters in, and decides whenever the reply starts with a number.
   */
  lemma AuditorDecidesOnlyWithoutEarlierLabel(path: string, text: string, simulated: string, audit: string)
    requires var file := AnalysisFile(path, text, simulated, audit);
      forall q :: 0 <= q < |BeforeAuditor(path, text, simulated)| ==> !LabelAt(file, q)
    ensures var file, at := AnalysisFile(path, text, simulated, audit), |BeforeAuditor(path, text, simulated)| + 15;
      && LabelAt(file, at)
      && ScoreIn(file) == (match SearchFrom(file, at)
        case Some(p) => MatchAt(file, p)
        case None => None)
      && (MatchAt(file, at).Some? ==> ScoreIn(file) == MatchAt(file, at))
  {
    AuditorSearchStart(BeforeAuditor(path, text, simulated), audit);
  }

  /**
   * The number a reply opens with, after optional whitespace: what `\s*(\d+)`
   * takes when the reply follows a label and a newline.
   */
  function LeadingNumber(reply: string): Option<nat> {
    var q := SpaceRun(reply, 0);
    if q < |reply| && IsDigit(reply[q]) then Some(DecimalValue(reply[q..q + DigitRun(reply, q)])) else None
  }

  /**
   * Without an earlier label, a reply that opens with optional whitespace and
   * then digits is scored by those digits, whatever `Score:` it holds later:
   * the heading's `Score:`, a newline and the reply's leading whitespace are
   * all taken by `\s*`.
   */
  lemma AuditorLeadingNumberDecides(path: string, text: string, simulated: string, audit: string)
    requires var file := AnalysisFile(path, text, simulated, audit);
      forall q :: 0 <= q < |BeforeAuditor(path, text, simulated)| ==> !LabelAt(file, q)
    requires LeadingNumber(audit).Some?
    ensures ScoreIn(AnalysisFile(path, text, simulated, audit)) == LeadingNumber(audit)
  {
    var b := BeforeAuditor(path, text, simulated);
    assert AnalysisFile(path, text, simulated, audit) == b + AuditorSection(audit);
    LeadingNumberDecides(b, audit);
  }

  lemma LeadingNumberDecides(b: string, audit: string)
    requires forall p :: 0 <= p < |b| ==> !LabelAt(b + AuditorSection(audit), p)
    requires LeadingNumber(audit).Some?
    ensures ScoreIn(b + AuditorSection(audit)) == LeadingNumber(audit)
  {
    var q := SpaceRun(audit, 0);
    AuditorSearchStart(b, audit);
    LeadingNumberAfterHeading(b, audit, q, DigitRun(audit, q));
  }

  /** The search over an auditor section behind an unlabelled prefix b starts at the heading's label. */
  lemma AuditorSearchStart(b: string, audit: string)
    requires forall q :: 0 <= q < |b| ==> !LabelAt(b + AuditorSection(audit), q)
    ensures var file, at := b + AuditorSection(audit), |b| + 15;
      && LabelAt(file, at)
      && ScoreIn(file) == (match SearchFrom(file, at)
        case Some(p) => MatchAt(file, p)
        case None => None)
      && (MatchAt(file, at).Some? ==> ScoreIn(file) == MatchAt(file, at))
  {
    var file := b + AuditorSection(audit);
    AuditorHeading(b, audit);
    ScoreAfterUnlabelledPrefix(file, |b| + 15);
  }

  /** The heading's label, followed by a reply that opens with a number, matches with that number. */
  lemma LeadingNumberAfterHeading(b: string, audit: string, q: nat, d: nat)
    requires q == SpaceRun(audit, 0) < |audit| && IsDigit(audit[q]) && d == DigitRun(audit, q)
    ensures MatchAt(b + AuditorSection(audit), |b| + 15) == Some(DecimalValue(audit[q..q + d]))
  {
    AuditorHeadingEnds(b, audit);
    NumberAfterLabelLine(b + AuditorSection(audit), b + "Evaluation and Score:\n", audit, |b| + 15, q, d);
  }

  /**
   * A line that ends with `Score:`, followed by a reply that opens with a
   * number: the attempt at that label matches with the number.
   */
  lemma NumberAfterLabelLine(file: string, pre: string, audit: string, at: nat, q: nat, d: nat)
    requires file == pre + (audit + "\n") && |pre| == at + |Label| + 1
    requires LabelAt(file, at) && file[at + |Label|] == '\n'
    requires q == SpaceRun(audit, 0) < |audit| && IsDigit(audit[q]) && d == DigitRun(audit, q)
    ensures MatchAt(file, at) == Some(DecimalValue(audit[q..q + d]))
  {
    DigitsAfterLabelLine(file, pre, audit, at, q, d);
    MatchOfRun(file, at, |pre| + q, d, file[|pre| + q..|pre| + q + d]);
  }

  /** After such a label, `\s*` takes the newline and the reply's leading whitespace, and `\d+` the reply's digits. */
  lemma DigitsAfterLabelLine(file: string, pre: string, audit: string, at: nat, q: nat, d: nat)
    requires file == pre + (audit + "\n") && |pre| == at + |Label| + 1
    requires LabelAt(file, at) && file[at + |Label|] == '\n'
    requires q == SpaceRun(audit, 0) < |audit| && IsDigit(audit[q]) && d == DigitRun(audit, q)
    ensures DigitsStart(file, at) == |pre| + q
    ensures DigitRun(file, |pre| + q) == d > 0 && file[|pre| + q..|pre| + q + d] == audit[q..q + d]
  {
    RunsBehindPrefix(file, pre, audit, q, d);
    assert SpaceRun(file, at + |Label|) == 1 + q;
  }

  /** An attempt at a label whose digit run spells `digits` gives their value. */
  lemma MatchOfRun(s: string, p: nat, start: nat, n: nat, digits: string)
    requires LabelAt(s, p) && DigitsStart(s, p) == start
    requires start + n <= |s| && DigitRun(s, start) == n > 0 && s[start..start + n] == digits
    ensures AllDigits(digits) && MatchAt(s, p) == Some(DecimalValue(digits))
  {
  }

  /**
   * In `pre + audit + "\n"`, the whitespace and the digit run that open the
   * reply are those of the reply alone.
   */
  lemma RunsBehindPrefix(file: string, pre: string, audit: string, q: nat, d: nat)
    requires file == pre + (audit + "\n")
    requires q == SpaceRun(audit, 0) < |audit| && d == DigitRun(audit, q)
    ensures SpaceRun(file, |pre|) == q
    ensures DigitRun(file, |pre| + q) == d
    ensures file[|pre| + q..|pre| + q + d] == audit[q..q + d]
  {
    SpaceRunBehindPrefix(pre, audit);
    DigitRunBehindPrefix(pre, audit, q);
    SliceBehindPrefix(pre, audit, q, d);
  }

  /** The whitespace run at the start of a line put behind a prefix is the line's own, when it ends inside the line. */
  lemma SpaceRunBehindPrefix(pre: string, audit: string)
    requires SpaceRun(audit, 0) < |audit|
    ensures SpaceRun(pre + (audit + "\n"), |pre|) == SpaceRun(audit, 0)
  {
    SpaceRunShift(pre, audit + "\n", 0);
    SpaceRunStopsInside(audit, "\n", 0);
  }

  /** A digit run inside a line put behind a prefix is the line's own. */
  lemma DigitRunBehindPrefix(pre: string, audit: string, q: nat)
    requires q <= |audit|
    ensures DigitRun(pre + (audit + "\n"), |pre| + q) == DigitRun(audit, q)
  {
    DigitRunShift(pre, audit + "\n", q);
    DigitRunIgnoresAppend(audit, "\n", q);
  }

  /** A slice inside a line put behind a prefix is the line's own. */
  lemma SliceBehindPrefix(pre: string, audit: string, q: nat, d: nat)
    requires q + d <= |audit|
    ensures (pre + (audit + "\n"))[|pre| + q..|pre| + q + d] == audit[q..q + d]
  {
    SliceIgnoresAppend(audit, "\n", q, d);
    SliceShift(pre, audit + "\n", q, q + d);
  }

  lemma SliceShift(x: string, y: string, i: nat, j: nat)
    requires i <= j <= |y|
    ensures (x + y)[|x| + i..|x| + j] == y[i..j]
  {
  }

  /** A whitespace run in y keeps its length when y is put behind x. */
  lemma {:induction false} SpaceRunShift(x: string, y: string, p: nat)
    requires p <= |y|
    ensures SpaceRun(x + y, |x| + p) == SpaceRun(y, p)
    decreases |y| - p
  {
    if p < |y| {
      assert (x + y)[|x| + p] == y[p];
      if IsSpace(y[p]) {
        SpaceRunShift(x, y, p + 1);
      }
    }
  }

  /** A digit run in y keeps its length when y is put behind x. */
  lemma {:induction false} DigitRunShift(x: string, y: string, p: nat)
    requires p <= |y|
    ensures DigitRun(x + y, |x| + p) == DigitRun(y, p)
    decreases |y| - p
  {
    if p < |y| {
      assert (x + y)[|x| + p] == y[p];
      if IsDigit(y[p]) {
        DigitRunShift(x, y, p + 1);
      }
    }
  }

  /** A whitespace run that ends inside a is not changed by appending b. */
  lemma {:induction false} SpaceRunStopsInside(a: string, b: string, p: nat)
    requires p <= |a| && p + SpaceRun(a, p) < |a|
    ensures SpaceRun(a + b, p) == SpaceRun(a, p)
    decreases |a| - p
  {
    assert (a + b)[p] == a[p];
    if IsSpace(a[p]) {
      SpaceRunStopsInside(a, b, p + 1);
    }
  }

  /** The auditor section opens with `Evaluation and `, 15 characters without an `S`, then `Score:`. */
  lemma AuditorHeading(b: string, audit: string)
    ensures var file := b + AuditorSection(audit);
      && LabelAt(file, |b| + 15)
      && (forall q :: |b| <= q < |b| + 15 ==> !LabelAt(file, q))
  {
    var file := b + AuditorSection(audit);
    var h := "Evaluation and Score:\n";
    assert file == b + h + (audit + "\n");
    assert file[|b|..|b| + 22] == h;
    forall q | |b| <= q < |b| + 15
      ensures !LabelAt(file, q)
    {
      assert file[q] == h[q - |b|];
    }
    assert file[|b| + 15..|b| + 21] == h[15..21];
  }

  /** The heading ends with `Score:` and a newline, and the reply and a newline follow it. */
  lemma AuditorHeadingEnds(b: string, audit: string)
    ensures var file, pre := b + AuditorSection(audit), b + "Evaluation and Score:\n";
      && LabelAt(file, |b| + 15)
      && file[|b| + 21] == '\n'
      && file == pre + (audit + "\n")
  {
    var file, pre := b + AuditorSection(audit), b + "Evaluation and Score:\n";
    assert file == pre + (audit + "\n");
    assert file[|b| + 15..|b| + 21] == pre[|b| + 15..|b| + 21];
  }


  lemma {:induction false} SearchSkips(s: string, from: nat, to: nat)
    requires from <= to <= |s|
    requires forall q :: from <= q < to ==> !LabelAt(s, q)
    ensures SearchFrom(s, from) == SearchFrom(s, to)
    decreases |s| - from
  {
    if from < to {
      assert !LabelAt(s, from);
      assert MatchAt(s, from).None?;
      assert SearchFrom(s, from) == SearchFrom(s, from + 1);
      SearchSkips(s, from + 1, to);
    }
  }

  /**
   * agents.py as written: `extract_score_from_file` runs inside the
   * `with open(output_file, 'w')` block, before the file is closed, so the file
   * on disk holds only the first `flushed` characters of what was written, and
   * none at all while the content still fits in the write buffer.
   */
  function ScoreReadBeforeClose(read: ReadBack, content: string, flushed: nat): (r: Option<nat>)
    ensures flushed >= |content| ==> r == ScoreFromFile(read, content)
    ensures flushed == 0 ==> r.None?
  {
    var onDisk := if flushed < |content| then content[..flushed] else content;
    ScoreFromFile(read, onDisk)
  }

  /**
   * The discrepancy: an analysis file with a labelled score, read back before
   * anything was flushed, reports no score; read after closing, it reports the
   * score.
   */
  lemma UnflushedReadLosesScore(path: string, text: string, simulated: string, audit: string)
    requires ScoreIn(BeforeAuditor(path, text, simulated)).Some?
    ensures ScoreReadBeforeClose(ReadsContent, AnalysisFile(path, text, simulated, audit), 0).None?
    ensures ScoreFromFile(ReadsContent, AnalysisFile(path, text, simulated, audit)).Some?
  {
    EarlierLabelTakesPrecedence(path, text, simulated, audit);
  }
}
