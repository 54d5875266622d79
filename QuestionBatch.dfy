/**
 * `analyze_questions` in main.py: for every PDF path, the questions and
 * answers are extracted and paired up; each question is paraphrased, answered
 * by the QC agent and scored by the auditor, and one record per question is
 * appended to the caller's list. Any exception raised while a file is being
 * processed abandons the rest of that file only.
 */
module QuestionBatch {
  import opened Text
  import opened Oracle
  import opened QaExtraction
  import Variations
  import BareScore

  /** The three language-model calls made for one question, in order. */
  datatype Step = Paraphrase | Simulate | Audit

  /**
   * What the program observes of the outside world: whether a path exists,
   * what reading it as a PDF gives, and what each agent call returns, the
   * call being named by the position of the file in the batch, the position
   * of the question in the file and the step.
   */
  datatype World = World(
    present: string -> bool,
    pdf: string -> PdfOutcome,
    llm: (nat, nat, Step) -> Reply)

  /** One dictionary appended to `questions`. */
  datatype Record = Record(
    initialQuestion: string,
    initialAnswer: Value,
    additionalQuestions: seq<string>,
    score: nat,
    explanation: string)

  /** What handling one question amounts to. */
  datatype Outcome = Skipped | Recorded(record: Record) | Aborted

  /**
   * The body of the inner loop for question j of file i: a raising call, or an
   * auditor reply that is not a `str` (on which `re.search` raises), aborts; no
   * variations skip the question. The simulate and audit calls are made only
   * once there are variations.
   */
  function ProcessQuestion(w: World, i: nat, j: nat, question: string): (o: Outcome)
    ensures o.Skipped? <==>
      w.llm(i, j, Paraphrase).Returned? && Variations.GenerateVariations(w.llm(i, j, Paraphrase).value) == []
    ensures o.Aborted? <==>
      || w.llm(i, j, Paraphrase).Raised?
      || (&& Variations.GenerateVariations(w.llm(i, j, Paraphrase).value) != []
          && (|| w.llm(i, j, Simulate).Raised?
              || w.llm(i, j, Audit).Raised?
              || !w.llm(i, j, Audit).value.isStr))
    ensures o.Recorded? ==>
      o.record == Record(
        question,
        w.llm(i, j, Simulate).value,
        Variations.GenerateVariations(w.llm(i, j, Paraphrase).value),
        BareScore.ExtractScore(w.llm(i, j, Audit).value.text),
        Strip(w.llm(i, j, Audit).value.text))
  {
    match w.llm(i, j, Paraphrase)
    case Raised => Aborted
    case Returned(reply) =>
      var variations := Variations.GenerateVariations(reply);
      if variations == [] then Skipped
      else
        match w.llm(i, j, Simulate)
        case Raised => Aborted
        case Returned(answer) =>
          match w.llm(i, j, Audit)
          case Raised => Aborted
          case Returned(audit) =>
            if !audit.isStr then Aborted
            else Recorded(Record(question, answer, variations,
                                 BareScore.ExtractScore(audit.text), Strip(audit.text)))
  }

  /** The record an outcome adds to the list, if any. */
  function Emitted(o: Outcome): seq<Record> {
    if o.Recorded? then [o.record] else []
  }

  /** The outcomes of questions 0..n-1 of file i, each decided on its own. */
  function Outcomes(w: World, i: nat, qs: seq<string>, n: nat): (os: seq<Outcome>)
    requires n <= |qs|
    ensures |os| == n
  {
    seq(n, j requires 0 <= j < n => ProcessQuestion(w, i, j, qs[j]))
  }

  /**
   * The records a run of outcomes adds to the list: the exception that aborts
   * a question leaves the loop, so nothing from it or after it is added.
   */
  function Collect(os: seq<Outcome>): (rs: seq<Record>)
    ensures |rs| <= |os|
    ensures os != [] && os[0].Aborted? ==> rs == []
  {
    if os == [] then []
    else if os[0].Aborted? then []
    else Emitted(os[0]) + Collect(os[1..])
  }

  function Min(a: nat, b: nat): nat {
    if a < b then a else b
  }

  /**
   * The records file i adds: none when it is missing or has no questions;
   * otherwise the questions are paired with the answers, as `zip` does, and
   * handled in turn.
   */
  function FileRecords(w: World, files: seq<string>, i: nat): (rs: seq<Record>)
    requires i < |files|
    ensures !w.present(files[i]) ==> rs == []
  {
    if !w.present(files[i]) then []
    else
      var qa := ExtractQuestionsAndAnswers(w.pdf(files[i]));
      if qa.0 == [] then []
      else Collect(Outcomes(w, i, qa.0, Min(|qa.0|, |qa.1|)))
  }

  /** What each file of the list adds, by position. */
  function PerFile(w: World, files: seq<string>): nat -> seq<Record> {
    (i: nat) => if i < |files| then FileRecords(w, files, i) else []
  }

  /** The records positions lo..hi-1 add, one position after the other. */
  function Glue(perFile: nat -> seq<Record>, lo: nat, hi: nat): seq<Record>
    requires lo <= hi
    decreases hi
  {
    if hi == lo then [] else Glue(perFile, lo, hi - 1) + perFile(hi - 1)
  }

  /** The records files lo..hi-1 add, in file order. */
  function Batch(w: World, files: seq<string>, lo: nat, hi: nat): (rs: seq<Record>)
    requires lo <= hi <= |files|
    ensures lo == hi ==> rs == []
  {
    Glue(PerFile(w, files), lo, hi)
  }

  /** A single file adds exactly its own records. */
  lemma BatchOfOneFile(w: World, files: seq<string>, i: nat)
    requires i < |files|
    ensures Batch(w, files, i, i + 1) == FileRecords(w, files, i)
  {
    GlueOne(PerFile(w, files), i);
    assert PerFile(w, files)(i) == FileRecords(w, files, i);
  }

  lemma GlueOne(f: nat -> seq<Record>, i: nat)
    ensures Glue(f, i, i + 1) == f(i)
  {
    assert Glue(f, i, i + 1) == [] + f(i);
  }

  /** The caller's list, which `analyze_questions` appends to and returns. */
  class QuestionList {
    var items: seq<Record>

    constructor (items: seq<Record>)
      ensures this.items == items
    {
      this.items := items;
    }
  }

  /**
   * main.py:191-254. The list keeps what it held and gains the records of the
   * batch; the same list object is returned.
   */
  method AnalyzeQuestions(pdfFiles: seq<string>, w: World, questions: QuestionList) returns (r: QuestionList)
    modifies questions
    ensures r == questions
    ensures questions.items == old(questions.items) + Batch(w, pdfFiles, 0, |pdfFiles|)
  {
    var i := 0;
    while i < |pdfFiles|
      invariant i <= |pdfFiles|
      invariant questions.items == old(questions.items) + Batch(w, pdfFiles, 0, i)
    {
      AnalyzeFile(pdfFiles, i, w, questions);
      assert Batch(w, pdfFiles, 0, i + 1) == Batch(w, pdfFiles, 0, i) + FileRecords(w, pdfFiles, i) by {
        BatchSplit(w, pdfFiles, 0, i, i + 1);
        BatchOfOneFile(w, pdfFiles, i);
      }
      AppendAssoc(old(questions.items), Batch(w, pdfFiles, 0, i), FileRecords(w, pdfFiles, i));
      i := i + 1;
    }
    r := questions;
  }

  /**
   * main.py:197-252: one iteration of the loop over the paths, the `try`
   * block included; an exception ends the loop over the questions of this file.
   */
  method AnalyzeFile(pdfFiles: seq<string>, i: nat, w: World, questions: QuestionList)
    requires i < |pdfFiles|
    modifies questions
    ensures questions.items == old(questions.items) + FileRecords(w, pdfFiles, i)
  {
    var filePath := pdfFiles[i];
    if !w.present(filePath) {
      return;
    }
    var extracted := ExtractQuestionsAndAnswers(w.pdf(filePath));
    var extractedQuestions, extractedAnswers := extracted.0, extracted.1;
    if extractedQuestions == [] {
      return;
    }
    var n := Min(|extractedQuestions|, |extractedAnswers|);
    ghost var outcomes := Outcomes(w, i, extractedQuestions, n);
    assert outcomes[0..] == outcomes;
    var j := 0;
    while j < n
      invariant j <= n
      invariant old(questions.items) + Collect(outcomes) == questions.items + Collect(outcomes[j..])
    {
      CollectStep(outcomes, j);
      var outcome := AskAgents(w, i, j, extractedQuestions[j]);
      assert outcome == outcomes[j];
      if outcome.Aborted? {
        break;
      }
      ghost var later := Collect(outcomes[j + 1..]);
      if outcome.Recorded? {
        AppendAssoc(questions.items, [outcome.record], later);
        questions.items := questions.items + [outcome.record];
      } else {
        assert Emitted(outcome) + later == later;
      }
      j := j + 1;
    }
    assert outcomes[j..] == [] || outcomes[j].Aborted?;
  }

  /**
   * main.py:211-247: the three agent calls for question j of file i, in
   * order, and the record built from their replies.
   */
  method AskAgents(w: World, i: nat, j: nat, question: string) returns (outcome: Outcome)
    ensures outcome == ProcessQuestion(w, i, j, question)
  {
    var paraphrased := w.llm(i, j, Paraphrase);
    if paraphrased.Raised? {
      return Aborted;
    }
    var questionVariations := Variations.GenerateVariations(paraphrased.value);
    if questionVariations == [] {
      return Skipped;
    }
    var qcResult := w.llm(i, j, Simulate);
    if qcResult.Raised? {
      return Aborted;
    }
    var auditResult := w.llm(i, j, Audit);
    if auditResult.Raised? || !auditResult.value.isStr {
      return Aborted;
    }
    var score := BareScore.ExtractScore(auditResult.value.text);
    var explanation := Strip(auditResult.value.text);
    outcome := Recorded(Record(question, qcResult.value, questionVariations, score, explanation));
  }

  lemma AppendAssoc<T>(a: seq<T>, b: seq<T>, c: seq<T>)
    ensures (a + b) + c == a + (b + c)
  {
  }

  /** One pass of the inner loop: question j either aborts the file or adds what it emits. */
  lemma CollectStep(os: seq<Outcome>, j: nat)
    requires j < |os|
    ensures Collect(os[j..]) == if os[j].Aborted? then [] else Emitted(os[j]) + Collect(os[j + 1..])
  {
    assert os[j..][1..] == os[j + 1..];
  }

  /** What every record carries: at least one clean variation, a score of at most three digits, a stripped explanation. */
  predicate WellFormed(r: Record) {
    && r.additionalQuestions != []
    && (forall k :: 0 <= k < |r.additionalQuestions| ==>
          r.additionalQuestions[k] != [] && IsStripped(r.additionalQuestions[k]))
    && r.score <= 999
    && IsStripped(r.explanation)
  }

  /** A record made for a question carries that question and is well-formed. */
  lemma RecordedIsWellFormed(w: World, i: nat, j: nat, question: string)
    requires ProcessQuestion(w, i, j, question).Recorded?
    ensures var r := ProcessQuestion(w, i, j, question).record;
      WellFormed(r) && r.initialQuestion == question
  {
    var reply := w.llm(i, j, Paraphrase).value;
    Variations.VariationsAreCleanLines(reply);
  }

  function QuestionsOf(records: seq<Record>): (qs: seq<string>)
    ensures |qs| == |records| && forall k :: 0 <= k < |qs| ==> qs[k] == records[k].initialQuestion
  {
    if records == [] then [] else [records[0].initialQuestion] + QuestionsOf(records[1..])
  }

  /**
   * A run of outcomes adds at most one record per outcome; when every record
   * made is well-formed and made for the question at its position, the
   * records are well-formed and their questions come in question order.
   */
  lemma {:induction false} CollectFacts(os: seq<Outcome>, qs: seq<string>)
    requires |os| <= |qs|
    requires forall j :: 0 <= j < |os| && os[j].Recorded? ==>
      WellFormed(os[j].record) && os[j].record.initialQuestion == qs[j]
    ensures var rs := Collect(os);
      && |rs| <= |os|
      && (forall k :: 0 <= k < |rs| ==> WellFormed(rs[k]))
      && IsSubsequence(QuestionsOf(rs), qs[..|os|])
  {
    if os != [] {
      var tail := os[1..];
      assert forall j :: 0 <= j < |tail| ==> tail[j] == os[j + 1];
      CollectFacts(tail, qs[1..]);
      var rest := Collect(tail);
      assert qs[..|os|] == [qs[0]] + qs[1..][..|tail|];
      if os[0].Skipped? {
        assert Collect(os) == rest;
        SubsequenceCons(QuestionsOf(rest), qs[0], qs[1..][..|tail|]);
      } else if os[0].Recorded? {
        var rs := [os[0].record] + rest;
        assert Collect(os) == rs;
        assert QuestionsOf(rs) == [qs[0]] + QuestionsOf(rest);
        assert forall k :: 0 < k < |rs| ==> rs[k] == rest[k - 1];
      }
    }
  }

  /**
   * Records are only made from questions that were paired with an answer:
   * a file adds nothing when it is missing or has no questions, and otherwise
   * no more records than min(#questions, #answers); every record is
   * well-formed, its question is one of the file's stripped questions, and
   * the questions come in the order of the file.
   */
  lemma FileRecordsFacts(w: World, files: seq<string>, i: nat)
    requires i < |files|
    ensures !w.present(files[i]) ==> FileRecords(w, files, i) == []
    ensures w.present(files[i]) ==>
      var qa := ExtractQuestionsAndAnswers(w.pdf(files[i]));
      var rs := FileRecords(w, files, i);
      && |rs| <= Min(|qa.0|, |qa.1|)
      && IsSubsequence(QuestionsOf(rs), qa.0)
      && forall k :: 0 <= k < |rs| ==> WellFormed(rs[k]) && IsStripped(rs[k].initialQuestion)
  {
    if w.present(files[i]) {
      var qa := ExtractQuestionsAndAnswers(w.pdf(files[i]));
      var rs := FileRecords(w, files, i);
      var n := Min(|qa.0|, |qa.1|);
      if qa.0 != [] {
        var os := Outcomes(w, i, qa.0, n);
        forall j | 0 <= j < n && os[j].Recorded?
          ensures WellFormed(os[j].record) && os[j].record.initialQuestion == qa.0[j]
        {
          RecordedIsWellFormed(w, i, j, qa.0[j]);
        }
        CollectFacts(os, qa.0);
        SubsequenceOfPrefix(QuestionsOf(rs), qa.0, n);
        forall k | 0 <= k < |rs|
          ensures IsStripped(rs[k].initialQuestion)
        {
          SubsequenceElement(QuestionsOf(rs), qa.0, k);
          ExtractedQuestionsAreStripped(w.pdf(files[i]));
        }
      }
    }
  }

  lemma ExtractedQuestionsAreStripped(pdf: PdfOutcome)
    ensures forall k :: 0 <= k < |ExtractQuestionsAndAnswers(pdf).0| ==> IsStripped(ExtractQuestionsAndAnswers(pdf).0[k])
  {
    if pdf.Pages? {
      QuestionsAreTaggedSegments(JoinPages(pdf.texts));
    }
  }

  /** A subsequence of a prefix is a subsequence of the whole. */
  lemma {:induction false} SubsequenceOfPrefix<T>(xs: seq<T>, ys: seq<T>, n: nat)
    requires n <= |ys| && IsSubsequence(xs, ys[..n])
    ensures IsSubsequence(xs, ys)
    decreases n
  {
    if xs != [] {
      assert ys[..n][1..] == ys[1..][..n - 1];
      if xs[0] == ys[0] {
        SubsequenceOfPrefix(xs[1..], ys[1..], n - 1);
      } else {
        SubsequenceOfPrefix(xs, ys[1..], n - 1);
      }
    }
  }

  /** Every element of a subsequence is an element of the sequence. */
  lemma {:induction false} SubsequenceElement<T>(xs: seq<T>, ys: seq<T>, k: nat)
    requires IsSubsequence(xs, ys) && k < |xs|
    ensures xs[k] in ys
    decreases |ys|
  {
    if xs[0] == ys[0] {
      if k > 0 {
        SubsequenceElement(xs[1..], ys[1..], k - 1);
      }
    } else {
      SubsequenceElement(xs, ys[1..], k);
    }
  }

  /**
   * An exception at position k abandons the run from there on: the records of
   * the outcomes before it are kept and nothing after it is added.
   */
  lemma {:induction false} AbortKeepsEarlierRecords(os: seq<Outcome>, k: nat)
    requires k < |os| && os[k].Aborted?
    requires forall m :: 0 <= m < k ==> !os[m].Aborted?
    ensures Collect(os) == Collect(os[..k])
  {
    if k > 0 {
      var tail := os[1..];
      assert forall m :: 0 <= m < |tail| ==> tail[m] == os[m + 1];
      AbortKeepsEarlierRecords(tail, k - 1);
      assert os[..k][1..] == tail[..k - 1];
    }
  }

  /** Within one file: an exception at question k keeps exactly the records of the questions before k. */
  lemma AbortInFile(w: World, i: nat, qs: seq<string>, k: nat, n: nat)
    requires k < n <= |qs|
    requires ProcessQuestion(w, i, k, qs[k]).Aborted?
    requires forall m :: 0 <= m < k ==> !ProcessQuestion(w, i, m, qs[m]).Aborted?
    ensures Collect(Outcomes(w, i, qs, n)) == Collect(Outcomes(w, i, qs, k))
  {
    var os := Outcomes(w, i, qs, n);
    forall m | 0 <= m < k
      ensures !os[m].Aborted?
    {
    }
    AbortKeepsEarlierRecords(os, k);
    OutcomesPrefix(w, i, qs, k, n);
  }

  lemma OutcomesPrefix(w: World, i: nat, qs: seq<string>, k: nat, n: nat)
    requires k <= n <= |qs|
    ensures Outcomes(w, i, qs, n)[..k] == Outcomes(w, i, qs, k)
  {
  }

  /** The records of a run of positions are those of its first part followed by those of the rest. */
  lemma {:induction false} GlueSplit(perFile: nat -> seq<Record>, lo: nat, mid: nat, hi: nat)
    requires lo <= mid <= hi
    ensures Glue(perFile, lo, hi) == Glue(perFile, lo, mid) + Glue(perFile, mid, hi)
    decreases hi
  {
    if hi > mid {
      GlueSplit(perFile, lo, mid, hi - 1);
      var a, b, f := Glue(perFile, lo, mid), Glue(perFile, mid, hi - 1), perFile(hi - 1);
      assert Glue(perFile, lo, hi) == (a + b) + f;
      assert Glue(perFile, mid, hi) == b + f;
      AppendAssoc(a, b, f);
    }
  }

  /** Positions that add the same records give the same run. */
  lemma {:induction false} GlueAgrees(f: nat -> seq<Record>, g: nat -> seq<Record>, lo: nat, hi: nat)
    requires lo <= hi
    requires forall i :: lo <= i < hi ==> f(i) == g(i)
    ensures Glue(f, lo, hi) == Glue(g, lo, hi)
    decreases hi
  {
    if hi > lo {
      GlueAgrees(f, g, lo, hi - 1);
      assert f(hi - 1) == g(hi - 1);
    }
  }

  /** The records of a batch are those of its first part followed by those of the rest. */
  lemma BatchSplit(w: World, files: seq<string>, lo: nat, mid: nat, hi: nat)
    requires lo <= mid <= hi <= |files|
    ensures Batch(w, files, lo, hi) == Batch(w, files, lo, mid) + Batch(w, files, mid, hi)
  {
    GlueSplit(PerFile(w, files), lo, mid, hi);
  }

  /** The two worlds behave alike for file i. */
  ghost predicate SameForFile(w: World, w': World, files: seq<string>, i: nat)
    requires i < |files|
  {
    && w.present(files[i]) == w'.present(files[i])
    && w.pdf(files[i]) == w'.pdf(files[i])
    && forall j: nat, s: Step :: w.llm(i, j, s) == w'.llm(i, j, s)
  }

  /** The records of a file depend only on how the world behaves for that file. */
  lemma FileRecordsDependOnFile(w: World, w': World, files: seq<string>, i: nat)
    requires i < |files| && SameForFile(w, w', files, i)
    ensures FileRecords(w, files, i) == FileRecords(w', files, i)
  {
    if w.present(files[i]) {
      var qa := ExtractQuestionsAndAnswers(w.pdf(files[i]));
      if qa.0 != [] {
        OutcomesDependOnCalls(w, w', i, qa.0, Min(|qa.0|, |qa.1|));
      }
    }
  }

  lemma OutcomesDependOnCalls(w: World, w': World, i: nat, qs: seq<string>, n: nat)
    requires n <= |qs|
    requires forall j: nat, s: Step :: w.llm(i, j, s) == w'.llm(i, j, s)
    ensures Outcomes(w, i, qs, n) == Outcomes(w', i, qs, n)
  {
    forall j | 0 <= j < n
      ensures Outcomes(w, i, qs, n)[j] == Outcomes(w', i, qs, n)[j]
    {
      SameCallsSameOutcome(w, w', i, j, qs[j]);
    }
  }

  lemma SameCallsSameOutcome(w: World, w': World, i: nat, j: nat, question: string)
    requires w.llm(i, j, Paraphrase) == w'.llm(i, j, Paraphrase)
    requires w.llm(i, j, Simulate) == w'.llm(i, j, Simulate)
    requires w.llm(i, j, Audit) == w'.llm(i, j, Audit)
    ensures ProcessQuestion(w, i, j, question) == ProcessQuestion(w', i, j, question)
  {
  }

  lemma BatchDependsOnItsFiles(w: World, w': World, files: seq<string>, lo: nat, hi: nat)
    requires lo <= hi <= |files|
    requires forall i :: lo <= i < hi ==> SameForFile(w, w', files, i)
    ensures Batch(w, files, lo, hi) == Batch(w', files, lo, hi)
  {
    forall i | lo <= i < hi
      ensures PerFile(w, files)(i) == PerFile(w', files)(i)
    {
      FileRecordsDependOnFile(w, w', files, i);
    }
    GlueAgrees(PerFile(w, files), PerFile(w', files), lo, hi);
  }

  /** A run of positions around position k: those before it, its own records, and those after it. */
  lemma GlueAround(f: nat -> seq<Record>, k: nat, n: nat)
    requires k < n
    ensures Glue(f, 0, n) == Glue(f, 0, k) + f(k) + Glue(f, k + 1, n)
  {
    var a, b, c := Glue(f, 0, k), Glue(f, k, k + 1), Glue(f, k + 1, n);
    GlueSplit(f, 0, k, n);
    GlueSplit(f, k, k + 1, n);
    assert b == [] + f(k);
    AppendAssoc(a, b, c);
  }

  /** The records of a batch around file k: those before it, its own, and those after it. */
  lemma BatchAroundFile(w: World, files: seq<string>, k: nat)
    requires k < |files|
    ensures Batch(w, files, 0, |files|)
      == Batch(w, files, 0, k) + FileRecords(w, files, k) + Batch(w, files, k + 1, |files|)
  {
    GlueAround(PerFile(w, files), k, |files|);
    assert PerFile(w, files)(k) == FileRecords(w, files, k);
  }

  /**
   * A failure in file k is contained: whatever happens there, the records of
   * the files before and after it are the ones they would otherwise be.
   */
  lemma FailureIsContained(w: World, w': World, files: seq<string>, k: nat)
    requires k < |files|
    requires forall i :: 0 <= i < |files| && i != k ==> SameForFile(w, w', files, i)
    ensures Batch(w, files, 0, |files|)
      == Batch(w', files, 0, k) + FileRecords(w, files, k) + Batch(w', files, k + 1, |files|)
  {
    assert Batch(w, files, 0, k) == Batch(w', files, 0, k) by {
      BatchDependsOnItsFiles(w, w', files, 0, k);
    }
    assert Batch(w, files, k + 1, |files|) == Batch(w', files, k + 1, |files|) by {
      BatchDependsOnItsFiles(w, w', files, k + 1, |files|);
    }
    BatchAroundFile(w, files, k);
  }
}
