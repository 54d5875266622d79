/**
 * `analyze_questions` and `generate_graph` in agents.py: every PDF path gets
 * an entry in a summary dictionary (the labelled score read back from the
 * analysis file, or one of three messages), and the entries holding an `int`
 * are handed to the bar chart.
 */
module ScoreSummary {
  import opened Wrappers
  import opened Oracle
  import opened LabelledScore

  /** A value of the summary dictionary: an `int` score or one of the three messages. */
  datatype Entry = Score(n: nat) | FileNotFound | ErrorInProcessing | ScoreNotFound

  /**
   * What the program observes of the outside world for the path at position i
   * of the list: whether the path exists, the text `PDFReader.read_pdf` gives
   * for it, whether the analysis file can be opened for writing, what the QC
   * agent and the auditor return, and how reading the analysis file back ends.
   */
  datatype World = World(
    present: string -> bool,
    pdfText: string -> string,
    opens: nat -> bool,
    qc: nat -> Reply,
    auditor: nat -> Reply,
    readBack: nat -> ReadBack)

  /**
   * The body of the loop for the path at position i, with the analysis file
   * read back once everything has been written to it.
   */
  function DocumentOutcome(w: World, path: string, i: nat): (e: Entry)
    ensures e == FileNotFound <==> !w.present(path)
    ensures e == ErrorInProcessing <==>
      w.present(path) && (!w.opens(i) || w.qc(i).Raised? || w.auditor(i).Raised?)
    ensures e.Score? ==>
      && w.readBack(i) == ReadsContent
      && ScoreIn(AnalysisFile(path, w.pdfText(path), w.qc(i).value.text, w.auditor(i).value.text)) == Some(e.n)
    ensures e == ScoreNotFound ==>
      w.readBack(i) != ReadsContent
      || ScoreIn(AnalysisFile(path, w.pdfText(path), w.qc(i).value.text, w.auditor(i).value.text)).None?
  {
    if !w.present(path) || !w.opens(i) then
      (if w.present(path) then ErrorInProcessing else FileNotFound)
    else
      match (w.qc(i), w.auditor(i))
      case (Returned(qc), Returned(audit)) =>
        (match ScoreFromFile(w.readBack(i), AnalysisFile(path, w.pdfText(path), qc.text, audit.text))
         case Some(n) => Score(n)
         case None => ScoreNotFound)
      case _ => ErrorInProcessing
  }

  /**
   * agents.py:90 as written: `extract_score_from_file` runs inside the `with`
   * block, so it reads only the first `flushed` characters of the analysis
   * file, those that have reached the disk. Every other step is the one of
   * DocumentOutcome.
   */
  function DocumentOutcomeAsWritten(w: World, path: string, i: nat, flushed: nat): (e: Entry)
    ensures flushed == 0 ==> !e.Score?
    ensures !e.Score? && e != ScoreNotFound ==> e == DocumentOutcome(w, path, i)
    ensures (e.Score? || e == ScoreNotFound) <==>
      (DocumentOutcome(w, path, i).Score? || DocumentOutcome(w, path, i) == ScoreNotFound)
    ensures w.qc(i).Returned? && w.auditor(i).Returned?
      && flushed >= |AnalysisFile(path, w.pdfText(path), w.qc(i).value.text, w.auditor(i).value.text)|
      ==> e == DocumentOutcome(w, path, i)
  {
    if !w.present(path) || !w.opens(i) then
      (if w.present(path) then ErrorInProcessing else FileNotFound)
    else
      match (w.qc(i), w.auditor(i))
      case (Returned(qc), Returned(audit)) =>
        (match ScoreReadBeforeClose(w.readBack(i), AnalysisFile(path, w.pdfText(path), qc.text, audit.text), flushed)
         case Some(n) => Score(n)
         case None => ScoreNotFound)
      case _ => ErrorInProcessing
  }

  /**
   * The discrepancy at the level of the summary: a PDF whose text holds a
   * labelled score gets that score when the file is read after closing, but
   * `"Score not found"` when it is read, as written, before anything was flushed.
   */
  lemma UnflushedEntryLosesScore(w: World, path: string, i: nat)
    requires w.present(path) && w.opens(i) && w.qc(i).Returned? && w.auditor(i).Returned?
    requires w.readBack(i) == ReadsContent
    requires ScoreIn(BeforeAuditor(path, w.pdfText(path), w.qc(i).value.text)).Some?
    ensures DocumentOutcomeAsWritten(w, path, i, 0) == ScoreNotFound
    ensures DocumentOutcome(w, path, i) == Score(ScoreIn(BeforeAuditor(path, w.pdfText(path), w.qc(i).value.text)).value)
  {
    EarlierLabelDecidesEntry(w, path, i);
  }

  /**
   * The `try` block for one existing path, step by step: the text is read, the
   * analysis file opened, both agents asked, and the score read back from what
   * was written. The read sees the whole file, as it would after the `with`
   * block has closed it; DocumentOutcomeAsWritten is the read at agents.py:90.
   */
  method ProcessDocument(w: World, path: string, i: nat) returns (entry: Entry)
    ensures entry == DocumentOutcome(w, path, i)
  {
    if !w.present(path) {
      return FileNotFound;
    }
    var text := w.pdfText(path);
    if !w.opens(i) {
      return ErrorInProcessing;
    }
    var qcResult := w.qc(i);
    if qcResult.Raised? {
      return ErrorInProcessing;
    }
    var auditResult := w.auditor(i);
    if auditResult.Raised? {
      return ErrorInProcessing;
    }
    var written := WriteAnalysis(path, text, qcResult.value.text, auditResult.value.text);
    var score := ScoreFromFile(w.readBack(i), written);
    entry := if score.Some? then Score(score.value) else ScoreNotFound;
  }

  /** The `f.write` calls of the `with` block, in order: the header, the text, the simulated response, the auditor's part. */
  method WriteAnalysis(path: string, text: string, simulated: string, audit: string) returns (written: string)
    ensures written == AnalysisFile(path, text, simulated, audit)
  {
    written := "";
    written := written + ("--- QC Testing Agent (" + path + ") ---\n");
    written := written + ("Questions and Answers:\n" + text + "\n");
    written := written + ("Simulated Response:\n" + simulated + "\n");
    written := written + "\n--- Auditor Agent ---\n";
    written := written + ("Evaluation and Score:\n" + audit + "\n");
  }

  /**
   * A `Score:` followed by digits in the PDF text (or the header, or the
   * simulated response) decides the entry, whatever the auditor replied.
   */
  lemma EarlierLabelDecidesEntry(w: World, path: string, i: nat)
    requires w.present(path) && w.opens(i) && w.qc(i).Returned? && w.auditor(i).Returned?
    requires w.readBack(i) == ReadsContent
    requires ScoreIn(BeforeAuditor(path, w.pdfText(path), w.qc(i).value.text)).Some?
    ensures DocumentOutcome(w, path, i) == Score(ScoreIn(BeforeAuditor(path, w.pdfText(path), w.qc(i).value.text)).value)
  {
    EarlierLabelTakesPrecedence(path, w.pdfText(path), w.qc(i).value.text, w.auditor(i).value.text);
  }

  /** A Python `dict` keyed by path: its items in insertion order. */
  datatype Summary = Summary(items: seq<(string, Entry)>)

  function Keys(items: seq<(string, Entry)>): (keys: seq<string>)
    ensures |keys| == |items| && forall k :: 0 <= k < |keys| ==> keys[k] == items[k].0
  {
    if items == [] then [] else [items[0].0] + Keys(items[1..])
  }

  predicate Distinct(xs: seq<string>) {
    forall a, b :: 0 <= a < b < |xs| ==> xs[a] != xs[b]
  }

  /** `summary.get(key)`: the value stored under key, if any. */
  function Lookup(items: seq<(string, Entry)>, key: string): (r: Option<Entry>)
    ensures r.Some? <==> key in Keys(items)
  {
    if items == [] then None
    else if items[0].0 == key then Some(items[0].1)
    else Lookup(items[1..], key)
  }

  /** With distinct keys, the item at position k is what looking its key up gives. */
  lemma {:induction false} LookupAt(items: seq<(string, Entry)>, k: nat)
    requires k < |items| && Distinct(Keys(items))
    ensures Lookup(items, items[k].0) == Some(items[k].1)
  {
    if k > 0 {
      assert items[0].0 != items[k].0;
      assert Keys(items[1..]) == Keys(items)[1..];
      assert items[1..][k - 1] == items[k];
      LookupAt(items[1..], k - 1);
    }
  }

  /**
   * `summary[key] = v`: an existing key keeps its place and takes the new
   * value; a new key goes at the end.
   */
  function Put(items: seq<(string, Entry)>, key: string, v: Entry): (r: seq<(string, Entry)>)
    ensures |r| == if key in Keys(items) then |items| else |items| + 1
  {
    if items == [] then [(key, v)]
    else if items[0].0 == key then [(key, v)] + items[1..]
    else [items[0]] + Put(items[1..], key, v)
  }

  /** Assigning a key changes its value only. */
  lemma {:induction false} PutLookup(items: seq<(string, Entry)>, key: string, v: Entry)
    ensures Lookup(Put(items, key, v), key) == Some(v)
    ensures forall other :: other != key ==> Lookup(Put(items, key, v), other) == Lookup(items, other)
  {
    if items != [] && items[0].0 != key {
      PutLookup(items[1..], key, v);
      assert Put(items, key, v)[1..] == Put(items[1..], key, v);
    } else if items != [] {
      assert Put(items, key, v)[1..] == items[1..];
    }
  }

  /** Assigning a key moves no key, and a new key goes last. */
  lemma {:induction false} PutKeys(items: seq<(string, Entry)>, key: string, v: Entry)
    ensures Keys(Put(items, key, v)) == if key in Keys(items) then Keys(items) else Keys(items) + [key]
  {
    if items == [] {
      assert Keys([(key, v)]) == [key];
    } else if items[0].0 == key {
      assert Put(items, key, v)[1..] == items[1..];
    } else {
      PutKeys(items[1..], key, v);
      var rest := Put(items[1..], key, v);
      assert Put(items, key, v)[1..] == rest;
      assert key in Keys(items) <==> key in Keys(items[1..]);
    }
  }

  lemma PutFacts(items: seq<(string, Entry)>, key: string, v: Entry)
    ensures Lookup(Put(items, key, v), key) == Some(v)
    ensures forall other :: other != key ==> Lookup(Put(items, key, v), other) == Lookup(items, other)
    ensures Keys(Put(items, key, v)) == if key in Keys(items) then Keys(items) else Keys(items) + [key]
  {
    PutLookup(items, key, v);
    PutKeys(items, key, v);
  }

  /**
   * The dictionary built by assigning each (key, value) pair in turn, starting
   * from `{}`.
   */
  function Build(xs: seq<(string, Entry)>): (summary: Summary)
    ensures |summary.items| <= |xs|
    ensures xs != [] ==> Lookup(summary.items, xs[|xs| - 1].0) == Some(xs[|xs| - 1].1)
  {
    if xs == [] then Summary([])
    else
      var last := xs[|xs| - 1];
      var before := Build(xs[..|xs| - 1]).items;
      PutLookup(before, last.0, last.1);
      Summary(Put(before, last.0, last.1))
  }

  /** The assignments the loop makes: each path with the outcome of handling it at its position. */
  function Assignments(w: World, files: seq<string>): (xs: seq<(string, Entry)>)
    ensures |xs| == |files|
    ensures forall i :: 0 <= i < |xs| ==> xs[i] == (files[i], DocumentOutcome(w, files[i], i))
  {
    seq(|files|, i requires 0 <= i < |files| => (files[i], DocumentOutcome(w, files[i], i)))
  }

  /** The position of the first occurrence of x. */
  function FirstIndex(xs: seq<string>, x: string): (k: nat)
    requires x in xs
    ensures k < |xs| && xs[k] == x && forall j :: 0 <= j < k ==> xs[j] != x
  {
    if xs[0] == x then 0 else 1 + FirstIndex(xs[1..], x)
  }

  lemma FirstIndexExtend(xs: seq<string>, y: string, x: string)
    requires x in xs
    ensures x in xs + [y] && FirstIndex(xs + [y], x) == FirstIndex(xs, x)
  {
    var k := FirstIndex(xs, x);
    assert (xs + [y])[k] == x;
  }

  lemma KeysOfPrefix(xs: seq<(string, Entry)>)
    requires xs != []
    ensures Keys(xs) == Keys(xs[..|xs| - 1]) + [xs[|xs| - 1].0]
  {
    var a, b := Keys(xs), Keys(xs[..|xs| - 1]) + [xs[|xs| - 1].0];
    forall k | 0 <= k < |a|
      ensures a[k] == b[k]
    {
      if k < |xs| - 1 {
        assert xs[..|xs| - 1][k] == xs[k];
      }
    }
  }

  /** The keys of the summary are the assigned keys, each once. */
  lemma {:induction false} SummaryKeys(xs: seq<(string, Entry)>)
    ensures Distinct(Keys(Build(xs).items))
    ensures forall p :: p in Keys(Build(xs).items) <==> p in Keys(xs)
  {
    if xs != [] {
      var init, last := xs[..|xs| - 1], xs[|xs| - 1];
      SummaryKeys(init);
      var before := Keys(Build(init).items);
      PutFacts(Build(init).items, last.0, last.1);
      KeysOfPrefix(xs);
      if last.0 !in before {
        var keys := before + [last.0];
        forall a, b | 0 <= a < b < |keys|
          ensures keys[a] != keys[b]
        {
          if b == |before| {
            assert keys[a] == before[a];
          }
        }
      }
    }
  }

  /** Each of keys occurs in xs, and they come in the order of their first occurrence there. */
  predicate InFirstOrder(keys: seq<string>, xs: seq<string>) {
    forall a, b :: 0 <= a < b < |keys| ==>
      keys[a] in xs && keys[b] in xs && FirstIndex(xs, keys[a]) < FirstIndex(xs, keys[b])
  }

  /** Appending y to xs keeps the order, and a y seen for the first time goes last. */
  lemma FirstOrderStep(xs: seq<string>, y: string, keys: seq<string>)
    requires forall p :: p in keys <==> p in xs
    requires InFirstOrder(keys, xs)
    ensures InFirstOrder(if y in keys then keys else keys + [y], xs + [y])
  {
    var keys' := if y in keys then keys else keys + [y];
    forall a, b | 0 <= a < b < |keys'|
      ensures keys'[a] in xs + [y] && keys'[b] in xs + [y]
      ensures FirstIndex(xs + [y], keys'[a]) < FirstIndex(xs + [y], keys'[b])
    {
      assert keys'[a] == keys[a];
      FirstIndexExtend(xs, y, keys[a]);
      if b < |keys| {
        FirstIndexExtend(xs, y, keys[b]);
      } else {
        assert FirstIndex(xs + [y], y) == |xs|;
      }
    }
  }

  /** The keys of the summary come in the order of their first assignment. */
  lemma {:induction false} SummaryKeysInFirstOrder(xs: seq<(string, Entry)>)
    ensures InFirstOrder(Keys(Build(xs).items), Keys(xs))
  {
    if xs != [] {
      var init, last := xs[..|xs| - 1], xs[|xs| - 1];
      SummaryKeysInFirstOrder(init);
      SummaryKeys(init);
      PutFacts(Build(init).items, last.0, last.1);
      KeysOfPrefix(xs);
      FirstOrderStep(Keys(init), last.0, Keys(Build(init).items));
    }
  }

  /**
   * A key's entry is the value of its last assignment: a later assignment to
   * the same key replaces an earlier one, and nothing else does.
   */
  lemma {:induction false} LastAssignmentWins(xs: seq<(string, Entry)>, k: nat)
    requires k < |xs|
    requires forall j :: k < j < |xs| ==> xs[j].0 != xs[k].0
    ensures Lookup(Build(xs).items, xs[k].0) == Some(xs[k].1)
  {
    var init, last := xs[..|xs| - 1], xs[|xs| - 1];
    if k < |xs| - 1 {
      assert init[k] == xs[k] && last.0 != xs[k].0;
      assert Lookup(Build(init).items, xs[k].0) == Some(xs[k].1) by {
        LastAssignmentWins(init, k);
      }
      PutLookup(Build(init).items, last.0, last.1);
    }
  }

  /**
   * A failure while handling one position stops nothing: two runs over the
   * same keys whose values differ only at position k have the same keys in the
   * same order, and the same entry for every other key.
   */
  lemma {:induction false} OtherEntriesUnaffected(xs: seq<(string, Entry)>, ys: seq<(string, Entry)>, k: nat)
    requires |xs| == |ys|
    requires forall j :: 0 <= j < |xs| ==> xs[j].0 == ys[j].0
    requires forall j :: 0 <= j < |xs| && j != k ==> xs[j].1 == ys[j].1
    ensures Keys(Build(xs).items) == Keys(Build(ys).items)
    ensures forall p :: (k >= |xs| || p != xs[k].0) ==> Lookup(Build(xs).items, p) == Lookup(Build(ys).items, p)
  {
    if xs != [] {
      var n := |xs| - 1;
      var xs', ys' := xs[..n], ys[..n];
      assert forall j :: 0 <= j < n ==> xs'[j] == xs[j] && ys'[j] == ys[j];
      OtherEntriesUnaffected(xs', ys', k);
      var a, b := Build(xs').items, Build(ys').items;
      var key := xs[n].0;
      assert ys[n].0 == key;
      assert Build(xs).items == Put(a, key, xs[n].1);
      assert Build(ys).items == Put(b, key, ys[n].1);
      PutFacts(a, key, xs[n].1);
      PutFacts(b, key, ys[n].1);
      assert Keys(a) == Keys(b);
      forall p | k >= |xs| || p != xs[k].0
        ensures Lookup(Build(xs).items, p) == Lookup(Build(ys).items, p)
      {
        if p == key {
          assert n != k;
          assert xs[n].1 == ys[n].1;
        } else {
          assert k >= |xs'| || p != xs'[k].0;
          assert Lookup(a, p) == Lookup(b, p);
        }
      }
    }
  }

  /** The chart `generate_graph` draws: the labels and the bar lengths. */
  datatype Chart = Chart(labels: seq<string>, scores: seq<nat>)

  /** `[pdf for pdf, score in summary.items() if isinstance(score, int)]`, from position `from`. */
  function PlottedLabels(items: seq<(string, Entry)>, from: nat): (labels: seq<string>)
    requires from <= |items|
    ensures |labels| <= |items| - from
    decreases |items| - from
  {
    if from == |items| then []
    else (if items[from].1.Score? then [items[from].0] else []) + PlottedLabels(items, from + 1)
  }

  /** `[score for score in summary.values() if isinstance(score, int)]`, from position `from`. */
  function PlottedScores(items: seq<(string, Entry)>, from: nat): (scores: seq<nat>)
    requires from <= |items|
    ensures |scores| <= |items| - from
    decreases |items| - from
  {
    if from == |items| then []
    else (if items[from].1.Score? then [items[from].1.n] else []) + PlottedScores(items, from + 1)
  }

  /** The positions, from `from` on, of the items whose value is an `int`, in increasing order. */
  function ScorePositions(items: seq<(string, Entry)>, from: nat): seq<nat>
    requires from <= |items|
    decreases |items| - from
  {
    if from == |items| then []
    else (if items[from].1.Score? then [from] else []) + ScorePositions(items, from + 1)
  }

  /** The positions picked are exactly those of the `int` entries from `from` on, in increasing order. */
  lemma ScorePositionsFacts(items: seq<(string, Entry)>, from: nat)
    requires from <= |items|
    ensures var ps := ScorePositions(items, from);
      && (forall m :: 0 <= m < |ps| ==> from <= ps[m] < |items| && items[ps[m]].1.Score?)
      && (forall a, b :: 0 <= a < b < |ps| ==> ps[a] < ps[b])
      && forall k :: from <= k < |items| && items[k].1.Score? ==> k in ps
  {
    ScorePositionsSound(items, from);
    ScorePositionsIncrease(items, from);
    ScorePositionsComplete(items, from);
  }

  /** Every position in ps is at least `from` and holds an `int` entry. */
  predicate PicksScores(items: seq<(string, Entry)>, from: nat, ps: seq<nat>) {
    forall m :: 0 <= m < |ps| ==> from <= ps[m] < |items| && items[ps[m]].1.Score?
  }

  predicate Increasing(ps: seq<nat>) {
    forall a, b :: 0 <= a < b < |ps| ==> ps[a] < ps[b]
  }

  lemma {:induction false} ScorePositionsSound(items: seq<(string, Entry)>, from: nat)
    requires from <= |items|
    ensures PicksScores(items, from, ScorePositions(items, from))
    decreases |items| - from
  {
    if from < |items| {
      ScorePositionsSound(items, from + 1);
      var ps := ScorePositions(items, from + 1);
      if items[from].1.Score? {
        var ps' := [from] + ps;
        assert ScorePositions(items, from) == ps';
        forall m | 0 <= m < |ps'|
          ensures from <= ps'[m] < |items| && items[ps'[m]].1.Score?
        {
          if m > 0 {
            assert ps'[m] == ps[m - 1];
          }
        }
      } else {
        assert ScorePositions(items, from) == ps;
      }
    }
  }

  lemma {:induction false} ScorePositionsIncrease(items: seq<(string, Entry)>, from: nat)
    requires from <= |items|
    ensures Increasing(ScorePositions(items, from))
    decreases |items| - from
  {
    if from < |items| {
      ScorePositionsIncrease(items, from + 1);
      var ps := ScorePositions(items, from + 1);
      if items[from].1.Score? {
        ScorePositionsSound(items, from + 1);
        var ps' := [from] + ps;
        assert ScorePositions(items, from) == ps';
        forall a, b | 0 <= a < b < |ps'|
          ensures ps'[a] < ps'[b]
        {
          assert ps'[b] == ps[b - 1];
          if a > 0 {
            assert ps'[a] == ps[a - 1];
          }
        }
      } else {
        assert ScorePositions(items, from) == ps;
      }
    }
  }

  /** Every `int` entry from `from` on is picked. */
  lemma {:induction false} ScorePositionsComplete(items: seq<(string, Entry)>, from: nat)
    requires from <= |items|
    ensures forall k :: from <= k < |items| && items[k].1.Score? ==> k in ScorePositions(items, from)
    decreases |items| - from
  {
    if from < |items| {
      ScorePositionsComplete(items, from + 1);
      var ps := ScorePositions(items, from + 1);
      if items[from].1.Score? {
        var ps' := [from] + ps;
        assert ScorePositions(items, from) == ps';
        forall k | from <= k < |items| && items[k].1.Score?
          ensures k in ps'
        {
          if k > from {
            assert k in ps;
          }
        }
      } else {
        assert ScorePositions(items, from) == ps;
        forall k | from <= k < |items| && items[k].1.Score?
          ensures k in ps
        {
          assert k != from;
        }
      }
    }
  }

  /** No bar is left exactly when no entry from `from` on is an `int`. */
  lemma {:induction false} NothingToPlot(items: seq<(string, Entry)>, from: nat)
    requires from <= |items|
    ensures PlottedScores(items, from) == [] <==> forall k :: from <= k < |items| ==> !items[k].1.Score?
    decreases |items| - from
  {
    if from < |items| {
      NothingToPlot(items, from + 1);
      var rest := PlottedScores(items, from + 1);
      if items[from].1.Score? {
        assert PlottedScores(items, from) == [items[from].1.n] + rest;
      } else {
        assert PlottedScores(items, from) == rest;
        if rest == [] {
          forall k | from <= k < |items|
            ensures !items[k].1.Score?
          {
            if k > from {
              assert from + 1 <= k;
            }
          }
        } else {
          var k :| from + 1 <= k < |items| && items[k].1.Score?;
        }
      }
    }
  }

  /**
   * `generate_graph`: nothing is drawn when no entry is an `int` (the function
   * returns early); otherwise one bar per `int` entry.
   */
  function GenerateGraph(s: Summary): (chart: Option<Chart>)
    ensures chart.None? <==> forall k :: 0 <= k < |s.items| ==> !s.items[k].1.Score?
  {
    NothingToPlot(s.items, 0);
    var scores := PlottedScores(s.items, 0);
    if scores == [] then None else Some(Chart(PlottedLabels(s.items, 0), scores))
  }

  /**
   * The two comprehensions pick the same items in the same order: the m-th
   * label and the m-th bar both come from the m-th `int` entry of the summary.
   */
  lemma {:induction false} PlotIsAligned(items: seq<(string, Entry)>, from: nat)
    requires from <= |items|
    ensures Aligned(items, PlottedLabels(items, from), PlottedScores(items, from), ScorePositions(items, from))
    decreases |items| - from
  {
    if from < |items| {
      PlotIsAligned(items, from + 1);
      var labels, scores, ps := PlottedLabels(items, from + 1), PlottedScores(items, from + 1), ScorePositions(items, from + 1);
      if items[from].1.Score? {
        assert PlottedLabels(items, from) == [items[from].0] + labels;
        assert PlottedScores(items, from) == [items[from].1.n] + scores;
        assert ScorePositions(items, from) == [from] + ps;
        AlignedCons(items, from, labels, scores, ps);
      } else {
        assert PlottedLabels(items, from) == labels;
        assert PlottedScores(items, from) == scores;
        assert ScorePositions(items, from) == ps;
      }
    }
  }

  /** Bar m has the label and the score of the item at position ps[m]. */
  predicate Aligned(items: seq<(string, Entry)>, labels: seq<string>, scores: seq<nat>, ps: seq<nat>) {
    && |labels| == |ps| && |scores| == |ps|
    && forall m :: 0 <= m < |ps| ==>
      ps[m] < |items| && labels[m] == items[ps[m]].0 && Score(scores[m]) == items[ps[m]].1
  }

  lemma AlignedCons(items: seq<(string, Entry)>, from: nat, labels: seq<string>, scores: seq<nat>, ps: seq<nat>)
    requires from < |items| && items[from].1.Score? && Aligned(items, labels, scores, ps)
    ensures Aligned(items, [items[from].0] + labels, [items[from].1.n] + scores, [from] + ps)
  {
    var labels', scores', ps' := [items[from].0] + labels, [items[from].1.n] + scores, [from] + ps;
    forall m | 0 <= m < |ps'|
      ensures ps'[m] < |items| && labels'[m] == items[ps'[m]].0 && Score(scores'[m]) == items[ps'[m]].1
    {
      if m > 0 {
        assert labels'[m] == labels[m - 1] && scores'[m] == scores[m - 1] && ps'[m] == ps[m - 1];
      }
    }
  }

  /**
   * The chart shows exactly the `int` entries of the summary: every bar is the
   * entry of its label, and every `int` entry has its bar.
   */
  lemma PlotShowsExactlyTheScores(s: Summary)
    requires Distinct(Keys(s.items))
    ensures GenerateGraph(s).Some? ==>
      var c := GenerateGraph(s).value;
      && |c.labels| == |c.scores|
      && (forall m :: 0 <= m < |c.labels| ==> Lookup(s.items, c.labels[m]) == Some(Score(c.scores[m])))
      && forall p, n :: Lookup(s.items, p) == Some(Score(n)) ==>
        exists m :: 0 <= m < |c.labels| && c.labels[m] == p && c.scores[m] == n
  {
    var ps := ScorePositions(s.items, 0);
    ScorePositionsFacts(s.items, 0);
    PlotIsAligned(s.items, 0);
    var labels, scores := PlottedLabels(s.items, 0), PlottedScores(s.items, 0);
    forall m | 0 <= m < |labels|
      ensures Lookup(s.items, labels[m]) == Some(Score(scores[m]))
    {
      LookupAt(s.items, ps[m]);
    }
    forall p, n | Lookup(s.items, p) == Some(Score(n))
      ensures exists m :: 0 <= m < |labels| && labels[m] == p && scores[m] == n
    {
      var k := FirstIndex(Keys(s.items), p);
      LookupAt(s.items, k);
      var m :| 0 <= m < |ps| && ps[m] == k;
      assert labels[m] == p && scores[m] == n;
    }
  }

  /**
   * agents.py:63-104: every path is handled in turn and its entry assigned; the
   * summary is then handed to `generate_graph`.
   */
  method AnalyzeDocuments(pdfFiles: seq<string>, w: World) returns (summary: Summary, chart: Option<Chart>)
    ensures summary == Build(Assignments(w, pdfFiles))
    ensures chart == GenerateGraph(summary)
  {
    ghost var xs := Assignments(w, pdfFiles);
    summary := Summary([]);
    var i := 0;
    while i < |pdfFiles|
      invariant i <= |pdfFiles|
      invariant summary == Build(xs[..i])
    {
      var entry := ProcessDocument(w, pdfFiles[i], i);
      assert xs[..i + 1][..i] == xs[..i] && xs[..i + 1][i] == (pdfFiles[i], entry);
      summary := Summary(Put(summary.items, pdfFiles[i], entry));
      i := i + 1;
    }
    assert xs[..i] == xs;
    chart := GenerateGraph(summary);
  }
}
