/**
 * `extract_questions_and_answers_from_pdf` in main.py. The page texts are
 * joined with newlines, then two independent `re.findall` calls with
 * `re.DOTALL` cut out the questions, `(?<=Question:).*?(?=\nAnswer:)`, and the
 * answers, `(?<=Answer:).*?(?=\nQuestion:|$)`; every piece is stripped. A PDF
 * that cannot be read gives two empty lists.
 */
module QaExtraction {
  import opened Text
  import opened Wrappers
  import opened Oracle

  /** Which of the two patterns is being searched for. */
  datatype Pattern = Questions | Answers

  /** The lookbehind of the pattern holds at p: the tag ends right at p. */
  predicate Behind(pat: Pattern, s: string, p: nat)
    requires p <= |s|
  {
    var tag := if pat == Questions then "Question:" else "Answer:";
    |tag| <= p && s[p - |tag|..p] == tag
  }

  /** `s[q..]` starts with `lit`. */
  predicate StartsAt(s: string, q: nat, lit: string) {
    q + |lit| <= |s| && s[q..q + |lit|] == lit
  }

  /**
   * The lookahead of the pattern holds at q. Without `re.MULTILINE`, `$`
   * matches at the end of the string and just before a final newline.
   */
  predicate Ahead(pat: Pattern, s: string, q: nat)
    requires q <= |s|
  {
    match pat
    case Questions => StartsAt(s, q, "\nAnswer:")
    case Answers => StartsAt(s, q, "\nQuestion:") || q == |s| || (q + 1 == |s| && s[q] == '\n')
  }

  /** The lazy `.*?` (which under DOTALL crosses newlines) from p: the first end e >= p at which the lookahead holds. */
  function LazyEnd(pat: Pattern, s: string, p: nat): (e: Option<nat>)
    requires p <= |s|
    ensures e.Some? ==> p <= e.value <= |s| && Ahead(pat, s, e.value)
    ensures forall k :: p <= k <= |s| && (e.None? || k < e.value) ==> !Ahead(pat, s, k)
    decreases |s| - p
  {
    if Ahead(pat, s, p) then Some(p)
    else if p == |s| then None
    else LazyEnd(pat, s, p + 1)
  }

  /**
   * One attempt at p, giving the end of the match. `nonEmpty` holds when the
   * previous match was empty and ended at p: CPython (3.7 and later) then
   * rejects an empty match at p, and the lazy quantifier backtracks to the
   * next longer one.
   */
  function MatchAt(pat: Pattern, s: string, p: nat, nonEmpty: bool): (e: Option<nat>)
    requires p <= |s|
    ensures e.Some? ==> p <= e.value <= |s| && Behind(pat, s, p) && Ahead(pat, s, e.value)
    ensures e.Some? ==> forall k :: p < k < e.value ==> !Ahead(pat, s, k)
    ensures e.Some? && nonEmpty ==> p < e.value
    ensures !Behind(pat, s, p) ==> e.None?
    ensures Behind(pat, s, p) && !nonEmpty ==> e == LazyEnd(pat, s, p)
    ensures Behind(pat, s, p) && nonEmpty && p < |s| ==> e == LazyEnd(pat, s, p + 1)
  {
    if !Behind(pat, s, p) then None
    else if nonEmpty then (if p < |s| then LazyEnd(pat, s, p + 1) else None)
    else LazyEnd(pat, s, p)
  }

  /** A match: the text between `start` and `end`. */
  datatype Span = Span(start: nat, end: nat)

  /** The search `findall` makes from `from`: the first position that matches. */
  function SearchFrom(pat: Pattern, s: string, from: nat, nonEmpty: bool): (r: Option<Span>)
    requires from <= |s|
    ensures r.Some? ==> from <= r.value.start <= r.value.end <= |s|
    ensures r.Some? ==> Behind(pat, s, r.value.start) && Ahead(pat, s, r.value.end)
    ensures r.Some? ==> forall k :: r.value.start < k < r.value.end ==> !Ahead(pat, s, k)
    ensures r.Some? && nonEmpty && r.value.start == from ==> r.value.start < r.value.end
    decreases |s| - from
  {
    match MatchAt(pat, s, from, nonEmpty)
    case Some(e) => Some(Span(from, e))
    case None => if from == |s| then None else SearchFrom(pat, s, from + 1, false)
  }

  /** The spans are in order and do not overlap. */
  predicate Ordered(spans: seq<Span>) {
    forall k :: 0 <= k < |spans| - 1 ==> spans[k].end <= spans[k + 1].start
  }

  /**
   * No match attempt the scan makes from `from` up to (not including) `to`
   * succeeds; only the attempt at `from` itself carries the `nonEmpty` flag.
   */
  predicate Skipped(pat: Pattern, s: string, from: nat, to: nat, nonEmpty: bool) {
    && (from < to && from <= |s| ==> MatchAt(pat, s, from, nonEmpty).None?)
    && forall q :: from < q < to && q <= |s| ==> MatchAt(pat, s, q, false).None?
  }

  /**
   * The scan from `from` misses nothing: no match starts before the first span,
   * between the end of a span and the start of the next, or after the last.
   */
  predicate Complete(pat: Pattern, s: string, from: nat, nonEmpty: bool, spans: seq<Span>)
    decreases |spans|
  {
    if spans == [] then Skipped(pat, s, from, |s| + 1, nonEmpty)
    else
      && Skipped(pat, s, from, spans[0].start, nonEmpty)
      && Complete(pat, s, spans[0].end, spans[0].start == spans[0].end, spans[1..])
  }

  /** The search finds the first position that matches: every attempt before it fails, and all fail when it finds none. */
  lemma {:induction false} SearchFromIsFirst(pat: Pattern, s: string, from: nat, nonEmpty: bool)
    requires from <= |s|
    ensures SearchFrom(pat, s, from, nonEmpty).None? ==> Skipped(pat, s, from, |s| + 1, nonEmpty)
    ensures SearchFrom(pat, s, from, nonEmpty).Some? ==>
      Skipped(pat, s, from, SearchFrom(pat, s, from, nonEmpty).value.start, nonEmpty)
    decreases |s| - from
  {
    match MatchAt(pat, s, from, nonEmpty)
    case Some(e) =>
      assert SearchFrom(pat, s, from, nonEmpty) == Some(Span(from, e));
    case None =>
      if from < |s| {
        SearchFromIsFirst(pat, s, from + 1, false);
        assert SearchFrom(pat, s, from, nonEmpty) == SearchFrom(pat, s, from + 1, false);
      }
  }

  /** `re.findall` reports every match: the scan skips nothing between the spans it reports. */
  lemma {:induction false} FindAllMissesNothing(pat: Pattern, s: string, from: nat, nonEmpty: bool)
    requires from <= |s|
    ensures Complete(pat, s, from, nonEmpty, FindAll(pat, s, from, nonEmpty))
    decreases |s| - from, if nonEmpty then 0 else 1
  {
    SearchFromIsFirst(pat, s, from, nonEmpty);
    match SearchFrom(pat, s, from, nonEmpty)
    case None =>
    case Some(m) =>
      var rest := FindAll(pat, s, m.end, m.start == m.end);
      FindAllMissesNothing(pat, s, m.end, m.start == m.end);
      var spans := [m] + rest;
      assert FindAll(pat, s, from, nonEmpty) == spans;
      assert spans[0] == m && spans[1..] == rest;
  }

  /**
   * m starts right after the tag, ends where the lookahead holds, and holds no
   * earlier place where the lookahead would have held.
   */
  predicate Cut(pat: Pattern, s: string, m: Span) {
    && m.start <= m.end <= |s|
    && Behind(pat, s, m.start)
    && Ahead(pat, s, m.end)
    && forall j :: m.start < j < m.end ==> !Ahead(pat, s, j)
  }

  predicate WellCut(pat: Pattern, s: string, spans: seq<Span>) {
    forall k :: 0 <= k < |spans| ==> Cut(pat, s, spans[k])
  }

  /** `re.findall` from `from`: after each match the scan goes on at its end. */
  function FindAll(pat: Pattern, s: string, from: nat, nonEmpty: bool): (spans: seq<Span>)
    requires from <= |s|
    ensures forall k :: 0 <= k < |spans| ==> from <= spans[k].start <= spans[k].end <= |s|
    decreases |s| - from, if nonEmpty then 0 else 1
  {
    match SearchFrom(pat, s, from, nonEmpty)
    case None => []
    case Some(m) => [m] + FindAll(pat, s, m.end, m.start == m.end)
  }

  /** Every span `findall` reports is a proper cut, and they come in order. */
  lemma {:induction false} FindAllCuts(pat: Pattern, s: string, from: nat, nonEmpty: bool)
    requires from <= |s|
    ensures WellCut(pat, s, FindAll(pat, s, from, nonEmpty))
    ensures Ordered(FindAll(pat, s, from, nonEmpty))
    decreases |s| - from, if nonEmpty then 0 else 1
  {
    match SearchFrom(pat, s, from, nonEmpty)
    case None =>
    case Some(m) =>
      var rest := FindAll(pat, s, m.end, m.start == m.end);
      FindAllCuts(pat, s, m.end, m.start == m.end);
      ConsCut(pat, s, m, rest);
  }

  lemma ConsCut(pat: Pattern, s: string, m: Span, rest: seq<Span>)
    requires Cut(pat, s, m) && WellCut(pat, s, rest) && Ordered(rest)
    requires forall k :: 0 <= k < |rest| ==> m.end <= rest[k].start
    ensures WellCut(pat, s, [m] + rest) && Ordered([m] + rest)
  {
    var spans := [m] + rest;
    forall k | 0 <= k < |spans|
      ensures Cut(pat, s, spans[k])
    {
      if k > 0 {
        assert spans[k] == rest[k - 1];
      }
    }
    forall k | 0 <= k < |spans| - 1
      ensures spans[k].end <= spans[k + 1].start
    {
      assert spans[k + 1] == rest[k];
      if k > 0 {
        assert spans[k] == rest[k - 1];
      }
    }
  }

  /** `[x.strip() for x in matches]`: the stripped text of each span. */
  function StrippedPieces(s: string, spans: seq<Span>): (pieces: seq<string>)
    requires forall k :: 0 <= k < |spans| ==> spans[k].start <= spans[k].end <= |s|
    ensures |pieces| == |spans|
    ensures forall k :: 0 <= k < |pieces| ==> pieces[k] == Strip(s[spans[k].start..spans[k].end])
  {
    seq(|spans|, k requires 0 <= k < |spans| => Strip(s[spans[k].start..spans[k].end]))
  }

  /** `"\n".join(t for t in pages if t)`: the non-empty page texts, one per line. */
  function JoinPages(pages: seq<string>): (text: string)
    ensures NonEmpty(pages) == [] ==> text == ""
  {
    JoinLines(NonEmpty(pages))
  }

  function NonEmpty(pages: seq<string>): (kept: seq<string>)
    ensures forall k :: 0 <= k < |kept| ==> kept[k] != []
  {
    if pages == [] then []
    else if pages[0] == [] then NonEmpty(pages[1..])
    else [pages[0]] + NonEmpty(pages[1..])
  }

  /** The number of non-empty page texts. */
  function CountNonEmpty(pages: seq<string>): nat {
    if pages == [] then 0 else (if pages[0] == [] then 0 else 1) + CountNonEmpty(pages[1..])
  }

  /**
   * The pages kept are exactly the non-empty ones, in page order: a
   * subsequence of the pages holding one entry per non-empty page, and no
   * empty one.
   */
  lemma {:induction false} NonEmptyKeepsPages(pages: seq<string>)
    ensures IsSubsequence(NonEmpty(pages), pages)
    ensures |NonEmpty(pages)| == CountNonEmpty(pages)
  {
    if pages != [] {
      NonEmptyKeepsPages(pages[1..]);
      var rest := NonEmpty(pages[1..]);
      if pages[0] == [] {
        assert NonEmpty(pages) == rest;
        if rest != [] {
          assert rest[0] != pages[0];
        }
      } else {
        var kept := [pages[0]] + rest;
        assert NonEmpty(pages) == kept && kept[1..] == rest;
      }
    }
  }

  function QuestionSpans(text: string): seq<Span> {
    FindAll(Questions, text, 0, false)
  }

  function AnswerSpans(text: string): seq<Span> {
    FindAll(Answers, text, 0, false)
  }

  /** The two lists cut out of text that is already extracted. */
  function ExtractFromText(text: string): (qa: (seq<string>, seq<string>))
    ensures |qa.0| == |QuestionSpans(text)| && |qa.1| == |AnswerSpans(text)|
  {
    (StrippedPieces(text, QuestionSpans(text)), StrippedPieces(text, AnswerSpans(text)))
  }

  /** main.py:54-69: any exception while reading the PDF gives two empty lists. */
  function ExtractQuestionsAndAnswers(pdf: PdfOutcome): (qa: (seq<string>, seq<string>))
    ensures pdf.Unreadable? ==> qa == ([], [])
    ensures pdf.Pages? ==> qa == ExtractFromText(JoinPages(pdf.texts))
  {
    match pdf
    case Unreadable => ([], [])
    case Pages(texts) => ExtractFromText(JoinPages(texts))
  }

  /**
   * Every extracted question is the stripped text between a `Question:` and the
   * next `\nAnswer:` after it, and the questions come in text order.
   */
  lemma QuestionsAreTaggedSegments(text: string)
    ensures var qs, spans := ExtractFromText(text).0, QuestionSpans(text);
      && |qs| == |spans| && Ordered(spans) && Complete(Questions, text, 0, false, spans)
      && forall k :: 0 <= k < |qs| ==>
        && Cut(Questions, text, spans[k])
        && qs[k] == Strip(text[spans[k].start..spans[k].end]) && IsStripped(qs[k])
  {
    FindAllCuts(Questions, text, 0, false);
    FindAllMissesNothing(Questions, text, 0, false);
  }

  /**
   * Every extracted answer is the stripped text between an `Answer:` and the
   * next `\nQuestion:`, or the end of the text (ignoring one final newline).
   */
  lemma AnswersAreTaggedSegments(text: string)
    ensures var ans, spans := ExtractFromText(text).1, AnswerSpans(text);
      && |ans| == |spans| && Ordered(spans) && Complete(Answers, text, 0, false, spans)
      && forall k :: 0 <= k < |ans| ==>
        && Cut(Answers, text, spans[k])
        && ans[k] == Strip(text[spans[k].start..spans[k].end]) && IsStripped(ans[k])
  {
    FindAllCuts(Answers, text, 0, false);
    FindAllMissesNothing(Answers, text, 0, false);
  }

  /** Without a `\nAnswer:` anywhere there are no questions. */
  lemma NoAnswerTagNoQuestions(text: string)
    requires forall j :: 0 <= j <= |text| ==> !StartsAt(text, j, "\nAnswer:")
    ensures ExtractFromText(text).0 == []
  {
    FindAllCuts(Questions, text, 0, false);
    var spans := QuestionSpans(text);
    assert |spans| > 0 ==> Cut(Questions, text, spans[0]);
  }
}
