# crewai-qa-chl core, modelled in Dafny

This project models the decision-making core of the question-checking scripts in
`main.py` and `agents.py`, and proves properties of that model. The rest of those
scripts is glue around a language-model library, a PDF library and plotting.

The two scripts do the following:

- `main.py` cuts the questions and answers out of the text of each existing PDF.
  For each question, up to the shorter of the two lists, it asks one agent for
  paraphrases, a second for a simulated answer and a third for a score. It appends
  at most one record per question to a list: a question without variations adds
  none, and an exception ends the file's remaining questions.
- `agents.py` writes an analysis file for each existing PDF whose output file opens,
  and reads a `Score:` back from that file. It collects an entry per path in a
  dictionary keyed by path (a score, or a message for a missing file, an error or a
  missing score), then plots the entries that are numbers.

The outside world is a value of a `World` datatype. It holds:

- whether a path exists;
- what reading the PDF gives;
- what each agent call returns, or that it raised.

Each agent call is named by its position in the run.

Modules:

| module | models |
|---|---|
| `Text` | Python's `str.strip`, `split("\n")`, `int()` on digit strings, and the character classes `\s`, `\d`, `\w` |
| `BareScore` | `re.search(r'\b(\d{1,3})\b', audit_result)` and the default score of 50 (main.py) |
| `LabelledScore` | `extract_score_from_file`: the content of the analysis file and the search for `Score:\s*(\d+)` in it (agents.py) |
| `Variations` | `generate_question_variations`: split the reply into lines, strip them, drop blank lines (main.py) |
| `Report` | the enumeration-marker strip and the `audit-high`/`audit-low` threshold of `create_html_report` (main.py) |
| `QaExtraction` | `extract_questions_and_answers_from_pdf`: two `re.findall` calls with lookbehind, lazy `.*?` under `re.DOTALL` and lookahead (main.py) |
| `QuestionBatch` | `analyze_questions` in main.py: the loop over paths and zipped questions that appends to the caller's list (a class with a `seq` field) |
| `ScoreSummary` | `analyze_questions` and `generate_graph` in agents.py: the per-path dictionary, built by assignments in loop order, and the filter down to its integer entries |

Python's dictionary is modelled as a sequence of (key, value) pairs in first-insertion order. Assigning to a key that is already present replaces its value and keeps its position.

Regular-expression matching is modelled position by position, the way CPython's engine searches:

- Greedy quantifiers give back characters when what follows does not match.
- `$` without `re.MULTILINE` also matches just before a final newline.
- After an empty match, `findall` does not accept another empty match at the same place. It does accept a longer one (CPython 3.7 and later).

Facts about the code that the model keeps as they are:

- The prompts ask for a score between 0 and 100 (main.py:38, main.py:229-232, agents.py:85), but main.py:236-237 does not enforce it: any standalone run of one to three digits, so up to 999, is taken.
- The default of 50 applies when the reply holds no standalone run of one to three digits (main.py:236-237). That includes replies that do contain digits, such as `1234` or `v2`.
- `generate_question_variations` keeps enumeration markers such as `1. ` (main.py:83-84); only the report removes one (main.py:171).

The model follows the code everywhere but in one place, listed under "## Findings". agents.py:90 reads the analysis file inside the `with` block that is still writing it. `ScoreSummary.DocumentOutcome`, `ScoreSummary.ProcessDocument` and `ScoreSummary.AnalyzeDocuments` read the whole file instead, as it is once the block has closed it: the corrected read. The read as written is `LabelledScore.ScoreReadBeforeClose`, and the entry it gives is `ScoreSummary.DocumentOutcomeAsWritten`.

## Model

| member | source | states |
|---|---|---|
| Text.Strip | main.py:84 | `strip()` leaves text that neither starts nor ends with whitespace, and leaves nothing exactly when the input is all whitespace (the test in `if v.strip()`) |
| Text.StripStripped | main.py:84 | stripping text that is already stripped changes nothing |
| Text.SplitLines | main.py:83 | `split("\n")` gives one more piece than there are newlines, no piece contains a newline, and joining the pieces with newlines gives back the input |
| Text.DigitRun | main.py:236 | the maximal run of digits at a position: every character in it is a digit and the next one is not |
| Text.SpaceRun | agents.py:52 | the maximal run of whitespace at a position, as the greedy `\s*` takes it |
| Text.DecimalValue | main.py:237 | `int()` of a string of k decimal digits is below 10^k |
| BareScore.WordBoundary | main.py:236 | `\b` never holds in an empty text nor between two digits, and holds between a digit and a character that is not a word character |
| BareScore.GroupAt | main.py:236 | a group found by `(\d{1,k})\b` is one to k digits inside the text, with a word boundary right after it |
| BareScore.MatchAt | main.py:236 | a match of `\b(\d{1,3})\b` starts at a word boundary and is one to three digits followed by a word boundary |
| BareScore.GroupAtFindsRun | main.py:236 | the greedy `\d{1,k}` followed by `\b`, backtracking from k digits down to one, matches exactly when the digit run is 1..k long, and then takes the whole run |
| BareScore.MatchAtIffStandalone | main.py:236 | `\b(\d{1,3})\b` matches at a position if and only if a standalone number of one to three digits starts there, and group 1 is the whole run |
| BareScore.SearchFrom | main.py:236 | `re.search` gives a position where the pattern matches, and no earlier position matches |
| BareScore.ExtractScore | main.py:236-237 | the score is never above 999 |
| BareScore.ScoreIsFirstStandaloneNumber | main.py:236-237 | the score is the value of the first standalone number of one to three digits |
| BareScore.FirstNumberIsFound | main.py:236 | `re.search` stops at the first standalone number of one to three digits |
| BareScore.ScoreOfFoundNumber | main.py:236-237 | when the search stops at a standalone number, the score is the value of its digits |
| BareScore.ScoreDefaultsWithoutStandaloneNumber | main.py:237 | with no standalone number of one to three digits, the score is exactly 50 |
| BareScore.LongOrGluedRunNeverMatches | main.py:236 | a run of four or more digits, or one glued to a word character on either side, never matches |
| LabelledScore.DigitsStart | agents.py:52 | the digits of a match begin after the label and all the whitespace behind it, inside the text |
| LabelledScore.MatchAt | agents.py:52 | a match attempt succeeds only where `Score:` starts |
| LabelledScore.SearchFrom | agents.py:52 | `re.search` for `Score:\s*(\d+)` gives a position where the pattern matches, and no earlier position matches |
| LabelledScore.ScoreIn | agents.py:52-54 | there is a score exactly when some position of the text matches, and then it is the value a matching position gives |
| LabelledScore.ScoreIsFirstLabelled | agents.py:52-54 | the first position that matches decides the score |
| LabelledScore.NoLabelNoScore | agents.py:52-56 | with no `Score:` followed by optional whitespace and a digit, the result is `None` |
| LabelledScore.ScoreFromFile | agents.py:47-61 | a missing file or a failed read gives `None` instead of raising; a successful read gives the labelled score of the content |
| LabelledScore.AnalysisFile | agents.py:81-88 | the file starts with the first four writes, which end with the auditor heading; the fifth write adds 23 characters, the label line and the final newline, around the auditor's reply, and the file ends with that reply and a newline |
| LabelledScore.MatchIgnoresAppend | agents.py:52 | a match attempt whose label lies inside a text is unchanged by appending text that starts with neither whitespace nor a digit |
| LabelledScore.ScoreSurvivesAppend | agents.py:81-88 | once the text written so far holds a labelled score, appending text that starts with neither whitespace nor a digit does not change it. This covers the writes that start with a letter, such as the third (`Simulated`) and the fifth (`Evaluation`). The fourth starts with a newline and is not covered. EarlierLabelTakesPrecedence therefore takes the first four writes together and appends only the fifth |
| LabelledScore.EarlierLabelTakesPrecedence | agents.py:81-90 | a `Score:` with digits in the header, the PDF text or the simulated response decides the score, whatever the auditor replied |
| LabelledScore.ScoreSurvivesAuditor | agents.py:87-88 | appending the auditor's section, which starts with `E`, keeps a score already found |
| LabelledScore.ScoreAfterUnlabelledPrefix | agents.py:52 | when no `Score:` starts before a position, the score is the first match at or after it |
| LabelledScore.AuditorDecidesOnlyWithoutEarlierLabel | agents.py:81-90 | when the first three sections hold no `Score:`, the `Score:` inside the heading `Evaluation and Score:` is a label, 15 characters into the auditor's section. The search starts there, and a match there is the score |
| LabelledScore.AuditorLeadingNumberDecides | agents.py:52-88 | when the first three sections hold no `Score:` and the auditor's reply is optional whitespace followed by digits, the score is the value of those digits |
| LabelledScore.LeadingNumberDecides | agents.py:52-88 | the same for any unlabelled text in front of the auditor's section |
| LabelledScore.AuditorSearchStart | agents.py:52-88 | for any unlabelled text in front of the auditor's section, the label in its heading is where the search starts |
| LabelledScore.LeadingNumberAfterHeading | agents.py:87-88 | the label in the heading matches, skipping the newline and the reply's leading whitespace, and takes the reply's leading digits |
| LabelledScore.NumberAfterLabelLine | agents.py:52 | a label at the end of a line, followed by a line that opens with optional whitespace and digits, matches and takes those digits |
| LabelledScore.DigitsAfterLabelLine | agents.py:52 | after such a label, `\s*` takes the newline and the leading whitespace, and `\d+` takes exactly the leading digits |
| LabelledScore.MatchOfRun | agents.py:52-54 | at a label whose digits start at a given place, a run of n digits there gives their value |
| LabelledScore.RunsBehindPrefix | agents.py:52 | the whitespace run and the digit run of a line appended to a text are those of the line itself |
| LabelledScore.SpaceRunBehindPrefix | agents.py:52 | the whitespace run at the start of an appended line is the line's own, when it ends inside the line |
| LabelledScore.DigitRunBehindPrefix | agents.py:52 | a digit run inside an appended line is the line's own |
| LabelledScore.SpaceRunShift | agents.py:52 | the whitespace run inside an appended text does not depend on what precedes it |
| LabelledScore.DigitRunShift | agents.py:52 | the digit run inside an appended text does not depend on what precedes it |
| LabelledScore.SpaceRunStopsInside | agents.py:52 | a whitespace run that ends inside a text is not changed by appending to it |
| LabelledScore.AuditorHeading | agents.py:87-88 | in the auditor's section the heading's `Score:` is a label, and no label starts before it in that section |
| LabelledScore.AuditorHeadingEnds | agents.py:87-88 | that label is followed by the newline of the heading, then the reply and a newline |
| LabelledScore.ScoreReadBeforeClose | agents.py:77-90 | as written: the read inside the open `with` block sees only what was flushed, which is nothing while the content fits in the write buffer |
| LabelledScore.UnflushedReadLosesScore | agents.py:77-90 | an analysis file that holds a labelled score gives `None` when read before anything is flushed, but gives the score when read in full |
| Variations.NonBlankStripped | main.py:84 | the list comprehension keeps no more items than there are lines |
| Variations.KeptAreStripped | main.py:84 | every variation kept is non-empty and stripped |
| Variations.KeptHaveNoNewline | main.py:83-84 | lines without a newline give variations without one |
| Variations.StrippedLineHasNoNewline | main.py:84 | stripping a line adds no newline |
| Variations.StripAll | main.py:84 | each line stripped, position by position |
| Variations.NonBlankStrippedKeepsOrder | main.py:84 | the variations are the stripped lines in line order, one for each line that is not all whitespace |
| Variations.VariationsAreCleanLines | main.py:83-84 | a reply that is not a `str` gives no variations. Otherwise the variations are non-empty, stripped, newline-free and in line order, one per non-blank line, so no more than there are lines |
| Variations.GenerateVariations | main.py:83-84 | a non-`str` reply gives no variations; otherwise no more than there are lines, each non-empty and stripped |
| Report.StripEnumeration | main.py:171 | the result is a suffix of the input, equal to it if and only if the input has no leading `digits.`; otherwise exactly the digits, the dot and all whitespace after them are removed |
| Report.StripEnumerationIsNotIdempotent | main.py:171 | `1. 2. x` becomes `2. x`, which would become `x`: one marker is removed, not all |
| Report.AuditClass | main.py:178 | `audit-high` if and only if the score is at least 95, `audit-low` if and only if it is below |
| QaExtraction.LazyEnd | main.py:60-61 | the lazy `.*?` ends at the first place where the lookahead holds, and at no earlier place |
| QaExtraction.MatchAt | main.py:60-64 | a match attempt fails without the tag right behind its start; otherwise it ends at the first place the lookahead holds, and after an empty match at the first such place past the start |
| QaExtraction.SearchFrom | main.py:63-64 | the match found is a proper cut, and a retry right after an empty match is non-empty |
| QaExtraction.FindAll | main.py:63-64 | every match `findall` reports lies inside the text at or after the start |
| QaExtraction.FindAllCuts | main.py:63-64 | every match `findall` reports is a proper cut, and the matches come in order without overlapping |
| QaExtraction.SearchFromIsFirst | main.py:63-64 | no position between the start of a search and the match it finds matches |
| QaExtraction.FindAllMissesNothing | main.py:63-64 | no position before, between or after the matches `findall` reports matches |
| QaExtraction.StrippedPieces | main.py:66 | one stripped piece per match, the text of that match |
| QaExtraction.NonEmpty | main.py:58 | the page texts kept hold no empty text |
| QaExtraction.NonEmptyKeepsPages | main.py:58 | the pages kept are the non-empty ones, in page order, and there are as many as there are non-empty pages |
| QaExtraction.JoinPages | main.py:58 | `"\n".join` of no kept page is the empty text; otherwise the pages kept, joined by newlines |
| QaExtraction.ExtractFromText | main.py:60-66 | one question per question match and one answer per answer match |
| QaExtraction.ExtractQuestionsAndAnswers | main.py:54-69 | an unreadable PDF gives two empty lists; otherwise the lists are those cut from the joined page texts |
| QaExtraction.QuestionsAreTaggedSegments | main.py:60-66 | every question is the stripped text between a `Question:` and the next `\nAnswer:`, in text order, and no other position of the text starts a match |
| QaExtraction.AnswersAreTaggedSegments | main.py:61-66 | every answer is the stripped text between an `Answer:` and the next `\nQuestion:` or the end of the text, in text order, and no other position of the text starts a match |
| QaExtraction.NoAnswerTagNoQuestions | main.py:60-63 | with no `\nAnswer:` in the text there are no questions |
| QuestionBatch.Outcomes | main.py:207-247 | one outcome per zipped question |
| QuestionBatch.ProcessQuestion | main.py:211-247 | a question is skipped exactly when the paraphrase call returns and gives no variations. It aborts the file exactly when the paraphrase call raises, or when there are variations and the simulate call raises, the audit call raises or the audit reply is not a `str`. Otherwise the record holds the question, the simulated answer, the variations, the bare score of the audit reply and the stripped audit reply |
| QuestionBatch.Collect | main.py:207-250 | at most one record per question, and none when the first question raises |
| QuestionBatch.FileRecords | main.py:198-250 | a missing file adds no records |
| QuestionBatch.Batch | main.py:197-252 | an empty run of files adds no records |
| QuestionBatch.BatchOfOneFile | main.py:197-252 | a run of one file adds exactly that file's records |
| QuestionBatch.QuestionList.constructor | main.py:191 | the list passed in holds the given records |
| QuestionBatch.AnalyzeQuestions | main.py:191-254 | the same list is returned, holding what it held followed by the records of every file in file order |
| QuestionBatch.AnalyzeFile | main.py:197-252 | one iteration over the paths appends exactly the records of that file |
| QuestionBatch.AskAgents | main.py:211-247 | the calls made in order, step by step, give exactly the outcome `ProcessQuestion` states: skip, abort or the record |
| QuestionBatch.CollectStep | main.py:207-250 | a question either ends the loop over the file's questions through its exception, or adds its own record and lets the loop go on |
| QuestionBatch.RecordedIsWellFormed | main.py:211-247 | a record carries its question, non-empty stripped variations, a score of at most 999 and a stripped explanation |
| QuestionBatch.QuestionsOf | main.py:242 | the initial questions of the records, in order |
| QuestionBatch.CollectFacts | main.py:207-250 | the questions of a file add at most one record each; the records are well-formed and their questions keep question order |
| QuestionBatch.FileRecordsFacts | main.py:198-247 | a missing file adds nothing. Otherwise the file adds at most min(#questions, #answers) records, all well-formed, with stripped questions taken from the file in order |
| QuestionBatch.ExtractedQuestionsAreStripped | main.py:66 | every extracted question is stripped |
| QuestionBatch.AbortKeepsEarlierRecords | main.py:200-250 | an exception at a question keeps the records of the questions before it and adds nothing after it |
| QuestionBatch.AbortInFile | main.py:200-250 | within a file, an exception at question k keeps exactly the records of questions before k |
| QuestionBatch.OutcomesPrefix | main.py:207 | the outcomes of the first k questions do not depend on how many follow |
| QuestionBatch.BatchSplit | main.py:197 | the records of a run of files are those of its first part followed by those of the rest |
| QuestionBatch.FileRecordsDependOnFile | main.py:197-252 | the records of a file depend only on how the world behaves for that file |
| QuestionBatch.OutcomesDependOnCalls | main.py:207-247 | the outcomes of a file's questions depend only on the agent calls made for that file |
| QuestionBatch.SameCallsSameOutcome | main.py:211-247 | a question's outcome depends only on the three agent calls made for it |
| QuestionBatch.BatchDependsOnItsFiles | main.py:197-252 | a run of files whose behaviour is unchanged adds the same records |
| QuestionBatch.BatchAroundFile | main.py:197-252 | the whole batch is the files before k, then file k, then the files after it |
| QuestionBatch.FailureIsContained | main.py:197-252 | whatever goes wrong in file k, the files before and after it add the records they would add otherwise |
| ScoreSummary.DocumentOutcome | agents.py:70-98 | the entry of a path is `"File not found"` exactly when it does not exist, and `"Error in processing"` exactly when opening the output or an agent call raised. Otherwise it is the labelled score of the full analysis file, or `"Score not found"` when the read failed or found no score. The read sees the whole file, as after the `with` block closes it, not as at agents.py:90 |
| ScoreSummary.ProcessDocument | agents.py:70-98 | the steps for one path, in order, give exactly that entry, with the file read back in full |
| ScoreSummary.DocumentOutcomeAsWritten | agents.py:77-98 | as written, reading only the `flushed` part of the file: with nothing flushed there is never a score; the missing-file and error entries are those of DocumentOutcome; with the whole file flushed it is DocumentOutcome |
| ScoreSummary.UnflushedEntryLosesScore | agents.py:77-98 | a PDF whose text holds a labelled score gets `"Score not found"` as written, with nothing flushed, and that score with the corrected read |
| ScoreSummary.WriteAnalysis | agents.py:81-88 | the five writes produce the header, the PDF text, the simulated response and the auditor's section, in that order |
| ScoreSummary.EarlierLabelDecidesEntry | agents.py:81-91 | a labelled score before the auditor's section becomes the path's entry |
| ScoreSummary.Keys | agents.py:101 | the keys of the dictionary, in its order |
| ScoreSummary.Lookup | agents.py:91 | a key has a value exactly when it is one of the keys |
| ScoreSummary.LookupAt | agents.py:101 | with distinct keys, each stored pair is what looking its key up gives |
| ScoreSummary.Put | agents.py:91 | assigning a key that is present keeps the length; a new key adds one pair |
| ScoreSummary.PutLookup | agents.py:91-98 | `summary[key] = v` makes the key give v and leaves every other key's value alone |
| ScoreSummary.PutKeys | agents.py:91-98 | assigning an existing key keeps the key order; a new key goes at the end |
| ScoreSummary.PutFacts | agents.py:91-98 | both of the above together |
| ScoreSummary.Assignments | agents.py:70-98 | one assignment per path, in loop order, with the entry the path gets at its position |
| ScoreSummary.Build | agents.py:68-98 | the dictionary has no more pairs than there were assignments, and the last assignment's key gives its value |
| ScoreSummary.FirstIndex | agents.py:101 | the first position of a key |
| ScoreSummary.SummaryKeys | agents.py:68-98 | after the loop every path has an entry, no other key does, and keys appear once |
| ScoreSummary.FirstOrderStep | agents.py:91-98 | one assignment keeps the keys in the order of their first assignment |
| ScoreSummary.SummaryKeysInFirstOrder | agents.py:68-101 | the summary's keys come in the order the paths were first seen |
| ScoreSummary.LastAssignmentWins | agents.py:70-98 | a repeated path keeps the entry of its last occurrence |
| ScoreSummary.OtherEntriesUnaffected | agents.py:70-98 | a different outcome for one path changes no other path's entry and no key |
| ScoreSummary.ScorePositionsFacts | agents.py:107-108 | the positions selected are exactly those of the `int` entries, in increasing order |
| ScoreSummary.PlottedLabels | agents.py:107 | no more labels than there are entries from the start position on |
| ScoreSummary.PlottedScores | agents.py:108 | no more scores than there are entries from the start position on |
| ScoreSummary.ScorePositionsSound | agents.py:107-108 | every selected position holds an `int` entry |
| ScoreSummary.ScorePositionsIncrease | agents.py:107-108 | the selected positions are in dictionary order |
| ScoreSummary.ScorePositionsComplete | agents.py:107-108 | every `int` entry is selected |
| ScoreSummary.NothingToPlot | agents.py:108-110 | the score list is empty exactly when no entry is an `int` |
| ScoreSummary.GenerateGraph | agents.py:106-112 | nothing is plotted exactly when no entry is an `int` |
| ScoreSummary.PlotIsAligned | agents.py:107-108 | the labels and the scores have equal length, and bar m shows the path and score of the same entry |
| ScoreSummary.AlignedCons | agents.py:107-108 | an `int` entry in front adds one bar with its own path and score |
| ScoreSummary.PlotShowsExactlyTheScores | agents.py:106-115 | every bar's score is its path's entry, and every `int` entry has a bar |
| ScoreSummary.AnalyzeDocuments | agents.py:63-104 | the loop's dictionary is the result of the assignments in path order, with each file read back in full, and the chart is the one drawn from it |

Helper lemmas used only as proof steps, with no source lines of their own: `LabelledScore.SliceBehindPrefix` and `LabelledScore.SliceShift` (slices of appended text), `Variations.StripAllCons` (stripping a list head first), `QuestionBatch.SubsequenceOfPrefix` and `QuestionBatch.SubsequenceElement` (subsequences), `ScoreSummary.FirstIndexExtend` and `ScoreSummary.KeysOfPrefix` (first positions and keys of a prefix).

## Left out

Not modelled, with the reason for each:

- **PDF reading.** PyPDF2 in main.py:57-58 and `PDFReader.read_pdf` are library code. `read_pdf` gives `""` on any error. tools/pdf_reader.py is not part of this model; the page texts, or an unreadable PDF, are given.
- **Language-model calls.** Every `execute_task` call, `ChatOpenAI`, the construction of the agents and the prompt strings (including tasks.py) are foreign calls. A call either returns a value, which may or may not be a `str`, or raises.
- **I/O and environment.**
  - `os.path.exists` is a given predicate.
  - Opening and writing the analysis file are reduced to whether the open succeeds and what the read-back gives. An error when the file is closed or flushed is not modelled.
  - Logging, `print`, `load_dotenv`/`os.getenv` and the HTML report, apart from the marker strip and the threshold, are not modelled.
  - The matplotlib calls are not modelled. The chart is the pair of lists handed to `barh`.
- **Not in the core.** `send_questions_to_chatbot` and test_api_endpoint.py (HTTP) are not part of this model.
- **Unicode character classes.** `\d` and `\w` are ASCII only in the model, whereas Python's are Unicode-aware. `\s` and `strip()` use Python's full set of whitespace code points.
- **Variable world.** The world does not change during a run. Repeating a path gives the same existence and PDF text, while agent replies are named by their position in the run.
- QuestionBatch.Outcomes: states only the count of outcomes. What each outcome is, is stated by `ProcessQuestion`, and `SameCallsSameOutcome` states what it depends on.
- Text.Strip: does not state that the result is the middle of the input between the whitespace runs. That is stated and proved once, in `Text.StripFacts`, about `TrimStart` and `TrimEnd`.
- QaExtraction.SearchFrom: states that the match found is a proper cut. That no earlier position matches is stated once, in `SearchFromIsFirst`, and lifted to `findall` by `FindAllMissesNothing`.
- QaExtraction.FindAll: states only that matches lie inside the text. That they are proper cuts, in order, is `FindAllCuts`.
- LabelledScore.ScoreFromFile: does not model CPython's limit of 4300 digits on `int()` of a string (3.10.7 and 3.11 on). A longer digit run raises `ValueError` there, which agents.py:59 catches, so the entry becomes `"Score not found"`; the model gives the run's value.
- QuestionBatch.FileRecords: states only that a missing file adds nothing. What a present file adds is stated by `FileRecordsFacts`, `AbortInFile` and `FileRecordsDependOnFile`.
- ScoreSummary.Build: states the size and the last assignment. The rest of its meaning is stated by `SummaryKeys`, `SummaryKeysInFirstOrder` and `LastAssignmentWins`.
- ScoreSummary.PlottedLabels: states a bound only. What the labels are is stated by `PlotIsAligned` and `PlotShowsExactlyTheScores`; the same holds for `ScoreSummary.PlottedScores`.
- ScoreSummary.PlottedScores: states a bound only, as above.
- ScoreSummary.Lookup: states only when a key is present. What it gives is stated by `LookupAt`, `PutLookup` and `LastAssignmentWins`.

## Findings

| source | as written | input that shows it | evidently intended | confidence | as-written member | corrected member |
|---|---|---|---|---|---|---|
| agents.py:77-90 | `extract_score_from_file(output_file)` is called inside the `with open(output_file, 'w')` block, so the file is read back before it is closed and before its buffer is flushed | a PDF whose text contains `Score: 90`: the file written holds the label, but the read finds an empty file and the entry becomes `"Score not found"` | read the score after the `with` block has closed the file, so the whole content is searched | not executed | ScoreSummary.UnflushedEntryLosesScore | ScoreSummary.DocumentOutcome |
