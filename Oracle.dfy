/**
 * The external capabilities the pipeline calls, reduced to what it observes of
 * them: a language-model call returns some object or raises, and a PDF either
 * cannot be opened or yields one text per page.
 */
module Oracle {

  /** An object returned by `execute_task`: its `str()` and whether it is a `str`. */
  datatype Value = Value(text: string, isStr: bool)

  /** The outcome of one `execute_task` call. */
  datatype Reply = Raised | Returned(value: Value)

  /**
   * Opening a PDF with PyPDF2: it raises (missing, corrupt), or it gives the
   * text of each page, with "" standing for a page whose `extract_text()` is
   * empty or `None`.
   */
  datatype PdfOutcome = Unreadable | Pages(texts: seq<string>)
}
