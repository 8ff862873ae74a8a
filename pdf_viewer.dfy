/** The PDF viewer component (lwc/pdfViewer/pdfViewer.js): its debugLevel and pdfId
    properties and the loading of a document into the editor.

    The Apex method getPdfContent is not modelled; its answer is a parameter of the
    operations that call it. The editor library is reduced to whether an editor instance
    exists. What the component writes, dispatches, fetches and loads is appended to a trace. */
module PdfViewer {
  import opened Utils

  /** The result of Number(value) in the debugLevel setter: a number, or NaN. */
  datatype NumberValue = Num(r: real) | NaN

  /** The pdfId values the component distinguishes: undefined, null, or an id. */
  datatype IdValue = Undefined | Null | Id(s: string)

  /** The answer of getPdfContent: the value it resolves to (a string or null), or the
      error it rejects with. */
  datatype ContentResponse = Delivered(content: Option<string>) | Rejected(detail: string)

  datatype ViewerEffect =
    | Console(line: ConsoleLine<string>)   // a logMessage call that was let through
    | Print(write: ConsoleWrite<string>)   // a direct console call
    | Dispatch(event: ErrorEvent)          // an event dispatched through dispatchError
    | FetchContent(pdfId: IdValue)         // a getPdfContent call
    | LoadPdf(base64: string)              // sfPdfEditor.loadPDF

  /** The debug levels the setter accepts: the whole numbers 0 to 3. */
  predicate IsDebugLevel(v: NumberValue) {
    v.Num? && v.r.Floor as real == v.r && 0.0 <= v.r <= 3.0
  }

  /** What the setter stores: `!isNaN(n) && [0, 1, 2, 3].includes(n)` keeps n, anything
      else is replaced by 0. */
  function StoredLevel(v: NumberValue): (l: int)
    ensures 0 <= l <= 3
    ensures IsDebugLevel(v) ==> l as real == v.r
    ensures !IsDebugLevel(v) ==> l == 0
  {
    if !v.NaN? && (v.r == 0.0 || v.r == 1.0 || v.r == 2.0 || v.r == 3.0) then v.r.Floor else 0
  }

  /** The warning of the setter, logged at the fixed debug level 2. */
  function ResetWarning(): seq<ViewerEffect> {
    match LogMessage(2, WarningLevel, "Invalid debugLevel value. Resetting to 0.", [])
    case None => []
    case Some(line) => [Console(line)]
  }

  /** The text of the error thrown when the content is empty or missing. */
  const EmptyContentError: string := "The PDF file is empty or was not found."

  /** The error raised by calling loadPDF on a null sfPdfEditor; its text depends on the
      JavaScript engine. */
  const NullEditorError: string := "TypeError: sfPdfEditor is null"

  /** The event every failure of loadPdfFromSalesforce ends in. */
  function LoadFailed(description: string): ViewerEffect {
    Dispatch(DispatchError("Error loading PDF.", Some(Thrown(description))))
  }

  /** loadPdfFromSalesforce for the id `id`, run to completion with the answer `content`,
      when an editor instance exists exactly if `ready`. Its own log calls pass a string
      as the debug level and so write nothing. */
  function LoadEffects(id: IdValue, content: ContentResponse, ready: bool): seq<ViewerEffect> {
    [FetchContent(id)]
    + match content
      case Rejected(e) => [LoadFailed(e)]
      case Delivered(v) =>
        if v.None? || v.value == "" then [LoadFailed(EmptyContentError)]
        else if !ready then [LoadFailed(NullEditorError)]
        else [LoadPdf(v.value)]
  }

  /** What the pdfId setter appends: a load, unless the value is null or undefined. */
  function PdfIdEffects(value: IdValue, content: ContentResponse, ready: bool): seq<ViewerEffect> {
    if value != Null && value != Undefined then LoadEffects(value, content, ready) else []
  }

  class PdfViewer {
    var storedDebugLevel: int
    var storedPdfId: IdValue
    /** sfPdfEditor != null. */
    var editorReady: bool
    var effects: seq<ViewerEffect>

    ghost predicate Valid()
      reads this
    {
      0 <= storedDebugLevel <= 3
    }

    constructor ()
      ensures Valid()
      ensures storedDebugLevel == 0 && storedPdfId == Undefined && !editorReady && effects == []
    {
      storedDebugLevel := 0;
      storedPdfId := Undefined;
      editorReady := false;
      effects := [];
    }

    /** The debugLevel getter. */
    function DebugLevel(): (l: int)
      reads this
      requires Valid()
      ensures 0 <= l <= 3
    {
      storedDebugLevel
    }

    /** The debugLevel setter, given Number(value). */
    method SetDebugLevel(value: NumberValue)
      requires Valid()
      modifies this
      ensures Valid()
      ensures storedDebugLevel == StoredLevel(value)
      ensures DebugLevel() == StoredLevel(value)
      ensures effects == old(effects) + (if IsDebugLevel(value) then [] else ResetWarning())
      ensures storedPdfId == old(storedPdfId) && editorReady == old(editorReady)
    {
      if !value.NaN? && (value.r == 0.0 || value.r == 1.0 || value.r == 2.0 || value.r == 3.0) {
        storedDebugLevel := value.r.Floor;
      } else {
        effects := effects + ResetWarning();
        storedDebugLevel := 0;
      }
    }

    /** The pdfId getter. */
    function PdfId(): IdValue
      reads this
    {
      storedPdfId
    }

    /** The pdfId setter: the value is always stored; the load it may start is run to
        completion with getPdfContent's answer `content`. */
    method SetPdfId(value: IdValue, content: ContentResponse)
      modifies this
      ensures storedPdfId == value && PdfId() == value
      ensures effects == old(effects) + PdfIdEffects(value, content, old(editorReady))
      ensures storedDebugLevel == old(storedDebugLevel) && editorReady == old(editorReady)
    {
      storedPdfId := value;
      if storedPdfId != Null && storedPdfId != Undefined {
        LoadPdfFromSalesforce(content);
      }
    }

    /** loadPdfFromSalesforce: falsy content raises an error before the editor is reached;
        every error ends in one 'Error loading PDF.' event. */
    method LoadPdfFromSalesforce(content: ContentResponse)
      modifies this
      ensures effects == old(effects) + LoadEffects(old(storedPdfId), content, old(editorReady))
      ensures storedDebugLevel == old(storedDebugLevel) && storedPdfId == old(storedPdfId)
      ensures editorReady == old(editorReady)
    {
      effects := effects + [FetchContent(storedPdfId)];
      match content {
        case Rejected(e) =>
          effects := effects + [LoadFailed(e)];
        case Delivered(base64Pdf) =>
          if base64Pdf.None? || base64Pdf.value == "" {
            effects := effects + [LoadFailed(EmptyContentError)];
          } else if !editorReady {
            effects := effects + [LoadFailed(NullEditorError)];
          } else {
            effects := effects + [LoadPdf(base64Pdf.value)];
          }
      }
    }

    /** initializeEditor: without the container element an error is written to the console
        and no editor is created. */
    method InitializeEditor(containerFound: bool)
      modifies this
      ensures editorReady == (old(editorReady) || containerFound)
      ensures effects == old(effects) + (if containerFound then [] else [Print(ConsoleWrite(ConsoleError, "Élément `pdf-container` introuvable !", []))])
      ensures storedDebugLevel == old(storedDebugLevel) && storedPdfId == old(storedPdfId)
    {
      if !containerFound {
        effects := effects + [Print(ConsoleWrite(ConsoleError, "Élément `pdf-container` introuvable !", []))];
        return;
      }
      editorReady := true;
    }
  }

  /** The reset warning is always written: the setter logs it at level 2, which lets warnings through. */
  lemma ResetWarningWritten()
    ensures ResetWarning() == [Console(ConsoleLine(ConsoleWarn, "[WARN]", "Invalid debugLevel value. Resetting to 0.", []))]
  {
  }

  /** Setting the level it already holds changes nothing and warns of nothing. */
  lemma SetDebugLevelIdempotent(v: NumberValue)
    ensures IsDebugLevel(Num(StoredLevel(v) as real))
    ensures StoredLevel(Num(StoredLevel(v) as real)) == StoredLevel(v)
  {
  }

  /** Content reaches the editor exactly when it is a non-empty string and an editor exists,
      and it reaches it unchanged. */
  lemma OnlyContentIsLoaded(id: IdValue, content: ContentResponse, ready: bool, x: string)
    ensures LoadPdf(x) in LoadEffects(id, content, ready)
            <==> ready && content == Delivered(Some(x)) && x != ""
  {
  }

  /** A load makes one getPdfContent call with the current id and then either loads the
      content or dispatches exactly one error event. */
  lemma LoadShape(id: IdValue, content: ContentResponse, ready: bool)
    ensures |LoadEffects(id, content, ready)| == 2
    ensures LoadEffects(id, content, ready)[0] == FetchContent(id)
    ensures LoadEffects(id, content, ready)[1].Dispatch?
            <==> !(ready && content.Delivered? && content.content.Some? && content.content.value != "")
  {
  }

  /** Falsy content is reported as the empty-file error, whether or not an editor exists. */
  lemma EmptyContentReported(id: IdValue, ready: bool, content: ContentResponse)
    requires content == Delivered(None) || content == Delivered(Some(""))
    ensures LoadEffects(id, content, ready)[1]
            == Dispatch(ErrorEvent("error", "Error loading PDF.", Thrown(EmptyContentError)))
  {
  }

  /** The pdfId setter starts a load, with the new value, exactly when the value is neither
      null nor undefined. */
  lemma PdfIdLoadsIff(value: IdValue, content: ContentResponse, ready: bool)
    ensures PdfIdEffects(value, content, ready) != [] <==> value.Id?
    ensures value.Id? ==> PdfIdEffects(value, content, ready) == LoadEffects(value, content, ready)
    ensures FetchContent(value) in PdfIdEffects(value, content, ready) <==> value.Id?
  {
  }
}
