/** The save coordinator of the PDF selector component (lwc/pdfSelector/pdfSelector.js).

    The Apex methods savePdfToSalesforce and savePdfChunk are not modelled; their answers
    are supplied as an oracle, `rs[i]` being the answer to the (i+1)-th call. Everything the
    component does that can be observed (console lines, toasts, Apex calls) is appended,
    in order, to one trace. */
module PdfSelector {
  import opened Utils

  /** CHUNK_SIZE: 3 MiB of base64 text per chunk; also the single-request threshold. */
  const ChunkSize: nat := 3 * 1024 * 1024

  /** The size ceiling checked by the single-request path only. */
  const SingleRequestLimit: nat := 10000000

  /** The values the component holds for a document id: null or a string. */
  datatype JsValue = JsNull | JsString(s: string)

  /** JavaScript truthiness of such a value. */
  predicate Truthy(v: JsValue) {
    v.JsString? && v.s != ""
  }

  /** The answer of an Apex call: the value it resolves to, or the serialised error it rejects with. */
  datatype Response = Ok(value: JsValue) | Err(detail: string)

  datatype ApexCall =
    | SavePdfToSalesforce(base64Data: string)
    | SavePdfChunk(base64Chunk: string, isLastChunk: bool, contentDocumentId: JsValue)

  /** The saveStatus field: null, 'failure' or 'success'. */
  datatype SaveStatus = Unset | Failure | Success

  /** The texts the component writes to the console and to toasts, one constructor per
      template; Render gives the exact text. */
  datatype Message =
    | CheckingSize
    | EmptyPdfData
    | FileSize(n: nat)
    | SendingSingle
    | SendingChunked
    | SendingPdf
    | EmptyPdfDataTypo
    | RawFileSize
    | FileTooLarge
    | SavedWithResult(result: JsValue)
    | SavedDocument
    | ErrorTitle
    | SuccessTitle
    | SendErrorTitle
    | SendError(detail: string)
    | ErrorDetail(detail: string)
    | Splitting
    | TotalSize(n: nat)
    | SendingChunk(chunkIndex: nat, length: nat)
    | FirstChunkSaved(docId: JsValue)
    | ChunkSent(chunkIndex: nat)
    | ChunkError(chunkIndex: nat)

  datatype Effect =
    | Log(line: ConsoleLine<Message>)         // a logMessage call that was let through
    | Print(write: ConsoleWrite<Message>)     // a direct console call
    | Notify(toast: Toast<Message>)           // a dispatched ShowToastEvent
    | Invoke(call: ApexCall)                  // an Apex call

  /** What one operation appends to the trace and the saveStatus it leaves. */
  datatype Outcome = Outcome(trace: seq<Effect>, status: SaveStatus)

  function DigitChar(d: nat): char
    requires d < 10
  {
    "0123456789"[d]
  }

  /** Decimal rendering of a number inside a template literal. */
  function NatToString(n: nat): (r: string)
    ensures |r| >= 1
    decreases n
  {
    if n < 10 then [DigitChar(n)] else NatToString(n / 10) + [DigitChar(n % 10)]
  }

  /** How a value appears inside a template literal. */
  function ValueText(v: JsValue): string {
    match v
    case JsNull => "null"
    case JsString(s) => s
  }

  /** The exact text of each message. */
  function Render(m: Message): string {
    match m
    case CheckingSize => "Checking PDF size before sending..."
    case EmptyPdfData => "Empty PDF data."
    case FileSize(n) => "Base64 file size : " + NatToString(n) + " bytes"
    case SendingSingle => "Sending the file in a single request..."
    case SendingChunked => "File too large, sending in chunks..."
    case SendingPdf => "Sending PDF to Salesforce..."
    case EmptyPdfDataTypo => "mpty PDF data."
    case RawFileSize => "\U{1F4CC} Base64 file size: "
    case FileTooLarge => "File too large."
    case SavedWithResult(result) => "Document successfully saved to Salesforce : " + ValueText(result)
    case SavedDocument => "Document successfully saved to Salesforce."
    case ErrorTitle => "Error"
    case SuccessTitle => "Success"
    case SendErrorTitle => "Error sending PDF to Salesforce"
    case SendError(detail) => "Error sending PDF to Salesforce: " + detail
    case ErrorDetail(detail) => detail
    case Splitting => "Splitting the file and sending to Salesforce..."
    case TotalSize(n) => "Total file size in Base64: " + NatToString(n) + " bytes"
    case SendingChunk(k, len) => "\U{1F4E4} Sending chunk " + NatToString(k) + " (" + NatToString(len) + " bytes)"
    case FirstChunkSaved(docId) => "First chunk saved, ContentDocumentId : " + ValueText(docId)
    case ChunkSent(k) => "Chunk " + NatToString(k) + " sent successfully!"
    case ChunkError(k) => "Error sending chunk " + NatToString(k) + ":"
  }

  function Min(a: nat, b: nat): nat {
    if a <= b then a else b
  }

  /** String.prototype.substring for 0 <= start <= end: both ends are clipped to the length. */
  function Substring(s: string, start: nat, end: nat): (r: string)
    requires start <= end
    ensures |r| == Min(end, |s|) - Min(start, |s|)
    ensures forall i :: 0 <= i < |r| ==> r[i] == s[start + i]
  {
    s[Min(start, |s|)..Min(end, |s|)]
  }

  /** The trace entry of a logMessage call (nothing when the debug level filters it out). */
  function Logged(lvl: int, level: Level, message: Message, args: seq<string>): seq<Effect> {
    match LogMessage(lvl, level, message, args)
    case None => []
    case Some(line) => [Log(line)]
  }

  function Info(lvl: int, message: Message): seq<Effect> {
    Logged(lvl, InfoLevel, message, [])
  }

  /** The number of loop iterations left when the loop is at offset `pos` of a text of
      length n with chunk size c. */
  function Remaining(n: nat, c: nat, pos: nat): nat
    requires c > 0
    decreases n - pos
  {
    if pos >= n then 0 else 1 + Remaining(n, c, pos + c)
  }

  /** The number of chunks a text of length n is cut into. */
  function NumChunks(n: nat, c: nat): nat
    requires c > 0
  {
    Remaining(n, c, 0)
  }

  /** The success toast of both upload paths. */
  function SavedToast(): Toast<Message> {
    ShowSuccessToast(SuccessTitle, SavedDocument)
  }

  /** The error toast of failed chunk k. */
  function ChunkErrorToast(k: nat, detail: string): Toast<Message> {
    ShowErrorToast(ChunkError(k), ErrorDetail(detail))
  }

  /** uploadPdfToSalesforce, given the answer of its one Apex call; `status` is the
      saveStatus on entry, which the early returns keep. */
  function SingleShot(lvl: int, s: string, response: Response, status: SaveStatus): Outcome {
    var sending := Info(lvl, SendingPdf);
    if s == "" then
      Outcome(sending + [Notify(ShowErrorToast(ErrorTitle, EmptyPdfDataTypo))], status)
    else
      var sized := [Print(ConsoleWrite(ConsoleLog, RawFileSize, [NatToString(|s|)]))];
      if |s| > SingleRequestLimit then
        Outcome(sending + sized + [Notify(ShowErrorToast(ErrorTitle, FileTooLarge))]
                + Logged(lvl, ErrorLevel, FileTooLarge, []), status)
      else
        var call := [Invoke(SavePdfToSalesforce(s))];
        match response
        case Ok(result) =>
          Outcome(sending + sized + call + Info(lvl, SavedWithResult(result)) + [Notify(SavedToast())], Success)
        case Err(e) =>
          Outcome(sending + sized + call + [Notify(ShowErrorToast(SendErrorTitle, ErrorDetail(e)))]
                  + Logged(lvl, ErrorLevel, SendError(e), []), Failure)
  }

  /** What one pass of the loop body appends before the answer arrives. */
  function ChunkSending(lvl: int, k: nat, chunk: string, isLast: bool, docId: JsValue): seq<Effect> {
    Info(lvl, SendingChunk(k, |chunk|)) + [Invoke(SavePdfChunk(chunk, isLast, docId))]
  }

  /** What it appends after chunk k is accepted with value v. */
  function ChunkAccepted(lvl: int, k: nat, docId: JsValue, v: JsValue): seq<Effect> {
    (if !Truthy(docId) then Info(lvl, FirstChunkSaved(v)) else []) + Info(lvl, ChunkSent(k))
  }

  /** What it appends after chunk k is rejected with e. */
  function ChunkRejected(lvl: int, k: nat, e: string): seq<Effect> {
    [Notify(ChunkErrorToast(k, e))] + Logged(lvl, ErrorLevel, ChunkError(k), [e])
  }

  /** What one pass of the loop body appends, given the answer r to its call. */
  function ChunkStep(lvl: int, k: nat, chunk: string, isLast: bool, docId: JsValue, r: Response): seq<Effect> {
    ChunkSending(lvl, k, chunk, isLast, docId)
    + match r
      case Ok(v) => ChunkAccepted(lvl, k, docId, v)
      case Err(e) => ChunkRejected(lvl, k, e)
  }

  /** contentDocId after a pass of the loop body: the first truthy answer is kept. */
  function NextDocId(docId: JsValue, r: Response): JsValue {
    if r.Ok? && !Truthy(docId) then r.value else docId
  }

  /** What the loop of uploadPdfToSalesforceAsync appends from the state
      (startPosition, chunkIndex, contentDocId) = (pos, index, docId) on. */
  function ChunkLoop(lvl: int, s: string, c: nat, pos: nat, index: nat, docId: JsValue, rs: seq<Response>): seq<Effect>
    requires c > 0 && index + Remaining(|s|, c, pos) <= |rs|
    decreases |s| - pos
  {
    if pos >= |s| then []
    else
      var step := ChunkStep(lvl, index + 1, Substring(s, pos, pos + c), pos + c >= |s|, docId, rs[index]);
      if rs[index].Err? then step
      else step + ChunkLoop(lvl, s, c, pos + c, index + 1, NextDocId(docId, rs[index]), rs)
  }

  /** uploadPdfToSalesforceAsync with chunk size c. */
  function Chunked(lvl: int, s: string, c: nat, rs: seq<Response>): Outcome
    requires c > 0 && NumChunks(|s|, c) <= |rs|
  {
    Outcome(Info(lvl, Splitting) + Info(lvl, TotalSize(|s|))
            + ChunkLoop(lvl, s, c, 0, 0, JsNull, rs)
            + [Notify(SavedToast())], Success)
  }

  /** The oracle answers every call handleSave can make. */
  predicate EnoughResponses(detail: Option<string>, rs: seq<Response>) {
    detail.Some? ==> NumChunks(|detail.value|, ChunkSize) <= |rs|
  }

  /** handleSave, with each upload run to completion. */
  function Save(lvl: int, detail: Option<string>, rs: seq<Response>): Outcome
    requires EnoughResponses(detail, rs)
  {
    var checking := Info(lvl, CheckingSize);
    if detail.None? || |detail.value| == 0 then
      Outcome(checking + [Notify(ShowErrorToast(ErrorTitle, EmptyPdfData))], Failure)
    else
      var s := detail.value;
      var sized := Info(lvl, FileSize(|s|));
      if |s| <= ChunkSize then
        var single := SingleShot(lvl, s, rs[0], Failure);
        Outcome(checking + sized + Info(lvl, SendingSingle) + single.trace, single.status)
      else
        var chunked := Chunked(lvl, s, ChunkSize, rs);
        Outcome(checking + sized + Info(lvl, SendingChunked) + chunked.trace, chunked.status)
  }

  lemma AppendAssoc<T>(a: seq<T>, b: seq<T>, c: seq<T>)
    ensures (a + b) + c == a + (b + c)
  {
  }

  /** A pass of the loop whose chunk is accepted, unfolded for a caller that fixes the
      chunk size; k, chunk, isLast and r are that pass's chunkIndex, chunk, isLastChunk and answer. */
  lemma ChunkLoopContinues(lvl: int, s: string, c: nat, pos: nat, index: nat, docId: JsValue, rs: seq<Response>,
                           k: nat, chunk: string, isLast: bool, r: Response)
    requires c > 0 && index + Remaining(|s|, c, pos) <= |rs| && pos < |s| && index < |rs|
    requires k == index + 1 && chunk == Substring(s, pos, pos + c) && isLast == (pos + c >= |s|) && r == rs[index]
    requires r.Ok?
    ensures k + Remaining(|s|, c, pos + c) <= |rs|
    ensures ChunkLoop(lvl, s, c, pos, index, docId, rs)
            == ChunkStep(lvl, k, chunk, isLast, docId, r) + ChunkLoop(lvl, s, c, pos + c, k, NextDocId(docId, r), rs)
  {
  }

  /** A pass of the loop whose chunk is rejected: the loop ends there. */
  lemma ChunkLoopStops(lvl: int, s: string, c: nat, pos: nat, index: nat, docId: JsValue, rs: seq<Response>,
                       k: nat, chunk: string, isLast: bool, r: Response)
    requires c > 0 && index + Remaining(|s|, c, pos) <= |rs| && pos < |s| && index < |rs|
    requires k == index + 1 && chunk == Substring(s, pos, pos + c) && isLast == (pos + c >= |s|) && r == rs[index]
    requires r.Err?
    ensures ChunkLoop(lvl, s, c, pos, index, docId, rs) == ChunkStep(lvl, k, chunk, isLast, docId, r)
  {
  }

  /** The component. pdfOptions and selectedPdfId belong to the list wiring, which is not modelled. */
  class PdfSelector {
    var debugLevel: int
    var saveStatus: SaveStatus
    /** Everything the component has written to the console, dispatched or called, in order. */
    var trace: seq<Effect>

    constructor ()
      ensures debugLevel == 3 && saveStatus == Unset && trace == []
    {
      debugLevel := 3;
      saveStatus := Unset;
      trace := [];
    }

    method HandleSave(detail: Option<string>, rs: seq<Response>)
      requires EnoughResponses(detail, rs)
      modifies this
      ensures debugLevel == old(debugLevel)
      ensures trace == old(trace) + Save(old(debugLevel), detail, rs).trace
      ensures saveStatus == Save(old(debugLevel), detail, rs).status
    {
      ghost var t0 := trace;
      saveStatus := Failure;
      trace := trace + Info(debugLevel, CheckingSize);
      if detail.None? || |detail.value| == 0 {
        trace := trace + [Notify(ShowErrorToast(ErrorTitle, EmptyPdfData))];
        return;
      }
      var base64Pdf := detail.value;
      ghost var pre := Info(debugLevel, CheckingSize) + Info(debugLevel, FileSize(|base64Pdf|));
      AppendAssoc(t0, Info(debugLevel, CheckingSize), Info(debugLevel, FileSize(|base64Pdf|)));
      trace := trace + Info(debugLevel, FileSize(|base64Pdf|));
      if |base64Pdf| <= ChunkSize {
        AppendAssoc(t0, pre, Info(debugLevel, SendingSingle));
        trace := trace + Info(debugLevel, SendingSingle);
        UploadPdfToSalesforce(base64Pdf, rs[0]);
        AppendAssoc(t0, pre + Info(debugLevel, SendingSingle), SingleShot(debugLevel, base64Pdf, rs[0], Failure).trace);
      } else {
        AppendAssoc(t0, pre, Info(debugLevel, SendingChunked));
        trace := trace + Info(debugLevel, SendingChunked);
        UploadPdfToSalesforceAsync(base64Pdf, rs);
        AppendAssoc(t0, pre + Info(debugLevel, SendingChunked), Chunked(debugLevel, base64Pdf, ChunkSize, rs).trace);
      }
    }

    method UploadPdfToSalesforce(base64Pdf: string, response: Response)
      modifies this
      ensures debugLevel == old(debugLevel)
      ensures trace == old(trace) + SingleShot(old(debugLevel), base64Pdf, response, old(saveStatus)).trace
      ensures saveStatus == SingleShot(old(debugLevel), base64Pdf, response, old(saveStatus)).status
    {
      var sending := Info(debugLevel, SendingPdf);
      trace := trace + sending;
      if base64Pdf == "" {
        trace := trace + [Notify(ShowErrorToast(ErrorTitle, EmptyPdfDataTypo))];
        return;
      }
      var sized := [Print(ConsoleWrite(ConsoleLog, RawFileSize, [NatToString(|base64Pdf|)]))];
      trace := trace + sized;
      if |base64Pdf| > SingleRequestLimit {
        var refused := [Notify(ShowErrorToast(ErrorTitle, FileTooLarge))];
        trace := trace + refused;
        trace := trace + Logged(debugLevel, ErrorLevel, FileTooLarge, []);
        return;
      }
      var call := [Invoke(SavePdfToSalesforce(base64Pdf))];
      trace := trace + call;
      match response {
        case Ok(result) =>
          trace := trace + Info(debugLevel, SavedWithResult(result));
          trace := trace + [Notify(SavedToast())];
          saveStatus := Success;
        case Err(e) =>
          var toast := [Notify(ShowErrorToast(SendErrorTitle, ErrorDetail(e)))];
          trace := trace + toast;
          trace := trace + Logged(debugLevel, ErrorLevel, SendError(e), []);
          saveStatus := Failure;
      }
    }

    method UploadPdfToSalesforceAsync(base64Pdf: string, rs: seq<Response>)
      requires NumChunks(|base64Pdf|, ChunkSize) <= |rs|
      modifies this
      ensures debugLevel == old(debugLevel)
      ensures trace == old(trace) + Chunked(old(debugLevel), base64Pdf, ChunkSize, rs).trace
      ensures saveStatus == Success
    {
      ghost var t0 := trace;
      trace := trace + Info(debugLevel, Splitting);
      AppendAssoc(t0, Info(debugLevel, Splitting), Info(debugLevel, TotalSize(|base64Pdf|)));
      trace := trace + Info(debugLevel, TotalSize(|base64Pdf|));
      var totalSize := |base64Pdf|;
      var startPosition := 0;
      var chunkIndex := 0;
      var contentDocId := JsNull;
      ghost var before := trace;
      ghost var whole := ChunkLoop(debugLevel, base64Pdf, ChunkSize, 0, 0, JsNull, rs);
      while startPosition < totalSize
        invariant chunkIndex + Remaining(totalSize, ChunkSize, startPosition) <= |rs|
        invariant trace + ChunkLoop(debugLevel, base64Pdf, ChunkSize, startPosition, chunkIndex, contentDocId, rs)
                  == before + whole
        invariant debugLevel == old(debugLevel)
        decreases totalSize - startPosition
      {
        ghost var t1, pos, index, docId := trace, startPosition, chunkIndex, contentDocId;
        assert chunkIndex < |rs|;
        var chunk := Substring(base64Pdf, startPosition, startPosition + ChunkSize);
        var isLastChunk := startPosition + ChunkSize >= totalSize;
        startPosition := startPosition + ChunkSize;
        chunkIndex := chunkIndex + 1;
        var response := rs[chunkIndex - 1];
        ghost var step := ChunkStep(debugLevel, chunkIndex, chunk, isLastChunk, docId, response);
        var failed;
        contentDocId, failed := SendChunk(chunk, isLastChunk, chunkIndex, contentDocId, response);
        if failed {
          ChunkLoopStops(debugLevel, base64Pdf, ChunkSize, pos, index, docId, rs, chunkIndex, chunk, isLastChunk, response);
          break;
        }
        ChunkLoopContinues(debugLevel, base64Pdf, ChunkSize, pos, index, docId, rs, chunkIndex, chunk, isLastChunk, response);
        AppendAssoc(t1, step, ChunkLoop(debugLevel, base64Pdf, ChunkSize, startPosition, chunkIndex, contentDocId, rs));
      }
      ghost var opening := Info(debugLevel, Splitting) + Info(debugLevel, TotalSize(|base64Pdf|));
      AppendAssoc(t0, opening, whole);
      AppendAssoc(t0, opening + whole, [Notify(SavedToast())]);
      trace := trace + [Notify(SavedToast())];
      saveStatus := Success;
    }

    /** The body of the loop above from the progress line on: the chunk is sent with the
        current contentDocId; an accepted chunk may supply the document id, a rejected one
        sets saveStatus to failure and asks the loop to stop. */
    method SendChunk(chunk: string, isLastChunk: bool, chunkIndex: nat, contentDocId: JsValue, response: Response)
      returns (docId: JsValue, failed: bool)
      modifies this
      ensures debugLevel == old(debugLevel)
      ensures trace == old(trace) + ChunkStep(old(debugLevel), chunkIndex, chunk, isLastChunk, contentDocId, response)
      ensures docId == NextDocId(contentDocId, response)
      ensures failed <==> response.Err?
      ensures saveStatus == if failed then Failure else old(saveStatus)
    {
      trace := trace + Info(debugLevel, SendingChunk(chunkIndex, |chunk|));
      trace := trace + [Invoke(SavePdfChunk(chunk, isLastChunk, contentDocId))];
      docId := contentDocId;
      failed := false;
      match response {
        case Ok(v) =>
          if !Truthy(contentDocId) {
            docId := v;
            trace := trace + Info(debugLevel, FirstChunkSaved(docId));
          }
          trace := trace + Info(debugLevel, ChunkSent(chunkIndex));
        case Err(e) =>
          trace := trace + [Notify(ChunkErrorToast(chunkIndex, e))];
          trace := trace + Logged(debugLevel, ErrorLevel, ChunkError(chunkIndex), [e]);
          saveStatus := Failure;
          failed := true;
      }
    }
  }
}
