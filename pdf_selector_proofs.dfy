/** Properties of the save coordinator: which Apex calls handleSave makes, which toasts it
    shows and the status it leaves, for every base64 text and every sequence of Apex answers. */
module PdfSelectorProofs {
  import opened Utils
  import opened PdfSelector

  /** The Apex calls in a trace, in order. */
  function Calls(t: seq<Effect>): seq<ApexCall>
    decreases |t|
  {
    if t == [] then []
    else (if t[0].Invoke? then [t[0].call] else []) + Calls(t[1..])
  }

  /** The toasts in a trace, in order. */
  function Toasts(t: seq<Effect>): seq<Toast<Message>>
    decreases |t|
  {
    if t == [] then []
    else (if t[0].Notify? then [t[0].toast] else []) + Toasts(t[1..])
  }

  lemma {:induction false} CallsAppend(a: seq<Effect>, b: seq<Effect>)
    ensures Calls(a + b) == Calls(a) + Calls(b)
    decreases |a|
  {
    if a == [] {
      assert a + b == b;
    } else {
      assert (a + b)[0] == a[0];
      assert (a + b)[1..] == a[1..] + b;
      CallsAppend(a[1..], b);
    }
  }

  lemma {:induction false} ToastsAppend(a: seq<Effect>, b: seq<Effect>)
    ensures Toasts(a + b) == Toasts(a) + Toasts(b)
    decreases |a|
  {
    if a == [] {
      assert a + b == b;
    } else {
      assert (a + b)[0] == a[0];
      assert (a + b)[1..] == a[1..] + b;
      ToastsAppend(a[1..], b);
    }
  }

  /** Console lines are neither calls nor toasts. */
  lemma LoggedQuiet(lvl: int, level: Level, message: Message, args: seq<string>)
    ensures Calls(Logged(lvl, level, message, args)) == []
    ensures Toasts(Logged(lvl, level, message, args)) == []
  {
    var t := Logged(lvl, level, message, args);
    if t != [] {
      assert t[1..] == [];
    }
  }

  lemma CallsSingleton(e: Effect)
    ensures Calls([e]) == if e.Invoke? then [e.call] else []
    ensures Toasts([e]) == if e.Notify? then [e.toast] else []
  {
    assert [e][1..] == [];
  }

  /** One pass of the loop makes exactly one call, and shows a toast only when the chunk is rejected. */
  lemma StepEffects(lvl: int, k: nat, chunk: string, isLast: bool, docId: JsValue, r: Response)
    ensures Calls(ChunkStep(lvl, k, chunk, isLast, docId, r)) == [SavePdfChunk(chunk, isLast, docId)]
    ensures Toasts(ChunkStep(lvl, k, chunk, isLast, docId, r))
            == if r.Err? then [ChunkErrorToast(k, r.detail)] else []
  {
    var call := [Invoke(SavePdfChunk(chunk, isLast, docId))];
    LoggedQuiet(lvl, InfoLevel, SendingChunk(k, |chunk|), []);
    CallsSingleton(call[0]);
    CallsAppend(Info(lvl, SendingChunk(k, |chunk|)), call);
    ToastsAppend(Info(lvl, SendingChunk(k, |chunk|)), call);
    var sent := ChunkSending(lvl, k, chunk, isLast, docId);
    match r
    case Ok(v) =>
      var captured := if !Truthy(docId) then Info(lvl, FirstChunkSaved(v)) else [];
      LoggedQuiet(lvl, InfoLevel, FirstChunkSaved(v), []);
      LoggedQuiet(lvl, InfoLevel, ChunkSent(k), []);
      CallsAppend(captured, Info(lvl, ChunkSent(k)));
      ToastsAppend(captured, Info(lvl, ChunkSent(k)));
      CallsAppend(sent, ChunkAccepted(lvl, k, docId, v));
      ToastsAppend(sent, ChunkAccepted(lvl, k, docId, v));
    case Err(e) =>
      var toast := [Notify(ChunkErrorToast(k, e))];
      CallsSingleton(toast[0]);
      LoggedQuiet(lvl, ErrorLevel, ChunkError(k), [e]);
      CallsAppend(toast, Logged(lvl, ErrorLevel, ChunkError(k), [e]));
      ToastsAppend(toast, Logged(lvl, ErrorLevel, ChunkError(k), [e]));
      CallsAppend(sent, ChunkRejected(lvl, k, e));
      ToastsAppend(sent, ChunkRejected(lvl, k, e));
  }

  // ---------------------------------------------------------------------------
  // An independent description of the chunks

  /** The text cut into consecutive pieces of c characters, the last one possibly shorter. */
  function Chunks(s: string, c: nat): seq<string>
    requires c > 0
    decreases |s|
  {
    if |s| == 0 then []
    else if |s| <= c then [s]
    else [s[..c]] + Chunks(s[c..], c)
  }

  function Concat(ss: seq<string>): string
    decreases |ss|
  {
    if ss == [] then [] else ss[0] + Concat(ss[1..])
  }

  /** The chunks put back together give the text; every chunk but the last has exactly c
      characters and the last has between 1 and c; there are Remaining(|s|, c, 0) of them. */
  lemma {:induction false} ChunksShape(s: string, c: nat)
    requires c > 0
    ensures Concat(Chunks(s, c)) == s
    ensures forall i :: 0 <= i < |Chunks(s, c)| - 1 ==> |Chunks(s, c)[i]| == c
    ensures |Chunks(s, c)| > 0 ==> 0 < |Chunks(s, c)[|Chunks(s, c)| - 1]| <= c
    ensures |Chunks(s, c)| == NumChunks(|s|, c)
    ensures |Chunks(s, c)| == 0 <==> s == []
    decreases |s|
  {
    if |s| == 0 {
    } else if |s| <= c {
      assert Chunks(s, c) == [s];
      assert Remaining(|s|, c, c) == 0;
    } else {
      ChunksShape(s[c..], c);
      RemainingShift(|s| - c, c, 0, c);
      ChunksCons(s, c, Chunks(s[c..], c));
    }
  }

  /** The chunks of a text longer than c: its first c characters, then the chunks of the rest. */
  lemma ChunksCons(s: string, c: nat, rest: seq<string>)
    requires c > 0 && |s| > c && rest == Chunks(s[c..], c)
    requires Concat(rest) == s[c..]
    requires forall i :: 0 <= i < |rest| - 1 ==> |rest[i]| == c
    requires |rest| > 0
    ensures Chunks(s, c) == [s[..c]] + rest
    ensures Concat(Chunks(s, c)) == s
    ensures forall i :: 0 <= i < |Chunks(s, c)| - 1 ==> |Chunks(s, c)[i]| == c
    ensures Chunks(s, c)[|Chunks(s, c)| - 1] == rest[|rest| - 1]
  {
    var cs := [s[..c]] + rest;
    assert cs[1..] == rest;
    assert s[..c] + s[c..] == s;
    forall i | 0 <= i < |cs| - 1
      ensures |cs[i]| == c
    {
      if i > 0 {
        assert cs[i] == rest[i - 1];
      }
    }
  }

  /** Moving both the length and the offset by d does not change the count. */
  lemma {:induction false} RemainingShift(n: nat, c: nat, pos: nat, d: nat)
    requires c > 0
    ensures Remaining(n, c, pos) == Remaining(n + d, c, pos + d)
    decreases n - pos
  {
    if pos < n {
      RemainingShift(n, c, pos + c, d);
    }
  }

  /** The count from offset pos is the rest of the text divided by c, rounded up. */
  lemma {:induction false} RemainingBounds(n: nat, c: nat, pos: nat)
    requires c > 0 && pos < n
    ensures Remaining(n, c, pos) >= 1
    ensures (Remaining(n, c, pos) - 1) * c < n - pos <= Remaining(n, c, pos) * c
    decreases n - pos
  {
    if pos + c < n {
      RemainingBounds(n, c, pos + c);
      var r := Remaining(n, c, pos + c);
      assert (r + 1) * c == r * c + c;
    }
  }

  /** NumChunks(n, c) is n/c rounded up: the least N with n <= N*c. On the chunked path
      (n > c) there are at least two chunks. */
  lemma ChunkCount(n: nat, c: nat)
    requires c > 0
    ensures n == 0 ==> NumChunks(n, c) == 0
    ensures n > 0 ==> (NumChunks(n, c) - 1) * c < n <= NumChunks(n, c) * c
    ensures n > c ==> NumChunks(n, c) >= 2
  {
    if n > 0 {
      RemainingBounds(n, c, 0);
    }
  }

  /** Chunk number i + 1 is the substring from i*c to (i+1)*c, as the loop cuts it. */
  lemma {:induction false} ChunkIsSubstring(s: string, c: nat, i: nat)
    requires c > 0 && i < |Chunks(s, c)|
    ensures Chunks(s, c)[i] == Substring(s, i * c, i * c + c)
    decreases i
  {
    if i == 0 {
    } else {
      ChunkIsSubstring(s[c..], c, i - 1);
      assert (i - 1) * c + c == i * c;
      var a := Substring(s[c..], (i - 1) * c, (i - 1) * c + c);
      var b := Substring(s, i * c, i * c + c);
      assert |a| == |b|;
      assert forall j :: 0 <= j < |a| ==> a[j] == b[j];
    }
  }

  // ---------------------------------------------------------------------------
  // The answers: the first rejection, the number of calls, the document id

  /** The position of the first rejection among rs[i..end], or end when there is none. */
  function FirstErr(rs: seq<Response>, i: nat, end: nat): (f: nat)
    requires i <= end <= |rs|
    ensures i <= f <= end
    decreases end - i
  {
    if i == end then end
    else if rs[i].Err? then i
    else FirstErr(rs, i + 1, end)
  }

  lemma {:induction false} FirstErrSpec(rs: seq<Response>, i: nat, end: nat)
    requires i <= end <= |rs|
    ensures forall k :: i <= k < FirstErr(rs, i, end) ==> rs[k].Ok?
    ensures FirstErr(rs, i, end) < end ==> rs[FirstErr(rs, i, end)].Err?
    decreases end - i
  {
    if i < end && rs[i].Ok? {
      FirstErrSpec(rs, i + 1, end);
    }
  }

  /** How many chunk calls are made for the answers rs[i..end]: up to and including the first
      rejected one, or all of them. */
  function Sent(rs: seq<Response>, i: nat, end: nat): nat
    requires i <= end <= |rs|
  {
    var f := FirstErr(rs, i, end);
    if f < end then f + 1 - i else end - i
  }

  /** contentDocId after the answers rs[i..j], starting from d. */
  function DocIdAfter(d: JsValue, rs: seq<Response>, i: nat, j: nat): JsValue
    requires i <= j <= |rs|
    decreases j - i
  {
    if i == j then d else DocIdAfter(NextDocId(d, rs[i]), rs, i + 1, j)
  }

  /** The loop has one pass per chunk of the rest of the text. */
  lemma ChunksFrom(s: string, c: nat, pos: nat)
    requires c > 0 && pos <= |s|
    ensures |Chunks(s[pos..], c)| == Remaining(|s|, c, pos)
  {
    ChunksShape(s[pos..], c);
    RemainingShift(|s| - pos, c, 0, pos);
  }

  /** What the loop calls from the state (pos, index, docId), given the chunks cs of the rest
      of the text and the answer `end` it stops at: one SavePdfChunk per chunk, in order, up to
      and including the first rejected one; the flag is true exactly on the final chunk; the id
      is the one threaded through the earlier answers. */
  predicate CallsAsExpected(calls: seq<ApexCall>, cs: seq<string>, docId: JsValue, rs: seq<Response>, index: nat, end: nat)
    requires index <= end <= |rs| && |cs| == end - index
  {
    && |calls| == Sent(rs, index, end)
    && forall j :: 0 <= j < |calls| ==>
         j < |cs| && calls[j] == SavePdfChunk(cs[j], j == |cs| - 1, DocIdAfter(docId, rs, index, index + j))
  }

  lemma {:induction false} LoopCalls(lvl: int, s: string, c: nat, pos: nat, index: nat, docId: JsValue, rs: seq<Response>, end: nat)
    requires c > 0 && pos <= |s| && end == index + Remaining(|s|, c, pos) && end <= |rs|
    ensures |Chunks(s[pos..], c)| == end - index
    ensures CallsAsExpected(Calls(ChunkLoop(lvl, s, c, pos, index, docId, rs)), Chunks(s[pos..], c), docId, rs, index, end)
    decreases |s| - pos
  {
    ChunksFrom(s, c, pos);
    if pos == |s| {
      assert s[pos..] == [];
    } else if rs[index].Err? {
      CallsWhenRejected(lvl, s, c, pos, index, docId, rs, end);
    } else {
      if pos + c < |s| {
        LoopCalls(lvl, s, c, pos + c, index + 1, NextDocId(docId, rs[index]), rs, end);
      }
      CallsWhenAccepted(lvl, s, c, pos, index, docId, rs, end);
    }
  }

  /** The first chunk of the rest of the text is the one the loop cuts at pos. */
  lemma FirstChunk(s: string, c: nat, pos: nat)
    requires c > 0 && pos < |s|
    ensures |Chunks(s[pos..], c)| >= 1
    ensures Chunks(s[pos..], c)[0] == Substring(s, pos, pos + c)
    ensures pos + c >= |s| ==> Chunks(s[pos..], c) == [Substring(s, pos, pos + c)]
    ensures pos + c < |s| ==> Chunks(s[pos..], c) == [Substring(s, pos, pos + c)] + Chunks(s[pos + c..], c)
  {
    if pos + c < |s| {
      assert s[pos..][c..] == s[pos + c..];
      assert s[pos..][..c] == Substring(s, pos, pos + c);
    } else {
      assert s[pos..] == Substring(s, pos, pos + c);
    }
  }

  lemma CallsWhenRejected(lvl: int, s: string, c: nat, pos: nat, index: nat, docId: JsValue, rs: seq<Response>, end: nat)
    requires c > 0 && pos < |s| && end == index + Remaining(|s|, c, pos) && end <= |rs|
    requires |Chunks(s[pos..], c)| == end - index
    requires rs[index].Err?
    ensures CallsAsExpected(Calls(ChunkLoop(lvl, s, c, pos, index, docId, rs)), Chunks(s[pos..], c), docId, rs, index, end)
  {
    RejectedPass(lvl, s, c, pos, index, docId, rs);
    FirstChunk(s, c, pos);
    assert FirstErr(rs, index, end) == index;
    assert DocIdAfter(docId, rs, index, index) == docId;
    assert (pos + c >= |s|) <==> |Chunks(s[pos..], c)| == 1;
  }

  /** A rejected pass makes its one call and shows the error toast for its chunk, and the loop ends. */
  lemma RejectedPass(lvl: int, s: string, c: nat, pos: nat, index: nat, docId: JsValue, rs: seq<Response>)
    requires c > 0 && pos < |s| && index + Remaining(|s|, c, pos) <= |rs|
    requires rs[index].Err?
    ensures Calls(ChunkLoop(lvl, s, c, pos, index, docId, rs)) == [SavePdfChunk(Substring(s, pos, pos + c), pos + c >= |s|, docId)]
    ensures Toasts(ChunkLoop(lvl, s, c, pos, index, docId, rs)) == [ChunkErrorToast(index + 1, rs[index].detail)]
  {
    var chunk := Substring(s, pos, pos + c);
    var isLast := pos + c >= |s|;
    var r := rs[index];
    StepEffects(lvl, index + 1, chunk, isLast, docId, r);
    ChunkLoopStops(lvl, s, c, pos, index, docId, rs, index + 1, chunk, isLast, r);
  }

  lemma CallsWhenAccepted(lvl: int, s: string, c: nat, pos: nat, index: nat, docId: JsValue, rs: seq<Response>, end: nat)
    requires c > 0 && pos < |s| && end == index + Remaining(|s|, c, pos) && end <= |rs|
    requires |Chunks(s[pos..], c)| == end - index
    requires rs[index].Ok?
    requires pos + c < |s| ==>
      && |Chunks(s[pos + c..], c)| == end - (index + 1)
      && CallsAsExpected(Calls(ChunkLoop(lvl, s, c, pos + c, index + 1, NextDocId(docId, rs[index]), rs)),
                         Chunks(s[pos + c..], c), NextDocId(docId, rs[index]), rs, index + 1, end)
    ensures CallsAsExpected(Calls(ChunkLoop(lvl, s, c, pos, index, docId, rs)), Chunks(s[pos..], c), docId, rs, index, end)
  {
    var chunk := Substring(s, pos, pos + c);
    var later := Calls(ChunkLoop(lvl, s, c, pos + c, index + 1, NextDocId(docId, rs[index]), rs));
    AcceptedPassCalls(lvl, s, c, pos, index, docId, rs);
    FirstChunk(s, c, pos);
    var cs := Chunks(s[pos..], c);
    var calls := Calls(ChunkLoop(lvl, s, c, pos, index, docId, rs));
    if pos + c >= |s| {
      assert end == index + 1;
      assert FirstErr(rs, index, end) == end;
      assert DocIdAfter(docId, rs, index, index) == docId;
    } else {
      CallsPrepend(calls, later, cs, Chunks(s[pos + c..], c), chunk, docId, rs, index, end);
    }
  }

  /** An accepted pass puts its one call in front of the rest of the loop's calls; on the
      final chunk nothing follows it. */
  lemma AcceptedPassCalls(lvl: int, s: string, c: nat, pos: nat, index: nat, docId: JsValue, rs: seq<Response>)
    requires c > 0 && pos < |s| && index + Remaining(|s|, c, pos) <= |rs|
    requires rs[index].Ok?
    ensures index + 1 + Remaining(|s|, c, pos + c) <= |rs|
    ensures Calls(ChunkLoop(lvl, s, c, pos, index, docId, rs))
            == [SavePdfChunk(Substring(s, pos, pos + c), pos + c >= |s|, docId)]
               + Calls(ChunkLoop(lvl, s, c, pos + c, index + 1, NextDocId(docId, rs[index]), rs))
    ensures pos + c >= |s| ==> Calls(ChunkLoop(lvl, s, c, pos + c, index + 1, NextDocId(docId, rs[index]), rs)) == []
  {
    var chunk := Substring(s, pos, pos + c);
    var isLast := pos + c >= |s|;
    var r := rs[index];
    var step := ChunkStep(lvl, index + 1, chunk, isLast, docId, r);
    var later := ChunkLoop(lvl, s, c, pos + c, index + 1, NextDocId(docId, r), rs);
    StepEffects(lvl, index + 1, chunk, isLast, docId, r);
    ChunkLoopContinues(lvl, s, c, pos, index, docId, rs, index + 1, chunk, isLast, r);
    CallsAppend(step, later);
  }

  /** Putting an accepted chunk's call in front of what the rest of the loop calls. */
  lemma CallsPrepend(calls: seq<ApexCall>, later: seq<ApexCall>, cs: seq<string>, rest: seq<string>, chunk: string,
                     docId: JsValue, rs: seq<Response>, index: nat, end: nat)
    requires index < end <= |rs| && |cs| == end - index && rs[index].Ok?
    requires cs == [chunk] + rest && |rest| >= 1
    requires calls == [SavePdfChunk(chunk, false, docId)] + later
    requires CallsAsExpected(later, rest, NextDocId(docId, rs[index]), rs, index + 1, end)
    ensures CallsAsExpected(calls, cs, docId, rs, index, end)
  {
    var next := NextDocId(docId, rs[index]);
    assert FirstErr(rs, index, end) == FirstErr(rs, index + 1, end);
    assert DocIdAfter(docId, rs, index, index) == docId;
    forall j | 0 <= j < |calls|
      ensures j < |cs| && calls[j] == SavePdfChunk(cs[j], j == |cs| - 1, DocIdAfter(docId, rs, index, index + j))
    {
      if j > 0 {
        assert calls[j] == later[j - 1];
        assert DocIdAfter(docId, rs, index, index + j) == DocIdAfter(next, rs, index + 1, index + 1 + (j - 1));
        assert cs[j] == rest[j - 1];
      }
    }
  }

  /** What the loop shows from the state (pos, index, docId), up to the answer `end` it
      stops at: nothing when every chunk is accepted, and one error toast naming the first
      rejected chunk otherwise. */
  predicate ToastsAsExpected(toasts: seq<Toast<Message>>, rs: seq<Response>, index: nat, end: nat)
    requires index <= end <= |rs|
  {
    var f := FirstErr(rs, index, end);
    && (f < end ==> rs[f].Err? && toasts == [ChunkErrorToast(f + 1, rs[f].detail)])
    && (f == end ==> toasts == [])
  }

  lemma {:induction false} LoopToasts(lvl: int, s: string, c: nat, pos: nat, index: nat, docId: JsValue, rs: seq<Response>, end: nat)
    requires c > 0 && pos <= |s| && end == index + Remaining(|s|, c, pos) && end <= |rs|
    ensures ToastsAsExpected(Toasts(ChunkLoop(lvl, s, c, pos, index, docId, rs)), rs, index, end)
    decreases |s| - pos
  {
    if pos < |s| {
      if rs[index].Err? {
        ToastsWhenRejected(lvl, s, c, pos, index, docId, rs, end);
      } else {
        if pos + c < |s| {
          LoopToasts(lvl, s, c, pos + c, index + 1, NextDocId(docId, rs[index]), rs, end);
        }
        ToastsWhenAccepted(lvl, s, c, pos, index, docId, rs, end);
      }
    }
  }

  lemma ToastsWhenRejected(lvl: int, s: string, c: nat, pos: nat, index: nat, docId: JsValue, rs: seq<Response>, end: nat)
    requires c > 0 && pos < |s| && end == index + Remaining(|s|, c, pos) && end <= |rs|
    requires rs[index].Err?
    ensures ToastsAsExpected(Toasts(ChunkLoop(lvl, s, c, pos, index, docId, rs)), rs, index, end)
  {
    RejectedPass(lvl, s, c, pos, index, docId, rs);
    assert FirstErr(rs, index, end) == index;
  }

  lemma ToastsWhenAccepted(lvl: int, s: string, c: nat, pos: nat, index: nat, docId: JsValue, rs: seq<Response>, end: nat)
    requires c > 0 && pos < |s| && end == index + Remaining(|s|, c, pos) && end <= |rs|
    requires rs[index].Ok?
    requires pos + c < |s| ==>
      ToastsAsExpected(Toasts(ChunkLoop(lvl, s, c, pos + c, index + 1, NextDocId(docId, rs[index]), rs)), rs, index + 1, end)
    ensures ToastsAsExpected(Toasts(ChunkLoop(lvl, s, c, pos, index, docId, rs)), rs, index, end)
  {
    AcceptedPassToasts(lvl, s, c, pos, index, docId, rs);
    var later := ChunkLoop(lvl, s, c, pos + c, index + 1, NextDocId(docId, rs[index]), rs);
    if pos + c >= |s| {
      assert end == index + 1;
      assert FirstErr(rs, index, end) == end;
    } else {
      ToastsPrepend(Toasts(later), rs, index, end);
    }
  }

  /** An accepted pass shows no toast of its own; on the final chunk nothing follows it. */
  lemma AcceptedPassToasts(lvl: int, s: string, c: nat, pos: nat, index: nat, docId: JsValue, rs: seq<Response>)
    requires c > 0 && pos < |s| && index + Remaining(|s|, c, pos) <= |rs|
    requires rs[index].Ok?
    ensures index + 1 + Remaining(|s|, c, pos + c) <= |rs|
    ensures Toasts(ChunkLoop(lvl, s, c, pos, index, docId, rs))
            == Toasts(ChunkLoop(lvl, s, c, pos + c, index + 1, NextDocId(docId, rs[index]), rs))
    ensures pos + c >= |s| ==> ChunkLoop(lvl, s, c, pos + c, index + 1, NextDocId(docId, rs[index]), rs) == []
  {
    var chunk := Substring(s, pos, pos + c);
    var isLast := pos + c >= |s|;
    var r := rs[index];
    var step := ChunkStep(lvl, index + 1, chunk, isLast, docId, r);
    var later := ChunkLoop(lvl, s, c, pos + c, index + 1, NextDocId(docId, r), rs);
    StepEffects(lvl, index + 1, chunk, isLast, docId, r);
    ChunkLoopContinues(lvl, s, c, pos, index, docId, rs, index + 1, chunk, isLast, r);
    ToastsAppend(step, later);
  }

  /** An accepted answer in front of the rest adds no toast. */
  lemma ToastsPrepend(toasts: seq<Toast<Message>>, rs: seq<Response>, index: nat, end: nat)
    requires index < end <= |rs| && rs[index].Ok?
    requires ToastsAsExpected(toasts, rs, index + 1, end)
    ensures ToastsAsExpected(toasts, rs, index, end)
  {
    assert FirstErr(rs, index, end) == FirstErr(rs, index + 1, end);
  }

  // ---------------------------------------------------------------------------
  // The document id threaded through the answers

  lemma {:induction false} DocIdAfterSplit(d: JsValue, rs: seq<Response>, i: nat, k: nat, j: nat)
    requires i <= k <= j <= |rs|
    ensures DocIdAfter(d, rs, i, j) == DocIdAfter(DocIdAfter(d, rs, i, k), rs, k, j)
    decreases k - i
  {
    if i < k {
      DocIdAfterSplit(NextDocId(d, rs[i]), rs, i + 1, k, j);
    }
  }

  /** Once the id is truthy no answer changes it. */
  lemma {:induction false} DocIdKept(d: JsValue, rs: seq<Response>, i: nat, j: nat)
    requires i <= j <= |rs| && Truthy(d)
    ensures DocIdAfter(d, rs, i, j) == d
    decreases j - i
  {
    if i < j {
      DocIdKept(d, rs, i + 1, j);
    }
  }

  /** While no answer has been a truthy value, the id stays falsy. */
  lemma {:induction false} DocIdStillFalsy(d: JsValue, rs: seq<Response>, i: nat, j: nat)
    requires i <= j <= |rs| && !Truthy(d)
    requires forall m :: i <= m < j ==> !(rs[m].Ok? && Truthy(rs[m].value))
    ensures !Truthy(DocIdAfter(d, rs, i, j))
    decreases j - i
  {
    if i < j {
      DocIdStillFalsy(NextDocId(d, rs[i]), rs, i + 1, j);
    }
  }

  /** The id is the first truthy value among the answers, from the answer after it on. */
  lemma DocIdCaptured(d: JsValue, rs: seq<Response>, i: nat, k: nat, j: nat)
    requires i <= k < j <= |rs| && !Truthy(d)
    requires rs[k].Ok? && Truthy(rs[k].value)
    requires forall m :: i <= m < k ==> !(rs[m].Ok? && Truthy(rs[m].value))
    ensures DocIdAfter(d, rs, i, j) == rs[k].value
  {
    DocIdAfterSplit(d, rs, i, k, j);
    DocIdStillFalsy(d, rs, i, k);
    var before := DocIdAfter(d, rs, i, k);
    assert DocIdAfter(before, rs, k, j) == DocIdAfter(rs[k].value, rs, k + 1, j);
    DocIdKept(rs[k].value, rs, k + 1, j);
  }

  // ---------------------------------------------------------------------------
  // The first, the number of and the failure in the chunk calls

  /** A rejection at f after accepted answers means calls up to chunk f + 1 and none after. */
  lemma SentAtFailure(rs: seq<Response>, n: nat, f: nat)
    requires n <= |rs| && f < n && rs[f].Err?
    requires forall k :: 0 <= k < f ==> rs[k].Ok?
    ensures FirstErr(rs, 0, n) == f && Sent(rs, 0, n) == f + 1
  {
    FirstErrUpTo(rs, 0, n, f);
  }

  /** When every answer is accepted, every chunk is sent. */
  lemma SentAllAccepted(rs: seq<Response>, n: nat)
    requires n <= |rs|
    requires forall k :: 0 <= k < n ==> rs[k].Ok?
    ensures FirstErr(rs, 0, n) == n && Sent(rs, 0, n) == n
  {
    FirstErrSpec(rs, 0, n);
  }

  /** Never more calls than chunks. */
  lemma SentBound(rs: seq<Response>, n: nat)
    requires n <= |rs|
    ensures Sent(rs, 0, n) <= n
    ensures n > 0 ==> Sent(rs, 0, n) >= 1
  {
    FirstErrSpec(rs, 0, n);
  }

  lemma {:induction false} FirstErrUpTo(rs: seq<Response>, i: nat, n: nat, f: nat)
    requires i <= f < n <= |rs| && rs[f].Err?
    requires forall k :: i <= k < f ==> rs[k].Ok?
    ensures FirstErr(rs, i, n) == f
    decreases f - i
  {
    if i < f {
      FirstErrUpTo(rs, i + 1, n, f);
    }
  }

  // ---------------------------------------------------------------------------
  // handleSave as a whole

  /** Console lines in front of a trace add neither calls nor toasts. */
  lemma QuietInfo(p: seq<Effect>, lvl: int, m: Message)
    requires Calls(p) == [] && Toasts(p) == []
    ensures Calls(p + Info(lvl, m)) == [] && Toasts(p + Info(lvl, m)) == []
  {
    LoggedQuiet(lvl, InfoLevel, m, []);
    CallsAppend(p, Info(lvl, m));
    ToastsAppend(p, Info(lvl, m));
  }

  lemma QuietAppend(p: seq<Effect>, x: seq<Effect>)
    requires Calls(p) == [] && Toasts(p) == []
    ensures Calls(p + x) == Calls(x) && Toasts(p + x) == Toasts(x)
  {
    CallsAppend(p, x);
    ToastsAppend(p, x);
  }

  /** Empty or missing data: no Apex call, one error toast, status failure. */
  lemma SaveEmpty(lvl: int, detail: Option<string>, rs: seq<Response>)
    requires detail.None? || detail.value == ""
    ensures Calls(Save(lvl, detail, rs).trace) == []
    ensures Toasts(Save(lvl, detail, rs).trace) == [ShowErrorToast(ErrorTitle, EmptyPdfData)]
    ensures Save(lvl, detail, rs).status == Failure
  {
    var toast := [Notify(ShowErrorToast(ErrorTitle, EmptyPdfData))];
    LoggedQuiet(lvl, InfoLevel, CheckingSize, []);
    QuietAppend(Info(lvl, CheckingSize), toast);
    CallsSingleton(toast[0]);
  }

  /** uploadPdfToSalesforce refuses empty data without a call and keeps the status. */
  lemma SingleShotRefusesEmpty(lvl: int, response: Response, status: SaveStatus)
    ensures Calls(SingleShot(lvl, "", response, status).trace) == []
    ensures Toasts(SingleShot(lvl, "", response, status).trace) == [ShowErrorToast(ErrorTitle, EmptyPdfDataTypo)]
    ensures SingleShot(lvl, "", response, status).status == status
  {
    var toast := [Notify(ShowErrorToast(ErrorTitle, EmptyPdfDataTypo))];
    LoggedQuiet(lvl, InfoLevel, SendingPdf, []);
    QuietAppend(Info(lvl, SendingPdf), toast);
    CallsSingleton(toast[0]);
  }

  /** uploadPdfToSalesforce refuses data over the ceiling without a call and keeps the status. */
  lemma SingleShotRefusesLarge(lvl: int, s: string, response: Response, status: SaveStatus)
    requires |s| > SingleRequestLimit
    ensures Calls(SingleShot(lvl, s, response, status).trace) == []
    ensures Toasts(SingleShot(lvl, s, response, status).trace) == [ShowErrorToast(ErrorTitle, FileTooLarge)]
    ensures SingleShot(lvl, s, response, status).status == status
  {
    var sending := Info(lvl, SendingPdf);
    var sized := [Print(ConsoleWrite(ConsoleLog, RawFileSize, [NatToString(|s|)]))];
    var toast := [Notify(ShowErrorToast(ErrorTitle, FileTooLarge))];
    var logged := Logged(lvl, ErrorLevel, FileTooLarge, []);
    LoggedQuiet(lvl, InfoLevel, SendingPdf, []);
    LoggedQuiet(lvl, ErrorLevel, FileTooLarge, []);
    CallsSingleton(sized[0]);
    CallsSingleton(toast[0]);
    QuietAppend(sending, sized);
    QuietAppend(sending + sized, toast);
    CallsAppend(sending + sized + toast, logged);
    ToastsAppend(sending + sized + toast, logged);
  }

  /** Otherwise it makes exactly one call; the answer decides the toast and the status. */
  lemma SingleShotSends(lvl: int, s: string, response: Response, status: SaveStatus)
    requires 0 < |s| <= SingleRequestLimit
    ensures Calls(SingleShot(lvl, s, response, status).trace) == [SavePdfToSalesforce(s)]
    ensures Toasts(SingleShot(lvl, s, response, status).trace)
            == if response.Ok? then [SavedToast()] else [ShowErrorToast(SendErrorTitle, ErrorDetail(response.detail))]
    ensures SingleShot(lvl, s, response, status).status == if response.Ok? then Success else Failure
  {
    var pre := Info(lvl, SendingPdf) + [Print(ConsoleWrite(ConsoleLog, RawFileSize, [NatToString(|s|)]))] + [Invoke(SavePdfToSalesforce(s))];
    SingleShotCall(lvl, s);
    match response
    case Ok(result) =>
      SingleShotAnswer(pre, Info(lvl, SavedWithResult(result)), [Notify(SavedToast())], InfoLevel, SavedWithResult(result), lvl);
    case Err(e) =>
      SingleShotAnswer(pre, [Notify(ShowErrorToast(SendErrorTitle, ErrorDetail(e)))], Logged(lvl, ErrorLevel, SendError(e), []),
                       ErrorLevel, SendError(e), lvl);
  }

  /** The part of the single request before the answer: exactly the one call, no toast. */
  lemma SingleShotCall(lvl: int, s: string)
    ensures Calls(Info(lvl, SendingPdf) + [Print(ConsoleWrite(ConsoleLog, RawFileSize, [NatToString(|s|)]))] + [Invoke(SavePdfToSalesforce(s))])
            == [SavePdfToSalesforce(s)]
    ensures Toasts(Info(lvl, SendingPdf) + [Print(ConsoleWrite(ConsoleLog, RawFileSize, [NatToString(|s|)]))] + [Invoke(SavePdfToSalesforce(s))]) == []
  {
    var sending := Info(lvl, SendingPdf);
    var sized := [Print(ConsoleWrite(ConsoleLog, RawFileSize, [NatToString(|s|)]))];
    var call := [Invoke(SavePdfToSalesforce(s))];
    LoggedQuiet(lvl, InfoLevel, SendingPdf, []);
    CallsSingleton(sized[0]);
    CallsSingleton(call[0]);
    QuietAppend(sending, sized);
    CallsAppend(sending + sized, call);
    ToastsAppend(sending + sized, call);
  }

  /** After the call, a console line and one toast (in either order) add that toast and no call. */
  lemma SingleShotAnswer(pre: seq<Effect>, a: seq<Effect>, b: seq<Effect>, level: Level, m: Message, lvl: int)
    requires (a == Logged(lvl, level, m, []) && |b| == 1 && b[0].Notify?)
             || (b == Logged(lvl, level, m, []) && |a| == 1 && a[0].Notify?)
    ensures Calls(pre + a + b) == Calls(pre)
    ensures Toasts(pre + a + b) == Toasts(pre) + (if |a| == 1 && a[0].Notify? then [a[0].toast] else [b[0].toast])
  {
    LoggedQuiet(lvl, level, m, []);
    if |a| == 1 && a[0].Notify? {
      assert a == [a[0]];
      CallsSingleton(a[0]);
    } else {
      assert b == [b[0]];
      CallsSingleton(b[0]);
    }
    CallsAppend(pre, a);
    ToastsAppend(pre, a);
    CallsAppend(pre + a, b);
    ToastsAppend(pre + a, b);
  }

  /** Data of at most CHUNK_SIZE characters goes in a single request: exactly one
      savePdfToSalesforce call with the whole text, so the 10,000,000 ceiling is never hit
      from handleSave; the answer decides the toast and the status. */
  lemma SaveSingle(lvl: int, s: string, rs: seq<Response>)
    requires 0 < |s| <= ChunkSize && EnoughResponses(Some(s), rs)
    ensures |rs| >= 1
    ensures Calls(Save(lvl, Some(s), rs).trace) == [SavePdfToSalesforce(s)]
    ensures Toasts(Save(lvl, Some(s), rs).trace)
            == if rs[0].Ok? then [SavedToast()] else [ShowErrorToast(SendErrorTitle, ErrorDetail(rs[0].detail))]
    ensures Save(lvl, Some(s), rs).status == if rs[0].Ok? then Success else Failure
  {
    ChunkCount(|s|, ChunkSize);
    var checking := Info(lvl, CheckingSize);
    var p1 := checking + Info(lvl, FileSize(|s|));
    var p2 := p1 + Info(lvl, SendingSingle);
    LoggedQuiet(lvl, InfoLevel, CheckingSize, []);
    QuietInfo(checking, lvl, FileSize(|s|));
    QuietInfo(p1, lvl, SendingSingle);
    SingleShotSends(lvl, s, rs[0], Failure);
    QuietAppend(p2, SingleShot(lvl, s, rs[0], Failure).trace);
  }

  /** The part of the chunked path's trace before the loop: console lines only. */
  function ChunkedOpening(lvl: int, s: string): seq<Effect> {
    Info(lvl, CheckingSize) + Info(lvl, FileSize(|s|)) + Info(lvl, SendingChunked)
    + (Info(lvl, Splitting) + Info(lvl, TotalSize(|s|)))
  }

  /** On the chunked path handleSave's trace is console lines, the loop, and the success toast. */
  lemma ChunkedTrace(lvl: int, s: string, rs: seq<Response>)
    requires |s| > ChunkSize && EnoughResponses(Some(s), rs)
    ensures Save(lvl, Some(s), rs).status == Success
    ensures Save(lvl, Some(s), rs).trace
            == ChunkedOpening(lvl, s) + ChunkLoop(lvl, s, ChunkSize, 0, 0, JsNull, rs) + [Notify(SavedToast())]
    ensures Calls(ChunkedOpening(lvl, s)) == [] && Toasts(ChunkedOpening(lvl, s)) == []
  {
    var checking := Info(lvl, CheckingSize);
    var p1 := checking + Info(lvl, FileSize(|s|));
    var p2 := p1 + Info(lvl, SendingChunked);
    var q1 := Info(lvl, Splitting) + Info(lvl, TotalSize(|s|));
    var loop := ChunkLoop(lvl, s, ChunkSize, 0, 0, JsNull, rs);
    var tail := [Notify(SavedToast())];
    AppendAssoc(p2, q1 + loop, tail);
    AppendAssoc(p2, q1, loop);
    LoggedQuiet(lvl, InfoLevel, CheckingSize, []);
    QuietInfo(checking, lvl, FileSize(|s|));
    QuietInfo(p1, lvl, SendingChunked);
    LoggedQuiet(lvl, InfoLevel, Splitting, []);
    QuietInfo(Info(lvl, Splitting), lvl, TotalSize(|s|));
    QuietAppend(p2, q1);
  }

  /** Data over CHUNK_SIZE goes in chunks: at least two of them; one savePdfChunk per chunk,
      in order, up to and including the first rejected one, the flag set exactly on the
      final chunk and the document id threaded through the answers from null; at most one
      error toast, naming the first rejected chunk; and, whatever happened, the success toast
      last and status success. */
  lemma SaveChunked(lvl: int, s: string, rs: seq<Response>)
    requires |s| > ChunkSize && EnoughResponses(Some(s), rs)
    ensures NumChunks(|s|, ChunkSize) >= 2
    ensures |Chunks(s, ChunkSize)| == NumChunks(|s|, ChunkSize)
    ensures CallsAsExpected(Calls(Save(lvl, Some(s), rs).trace), Chunks(s, ChunkSize), JsNull, rs, 0, NumChunks(|s|, ChunkSize))
    ensures |Toasts(Save(lvl, Some(s), rs).trace)| >= 1
    ensures Toasts(Save(lvl, Some(s), rs).trace)[|Toasts(Save(lvl, Some(s), rs).trace)| - 1] == SavedToast()
    ensures ToastsAsExpected(Toasts(Save(lvl, Some(s), rs).trace)[..|Toasts(Save(lvl, Some(s), rs).trace)| - 1],
                             rs, 0, NumChunks(|s|, ChunkSize))
    ensures Save(lvl, Some(s), rs).status == Success
  {
    var n := NumChunks(|s|, ChunkSize);
    ChunkCount(|s|, ChunkSize);
    ChunkedTrace(lvl, s, rs);
    var opening := ChunkedOpening(lvl, s);
    var loop := ChunkLoop(lvl, s, ChunkSize, 0, 0, JsNull, rs);
    var tail := [Notify(SavedToast())];
    QuietAppend(opening, loop);
    CallsAppend(opening + loop, tail);
    ToastsAppend(opening + loop, tail);
    CallsSingleton(tail[0]);
    LoopCalls(lvl, s, ChunkSize, 0, 0, JsNull, rs, n);
    LoopToasts(lvl, s, ChunkSize, 0, 0, JsNull, rs, n);
    assert s[0..] == s;
    var ts := Toasts(Save(lvl, Some(s), rs).trace);
    assert ts == Toasts(loop) + [SavedToast()];
    assert ts[..|ts| - 1] == Toasts(loop);
  }

  /** A rejected chunk stops the upload, yet the user is still told it succeeded: with chunks
      1..f accepted and chunk f + 1 rejected, exactly f + 1 chunks are sent, the toasts are the
      error naming chunk f + 1 followed by the success toast, and the status ends as success. */
  lemma ChunkFailureStillReportsSuccess(lvl: int, s: string, rs: seq<Response>, f: nat)
    requires |s| > ChunkSize && EnoughResponses(Some(s), rs)
    requires f < NumChunks(|s|, ChunkSize) && rs[f].Err?
    requires forall k :: 0 <= k < f ==> rs[k].Ok?
    ensures |Calls(Save(lvl, Some(s), rs).trace)| == f + 1
    ensures Toasts(Save(lvl, Some(s), rs).trace) == [ChunkErrorToast(f + 1, rs[f].detail), SavedToast()]
    ensures Save(lvl, Some(s), rs).status == Success
  {
    SaveChunked(lvl, s, rs);
    SentAtFailure(rs, NumChunks(|s|, ChunkSize), f);
    var ts := Toasts(Save(lvl, Some(s), rs).trace);
    assert ts == ts[..|ts| - 1] + [ts[|ts| - 1]];
  }

  /** When every chunk is accepted, all of them are sent, the last one flagged as last,
      and the only toast is the success toast. */
  lemma SaveAllAccepted(lvl: int, s: string, rs: seq<Response>)
    requires |s| > ChunkSize && EnoughResponses(Some(s), rs)
    requires forall k :: 0 <= k < NumChunks(|s|, ChunkSize) ==> rs[k].Ok?
    ensures |Calls(Save(lvl, Some(s), rs).trace)| == NumChunks(|s|, ChunkSize)
    ensures Calls(Save(lvl, Some(s), rs).trace)[NumChunks(|s|, ChunkSize) - 1].SavePdfChunk?
            && Calls(Save(lvl, Some(s), rs).trace)[NumChunks(|s|, ChunkSize) - 1].isLastChunk
    ensures Toasts(Save(lvl, Some(s), rs).trace) == [SavedToast()]
    ensures Save(lvl, Some(s), rs).status == Success
  {
    SaveChunked(lvl, s, rs);
    SentAllAccepted(rs, NumChunks(|s|, ChunkSize));
    var ts := Toasts(Save(lvl, Some(s), rs).trace);
    assert ts == ts[..|ts| - 1] + [ts[|ts| - 1]];
  }

  /** The first chunk is sent without a document id. */
  lemma FirstChunkWithoutId(lvl: int, s: string, rs: seq<Response>)
    requires |s| > ChunkSize && EnoughResponses(Some(s), rs)
    ensures |Calls(Save(lvl, Some(s), rs).trace)| >= 1
    ensures Calls(Save(lvl, Some(s), rs).trace)[0] == SavePdfChunk(Substring(s, 0, ChunkSize), false, JsNull)
  {
    var n := NumChunks(|s|, ChunkSize);
    SaveChunked(lvl, s, rs);
    SentBound(rs, n);
    ChunkIsSubstring(s, ChunkSize, 0);
  }

  /** Every chunk after the first truthy answer (at position k) carries that answer as its id. */
  lemma LaterChunksCarryId(lvl: int, s: string, rs: seq<Response>, k: nat, j: nat)
    requires |s| > ChunkSize && EnoughResponses(Some(s), rs)
    requires k < j < NumChunks(|s|, ChunkSize) && j < |Calls(Save(lvl, Some(s), rs).trace)|
    requires rs[k].Ok? && Truthy(rs[k].value)
    requires forall m :: 0 <= m < k ==> !(rs[m].Ok? && Truthy(rs[m].value))
    ensures Calls(Save(lvl, Some(s), rs).trace)[j].SavePdfChunk?
            && Calls(Save(lvl, Some(s), rs).trace)[j].contentDocumentId == rs[k].value
  {
    var n := NumChunks(|s|, ChunkSize);
    SaveChunked(lvl, s, rs);
    SentBound(rs, n);
    DocIdCaptured(JsNull, rs, 0, k, j);
  }

  /** The calls on the chunked path are determined by the chunks and the answers. */
  lemma CallsDetermined(a: seq<ApexCall>, b: seq<ApexCall>, cs: seq<string>, docId: JsValue, rs: seq<Response>, index: nat, end: nat)
    requires index <= end <= |rs| && |cs| == end - index
    requires CallsAsExpected(a, cs, docId, rs, index, end) && CallsAsExpected(b, cs, docId, rs, index, end)
    ensures a == b
  {
  }

  /** So are the toasts. */
  lemma ToastsDetermined(a: seq<Toast<Message>>, b: seq<Toast<Message>>, rs: seq<Response>, index: nat, end: nat)
    requires index <= end <= |rs|
    requires ToastsAsExpected(a, rs, index, end) && ToastsAsExpected(b, rs, index, end)
    ensures a == b
  {
  }

  /** The debug level changes only the console lines: handleSave makes the same calls, shows
      the same toasts and leaves the same status at every level. */
  lemma SaveIgnoresDebugLevel(lvl1: int, lvl2: int, detail: Option<string>, rs: seq<Response>)
    requires EnoughResponses(detail, rs)
    ensures Calls(Save(lvl1, detail, rs).trace) == Calls(Save(lvl2, detail, rs).trace)
    ensures Toasts(Save(lvl1, detail, rs).trace) == Toasts(Save(lvl2, detail, rs).trace)
    ensures Save(lvl1, detail, rs).status == Save(lvl2, detail, rs).status
  {
    if detail.None? || detail.value == "" {
      SaveEmpty(lvl1, detail, rs);
      SaveEmpty(lvl2, detail, rs);
    } else if |detail.value| <= ChunkSize {
      SaveSingle(lvl1, detail.value, rs);
      SaveSingle(lvl2, detail.value, rs);
    } else {
      var s := detail.value;
      var n := NumChunks(|s|, ChunkSize);
      SaveChunked(lvl1, s, rs);
      SaveChunked(lvl2, s, rs);
      CallsDetermined(Calls(Save(lvl1, detail, rs).trace), Calls(Save(lvl2, detail, rs).trace),
                      Chunks(s, ChunkSize), JsNull, rs, 0, n);
      var t1 := Toasts(Save(lvl1, detail, rs).trace);
      var t2 := Toasts(Save(lvl2, detail, rs).trace);
      ToastsDetermined(t1[..|t1| - 1], t2[..|t2| - 1], rs, 0, n);
      assert t1 == t1[..|t1| - 1] + [t1[|t1| - 1]];
      assert t2 == t2[..|t2| - 1] + [t2[|t2| - 1]];
    }
  }

  /** Data one character over CHUNK_SIZE is cut into a full chunk and a one-character chunk. */
  lemma JustOverChunkSize(s: string)
    requires |s| == ChunkSize + 1
    ensures NumChunks(|s|, ChunkSize) == 2 && |Chunks(s, ChunkSize)| == 2
    ensures |Chunks(s, ChunkSize)[0]| == ChunkSize && |Chunks(s, ChunkSize)[1]| == 1
  {
    ChunksShape(s, ChunkSize);
    ChunkCount(|s|, ChunkSize);
    assert 2 * ChunkSize >= |s|;
  }

  /** Data one character over CHUNK_SIZE, both chunks accepted: two calls, the full chunk
      without an id and then the one-character chunk, flagged last, with the id the first
      answer returned; only the success toast. */
  lemma JustOverChunkSizeSaved(lvl: int, s: string, rs: seq<Response>)
    requires |s| == ChunkSize + 1 && |rs| >= 2 && rs[0].Ok? && rs[1].Ok?
    ensures EnoughResponses(Some(s), rs)
    ensures Calls(Save(lvl, Some(s), rs).trace)
            == [SavePdfChunk(s[..ChunkSize], false, JsNull), SavePdfChunk(s[ChunkSize..], true, rs[0].value)]
    ensures Toasts(Save(lvl, Some(s), rs).trace) == [SavedToast()]
    ensures Save(lvl, Some(s), rs).status == Success
  {
    JustOverChunkSize(s);
    SaveAllAccepted(lvl, s, rs);
    SaveChunked(lvl, s, rs);
    ChunkIsSubstring(s, ChunkSize, 0);
    ChunkIsSubstring(s, ChunkSize, 1);
    assert Substring(s, 0, ChunkSize) == s[..ChunkSize];
    assert Substring(s, ChunkSize, 2 * ChunkSize) == s[ChunkSize..];
    assert DocIdAfter(JsNull, rs, 0, 1) == rs[0].value;
  }

  /** Nine MiB with the second chunk rejected: two calls, the third chunk is never sent, the
      error toast names chunk 2, and the success toast and status follow all the same. */
  lemma NineMiBSecondChunkRejected(lvl: int, s: string, rs: seq<Response>)
    requires |s| == 3 * ChunkSize && |rs| >= 3 && rs[0].Ok? && rs[1].Err?
    ensures EnoughResponses(Some(s), rs)
    ensures |Calls(Save(lvl, Some(s), rs).trace)| == 2
    ensures Toasts(Save(lvl, Some(s), rs).trace) == [ChunkErrorToast(2, rs[1].detail), SavedToast()]
    ensures Save(lvl, Some(s), rs).status == Success
  {
    ChunkCount(|s|, ChunkSize);
    assert NumChunks(|s|, ChunkSize) == 3;
    ChunkFailureStillReportsSuccess(lvl, s, rs, 1);
  }
}
