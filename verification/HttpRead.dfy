/** The incremental HTTP reader of src/probe.rs: parsing what has been read, deciding when to stop,
    classifying the outcome. Bytes are characters; the status-line parser is a parameter `parse`
    applied to the header slice, so every statement holds for any such parser. */
module HttpRead {
  import opened Types
  import opened Text

  type StatusParser = string -> Option<nat>

  datatype HttpResponseRead = HttpResponseRead(
    status: Option<nat>, headerBytes: nat, bodyBytes: nat, totalBytes: nat, headersComplete: bool)

  datatype RequestSpec = RequestSpec(
    method_: HttpMethod, readMode: ReadMode, minBodyBytes: nat, maxReadBytes: nat)

  const BLANK_LINE := "\r\n\r\n"

  predicate BlankLineAt(s: string, k: nat) {
    k + 4 <= |s| && s[k..k + 4] == BLANK_LINE
  }

  /** `windows(4).position(..)`: where the first blank line at or after `i` starts. */
  function FindBlankLine(s: string, i: nat): (r: Option<nat>)
    ensures r.Some? ==> i <= r.value && BlankLineAt(s, r.value)
    ensures forall k | i <= k && (r.Some? ==> k < r.value) :: !BlankLineAt(s, k)
    decreases |s| - i
  {
    if i + 4 > |s| then None
    else if BlankLineAt(s, i) then Some(i)
    else FindBlankLine(s, i + 1)
  }

  function ParseResponse(parse: StatusParser, bytes: string): HttpResponseRead {
    match FindBlankLine(bytes, 0)
    case None => HttpResponseRead(None, 0, 0, |bytes|, false)
    case Some(idx) =>
      HttpResponseRead(parse(bytes[..idx + 4]), idx + 4, |bytes| - (idx + 4), |bytes|, true)
  }

  predicate StatusIsSuccess(status: Option<nat>) { status.Some? && 200 <= status.value < 400 }

  predicate IsBlockStatus(status: nat) { status == 403 || status == 451 }

  datatype Verdict = Verdict(outcome: ProbeOutcome, errorClass: Option<ProbeErrorClass>, message: Option<string>)

  function Classify(read: HttpResponseRead, req: RequestSpec): Verdict {
    if !read.headersComplete then
      Verdict(EmptyResponse, Some(InvalidHttpResponse), Some("HTTP response headers incomplete"))
    else if read.status.None? then
      Verdict(EmptyResponse, Some(InvalidHttpResponse), Some("invalid HTTP response status"))
    else if IsBlockStatus(read.status.value) then
      Verdict(HttpBlockPage, Some(InvalidHttpResponse), Some("HTTP block page/status"))
    else if !StatusIsSuccess(read.status) then
      Verdict(EmptyResponse, Some(InvalidHttpResponse),
              Some("HTTP status " + RenderNat(read.status.value) + " not in 2xx/3xx"))
    else if req.method_.Head? || req.readMode.Headers? then Verdict(Success, None, None)
    else if read.bodyBytes >= req.minBodyBytes then Verdict(Success, None, None)
    else
      Verdict(ProbeOutcome.BodyTooSmall, Some(ProbeErrorClass.BodyTooSmall),
              Some("HTTP body too small: got " + RenderNat(read.bodyBytes) + " bytes, need "
                   + RenderNat(req.minBodyBytes)))
  }

  predicate CriteriaMet(read: HttpResponseRead, req: RequestSpec) {
    && read.headersComplete
    && (|| req.method_.Head? || req.readMode.Headers?
        || (read.status.Some? && IsBlockStatus(read.status.value))
        || (read.status.Some? && !StatusIsSuccess(read.status))
        || (req.readMode.Body? && read.bodyBytes >= req.minBodyBytes))
  }

  predicate TimeoutCanSucceed(read: HttpResponseRead, req: RequestSpec) {
    || CriteriaMet(read, req)
    || (&& req.readMode.Full? && read.headersComplete && StatusIsSuccess(read.status)
        && read.bodyBytes >= req.minBodyBytes)
  }

  // What extending the buffer can and cannot change

  lemma {:induction false} FindStable(p: string, q: string, i: nat)
    requires p <= q && FindBlankLine(p, i).Some?
    ensures FindBlankLine(q, i) == FindBlankLine(p, i)
    decreases |p| - i
  {
    assert q[i..i + 4] == p[i..i + 4];
    if !BlankLineAt(p, i) {
      FindStable(p, q, i + 1);
    }
  }

  /** Once the headers are complete, header length and status are fixed and the body only grows. */
  lemma HeadersAreFinal(parse: StatusParser, p: string, q: string)
    requires p <= q
    ensures var a, b := ParseResponse(parse, p), ParseResponse(parse, q);
            && a.totalBytes <= b.totalBytes && a.bodyBytes <= b.bodyBytes
            && (a.headersComplete ==>
                  && b.headersComplete && b.headerBytes == a.headerBytes && b.status == a.status
                  && b.bodyBytes - a.bodyBytes == |q| - |p|)
  {
    if FindBlankLine(p, 0).Some? {
      FindStable(p, q, 0);
      var end := FindBlankLine(p, 0).value + 4;
      assert p[..end] == q[..end];
    }
  }

  /** Stopping early is sound: once the criterion holds, no further byte changes the verdict. */
  lemma EarlyStopIsFinal(parse: StatusParser, req: RequestSpec, p: string, q: string)
    requires p <= q && CriteriaMet(ParseResponse(parse, p), req)
    ensures Classify(ParseResponse(parse, q), req) == Classify(ParseResponse(parse, p), req)
    ensures ParseResponse(parse, q).status == ParseResponse(parse, p).status
    ensures CriteriaMet(ParseResponse(parse, q), req)
  {
    HeadersAreFinal(parse, p, q);
  }

  /** A read cut short by time may count as success exactly when what was read classifies so. */
  lemma TimeoutVerdict(read: HttpResponseRead, req: RequestSpec)
    requires !CriteriaMet(read, req)
    ensures TimeoutCanSucceed(read, req) <==> Classify(read, req).outcome.Success?
  {
  }

  // Transfer levels

  datatype TransferLevel = NoTransfer | Connected | TlsHandshake | HeadersRead | BodyRead | Verified {
    function Rank(): nat {
      match this
      case NoTransfer => 0 case Connected => 1 case TlsHandshake => 2
      case HeadersRead => 3 case BodyRead => 4 case Verified => 5
    }
  }

  function ComputeTransferLevel(
    connected: bool, tlsDone: bool, read: HttpResponseRead, verifyBytes: nat, usesTls: bool): TransferLevel
  {
    if !connected then NoTransfer
    else if read.bodyBytes >= verifyBytes then Verified
    else if read.bodyBytes > 0 then BodyRead
    else if read.headersComplete then HeadersRead
    else if usesTls && tlsDone then TlsHandshake
    else Connected
  }

  /** What each transfer level stands for. */
  lemma TransferLevelMeans(connected: bool, tlsDone: bool, read: HttpResponseRead, verifyBytes: nat, usesTls: bool)
    ensures var level := ComputeTransferLevel(connected, tlsDone, read, verifyBytes, usesTls);
            && (level.NoTransfer? <==> !connected)
            && (level.Verified? <==> connected && read.bodyBytes >= verifyBytes)
            && (level.BodyRead? <==> connected && 0 < read.bodyBytes < verifyBytes)
            && (level.HeadersRead? <==> connected && read.bodyBytes == 0 < verifyBytes && read.headersComplete)
            && (level.TlsHandshake? <==>
                  connected && read.bodyBytes == 0 < verifyBytes && !read.headersComplete && usesTls && tlsDone)
  {
  }

  /** Reading on never lowers the transfer level. */
  lemma TransferLevelMonotone(
    parse: StatusParser, p: string, q: string, connected: bool, tlsDone: bool, verifyBytes: nat, usesTls: bool)
    requires p <= q
    ensures ComputeTransferLevel(connected, tlsDone, ParseResponse(parse, p), verifyBytes, usesTls).Rank()
         <= ComputeTransferLevel(connected, tlsDone, ParseResponse(parse, q), verifyBytes, usesTls).Rank()
  {
    HeadersAreFinal(parse, p, q);
  }

  // The read loop

  /** What the environment does at one read: deliver some bytes, fail, time out, or be cancelled. */
  datatype Event = Deliver(n: nat) | ReadFails(message: string) | TimesOut | IsCancelled

  /** Why reading ended. `Criterion` includes a full buffer. */
  datatype ReadEnd = WriteFailed | FirstReadFailed | Criterion | EndOfStream | TimedOut | Failed | WasCancelled

  const CHUNK: nat := 4096

  function Max(a: nat, b: nat): nat { if a < b then b else a }

  /** `max_read_bytes.max(1)`. */
  function Limit(req: RequestSpec): nat { Max(req.maxReadBytes, 1) }

  /** Bytes a read of at most `room` returns: none only at the end of the stream. */
  function Delivered(n: nat, room: nat, left: nat): nat {
    Min(Max(n, 1), Min(room, left))
  }

  ghost predicate Clean(script: seq<Event>) {
    forall i | 0 <= i < |script| :: script[i].Deliver?
  }

  /** The whole-stream reference: read up to the limit, then classify. */
  function Reference(parse: StatusParser, req: RequestSpec, data: string): HttpResponseRead {
    ParseResponse(parse, data[..Min(|data|, Limit(req))])
  }

  /** The first `max(1, max_read_bytes)` bytes of a stream. */
  function FirstBytes(req: RequestSpec, data: string): string {
    data[..Min(|data|, Limit(req))]
  }

  // What the bytes deserve, without the parser of responses and the classifier

  /** The head of `bytes` ends with the blank line at `k`, the first one. */
  ghost predicate HeadEnds(bytes: string, k: nat) {
    && EmptyLineAt(bytes, k)
    && forall j: nat | j < k :: !EmptyLineAt(bytes, j)
  }

  /** Carriage return and line feed, twice. */
  predicate EmptyLineAt(bytes: string, k: nat) {
    && k + 4 <= |bytes|
    && bytes[k] == '\r' && bytes[k + 1] == '\n' && bytes[k + 2] == '\r' && bytes[k + 3] == '\n'
  }

  predicate WithoutBody(req: RequestSpec) {
    req.method_ == Head || req.readMode == Headers
  }

  /** The verdict that a head with this status and this many body bytes deserves. */
  predicate Fits(req: RequestSpec, status: Option<nat>, body: nat, v: Verdict) {
    var accepted := status.Some? && status.value >= 200 && status.value <= 399;
    var blocked := status == Some(403) || status == Some(451);
    && (v.outcome.HttpBlockPage? <==> blocked)
    && (v.outcome.EmptyResponse? <==> !accepted && !blocked)
    && (v.outcome == ProbeOutcome.BodyTooSmall <==> accepted && !WithoutBody(req) && body < req.minBodyBytes)
    && (v.outcome.Success? <==> accepted && (WithoutBody(req) || body >= req.minBodyBytes))
    && (v.errorClass == if v.outcome.Success? then None
                        else if v.outcome == ProbeOutcome.BodyTooSmall then Some(ProbeErrorClass.BodyTooSmall)
                        else Some(InvalidHttpResponse))
    && (v.message.None? <==> v.outcome.Success?)
  }

  /** The verdict that `bytes` deserve when nothing more is read. */
  ghost predicate Deserves(parse: StatusParser, req: RequestSpec, bytes: string, v: Verdict) {
    && (forall k: nat | HeadEnds(bytes, k) :: Fits(req, parse(bytes[..k + 4]), |bytes| - (k + 4), v))
    && ((forall k: nat :: !EmptyLineAt(bytes, k)) ==> Fits(req, None, 0, v))
  }

  /** What the headers and the body so far settle: reading on can change nothing. */
  ghost predicate Settled(parse: StatusParser, req: RequestSpec, bytes: string) {
    exists k: nat ::
      && HeadEnds(bytes, k)
      && var status := parse(bytes[..k + 4]);
         || WithoutBody(req)
         || (status.Some? && (status.value < 200 || status.value > 399))
         || (req.readMode == Body && |bytes| - (k + 4) >= req.minBodyBytes)
  }

  lemma EmptyLineIsBlank(s: string, k: nat)
    ensures EmptyLineAt(s, k) <==> BlankLineAt(s, k)
  {
    if k + 4 <= |s| {
      assert s[k..k + 4] == [s[k], s[k + 1], s[k + 2], s[k + 3]];
    }
  }

  /** Where the head ends, and that it does not. */
  lemma FoundIsHeadEnd(bytes: string)
    ensures forall k: nat :: HeadEnds(bytes, k) <==> FindBlankLine(bytes, 0) == Some(k)
    ensures (forall k: nat :: !EmptyLineAt(bytes, k)) <==> FindBlankLine(bytes, 0).None?
  {
    forall k: nat ensures EmptyLineAt(bytes, k) <==> BlankLineAt(bytes, k) {
      EmptyLineIsBlank(bytes, k);
    }
    var found := FindBlankLine(bytes, 0);
    if found.Some? {
      assert EmptyLineAt(bytes, found.value);
      assert HeadEnds(bytes, found.value);
    }
  }

  /** What a parse says of the bytes: the first blank line splits them into head and body. */
  lemma ParseMeans(parse: StatusParser, bytes: string)
    ensures forall k: nat | HeadEnds(bytes, k) ::
              ParseResponse(parse, bytes)
              == HttpResponseRead(parse(bytes[..k + 4]), k + 4, |bytes| - (k + 4), |bytes|, true)
    ensures (forall k: nat :: !EmptyLineAt(bytes, k)) ==>
              ParseResponse(parse, bytes) == HttpResponseRead(None, 0, 0, |bytes|, false)
  {
    FoundIsHeadEnd(bytes);
  }

  /** Classifying the parse of some bytes gives the verdict they deserve. */
  lemma ClassifyDeserves(parse: StatusParser, req: RequestSpec, bytes: string)
    ensures Deserves(parse, req, bytes, Classify(ParseResponse(parse, bytes), req))
  {
    ParseMeans(parse, bytes);
  }

  /** The stop criterion is met exactly when the bytes settle the verdict. */
  lemma CriteriaMeanSettled(parse: StatusParser, req: RequestSpec, bytes: string)
    ensures CriteriaMet(ParseResponse(parse, bytes), req) <==> Settled(parse, req, bytes)
  {
    ParseMeans(parse, bytes);
    FoundIsHeadEnd(bytes);
    var found := FindBlankLine(bytes, 0);
    if found.Some? {
      assert HeadEnds(bytes, found.value);
    }
  }

  /** What a run of the reader reports, in terms of the bytes it has read. */
  ghost predicate Reports(
    parse: StatusParser, req: RequestSpec, kind: FailureKind, data: string,
    verdict: Verdict, failureKind: Option<FailureKind>, read: HttpResponseRead, end: ReadEnd)
  {
    && read.totalBytes <= |data| && read.totalBytes <= (if req.maxReadBytes > 1 then req.maxReadBytes else 1)
    && read == ParseResponse(parse, data[..read.totalBytes])
    && var bytes := data[..read.totalBytes];
    && (failureKind == if verdict.outcome.Success? then None
                       else if end.WasCancelled? then Some(FailureKind.Cancelled) else Some(kind))
    && match end
       // The verdict is settled, or there is no room for more.
       case Criterion =>
         && Deserves(parse, req, bytes, verdict)
         && (Settled(parse, req, bytes) || |bytes| == if req.maxReadBytes > 1 then req.maxReadBytes else 1)
       case EndOfStream => |bytes| == |data| && Deserves(parse, req, bytes, verdict) && !Settled(parse, req, bytes)
       // Success exactly when what was read deserves it, and no waiting for what is settled.
       case TimedOut =>
         && !Settled(parse, req, bytes)
         && (verdict.outcome.Success? || verdict.outcome.Timeout?)
         && (verdict.outcome.Success? ==> Deserves(parse, req, bytes, verdict))
         && (verdict.outcome.Timeout? ==>
               && verdict.errorClass == Some(ReadTimeout) && verdict.message.Some?
               && !Deserves(parse, req, bytes, Verdict(Success, None, None)))
       case Failed =>
         !Settled(parse, req, bytes) && verdict.outcome.TcpReset? && verdict.errorClass == Some(ReadFailed)
       case WasCancelled =>
         verdict.outcome == ProbeOutcome.Cancelled && verdict.errorClass == Some(ProbeErrorClass.Cancelled)
       case FirstReadFailed =>
         && read.totalBytes == 0
         && verdict.outcome in {EmptyResponse, TcpReset, Timeout}
         && verdict.errorClass == Some(if verdict.outcome.Timeout? then FirstByteTimeout else ReadFailed)
       case WriteFailed =>
         read.totalBytes == 0 && verdict.outcome.EmptyResponse? && verdict.errorClass == Some(ReadFailed)
  }

  /** Bytes deserve one outcome. */
  lemma DeservedIsUnique(parse: StatusParser, req: RequestSpec, bytes: string, v: Verdict, w: Verdict)
    requires Deserves(parse, req, bytes, v) && Deserves(parse, req, bytes, w)
    ensures v.outcome == w.outcome && v.errorClass == w.errorClass
  {
    FoundIsHeadEnd(bytes);
    var found := FindBlankLine(bytes, 0);
    if found.Some? {
      assert HeadEnds(bytes, found.value);
    }
  }

  lemma TimeoutReports(parse: StatusParser, req: RequestSpec, kind: FailureKind, data: string, buf: string)
    requires |buf| <= |data| && buf == data[..|buf|] && |buf| <= Limit(req)
    requires !TimeoutCanSucceed(ParseResponse(parse, buf), req)
    ensures Reports(parse, req, kind, data, Verdict(Timeout, Some(ReadTimeout), Some("read timeout")), Some(kind),
                    ParseResponse(parse, buf), TimedOut)
  {
    CriteriaMeanSettled(parse, req, buf);
    ClassifyDeserves(parse, req, buf);
    TimeoutVerdict(ParseResponse(parse, buf), req);
    if Deserves(parse, req, buf, Verdict(Success, None, None)) {
      DeservedIsUnique(parse, req, buf, Verdict(Success, None, None), Classify(ParseResponse(parse, buf), req));
    }
  }

  /** The loop has ended for the reason `end`. */
  predicate Ended(parse: StatusParser, req: RequestSpec, data: string, buf: string, end: ReadEnd) {
    var read := ParseResponse(parse, buf);
    match end
    case Criterion => CriteriaMet(read, req) || |buf| == Limit(req)
    case EndOfStream => !CriteriaMet(read, req) && |buf| == |data|
    case TimedOut => !CriteriaMet(read, req) && TimeoutCanSucceed(read, req)
    case _ => false
  }

  lemma FinishedReports(
    parse: StatusParser, req: RequestSpec, kind: FailureKind, data: string, buf: string, end: ReadEnd)
    requires |buf| <= |data| && buf == data[..|buf|] && |buf| <= Limit(req) && Ended(parse, req, data, buf, end)
    ensures var read := ParseResponse(parse, buf); var verdict := Classify(read, req);
            Reports(parse, req, kind, data, verdict, if verdict.outcome.Success? then None else Some(kind), read, end)
  {
    CriteriaMeanSettled(parse, req, buf);
    ClassifyDeserves(parse, req, buf);
    TimelySuccess(ParseResponse(parse, buf), req);
  }

  /** A timeout that may succeed does. */
  lemma TimelySuccess(read: HttpResponseRead, req: RequestSpec)
    ensures TimeoutCanSucceed(read, req) && !CriteriaMet(read, req) ==> Classify(read, req).outcome.Success?
  {
  }

  method HttpOverStream(
    parse: StatusParser, req: RequestSpec, baseline: bool, writeError: Option<string>,
    data: string, script: seq<Event>)
    returns (verdict: Verdict, failureKind: Option<FailureKind>, read: HttpResponseRead, end: ReadEnd)
    // Chunking independence: on a clean stream the script, that is how reads are split, is irrelevant.
    ensures writeError.None? && Clean(script) && data != "" ==>
              && verdict == Classify(Reference(parse, req, data), req)
              && read.status == Reference(parse, req, data).status
              && Deserves(parse, req, FirstBytes(req, data), verdict)
    ensures writeError.None? && Clean(script) && data == "" ==>
              verdict == Verdict(EmptyResponse, Some(ReadFailed), Some("empty response"))
    // Every stream: what was read is a bounded prefix, and it decides what is reported.
    ensures Reports(parse, req, if baseline then TargetFailure else StrategyFailure, data, verdict, failureKind, read, end)
    ensures end.TimedOut? ==>
              verdict.outcome == if Classify(read, req).outcome.Success? then Success else Timeout
    ensures end.WriteFailed? <==> writeError.Some?
    ensures writeError.None? && script != [] && script[0].TimesOut? ==> end.FirstReadFailed? && verdict.outcome.Timeout?
    ensures writeError.None? && script != [] && script[0].ReadFails? ==> end.FirstReadFailed? && verdict.outcome.TcpReset?
    ensures writeError.None? && script != [] && script[0].IsCancelled? ==> end.WasCancelled?
  {
    var kind := if baseline then TargetFailure else StrategyFailure;
    read := ParseResponse(parse, "");
    if writeError.Some? {
      return Verdict(EmptyResponse, Some(ReadFailed), writeError), Some(kind), read, WriteFailed;
    }
    match (if |script| > 0 then script[0] else Deliver(CHUNK)) {
      case ReadFails(message) =>
        return Verdict(TcpReset, Some(ReadFailed), Some(message)), Some(kind), read, FirstReadFailed;
      case TimesOut =>
        return Verdict(Timeout, Some(FirstByteTimeout), Some("first byte timeout")), Some(kind), read, FirstReadFailed;
      case IsCancelled =>
        return CancelledVerdict(), Some(FailureKind.Cancelled), read, WasCancelled;
      case Deliver(k) =>
        if data == "" {
          return Verdict(EmptyResponse, Some(ReadFailed), Some("empty response")), Some(kind), read, FirstReadFailed;
        }
        var n := Delivered(k, CHUNK, |data|);
        var buf := data[..Min(n, Limit(req))];
        verdict, failureKind, read, end := ReadOn(parse, req, kind, data, script, buf);
    }
  }

  /** However the loop ends on a clean stream, the verdict is that of the whole-stream reference. */
  lemma StopIsFinal(parse: StatusParser, req: RequestSpec, data: string, buf: string)
    requires |buf| <= |data| && buf == data[..|buf|] && |buf| <= Limit(req)
    requires CriteriaMet(ParseResponse(parse, buf), req) || |buf| == Limit(req) || |buf| == |data|
    ensures Classify(ParseResponse(parse, buf), req) == Classify(Reference(parse, req, data), req)
    ensures ParseResponse(parse, buf).status == Reference(parse, req, data).status
  {
    var whole := data[..Min(|data|, Limit(req))];
    if CriteriaMet(ParseResponse(parse, buf), req) {
      assert buf == whole[..|buf|];
      EarlyStopIsFinal(parse, req, buf, whole);
    } else {
      assert buf == whole;
    }
  }

  function CancelledVerdict(): Verdict {
    Verdict(ProbeOutcome.Cancelled, Some(ProbeErrorClass.Cancelled), Some("cancelled"))
  }

  /** The loop of `http_over_stream` after the first successful read. */
  method ReadOn(
    parse: StatusParser, req: RequestSpec, kind: FailureKind, data: string, script: seq<Event>, first: string)
    returns (verdict: Verdict, failureKind: Option<FailureKind>, read: HttpResponseRead, end: ReadEnd)
    requires first <= data && first != "" && |first| <= Limit(req)
    ensures Clean(script) ==>
              && verdict == Classify(Reference(parse, req, data), req)
              && read.status == Reference(parse, req, data).status
              && Deserves(parse, req, FirstBytes(req, data), verdict)
    ensures Reports(parse, req, kind, data, verdict, failureKind, read, end)
    ensures end in {Criterion, EndOfStream, TimedOut, Failed, WasCancelled}
    ensures end.TimedOut? ==>
              verdict.outcome == if Classify(read, req).outcome.Success? then Success else Timeout
  {
    var buf := first;
    read := ParseResponse(parse, buf);
    end := Criterion;
    var i := 1;
    while !CriteriaMet(read, req) && |buf| < Limit(req)
      invariant |buf| <= |data| && buf == data[..|buf|] && |buf| <= Limit(req)
      invariant read == ParseResponse(parse, buf) && end == Criterion
      decreases Limit(req) - |buf|
    {
      CriteriaMeanSettled(parse, req, buf);
      match (if i < |script| then script[i] else Deliver(CHUNK)) {
        case IsCancelled =>
          read := ParseResponse(parse, "");
          return CancelledVerdict(), Some(FailureKind.Cancelled), read, WasCancelled;
        case TimesOut =>
          end := TimedOut;
          TimeoutVerdict(read, req);
          if TimeoutCanSucceed(read, req) {
            break;
          }
          TimeoutReports(parse, req, kind, data, buf);
          return Verdict(Timeout, Some(ReadTimeout), Some("read timeout")), Some(kind), read, end;
        case ReadFails(message) =>
          return Verdict(TcpReset, Some(ReadFailed), Some(message)), Some(kind), read, Failed;
        case Deliver(k) =>
          var n := Delivered(k, Min(Limit(req) - |buf|, CHUNK), |data| - |buf|);
          if n == 0 {
            end := EndOfStream;
            break;
          }
          buf := buf + data[|buf|..|buf| + n];
          read := ParseResponse(parse, buf);
      }
      i := i + 1;
    }
    verdict := Classify(read, req);
    FinishedReports(parse, req, kind, data, buf, end);
    ClassifyDeserves(parse, req, FirstBytes(req, data));
    failureKind := if verdict.outcome.Success? then None else Some(kind);
    if !end.TimedOut? {
      StopIsFinal(parse, req, data, buf);
    }
  }
}
