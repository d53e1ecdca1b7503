/**
 * sap.ui.export.SpreadsheetExport.execute: picks one of three strategies
 * (direct from an array, in process through a data provider, or in a web
 * worker with a direct-worker, blob-worker, in-process fallback chain) and
 * reports progress, errors and the finished spreadsheet through one callback.
 *
 * Asynchrony is replaced by a sequence of events, one method each: the
 * libraries being loaded, a worker being constructed or not, messages and
 * error events from a worker or the data provider, and builds resolving.
 */
module SpreadsheetExport {
  import opened JsCore

  /** An ArrayBuffer produced by the spreadsheet builder, by identity only. */
  datatype Spreadsheet = Spreadsheet(id: nat)

  datatype Message =
    | Progress(fetched: JsValue, total: JsValue)   // {progress: true, fetched, total}
    | ErrorReport(error: JsValue)                  // {error}
    | Finished(spreadsheet: Option<Spreadsheet>)   // {finished: true, spreadsheet}
    | WorkerEvent(data: JsValue)                   // a MessageEvent from the worker
    | WorkerData(data: JsValue)                    // the data of such an event, as handed on

  /** postMessage's harmonisation: a MessageEvent with truthy data is replaced by its data. */
  function Unwrap(m: Message): (r: Message)
    ensures m.WorkerEvent? && Truthy(m.data) ==> r == WorkerData(m.data)
    ensures !(m.WorkerEvent? && Truthy(m.data)) ==> r == m
    ensures !r.WorkerEvent? || !Truthy(r.data)
  {
    if m.WorkerEvent? && Truthy(m.data) then WorkerData(m.data) else m
  }

  /** `v || 0` */
  function OrZero(v: JsValue): (r: JsValue)
    ensures Truthy(v) ==> r == v
    ensures !Truthy(v) ==> r == Num("0")
    ensures v.Num? || IsNullish(v) ==> r.Num?
  {
    if Truthy(v) then v else Num("0")
  }

  /** `oError.message || oError`; None is the TypeError of reading a property of null or undefined. */
  function ErrorText(e: JsValue): (r: Option<JsValue>)
    ensures r.None? <==> IsNullish(e)
    ensures r.Some? && Truthy(Member(e, "message").value) ==> r.value == Member(e, "message").value
    ensures r.Some? && !Truthy(Member(e, "message").value) ==> r.value == e
  {
    match Member(e, "message")
    case None => None
    case Some(msg) => Some(if Truthy(msg) then msg else e)
  }

  datatype Strategy = Direct | InProcess | InWorker

  /**
   * The selection at the end of execute: a data source of type "array" is
   * exported directly whatever the worker flag says; otherwise a worker flag
   * of exactly false means in process, anything else the worker. None is the
   * TypeError of a null or undefined data source.
   */
  function SelectStrategy(dataSource: JsValue, worker: JsValue): (r: Option<Strategy>)
    ensures r.None? <==> IsNullish(dataSource)
    ensures r == Some(Direct) <==> !IsNullish(dataSource) && Member(dataSource, "type").value == Str("array")
    ensures r == Some(InProcess) <==>
      !IsNullish(dataSource) && Member(dataSource, "type").value != Str("array") && worker == Bool(false)
  {
    match Member(dataSource, "type")
    case None => None
    case Some(t) =>
      if t == Str("array") then Some(Direct)
      else if worker == Bool(false) then Some(InProcess)
      else Some(InWorker)
  }

  /** The callback side of execute: postMessage and the onProgress, onError and onFinish helpers. */
  class Channel {
    /** `typeof fnCallback === 'function'` */
    const callbackIsFunction: bool
    /** Every message the callback received, oldest first. */
    var delivered: seq<Message>

    constructor (callbackIsFunction: bool)
      ensures this.callbackIsFunction == callbackIsFunction && delivered == []
    {
      this.callbackIsFunction := callbackIsFunction;
      delivered := [];
    }

    /** What one postMessage call adds to the delivered messages. */
    function Delivery(m: Message): (r: seq<Message>)
      reads this
      ensures |r| <= 1 && (callbackIsFunction <==> |r| == 1)
      ensures callbackIsFunction ==> r[0] == Unwrap(m)
    {
      if callbackIsFunction then [Unwrap(m)] else []
    }

    method PostMessage(m: Message)
      modifies this
      ensures delivered == old(delivered) + Delivery(m)
    {
      if callbackIsFunction {
        delivered := delivered + [Unwrap(m)];
      }
    }

    method OnProgress(fetched: JsValue, total: JsValue)
      modifies this
      ensures delivered == old(delivered) + Delivery(Progress(OrZero(fetched), OrZero(total)))
    {
      PostMessage(Progress(OrZero(fetched), OrZero(total)));
    }

    /** ok is false when the error is null or undefined: reading its message throws and nothing is posted. */
    method OnError(e: JsValue) returns (ok: bool)
      modifies this
      ensures ok <==> !IsNullish(e)
      ensures ok ==> delivered == old(delivered) + Delivery(ErrorReport(ErrorText(e).value))
      ensures !ok ==> delivered == old(delivered)
    {
      var text := ErrorText(e);
      if text.None? {
        return false;
      }
      PostMessage(ErrorReport(text.value));
      return true;
    }

    method OnFinish(spreadsheet: Option<Spreadsheet>)
      modifies this
      ensures delivered == old(delivered) + Delivery(Finished(spreadsheet))
    {
      PostMessage(Finished(spreadsheet));
    }
  }

  /** The message onProgress(n, n) posts for a count n. */
  function CountProgress(n: nat): Message {
    Progress(OrZero(Num(NatToString(n))), OrZero(Num(NatToString(n))))
  }

  /** A count of n is reported as the decimal text of n, so fetched and total both read back as n. */
  lemma CountProgressReadsBack(n: nat)
    ensures CountProgress(n).fetched == CountProgress(n).total
    ensures CountProgress(n).fetched.Num? && ParseInt(CountProgress(n).fetched.text) == Some(n)
  {
    var t := NatToString(n);
    assert IsDigit(t[0]) && t[0] != 'N';
    assert OrZero(Num(t)) == Num(t);
    ParseIntOfNatToString(n, "");
    assert t + "" == t;
  }

  // ---------------------------------------------------------------------
  // exportArray

  class ArrayExport {
    const channel: Channel
    /** start has run (the libraries were loaded). */
    var started: bool
    /** The batches of rows handed to the builder's append. */
    var appended: seq<seq<JsValue>>
    var buildPending: bool

    /** exportArray: requests the libraries and returns the handle; nothing is posted yet. */
    constructor (channel: Channel)
      ensures this.channel == channel && !started && appended == [] && !buildPending
    {
      this.channel := channel;
      started := false;
      appended := [];
      buildPending := false;
    }

    /**
     * start: all rows in one append, then exactly one progress message with
     * fetched = total = the number of records (0 when data is missing), then
     * the build is requested. `converted` is what the data converter returns.
     */
    method Start(data: Option<seq<JsValue>>, converted: seq<JsValue>)
      requires !started
      modifies this, channel
      ensures started && buildPending
      ensures appended == old(appended) + [converted]
      ensures var n := if data.Some? then |data.value| else 0;
        channel.delivered == old(channel.delivered) + channel.Delivery(CountProgress(n))
    {
      var records := if data.Some? then data.value else [];
      var count := |records|;
      appended := appended + [converted];
      channel.OnProgress(Num(NatToString(count)), Num(NatToString(count)));
      buildPending := true;
      started := true;
    }

    /** The build promise resolves: onFinish with the spreadsheet. */
    method BuildResolved(s: Spreadsheet)
      requires buildPending
      modifies this, channel
      ensures !buildPending && appended == old(appended) && started == old(started)
      ensures channel.delivered == old(channel.delivered) + channel.Delivery(Finished(Some(s)))
    {
      buildPending := false;
      channel.OnFinish(Some(s));
    }

    /** The handle's cancel is onFinish itself: it only posts finished, without a spreadsheet. */
    method Cancel()
      modifies channel
      ensures channel.delivered == old(channel.delivered) + channel.Delivery(Finished(None))
    {
      channel.OnFinish(None);
    }
  }

  // ---------------------------------------------------------------------
  // exportInProcess

  class InProcessExport {
    const channel: Channel
    /** start has run: the builder exists and the provider request (oRequest) was made. */
    var started: bool
    /** The rows handed to the builder's append, one entry per provider message. */
    var appended: seq<JsValue>
    /** Builds requested and not yet resolved. */
    var pendingBuilds: nat
    /** Calls of oRequest.cancel(). */
    var requestCancels: nat

    constructor (channel: Channel)
      ensures this.channel == channel && !started && appended == [] && pendingBuilds == 0 && requestCancels == 0
    {
      this.channel := channel;
      started := false;
      appended := [];
      pendingBuilds := 0;
      requestCancels := 0;
    }

    method Start()
      requires !started
      modifies this
      ensures started && appended == old(appended) && pendingBuilds == old(pendingBuilds)
      ensures requestCancels == old(requestCancels)
    {
      started := true;
    }

    /**
     * processCallback: a message carrying an error (truthy, or any string)
     * is reported and appends nothing; any other message appends its rows
     * and posts progress, and requests the build when flagged finished.
     * ok is false when the message itself is null or undefined.
     */
    method ProcessCallback(msg: JsValue) returns (ok: bool)
      requires started
      modifies this, channel
      ensures ok <==> !IsNullish(msg)
      ensures started && requestCancels == old(requestCancels)
      ensures !ok ==>
        appended == old(appended) && pendingBuilds == old(pendingBuilds) && channel.delivered == old(channel.delivered)
      ensures ok && HasError(msg) ==>
        appended == old(appended) && pendingBuilds == old(pendingBuilds)
        && channel.delivered == old(channel.delivered) + channel.Delivery(ErrorReport(ErrorText(Member(msg, "error").value).value))
      ensures ok && !HasError(msg) ==>
        appended == old(appended) + [OptionalMember(msg, "rows")]
        && channel.delivered == old(channel.delivered)
          + channel.Delivery(Progress(OrZero(OptionalMember(msg, "fetched")), OrZero(OptionalMember(msg, "total"))))
        && pendingBuilds == old(pendingBuilds) + (if Truthy(OptionalMember(msg, "finished")) then 1 else 0)
    {
      var error := Member(msg, "error");
      if error.None? {
        return false;
      }
      if Truthy(error.value) || error.value.Str? {
        var reported := channel.OnError(error.value);
        return true;
      }
      appended := appended + [OptionalMember(msg, "rows")];
      channel.OnProgress(OptionalMember(msg, "fetched"), OptionalMember(msg, "total"));
      if Truthy(OptionalMember(msg, "finished")) {
        pendingBuilds := pendingBuilds + 1;
      }
      return true;
    }

    method BuildResolved(s: Spreadsheet)
      requires pendingBuilds > 0
      modifies this, channel
      ensures pendingBuilds == old(pendingBuilds) - 1
      ensures started == old(started) && appended == old(appended) && requestCancels == old(requestCancels)
      ensures channel.delivered == old(channel.delivered) + channel.Delivery(Finished(Some(s)))
    {
      pendingBuilds := pendingBuilds - 1;
      channel.OnFinish(Some(s));
    }

    /**
     * cancel: cancels the provider request, then posts finished without a
     * spreadsheet. Before start has run oRequest is undefined: the call
     * throws (ok is false) and nothing happens.
     */
    method Cancel() returns (ok: bool)
      modifies this, channel
      ensures ok <==> started
      ensures started == old(started) && appended == old(appended) && pendingBuilds == old(pendingBuilds)
      ensures ok ==>
        requestCancels == old(requestCancels) + 1
        && channel.delivered == old(channel.delivered) + channel.Delivery(Finished(None))
      ensures !ok ==> requestCancels == old(requestCancels) && channel.delivered == old(channel.delivered)
    {
      if !started {
        return false;
      }
      requestCancels := requestCancels + 1;
      channel.OnFinish(None);
      return true;
    }
  }

  /** The error test of processCallback: `oMessage.error || typeof oMessage.error === 'string'`. */
  predicate HasError(msg: JsValue)
    requires !IsNullish(msg)
  {
    var e := Member(msg, "error").value;
    Truthy(e) || e.Str?
  }

  // ---------------------------------------------------------------------
  // exportInWorker

  datatype WorkerSource = DirectUrl | BlobUrl

  /** What is posted to the accepted worker. */
  datatype WorkerInput = ExportParams | CancelRequest

  datatype Phase =
    | Constructing(source: WorkerSource)   // new Worker(url) is about to run
    | Pending(source: WorkerSource)        // constructed, waiting for its "initialized" message
    | Running                              // accepted and handed the export parameters
    | FellBack                             // noWorker ran: the in-process export took over

  class WorkerExport {
    const channel: Channel
    var phase: Phase
    /** Workers whose construction was attempted, in order. */
    var tried: seq<WorkerSource>
    /** Workers that failed: construction threw, or an error event came before "initialized". */
    var failed: seq<WorkerSource>
    /** Workers terminated by the error handler. */
    var terminated: seq<WorkerSource>
    /** oSpreadsheetWorker: the accepted worker, if any. */
    var worker: Option<WorkerSource>
    /** Messages posted to the accepted worker. */
    var toWorker: seq<WorkerInput>
    /** The in-process export started by noWorker; its cancel is fnCancel from then on. */
    var fallback: InProcessExport?

    /** The acquisition order: direct first, the blob worker only after the direct one failed, in-process last. */
    ghost predicate Valid()
      reads this, fallback
    {
      && (fallback != null <==> phase.FellBack?)
      && (fallback != null ==> fallback.channel == channel)
      && (phase == Constructing(DirectUrl) ==> tried == [] && failed == [])
      && (phase == Pending(DirectUrl) ==> tried == [DirectUrl] && failed == [])
      && (phase == Constructing(BlobUrl) ==> tried == [DirectUrl] && failed == [DirectUrl])
      && (phase == Pending(BlobUrl) ==> tried == [DirectUrl, BlobUrl] && failed == [DirectUrl])
      && (phase.Constructing? || phase.Pending? ==> worker.None? && toWorker == [])
      && (phase.Running? ==> worker.Some? && |toWorker| >= 1 && toWorker[0] == ExportParams)
      && (phase.FellBack? ==>
          (worker.None? && tried == failed == [DirectUrl, BlobUrl])
          || (worker.Some? && toWorker == []))
      && (worker.Some? ==> Accepted(worker.value, tried, failed))
    }

    /** The accepted worker is the last one tried, and every worker tried before it failed. */
    static predicate Accepted(source: WorkerSource, tried: seq<WorkerSource>, failed: seq<WorkerSource>) {
      || (source == DirectUrl && tried == [DirectUrl] && failed == [])
      || (source == BlobUrl && tried == [DirectUrl, BlobUrl] && failed == [DirectUrl])
    }

    /** exportInWorker: start() runs up to its first await, about to construct the direct worker. */
    constructor (channel: Channel)
      ensures Valid() && fresh(this)
      ensures this.channel == channel && phase == Constructing(DirectUrl)
      ensures tried == [] && failed == [] && terminated == [] && worker.None? && toWorker == [] && fallback == null
    {
      this.channel := channel;
      phase := Constructing(DirectUrl);
      tried := [];
      failed := [];
      terminated := [];
      worker := None;
      toWorker := [];
      fallback := null;
    }

    /** noWorker: the in-process export replaces the cancel function. */
    method NoWorker()
      requires !phase.FellBack?
      modifies this
      ensures phase == FellBack && fresh(fallback) && fallback.channel == channel
      ensures !fallback.started && fallback.appended == [] && fallback.pendingBuilds == 0 && fallback.requestCancels == 0
      ensures tried == old(tried) && failed == old(failed) && terminated == old(terminated)
      ensures worker == old(worker) && toWorker == old(toWorker)
    {
      fallback := new InProcessExport(channel);
      phase := FellBack;
    }

    /** The next step after the worker at `source` failed: the blob worker after the direct one, else in process. */
    method Rejected(source: WorkerSource)
      requires !phase.FellBack?
      modifies this
      ensures source == DirectUrl ==> phase == Constructing(BlobUrl) && fallback == old(fallback)
      ensures source == BlobUrl ==>
        phase == FellBack && fresh(fallback) && fallback.channel == channel
        && !fallback.started && fallback.requestCancels == 0
      ensures tried == old(tried) && failed == old(failed) + [source] && terminated == old(terminated)
      ensures worker == old(worker) && toWorker == old(toWorker)
    {
      failed := failed + [source];
      if source == DirectUrl {
        phase := Constructing(BlobUrl);
      } else {
        NoWorker();
      }
    }

    /** new Worker(url) for the current candidate either returns a worker or throws. */
    method Construct(succeeded: bool)
      requires Valid() && phase.Constructing?
      modifies this
      ensures Valid()
      ensures tried == old(tried) + [old(phase).source]
      ensures succeeded ==> phase == Pending(old(phase).source) && failed == old(failed)
      ensures !succeeded && old(phase).source == DirectUrl ==> phase == Constructing(BlobUrl)
      ensures !succeeded && old(phase).source == BlobUrl ==> phase == FellBack && fresh(fallback)
      ensures terminated == old(terminated) && worker == old(worker) && toWorker == old(toWorker)
    {
      var source := phase.source;
      tried := tried + [source];
      if succeeded {
        phase := Pending(source);
      } else {
        Rejected(source);
      }
    }

    /**
     * A message event from a worker. From the pending candidate it counts
     * only if its data has a truthy `initialized`: the worker is then
     * accepted and handed the export parameters, and if posting them throws
     * (they cannot be cloned) the in-process export takes over. From the
     * accepted worker it is passed on to the callback.
     */
    method WorkerMessage(data: JsValue, paramsCloneable: bool)
      requires Valid() && (phase.Pending? || worker.Some?)
      modifies this, channel
      ensures Valid()
      ensures tried == old(tried) && failed == old(failed) && terminated == old(terminated)
      ensures old(phase).Pending? && !Truthy(OptionalMember(data, "initialized")) ==>
        phase == old(phase) && worker == old(worker) && channel.delivered == old(channel.delivered)
      ensures old(phase).Pending? && Truthy(OptionalMember(data, "initialized")) ==>
        worker == Some(old(phase).source) && channel.delivered == old(channel.delivered)
        && (paramsCloneable ==> phase == Running && toWorker == old(toWorker) + [ExportParams])
        && (!paramsCloneable ==> phase == FellBack && fresh(fallback) && toWorker == old(toWorker))
      ensures !old(phase).Pending? ==>
        phase == old(phase) && worker == old(worker) && toWorker == old(toWorker) && fallback == old(fallback)
        && channel.delivered == old(channel.delivered) + channel.Delivery(WorkerEvent(data))
    {
      if phase.Pending? {
        if Truthy(OptionalMember(data, "initialized")) {
          assert Accepted(phase.source, tried, failed);
          worker := Some(phase.source);
          if paramsCloneable {
            toWorker := toWorker + [ExportParams];
            phase := Running;
          } else {
            NoWorker();
          }
        }
      } else {
        channel.PostMessage(WorkerEvent(data));
      }
    }

    /**
     * An error event from a worker. Before "initialized" the candidate is
     * terminated and rejected, and the next candidate is tried; from the
     * accepted worker it goes to onError.
     */
    method WorkerError(event: JsValue)
      requires Valid() && (phase.Pending? || worker.Some?)
      modifies this, channel
      ensures Valid()
      ensures old(phase).Pending? ==>
        terminated == old(terminated) + [old(phase).source] && failed == old(failed) + [old(phase).source]
        && channel.delivered == old(channel.delivered)
        && (old(phase).source == DirectUrl ==> phase == Constructing(BlobUrl))
        && (old(phase).source == BlobUrl ==> phase == FellBack && fresh(fallback))
      ensures !old(phase).Pending? ==>
        phase == old(phase) && failed == old(failed) && terminated == old(terminated) && fallback == old(fallback)
        && (IsNullish(event) ==> channel.delivered == old(channel.delivered))
        && (!IsNullish(event) ==>
          channel.delivered == old(channel.delivered) + channel.Delivery(ErrorReport(ErrorText(event).value)))
    {
      if phase.Pending? {
        var source := phase.source;
        terminated := terminated + [source];
        Rejected(source);
      } else {
        var reported := channel.OnError(event);
      }
    }

    /**
     * The returned handle's cancel, which calls whatever fnCancel is at call
     * time. The worker cancel posts {cancel: true} to the accepted worker and
     * then finished; with no accepted worker yet it throws (ok is false).
     * After the fallback it is the in-process cancel.
     */
    method Cancel() returns (ok: bool)
      requires Valid()
      modifies this, channel, fallback
      ensures Valid()
      ensures phase == old(phase) && tried == old(tried) && failed == old(failed) && worker == old(worker)
      ensures fallback == old(fallback)
      ensures old(phase).FellBack? ==>
        toWorker == old(toWorker)
        && (ok <==> old(fallback.started))
        && (ok ==>
              fallback.requestCancels == old(fallback.requestCancels) + 1
              && channel.delivered == old(channel.delivered) + channel.Delivery(Finished(None)))
      ensures !old(phase).FellBack? ==>
        (ok <==> worker.Some?)
        && (ok ==>
              toWorker == old(toWorker) + [CancelRequest]
              && channel.delivered == old(channel.delivered) + channel.Delivery(Finished(None)))
        && (!ok ==> toWorker == old(toWorker) && channel.delivered == old(channel.delivered))
    {
      if fallback != null {
        ok := fallback.Cancel();
        assert phase.FellBack?;
        return;
      }
      if worker.None? {
        return false;
      }
      assert phase.Running?;
      toWorker := toWorker + [CancelRequest];
      assert toWorker[0] == old(toWorker)[0];
      channel.OnFinish(None);
      return true;
    }
  }

  /** The in-process fallback runs only after both workers failed, or after the accepted worker could not be handed the parameters. */
  lemma FallbackOnlyAfterWorkersFail(w: WorkerExport)
    requires w.Valid() && w.fallback != null
    ensures (w.failed == [DirectUrl, BlobUrl] && w.worker.None?) || (w.worker.Some? && w.toWorker == [])
  {
    assert w.phase.FellBack?;
  }

  /** The blob worker is only ever tried after the direct worker failed. */
  lemma BlobAfterDirectFailed(w: WorkerExport)
    requires w.Valid() && BlobUrl in w.tried
    ensures w.tried[0] == DirectUrl && |w.failed| >= 1 && w.failed[0] == DirectUrl
  {
  }

  // ---------------------------------------------------------------------
  // execute

  datatype Handle =
    | ArrayHandle(a: ArrayExport)
    | InProcessHandle(p: InProcessExport)
    | WorkerHandle(w: WorkerExport)

  /** execute: the strategy object for SelectStrategy's choice; None is the TypeError of a missing data source. */
  method Execute(channel: Channel, dataSource: JsValue, workerFlag: JsValue) returns (h: Option<Handle>)
    ensures h.None? <==> SelectStrategy(dataSource, workerFlag).None?
    ensures SelectStrategy(dataSource, workerFlag) == Some(Direct) ==>
      h.Some? && h.value.ArrayHandle? && fresh(h.value.a) && h.value.a.channel == channel && !h.value.a.started
    ensures SelectStrategy(dataSource, workerFlag) == Some(InProcess) ==>
      h.Some? && h.value.InProcessHandle? && fresh(h.value.p) && h.value.p.channel == channel && !h.value.p.started
    ensures SelectStrategy(dataSource, workerFlag) == Some(InWorker) ==>
      h.Some? && h.value.WorkerHandle? && fresh(h.value.w) && h.value.w.channel == channel
      && h.value.w.Valid() && h.value.w.phase == Constructing(DirectUrl)
  {
    var strategy := SelectStrategy(dataSource, workerFlag);
    if strategy.None? {
      return None;
    }
    match strategy.value
    case Direct =>
      var a := new ArrayExport(channel);
      return Some(ArrayHandle(a));
    case InProcess =>
      var p := new InProcessExport(channel);
      return Some(InProcessHandle(p));
    case InWorker =>
      var w := new WorkerExport(channel);
      return Some(WorkerHandle(w));
  }
}
