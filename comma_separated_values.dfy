/**
 * sap.ui.export.CommaSeparatedValues: the CSV export facade. It normalises
 * the data source, fills in defaults, keeps a single builder slot and a
 * cancel flag, and hands the built file to the save routine.
 */
module CommaSeparatedValues {
  import opened JsCore
  import CsvBuilder
  import Utf8

  const MimeType := "text/csv"
  const AlreadyRunningMessage := "Cannot start export: The process is already running"
  /** FileType.CSV of the export library. */
  const FileTypeCsv: JsValue := Str("CSV")
  const DefaultSeparator: JsValue := Str(",")

  // ---------------------------------------------------------------------
  // processDataSource

  /** What processDataSource can be handed. */
  datatype DataSourceArg =
    | Plain(value: JsValue)                                     // a JSON value: array, plain object or primitive
    | ClientListBinding(dataUrl: JsValue, contexts: seq<JsValue>)  // contexts: getObject() of each current context
    | Function                                                  // typeof "function"

  /** The normalised data source `{type: "array", data}`. */
  datatype DataSource = DataSource(data: seq<JsValue>, kind: string)

  predicate IsFalsy(arg: DataSourceArg) {
    arg.Plain? && !Truthy(arg.value)
  }

  /** typeof is not "object" (null is falsy and handled first). */
  predicate IsNonObject(arg: DataSourceArg) {
    arg.Function? || (arg.Plain? && !arg.value.Arr? && !arg.value.Obj?)
  }

  function DataUrl(arg: DataSourceArg): JsValue {
    match arg
    case Plain(v) => OptionalMember(v, "dataUrl")
    case ClientListBinding(u, _) => u
    case Function => Undefined
  }

  /**
   * processDataSource: None is the null it returns. Arrays are taken as they
   * are, a binding yields its current objects in order, and any other object
   * yields an empty array rather than null.
   */
  method ProcessDataSource(arg: DataSourceArg) returns (r: Option<DataSource>)
    ensures r.None? <==> IsFalsy(arg) || IsNonObject(arg) || Truthy(DataUrl(arg))
    ensures r.Some? ==> r.value.kind == "array"
    ensures r.Some? && arg.Plain? && arg.value.Arr? ==> r.value.data == arg.value.items
    ensures r.Some? && arg.Plain? && arg.value.Obj? ==> r.value.data == []
    ensures r.Some? && arg.ClientListBinding? ==> r.value.data == arg.contexts
  {
    var result := DataSource([], "array");
    if IsFalsy(arg) {
      return None;
    }
    if IsNonObject(arg) {
      return None;
    }
    if Truthy(DataUrl(arg)) {
      return None;
    }
    if arg.Plain? && arg.value.Arr? {
      result := result.(data := arg.value.items);
    }
    if arg.ClientListBinding? {
      var objects: seq<JsValue> := [];
      var i := 0;
      while i < |arg.contexts|
        invariant 0 <= i <= |arg.contexts|
        invariant objects == arg.contexts[..i]
      {
        objects := objects + [arg.contexts[i]];
        i := i + 1;
      }
      result := result.(data := objects);
    }
    return Some(result);
  }

  // ---------------------------------------------------------------------
  // Export parameters and their defaults

  /** mParameters.workbook, as far as the CSV export reads it. */
  datatype Workbook = Workbook(columns: JsValue, separator: JsValue)

  class ExportParameters {
    var fileType: JsValue
    /** None: the workbook property is missing (undefined). */
    var workbook: Option<Workbook>
    /** None: processDataSource gave null. */
    var dataSource: Option<DataSource>
    var fileName: string

    constructor (fileType: JsValue, workbook: Option<Workbook>, dataSource: Option<DataSource>, fileName: string)
      ensures this.fileType == fileType && this.workbook == workbook
      ensures this.dataSource == dataSource && this.fileName == fileName
    {
      this.fileType := fileType;
      this.workbook := workbook;
      this.dataSource := dataSource;
      this.fileName := fileName;
    }
  }

  /** The workbook after defaulting: a falsy separator becomes ",". */
  function DefaultedWorkbook(w: Workbook): (r: Workbook)
    ensures r.columns == w.columns
    ensures Truthy(r.separator)
    ensures Truthy(w.separator) ==> r == w
  {
    if Truthy(w.separator) then w else w.(separator := DefaultSeparator)
  }

  lemma DefaultedWorkbookIdempotent(w: Workbook)
    ensures DefaultedWorkbook(DefaultedWorkbook(w)) == DefaultedWorkbook(w)
  {
  }

  /**
   * setDefaultExportSettings: fills in the file type and the separator where
   * they are falsy. Reading the separator of a missing workbook throws a
   * TypeError (ok is false) after the file type was already filled in.
   */
  method SetDefaultExportSettings(p: ExportParameters) returns (ok: bool)
    modifies p
    ensures p.fileType == if Truthy(old(p.fileType)) then old(p.fileType) else FileTypeCsv
    ensures ok <==> old(p.workbook).Some?
    ensures p.workbook == if ok then Some(DefaultedWorkbook(old(p.workbook).value)) else old(p.workbook)
    ensures p.dataSource == old(p.dataSource) && p.fileName == old(p.fileName)
  {
    if !Truthy(p.fileType) {
      p.fileType := FileTypeCsv;
    }
    if p.workbook.None? {
      return false;
    }
    if !Truthy(p.workbook.value.separator) {
      p.workbook := Some(p.workbook.value.(separator := DefaultSeparator));
    }
    return true;
  }

  // ---------------------------------------------------------------------
  // createBuildPromise

  datatype Outcome = Resolved | Rejected(reason: string)

  datatype SavedFile = SavedFile(blob: CsvBuilder.Blob, fileName: string)

  /** How a build that found the builder slot free ends. */
  datatype BuildResult =
    | Saved(blob: CsvBuilder.Blob)          // built: saveAsFile is called with this blob
    | FailedBeforeBuilder(error: string)    // thrown before the builder was stored
    | FailedWithBuilder(error: string)      // thrown by append or build: the builder stays stored

  /** The steps of createBuildPromise after the busy check, as a function of its inputs. */
  function BuildResultOf(workbook: Option<Workbook>, dataSource: Option<DataSource>, blobConstructible: bool): BuildResult {
    if workbook.None? then FailedBeforeBuilder(CsvBuilder.TypeErrorMessage)
    else
      var settings := CsvBuilder.ValidateSettings(workbook.value.columns, CsvBuilder.SeparatorArgument(workbook.value.separator));
      if settings.Failure? then FailedBeforeBuilder(settings.error)
      else
        var columns := settings.value.columns;
        var sep := settings.value.separator;
        var keys := CsvBuilder.ColumnKeys(columns);
        if dataSource.None? || keys.None? then FailedWithBuilder(CsvBuilder.TypeErrorMessage)
        else
          var data := dataSource.value.data;
          var n := CsvBuilder.FirstNullish(data);
          if n < |data| then FailedWithBuilder(CsvBuilder.TypeErrorMessage)
          else if !blobConstructible then FailedWithBuilder(CsvBuilder.BlobFailureMessage)
          else
            var header := CsvBuilder.HeaderLine(columns, sep);
            Saved(CsvBuilder.Blob(CsvBuilder.Payload(header.value, CsvBuilder.Rows(sep, keys.value, data)), CsvBuilder.CsvBlobType))
  }

  /** A saved file is a CSV blob: the byte order mark, then UTF-8 that decodes to the header, CRLF and one row per record. */
  lemma {:induction false} SavedFileIsPayload(workbook: Option<Workbook>, dataSource: Option<DataSource>, blobConstructible: bool)
    requires BuildResultOf(workbook, dataSource, blobConstructible).Saved?
    ensures var blob := BuildResultOf(workbook, dataSource, blobConstructible).blob;
      && blobConstructible && workbook.Some? && dataSource.Some?
      && blob.mimeType == CsvBuilder.CsvBlobType
      && |blob.bytes| >= 3 && blob.bytes[..3] == [0xEF, 0xBB, 0xBF]
      && exists header: string, rows: seq<string> ::
        |rows| == |dataSource.value.data| && Utf8.Decode(blob.bytes[3..]) == Some(CsvBuilder.CsvText(header, rows))
  {
    var settings := CsvBuilder.ValidateSettings(workbook.value.columns, CsvBuilder.SeparatorArgument(workbook.value.separator)).value;
    var header := CsvBuilder.HeaderLine(settings.columns, settings.separator).value;
    var rows := CsvBuilder.Rows(settings.separator, CsvBuilder.ColumnKeys(settings.columns).value, dataSource.value.data);
    CsvBuilder.PayloadLayout(header, rows);
  }

  class CommaSeparatedValues {
    /** _oBuilder: the single builder slot. */
    var builder: CsvBuilder.Builder?
    /** _bIsCancelled (undefined, hence falsy, until first set). */
    var cancelled: bool
    /** The calls made to the save routine, oldest first. */
    var saved: seq<SavedFile>

    constructor ()
      ensures builder == null && !cancelled && saved == []
    {
      builder := null;
      cancelled := false;
      saved := [];
    }

    /** cancel: sets the flag (idempotently) and returns the instance for chaining. */
    method Cancel() returns (self: CommaSeparatedValues)
      modifies this
      ensures self == this && cancelled
      ensures builder == old(builder) && saved == old(saved)
    {
      if !cancelled {
        cancelled := true;
      }
      return this;
    }

    /** getMimeType */
    function GetMimeType(): (r: string)
      ensures |r| < |CsvBuilder.CsvBlobType| && CsvBuilder.CsvBlobType[..|r|] == r
      ensures CsvBuilder.CsvBlobType[|r|] == ';'
    {
      MimeType
    }

    /**
     * createBuildPromise. While a builder is stored it rejects and changes
     * nothing. Otherwise it resets the cancel flag, stores a new builder,
     * appends the data, builds, saves unless cancelled and clears the slot;
     * an exception rejects, and one thrown by append, build or the save
     * routine leaves the builder stored. `saveError` is what saveAsFile
     * throws, None when it returns.
     */
    method CreateBuildPromise(p: ExportParameters, blobConstructible: bool, saveError: Option<string>) returns (outcome: Outcome)
      modifies this
      ensures old(builder) != null ==>
        outcome == Rejected(AlreadyRunningMessage)
        && builder == old(builder) && cancelled == old(cancelled) && saved == old(saved)
      ensures old(builder) == null ==> !cancelled
      ensures old(builder) == null ==>
        match BuildResultOf(p.workbook, p.dataSource, blobConstructible)
        case Saved(blob) =>
          if saveError.None? then
            outcome == Resolved && builder == null && saved == old(saved) + [SavedFile(blob, p.fileName)]
          else
            outcome == Rejected(saveError.value) && builder != null && fresh(builder) && saved == old(saved)
        case FailedBeforeBuilder(e) =>
          outcome == Rejected(e) && builder == null && saved == old(saved)
        case FailedWithBuilder(e) =>
          outcome == Rejected(e) && builder != null && fresh(builder) && saved == old(saved)
    {
      if builder != null {
        return Rejected(AlreadyRunningMessage);
      }
      var workbook := p.workbook;
      cancelled := false;
      if workbook.None? {
        return Rejected(CsvBuilder.TypeErrorMessage);
      }
      var settings := CsvBuilder.ValidateSettings(workbook.value.columns, CsvBuilder.SeparatorArgument(workbook.value.separator));
      if settings.Failure? {
        return Rejected(settings.error);
      }
      var b := new CsvBuilder.Builder(settings.value);
      builder := b;
      if p.dataSource.None? {
        return Rejected(CsvBuilder.TypeErrorMessage);
      }
      var ok := b.Append(p.dataSource.value.data);
      if !ok {
        return Rejected(CsvBuilder.TypeErrorMessage);
      }
      ghost var data := p.dataSource.value.data;
      assert data[..|data|] == data;
      assert [] + CsvBuilder.Rows(b.separator, CsvBuilder.ColumnKeys(b.columns).value, data)
        == CsvBuilder.Rows(b.separator, CsvBuilder.ColumnKeys(b.columns).value, data);
      assert b.rows == CsvBuilder.Rows(b.separator, CsvBuilder.ColumnKeys(b.columns).value, p.dataSource.value.data);
      var blob := b.Build(blobConstructible);
      if blob.Failure? {
        return Rejected(blob.error);
      }
      if !cancelled {
        if saveError.Some? {
          return Rejected(saveError.value);
        }
        saved := saved + [SavedFile(blob.value, p.fileName)];
      }
      builder := null;
      return Resolved;
    }
  }

  /**
   * A build whose append, build or save throws after the builder was stored
   * blocks every later build on the same instance.
   */
  method FailedBuildBlocksLaterBuilds(csv: CommaSeparatedValues, p: ExportParameters, q: ExportParameters,
                                      b1: bool, b2: bool, e1: Option<string>, e2: Option<string>)
    returns (first: Outcome, second: Outcome)
    requires csv.builder == null
    requires BuildResultOf(p.workbook, p.dataSource, b1).FailedWithBuilder?
      || (BuildResultOf(p.workbook, p.dataSource, b1).Saved? && e1.Some?)
    modifies csv
    ensures first.Rejected? && second == Rejected(AlreadyRunningMessage)
    ensures csv.builder != null && csv.saved == old(csv.saved)
  {
    first := csv.CreateBuildPromise(p, b1, e1);
    second := csv.CreateBuildPromise(q, b2, e2);
  }

  /**
   * The cancel flag is reset at the start of every build and nothing can set
   * it before the save check, so a successful build always saves exactly once.
   */
  method CancelBeforeBuildDoesNotPreventSave(csv: CommaSeparatedValues, p: ExportParameters, b: bool) returns (outcome: Outcome)
    requires csv.builder == null
    requires BuildResultOf(p.workbook, p.dataSource, b).Saved?
    modifies csv
    ensures outcome == Resolved && !csv.cancelled
    ensures csv.saved == old(csv.saved) + [SavedFile(BuildResultOf(p.workbook, p.dataSource, b).blob, p.fileName)]
  {
    var self := csv.Cancel();
    outcome := csv.CreateBuildPromise(p, b, None);
  }
}
