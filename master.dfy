/**
 * The master-data upload page: the table of uploaded rows with soft
 * deletion ("isDeleted" set to "X"), the count of rows still live, the
 * save and add actions, and the resets of the table and upload sections.
 * The page's JSON model is a class whose fields are the model properties.
 */
module Master {
  import opened JsCore

  /** A table row: an object of named cells. */
  type Record = map<string, JsValue>

  const DeletedKey: string := "isDeleted"
  const DeletedMark: string := "X"

  /** `item.isDeleted !== "X"` */
  predicate Live(row: Record) {
    !(DeletedKey in row && row[DeletedKey] == Str(DeletedMark))
  }

  /** `tableData.filter((item) => item.isDeleted !== "X")` */
  function LiveRows(rows: seq<Record>): (r: seq<Record>)
    ensures |r| <= |rows|
    ensures forall x :: x in r <==> x in rows && Live(x)
  {
    if rows == [] then []
    else LiveRows(rows[..|rows| - 1]) + (if Live(rows[|rows| - 1]) then [rows[|rows| - 1]] else [])
  }

  /** There is a live row exactly when the filtered list is non-empty. */
  lemma LiveRowsEmptyIff(rows: seq<Record>)
    ensures |LiveRows(rows)| > 0 <==> exists i :: 0 <= i < |rows| && Live(rows[i])
  {
    if exists i :: 0 <= i < |rows| && Live(rows[i]) {
      var i :| 0 <= i < |rows| && Live(rows[i]);
      assert rows[i] in LiveRows(rows);
    }
  }

  /** If no row becomes live, the live count cannot grow. */
  lemma {:induction false} LiveRowsShrink(before: seq<Record>, after: seq<Record>)
    requires |before| == |after|
    requires forall i :: 0 <= i < |after| && Live(after[i]) ==> Live(before[i])
    ensures |LiveRows(after)| <= |LiveRows(before)|
  {
    if after != [] {
      var n := |after| - 1;
      LiveRowsShrink(before[..n], after[..n]);
      assert |LiveRows(after)| == |LiveRows(after[..n])| + (if Live(after[n]) then 1 else 0);
      assert |LiveRows(before)| == |LiveRows(before[..n])| + (if Live(before[n]) then 1 else 0);
    }
  }

  /** The row with the deletion mark set. */
  function MarkDeleted(row: Record): (r: Record)
    ensures !Live(r) && r.Keys == row.Keys + {DeletedKey}
    ensures forall k :: k in row && k != DeletedKey ==> r[k] == row[k]
  {
    row[DeletedKey := Str(DeletedMark)]
  }

  /** `typeof value === "string" ? value.trim() : value` */
  function TrimValue(v: JsValue): JsValue {
    if v.Str? then Str(Trim(v.s)) else v
  }

  /** trimValues: same keys, string values trimmed, everything else as it was. */
  function TrimValues(o: Record): (r: Record)
    ensures r.Keys == o.Keys
    ensures forall k :: k in o && o[k].Str? ==> r[k] == Str(Trim(o[k].s))
    ensures forall k :: k in o && !o[k].Str? ==> r[k] == o[k]
  {
    map k | k in o :: TrimValue(o[k])
  }

  /** Trimming a trimmed row changes nothing. */
  lemma TrimValuesIdempotent(o: Record)
    ensures TrimValues(TrimValues(o)) == TrimValues(o)
  {
    forall k | k in o && o[k].Str?
      ensures Trim(Trim(o[k].s)) == Trim(o[k].s)
    {
      TrimIdempotent(o[k].s);
    }
  }

  const EmployeeTable: string := "idMasterEmpTable"
  const ProductTable: string := "idMasterProdTable"

  /** getTableId: the employee table for key "E", the product table for any other key. */
  function GetTableId(sSelKey: string): (r: string)
    ensures r == EmployeeTable <==> sSelKey == "E"
    ensures r == ProductTable <==> sSelKey != "E"
  {
    if sSelKey == "E" then EmployeeTable else ProductTable
  }

  /** The model path of table row n: `"/tableData/" + n.toString()`. */
  function RowPath(n: nat): string {
    "/tableData/" + NatToString(n)
  }

  /** The row a path of the form "/tableData/<digits>" designates. */
  function RowIndex(path: string): Option<nat> {
    var parts := Split(path, '/');
    if |parts| == 3 && parts[0] == "" && parts[1] == "tableData" && parts[2] != []
       && forall i :: 0 <= i < |parts[2]| ==> IsDigit(parts[2][i])
    then Some(DigitsValue(parts[2]))
    else None
  }

  /** A row path designates the row it was made for. */
  lemma RowPathIndex(n: nat)
    ensures RowIndex(RowPath(n)) == Some(n)
  {
    var d := NatToString(n);
    assert '/' !in d;
    var tail := "tableData" + ['/'] + d;
    assert RowPath(n) == "" + ['/'] + tail;
    SplitFirst("", '/', tail);
    SplitFirst("tableData", '/', d);
    SplitNoSeparator(d, '/');
    var parts := Split(RowPath(n), '/');
    assert parts == ["", "tableData", d];
    DigitsValueOfNatToString(n);
  }

  /** The blank employee row of onAddPress, with the next Employee ID. */
  function NewEmployeeRow(id: nat): Record {
    map[
      "Employee ID" := Num(NatToString(id)), "Name" := Str(""), "Age" := Str(""), "Gender" := Str(""),
      "Email" := Str(""), "Phone Number" := Str(""), "Date of Birth" := Str(""), "Blood Group" := Str(""),
      "Address" := Str(""), "Country" := Str(""), "SSN" := Str(""), "Role" := Str(""),
      "Designation" := Str(""), "Department" := Str(""), "Company" := Str(""),
      "Company Address" := Str(""), DeletedKey := Str("")]
  }

  /** The blank product row of onAddPress. */
  function NewProductRow(): Record {
    map[
      "Product Name" := Str(""), "Description" := Str(""), "Brand" := Str(""), "Category" := Str(""),
      "Price" := Str(""), "Discount" := Str(""), "Rating" := Str(""), "Stock" := Str(""),
      "Tags" := Str(""), "Stock keeping unit" := Str(""), "Weight" := Str(""),
      "Dimensions (WxHxD)" := Str(""), "Warranty Details" := Str(""),
      "Shipping Information" := Str(""), "Availability" := Str(""), "Return Policy" := Str(""),
      "Minimum Order Quantity" := Str(""), "Barcode" := Str(""), "QR Code" := Str(""),
      "Images" := Str(""), "Thumbnail" := Str(""), DeletedKey := Str("")]
  }

  /** A blank row is live, and the employee row carries the ID it was given. */
  lemma NewRowsAreLive(id: nat)
    ensures Live(NewEmployeeRow(id)) && Live(NewProductRow())
    ensures Live(TrimValues(NewEmployeeRow(id))) && Live(TrimValues(NewProductRow()))
    ensures NewEmployeeRow(id)["Employee ID"] == Num(NatToString(id))
  {
    assert Trim("") == "";
  }

  /** The toasts and message boxes of the page. */
  const NothingSelected: string := "No item(s) selected for deletion."
  const DeletedToast: string := "Selected item(s) deleted successfully."
  const SavedMessage: string := "All record(s) have been saved successfully."
  const NoRecordMessage: string := "Unable to save. No record found."

  datatype MessageKind = SuccessBox | ErrorBox

  class MasterModel {
    var showFilter: bool
    var sSelKey: string
    var showUpload: bool
    var filePath: string
    var uploadBtnEnable: bool
    var showTable: bool
    var count: int
    var tableData: seq<Record>
    var oSelItem: Record
    var sSelItemPath: string
    var sDialogTitle: string

    /** setDefaultData */
    constructor ()
      ensures showFilter && sSelKey == "" && !showUpload && filePath == "" && !uploadBtnEnable
      ensures !showTable && count == 0 && tableData == [] && oSelItem == map[]
      ensures sSelItemPath == "" && sDialogTitle == ""
    {
      showFilter := true;
      sSelKey := "";
      showUpload := false;
      filePath := "";
      uploadBtnEnable := false;
      showTable := false;
      count := 0;
      tableData := [];
      oSelItem := map[];
      sSelItemPath := "";
      sDialogTitle := "";
    }

    /** resetTableSection: an empty, hidden table with count 0. */
    method ResetTableSection()
      modifies this
      ensures tableData == [] && count == 0 && !showTable
      ensures showFilter == old(showFilter) && sSelKey == old(sSelKey) && showUpload == old(showUpload)
      ensures filePath == old(filePath) && uploadBtnEnable == old(uploadBtnEnable)
      ensures oSelItem == old(oSelItem) && sSelItemPath == old(sSelItemPath) && sDialogTitle == old(sDialogTitle)
    {
      tableData := [];
      count := 0;
      showTable := false;
    }

    /** resetUploadSection: the uploader shown again, with no file and the upload button off. */
    method ResetUploadSection()
      modifies this
      ensures showUpload && filePath == "" && !uploadBtnEnable
      ensures showFilter == old(showFilter) && sSelKey == old(sSelKey) && showTable == old(showTable)
      ensures count == old(count) && tableData == old(tableData)
      ensures oSelItem == old(oSelItem) && sSelItemPath == old(sSelItemPath) && sDialogTitle == old(sDialogTitle)
    {
      showUpload := true;
      filePath := "";
      uploadBtnEnable := false;
    }

    /** resetBoth */
    method ResetBoth()
      modifies this
      ensures tableData == [] && count == 0 && !showTable
      ensures showUpload && filePath == "" && !uploadBtnEnable
      ensures showFilter == old(showFilter) && sSelKey == old(sSelKey)
      ensures oSelItem == old(oSelItem) && sSelItemPath == old(sSelItemPath) && sDialogTitle == old(sDialogTitle)
    {
      ResetTableSection();
      ResetUploadSection();
    }

    /** updateCount: the number of rows not marked deleted. */
    method UpdateCount()
      modifies this
      ensures count == |LiveRows(tableData)| && 0 <= count <= |tableData|
      ensures tableData == old(tableData) && showTable == old(showTable) && showUpload == old(showUpload)
      ensures showFilter == old(showFilter) && sSelKey == old(sSelKey)
      ensures filePath == old(filePath) && uploadBtnEnable == old(uploadBtnEnable)
      ensures oSelItem == old(oSelItem) && sSelItemPath == old(sSelItemPath) && sDialogTitle == old(sDialogTitle)
    {
      count := |LiveRows(tableData)|;
    }

    /**
     * onDeletePress with the table's selected rows: without a selection only
     * a toast; otherwise exactly the selected rows are marked deleted, in
     * place, and the count is refreshed.
     */
    method DeletePress(selected: seq<nat>) returns (toast: string)
      requires forall k :: 0 <= k < |selected| ==> selected[k] < |tableData|
      modifies this
      ensures |selected| == 0 ==> toast == NothingSelected && tableData == old(tableData) && count == old(count)
      ensures |selected| > 0 ==> toast == DeletedToast && count == |LiveRows(tableData)|
      ensures |tableData| == |old(tableData)|
      ensures forall i :: 0 <= i < |tableData| ==>
        tableData[i] == if i in selected then MarkDeleted(old(tableData)[i]) else old(tableData)[i]
      ensures showTable == old(showTable) && showUpload == old(showUpload)
      ensures showFilter == old(showFilter) && sSelKey == old(sSelKey)
      ensures filePath == old(filePath) && uploadBtnEnable == old(uploadBtnEnable)
      ensures oSelItem == old(oSelItem) && sSelItemPath == old(sSelItemPath) && sDialogTitle == old(sDialogTitle)
    {
      if |selected| < 1 {
        return NothingSelected;
      }
      var rows := tableData;
      for n := 0 to |selected|
        invariant |rows| == |tableData|
        invariant forall i :: 0 <= i < |rows| ==>
          rows[i] == if i in selected[..n] then MarkDeleted(tableData[i]) else tableData[i]
      {
        var i := selected[n];
        assert selected[..n + 1] == selected[..n] + [i];
        rows := rows[i := MarkDeleted(rows[i])];
      }
      assert selected[..|selected|] == selected;
      tableData := rows;
      toast := DeletedToast;
      UpdateCount();
    }

    /**
     * onRecordSavePress: a success box when some row is live, an error box
     * otherwise; closing the box resets the table and upload sections.
     */
    method RecordSavePress() returns (kind: MessageKind, text: string)
      modifies this
      ensures kind == SuccessBox <==> exists i :: 0 <= i < |old(tableData)| && Live(old(tableData)[i])
      ensures text == (if kind == SuccessBox then SavedMessage else NoRecordMessage)
      ensures tableData == [] && count == 0 && !showTable
      ensures showUpload && filePath == "" && !uploadBtnEnable
      ensures showFilter == old(showFilter) && sSelKey == old(sSelKey)
      ensures oSelItem == old(oSelItem) && sSelItemPath == old(sSelItemPath) && sDialogTitle == old(sDialogTitle)
    {
      var remaining := LiveRows(tableData);
      LiveRowsEmptyIff(tableData);
      kind := if |remaining| > 0 then SuccessBox else ErrorBox;
      text := if |remaining| > 0 then SavedMessage else NoRecordMessage;
      ResetBoth();
    }

    /**
     * onAddPress: a blank row of the selected kind to edit, aimed at the path
     * one past the last row, with Employee ID one more than the row count.
     */
    method AddPress()
      modifies this
      ensures oSelItem == if sSelKey == "E" then NewEmployeeRow(|tableData| + 1) else NewProductRow()
      ensures sSelItemPath == RowPath(|tableData|) && sDialogTitle == "Add Details"
      ensures tableData == old(tableData) && count == old(count) && sSelKey == old(sSelKey)
      ensures showTable == old(showTable) && showUpload == old(showUpload) && showFilter == old(showFilter)
      ensures filePath == old(filePath) && uploadBtnEnable == old(uploadBtnEnable)
    {
      var iRows := |tableData|;
      oSelItem := if sSelKey == "E" then NewEmployeeRow(iRows + 1) else NewProductRow();
      sSelItemPath := "/tableData/" + NatToString(iRows);
      sDialogTitle := "Add Details";
    }

    /**
     * onSaveEditDialog: the trimmed row is written at the dialog's row path,
     * which replaces a row or, one past the end, appends one.
     */
    method SaveEditDialog()
      requires RowIndex(sSelItemPath).Some? && RowIndex(sSelItemPath).value <= |tableData|
      modifies this
      ensures RowIndex(old(sSelItemPath)).value < |old(tableData)| ==>
        tableData == old(tableData)[RowIndex(old(sSelItemPath)).value := TrimValues(old(oSelItem))]
      ensures RowIndex(old(sSelItemPath)).value == |old(tableData)| ==>
        tableData == old(tableData) + [TrimValues(old(oSelItem))]
      ensures count == old(count) && oSelItem == old(oSelItem) && sSelItemPath == old(sSelItemPath)
      ensures showTable == old(showTable) && showUpload == old(showUpload) && showFilter == old(showFilter)
      ensures filePath == old(filePath) && uploadBtnEnable == old(uploadBtnEnable)
      ensures sSelKey == old(sSelKey) && sDialogTitle == old(sDialogTitle)
    {
      var oNewData := TrimValues(oSelItem);
      var i := RowIndex(sSelItemPath).value;
      if i < |tableData| {
        tableData := tableData[i := oNewData];
      } else {
        tableData := tableData + [oNewData];
      }
    }
  }

  /** After a deletion with a selection, every selected row is out of the count and the count has not grown. */
  lemma DeletionCounts(before: seq<Record>, after: seq<Record>, selected: seq<nat>)
    requires |before| == |after|
    requires forall i :: 0 <= i < |after| ==> after[i] == if i in selected then MarkDeleted(before[i]) else before[i]
    ensures forall k :: 0 <= k < |selected| && selected[k] < |after| ==> after[selected[k]] !in LiveRows(after)
    ensures |LiveRows(after)| <= |LiveRows(before)|
  {
    LiveRowsShrink(before, after);
  }

  /** Trimming keeps a deleted row deleted: the mark "X" has no blanks to lose. */
  lemma TrimKeepsDeleted(o: Record)
    requires !Live(o)
    ensures !Live(TrimValues(o))
  {
    TrimUnchanged(DeletedMark);
  }
}
