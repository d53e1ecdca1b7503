/**
 * The upload helpers of the application: the two column tables (employees and
 * products), the check that an uploaded sheet's header row matches the
 * expected field names, and the shaping of the remaining rows into records.
 */
module ExcelFileControl {
  import opened JsCore

  /** One export column: the header text and the record property it shows. */
  datatype Column = Column(heading: string, property: string)

  /** The expected upload header (fields) and the export columns of one source. */
  datatype Config = Config(fields: seq<string>, columns: seq<Column>)

  const EmployeeFields: seq<string> := [
    "Employee ID", "Name", "Age", "Gender", "Email", "Phone Number", "Date of Birth", "Blood Group",
    "Address", "Country", "SSN", "Role", "Designation", "Department", "Company", "Company Address"
  ]

  const EmployeeColumns: seq<Column> := [
    Column("Employee ID", "id"), Column("Name", "fullName"), Column("Age", "age"),
    Column("Gender", "gender"), Column("Email", "email"), Column("Phone Number", "phone"),
    Column("Date of Birth", "birthDate"), Column("Blood Group", "bloodGroup"),
    Column("Address", "personalAddress"), Column("Country", "address/country"), Column("SSN", "ssn"),
    Column("Role", "role"), Column("Designation", "company/title"),
    Column("Department", "company/department"), Column("Company", "company/name"),
    Column("Company Address", "companyAddress")
  ]

  const ProductFields: seq<string> := [
    "Product Name", "Description", "Brand", "Category", "Price", "Discount", "Rating", "Stock", "Tags",
    "Stock keeping unit", "Weight", "Dimensions (WxHxD)", "Warranty Details", "Shipping Information",
    "Availability", "Return Policy", "Minimum Order Quantity", "Barcode", "QR Code", "Images", "Thumbnail"
  ]

  const ProductColumns: seq<Column> := [
    Column("Product Name", "title"), Column("Description", "description"), Column("Brand", "brand"),
    Column("Category", "category"), Column("Price", "price"), Column("Discount", "discountPercentage"),
    Column("Rating", "rating"), Column("Stock", "stock"), Column("Tags", "tags"),
    Column("Stock keeping unit", "sku"), Column("Weight", "weight"), Column("Dimensions (WxHxD)", "prodDim"),
    Column("Warranty Details", "warrantyInformation"), Column("Shipping Information", "shippingInformation"),
    Column("Availability", "availabilityStatus"), Column("Return Policy", "returnPolicy"),
    Column("Minimum Order Quantity", "minimumOrderQuantity"), Column("Barcode", "meta/barcode"),
    Column("QR Code", "meta/qrCode"), Column("Images", "images"), Column("Thumbnail", "thumbnail")
  ]

  const Employees: Config := Config(EmployeeFields, EmployeeColumns)
  const Products: Config := Config(ProductFields, ProductColumns)

  /** getConfig: the table named by the source, and the employees table for any other name. */
  function GetConfig(source: string): (c: Config)
    ensures c == Employees || c == Products
    ensures c == Products <==> source == "Products"
  {
    if source == "Products" then Products else Employees
  }

  function Labels(cs: seq<Column>): (r: seq<string>)
    ensures |r| == |cs| && forall i :: 0 <= i < |cs| ==> r[i] == cs[i].heading
  {
    seq(|cs|, i requires 0 <= i < |cs| => cs[i].heading)
  }

  /** In both tables the export labels are the upload fields, in the same order. */
  lemma ConfigLabelsAreFields(source: string)
    ensures Labels(GetConfig(source).columns) == GetConfig(source).fields
  {
    var c := GetConfig(source);
    if c == Employees {
      assert |c.columns| == |c.fields| == 16;
      forall i | 0 <= i < 16
        ensures Labels(c.columns)[i] == c.fields[i]
      {
      }
    } else {
      assert |c.columns| == |c.fields| == 21;
      forall i | 0 <= i < 21
        ensures Labels(c.columns)[i] == c.fields[i]
      {
      }
    }
  }

  // ---------------------------------------------------------------------
  // validateData

  /** `a[i]` on an array: undefined past its end. */
  function ElementAt(a: seq<JsValue>, i: nat): (r: JsValue)
    ensures i >= |a| ==> r == Undefined
  {
    if i < |a| then a[i] else Undefined
  }

  /** `headers[i] !== fields[i]` is false: the header cell is that exact string. */
  predicate Matches(headers: seq<JsValue>, fields: seq<string>, i: nat)
    requires i < |fields|
  {
    ElementAt(headers, i) == Str(fields[i])
  }

  const EmptyFileMessage: string := "File is empty."

  /** The message for a wrong header cell; `found || ""` shows a falsy cell as nothing. */
  function MismatchMessage(expected: string, found: JsValue, column: nat): string {
    "Expected " + expected + " but found \"" + (if Truthy(found) then ToJsString(found) else "")
    + "\" at column " + NatToString(column)
  }

  /** The positions below n whose header cell is wrong, in ascending order. */
  function Mismatches(headers: seq<JsValue>, fields: seq<string>, n: nat): (r: seq<nat>)
    requires n <= |fields|
    ensures forall k :: 0 <= k < |r| ==> r[k] < n
  {
    if n == 0 then []
    else Mismatches(headers, fields, n - 1) + (if Matches(headers, fields, n - 1) then [] else [n - 1])
  }

  /** Every listed position is wrong. */
  lemma {:induction false} MismatchesAreWrong(headers: seq<JsValue>, fields: seq<string>, n: nat)
    requires n <= |fields|
    ensures forall k :: 0 <= k < |Mismatches(headers, fields, n)| ==>
      !Matches(headers, fields, Mismatches(headers, fields, n)[k])
  {
    if n > 0 {
      MismatchesAreWrong(headers, fields, n - 1);
      var r0 := Mismatches(headers, fields, n - 1);
      var r := Mismatches(headers, fields, n);
      if Matches(headers, fields, n - 1) {
        assert r == r0;
      } else {
        assert r == r0 + [n - 1];
        assert r[|r0|] == n - 1;
      }
    }
  }

  /** Every wrong position is listed. */
  lemma {:induction false} MismatchesComplete(headers: seq<JsValue>, fields: seq<string>, n: nat, i: nat)
    requires i < n <= |fields| && !Matches(headers, fields, i)
    ensures i in Mismatches(headers, fields, n)
  {
    var r0 := Mismatches(headers, fields, n - 1);
    if i < n - 1 {
      MismatchesComplete(headers, fields, n - 1, i);
      assert Mismatches(headers, fields, n)[..|r0|] == r0;
    } else {
      assert Mismatches(headers, fields, n) == r0 + [i];
    }
  }

  /** No position is listed exactly when every position matches. */
  lemma {:induction false} MismatchesEmptyIff(headers: seq<JsValue>, fields: seq<string>, n: nat)
    requires n <= |fields|
    ensures Mismatches(headers, fields, n) == [] <==> forall i :: 0 <= i < n ==> Matches(headers, fields, i)
  {
    if n > 0 {
      MismatchesEmptyIff(headers, fields, n - 1);
    }
  }

  /** The positions are listed in ascending order. */
  lemma {:induction false} MismatchesAscending(headers: seq<JsValue>, fields: seq<string>, n: nat)
    requires n <= |fields|
    ensures forall a, b :: 0 <= a < b < |Mismatches(headers, fields, n)| ==>
      Mismatches(headers, fields, n)[a] < Mismatches(headers, fields, n)[b]
  {
    if n > 0 {
      MismatchesAscending(headers, fields, n - 1);
      var r0 := Mismatches(headers, fields, n - 1);
      var r := Mismatches(headers, fields, n);
      if Matches(headers, fields, n - 1) {
        assert r == r0;
      } else {
        assert r == r0 + [n - 1];
        forall a, b | 0 <= a < b < |r|
          ensures r[a] < r[b]
        {
          if b == |r0| {
            assert r[a] == r0[a] < n - 1;
          }
        }
      }
    }
  }

  /** One message per wrong position, with its 1-based column number. */
  function MismatchErrors(headers: seq<JsValue>, fields: seq<string>, idx: seq<nat>): (r: seq<string>)
    requires forall k :: 0 <= k < |idx| ==> idx[k] < |fields|
    ensures |r| == |idx|
  {
    if idx == [] then []
    else
      var last := idx[|idx| - 1];
      MismatchErrors(headers, fields, idx[..|idx| - 1])
      + [MismatchMessage(fields[last], ElementAt(headers, last), last + 1)]
  }

  /** Message k names the expected field, the cell found and the 1-based column of position k. */
  lemma {:induction false} MismatchErrorsAt(headers: seq<JsValue>, fields: seq<string>, idx: seq<nat>, k: nat)
    requires forall j :: 0 <= j < |idx| ==> idx[j] < |fields|
    requires k < |idx|
    ensures MismatchErrors(headers, fields, idx)[k] == MismatchMessage(fields[idx[k]], ElementAt(headers, idx[k]), idx[k] + 1)
  {
    var init := idx[..|idx| - 1];
    if k < |init| {
      assert init[k] == idx[k];
      MismatchErrorsAt(headers, fields, init, k);
    }
  }

  /** The messages for the wrong header cells among the first n positions. */
  function ErrorsUpTo(headers: seq<JsValue>, fields: seq<string>, n: nat): seq<string>
    requires n <= |fields|
  {
    MismatchErrors(headers, fields, Mismatches(headers, fields, n))
  }

  /** Checking one more position adds its message at the end when its header cell is wrong. */
  lemma MismatchErrorsStep(headers: seq<JsValue>, fields: seq<string>, n: nat)
    requires n < |fields|
    ensures ErrorsUpTo(headers, fields, n + 1)
      == ErrorsUpTo(headers, fields, n)
      + (if ElementAt(headers, n) == Str(fields[n]) then [] else [MismatchMessage(fields[n], ElementAt(headers, n), n + 1)])
  {
    var before := Mismatches(headers, fields, n);
    if !Matches(headers, fields, n) {
      var after := before + [n];
      assert Mismatches(headers, fields, n + 1) == after;
      assert after[..|before|] == before && after[|before|] == n;
    } else {
      assert Mismatches(headers, fields, n + 1) == before + [] == before;
    }
  }

  /** Passed is the string "Success"; Failed the list of error objects, by their messages. */
  datatype Validation = Passed | Failed(messages: seq<string>)

  /** What validateData returns; rawData None is a null or undefined sheet. */
  function Validate(rawData: Option<seq<seq<JsValue>>>, source: string): Validation {
    if rawData.None? || |rawData.value| == 0 then Failed([EmptyFileMessage])
    else
      var fields := GetConfig(source).fields;
      var headers := rawData.value[0];
      var errors := ErrorsUpTo(headers, fields, |fields|);
      if |errors| > 0 then Failed(errors) else Passed
  }

  /** The forEach of validateData: one error per wrong header cell, in column order. */
  method CollectErrors(headers: seq<JsValue>, fields: seq<string>) returns (errors: seq<string>)
    ensures errors == ErrorsUpTo(headers, fields, |fields|)
  {
    errors := [];
    for index := 0 to |fields|
      invariant errors == ErrorsUpTo(headers, fields, index)
    {
      var expected := fields[index];
      var found := ElementAt(headers, index);
      MismatchErrorsStep(headers, fields, index);
      if found != Str(expected) {
        errors := errors + [MismatchMessage(expected, found, index + 1)];
      }
    }
  }

  /** validateData */
  method ValidateData(rawData: Option<seq<seq<JsValue>>>, source: string) returns (r: Validation)
    ensures r == Validate(rawData, source)
  {
    if rawData.None? || |rawData.value| == 0 {
      return Failed([EmptyFileMessage]);
    }
    var errors := CollectErrors(rawData.value[0], GetConfig(source).fields);
    r := if |errors| > 0 then Failed(errors) else Passed;
  }

  /** A non-empty sheet validates exactly when each expected field is the header cell at its position. */
  lemma ValidateSuccessIff(headers: seq<JsValue>, rest: seq<seq<JsValue>>, source: string)
    ensures Validate(Some([headers] + rest), source) == Passed
      <==> forall i :: 0 <= i < |GetConfig(source).fields| ==>
        ElementAt(headers, i) == Str(GetConfig(source).fields[i])
  {
    var fields := GetConfig(source).fields;
    var idx := Mismatches(headers, fields, |fields|);
    assert ([headers] + rest)[0] == headers;
    assert |MismatchErrors(headers, fields, idx)| == |idx|;
    MismatchesEmptyIff(headers, fields, |fields|);
    forall i | 0 <= i < |fields|
      ensures Matches(headers, fields, i) <==> ElementAt(headers, i) == Str(fields[i])
    {
    }
  }

  /** A position gets an error exactly when its header cell is wrong. */
  lemma MismatchesIff(headers: seq<JsValue>, fields: seq<string>, i: nat)
    requires i < |fields|
    ensures i in Mismatches(headers, fields, |fields|) <==> ElementAt(headers, i) != Str(fields[i])
  {
    var r := Mismatches(headers, fields, |fields|);
    if ElementAt(headers, i) != Str(fields[i]) {
      MismatchesComplete(headers, fields, |fields|, i);
    } else {
      MismatchesAreWrong(headers, fields, |fields|);
      assert forall k :: 0 <= k < |r| ==> r[k] != i;
    }
  }

  /** Header cells past the last expected field play no part. */
  lemma {:induction false} ExtraHeaderCellsIgnored(headers: seq<JsValue>, extra: seq<JsValue>, n: nat, fields: seq<string>)
    requires n <= |fields| <= |headers|
    ensures Mismatches(headers + extra, fields, n) == Mismatches(headers, fields, n)
  {
    if n > 0 {
      ExtraHeaderCellsIgnored(headers, extra, n - 1, fields);
      assert ElementAt(headers + extra, n - 1) == ElementAt(headers, n - 1);
    }
  }

  /** The header row of an exported sheet, the column labels, passes the upload check. */
  lemma LabelHeaderValidates(rest: seq<seq<JsValue>>, source: string)
    ensures var labels := Labels(GetConfig(source).columns);
      Validate(Some([seq(|labels|, i requires 0 <= i < |labels| => Str(labels[i]))] + rest), source) == Passed
  {
    var labels := Labels(GetConfig(source).columns);
    var headers := seq(|labels|, i requires 0 <= i < |labels| => Str(labels[i]));
    ConfigLabelsAreFields(source);
    ValidateSuccessIff(headers, rest, source);
  }

  // ---------------------------------------------------------------------
  // formatData

  const DeletedKey: string := "isDeleted"

  /** The keys of a formatted record: the fields, then the soft-delete flag. */
  function RecordKeys(source: string): seq<string> {
    GetConfig(source).fields + [DeletedKey]
  }

  /** `row[i] ?? ""` */
  function CellAt(row: seq<JsValue>, i: nat): (r: JsValue)
    ensures !IsNullish(r)
  {
    Coalesce(ElementAt(row, i), Str(""))
  }

  /** The object the reduce over keys builds from one row: key i set to cell i, later keys overwriting earlier ones. */
  function RowObject(row: seq<JsValue>, keys: seq<string>): (r: map<string, JsValue>)
    ensures r.Keys == set k | k in keys
    decreases |keys|
  {
    if keys == [] then map[]
    else RowObject(row, keys[..|keys| - 1])[keys[|keys| - 1] := CellAt(row, |keys| - 1)]
  }

  /** With distinct keys, key i holds cell i of the row. */
  lemma {:induction false} RowObjectValue(row: seq<JsValue>, keys: seq<string>, i: nat)
    requires Distinct(keys) && i < |keys|
    ensures RowObject(row, keys)[keys[i]] == CellAt(row, i)
  {
    var init := keys[..|keys| - 1];
    if i < |keys| - 1 {
      assert init[i] == keys[i];
      assert keys[i] != keys[|keys| - 1];
      RowObjectValue(row, init, i);
    }
  }

  /** Two strings told apart by their length or by their first or third character. */
  predicate Apart(a: string, b: string) {
    |a| != |b| || (|a| >= 3 && (a[0] != b[0] || a[2] != b[2]))
  }

  predicate PairwiseApart(keys: seq<string>) {
    forall i, j :: 0 <= i < j < |keys| ==> Apart(keys[i], keys[j])
  }

  lemma EmployeeKeysApart()
    ensures PairwiseApart(EmployeeFields + [DeletedKey])
  {
    var keys := EmployeeFields + [DeletedKey];
    assert |keys| == 17;
    forall i | 0 <= i < 17
      ensures |keys[i]| >= 3
    {
    }
    forall i, j | 0 <= i < j < 17
      ensures Apart(keys[i], keys[j])
    {
    }
  }

  lemma ProductKeysApart()
    ensures PairwiseApart(ProductFields + [DeletedKey])
  {
    var keys := ProductFields + [DeletedKey];
    assert |keys| == 22;
    forall i | 0 <= i < 22
      ensures |keys[i]| >= 3
    {
    }
    forall i, j | 0 <= i < j < 22
      ensures Apart(keys[i], keys[j])
    {
    }
  }

  /** The field names of each table and isDeleted are pairwise different. */
  lemma RecordKeysDistinct(source: string)
    ensures Distinct(RecordKeys(source))
  {
    if source == "Products" {
      ProductKeysApart();
    } else {
      EmployeeKeysApart();
    }
  }

  /** A formatted record has exactly the fields and isDeleted as keys, each holding its cell, or "" for a missing one. */
  lemma FormattedRecordShape(row: seq<JsValue>, source: string)
    ensures var keys := RecordKeys(source); var r := RowObject(row, keys);
      r.Keys == (set f | f in GetConfig(source).fields) + {DeletedKey}
      && forall i :: 0 <= i < |keys| ==> r[keys[i]] == CellAt(row, i)
  {
    var keys := RecordKeys(source);
    RecordKeysDistinct(source);
    forall i | 0 <= i < |keys|
      ensures RowObject(row, keys)[keys[i]] == CellAt(row, i)
    {
      RowObjectValue(row, keys, i);
    }
  }

  /** The reduce of formatData over the keys for one row. */
  method BuildRecord(row: seq<JsValue>, keys: seq<string>) returns (obj: map<string, JsValue>)
    ensures obj == RowObject(row, keys)
  {
    obj := map[];
    var i := 0;
    while i < |keys|
      invariant 0 <= i <= |keys|
      invariant obj == RowObject(row, keys[..i])
    {
      assert keys[..i + 1][..i] == keys[..i];
      obj := obj[keys[i] := CellAt(row, i)];
      i := i + 1;
    }
    assert keys[..|keys|] == keys;
  }

  /** formatData: drops the header row and turns each following row into a record, in order. */
  method FormatData(rawData: seq<seq<JsValue>>, source: string) returns (records: seq<map<string, JsValue>>)
    ensures |rawData| == 0 ==> records == []
    ensures |rawData| > 0 ==> |records| == |rawData| - 1
    ensures forall k :: 0 <= k < |records| ==> records[k] == RowObject(rawData[k + 1], RecordKeys(source))
  {
    var rows := if |rawData| == 0 then [] else rawData[1..];
    var keys := GetConfig(source).fields + [DeletedKey];
    records := [];
    var r := 0;
    while r < |rows|
      invariant 0 <= r <= |rows| && |records| == r
      invariant forall k :: 0 <= k < r ==> records[k] == RowObject(rows[k], keys)
    {
      var obj := BuildRecord(rows[r], keys);
      records := records + [obj];
      r := r + 1;
    }
  }
}
