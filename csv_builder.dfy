/**
 * sap.ui.export.js.CSVBuilder: settings validation, cell escaping (trim,
 * byte order mark, formula-injection guard, truncation, RFC 4180 quoting),
 * row accumulation and the final UTF-8 payload with its byte order mark.
 */
module CsvBuilder {
  import opened JsCore
  import Rfc4180
  import Utf8

  /** Longest cell content written, before quoting. */
  const MaxCellLength: nat := 32760

  const CsvBlobType := "text/csv;charset=utf-8"
  const NotAnArrayMessage := "Column information must be in form of an Array"
  const EmptyColumnsMessage := "Column information must not be an empty array"
  const BadSeparatorMessage := "Separator must be a single character string"
  const BlobFailureMessage := "Failed to create CSV Blob"
  /** The message of the TypeError thrown when a property of null or undefined is read. */
  const TypeErrorMessage := "TypeError"

  const Crlf := "\r\n"

  // ---------------------------------------------------------------------
  // Settings

  datatype Settings = Settings(columns: seq<JsValue>, separator: char)

  /** The constructor's default parameter: an undefined separator becomes ",". */
  function SeparatorArgument(v: JsValue): (r: JsValue)
    ensures v.Undefined? ==> r == Str(",")
    ensures !v.Undefined? ==> r == v
  {
    if v.Undefined? then Str(",") else v
  }

  /** validateSettings: the checks, in order, that the constructor runs before it stores anything. */
  function ValidateSettings(columns: JsValue, separator: JsValue): (r: Result<Settings>)
    ensures r.Success? <==> columns.Arr? && |columns.items| > 0 && separator.Str? && |separator.s| == 1
    ensures r.Success? ==> r.value == Settings(columns.items, separator.s[0])
    ensures !columns.Arr? ==> r == Failure(NotAnArrayMessage)
    ensures columns.Arr? && columns.items == [] ==> r == Failure(EmptyColumnsMessage)
    ensures columns.Arr? && columns.items != [] && !(separator.Str? && |separator.s| == 1) ==>
      r == Failure(BadSeparatorMessage)
  {
    if !columns.Arr? then Failure(NotAnArrayMessage)
    else if |columns.items| == 0 then Failure(EmptyColumnsMessage)
    else if !Truthy(separator) || !separator.Str? || |separator.s| != 1 then Failure(BadSeparatorMessage)
    else Success(Settings(columns.items, separator.s[0]))
  }

  // ---------------------------------------------------------------------
  // The formula guard

  predicate IsNumberChar(c: char) {
    IsDigit(c) || c == '.' || c == ','
  }

  /** Length of the leading run of digits, dots and commas. */
  function NumberRun(s: string): (k: nat)
    ensures k <= |s|
    ensures forall i :: 0 <= i < k ==> IsNumberChar(s[i])
    ensures k < |s| ==> !IsNumberChar(s[k])
  {
    if s != [] && IsNumberChar(s[0]) then 1 + NumberRun(s[1..]) else 0
  }

  predicate AllDigits(d: string) {
    forall i :: 0 <= i < |d| ==> IsDigit(d[i])
  }

  /** `e[+-]?\d+`, the letter in either case. */
  predicate IsExponent(e: string) {
    && |e| >= 2
    && (e[0] == 'e' || e[0] == 'E')
    && var d := if e[1] == '+' || e[1] == '-' then e[2..] else e[1..];
      d != [] && AllDigits(d)
  }

  /** The whole of s is `[\d.,]+(?:e[+-]?\d+)?`, read greedily. */
  predicate IsSafeNumber(s: string) {
    var k := NumberRun(s);
    k >= 1 && (k == |s| || IsExponent(s[k..]))
  }

  /** The pattern read with backtracking: some split of s into a mantissa of length k and an optional exponent. */
  predicate MatchesNumberAt(s: string, k: nat) {
    && 1 <= k <= |s|
    && (forall i :: 0 <= i < k ==> IsNumberChar(s[i]))
    && (k == |s| || IsExponent(s[k..]))
  }

  /** The greedy run reaches at least as far as any run of mantissa characters. */
  lemma {:induction false} NumberRunCovers(s: string, k: nat)
    requires k <= |s| && forall i :: 0 <= i < k ==> IsNumberChar(s[i])
    ensures NumberRun(s) >= k
  {
    if k > 0 {
      NumberRunCovers(s[1..], k - 1);
    }
  }

  /** Any split the pattern accepts is the greedy one: the exponent cannot start with a mantissa character. */
  lemma MatchIsGreedy(s: string, k: nat)
    requires MatchesNumberAt(s, k)
    ensures k == NumberRun(s)
  {
    NumberRunCovers(s, k);
    if k < |s| {
      assert s[k..][0] == s[k];
      assert !IsNumberChar(s[k]);
    }
  }

  /** Greedy reading and backtracking reading agree. */
  lemma SafeNumberMatchesPattern(s: string)
    ensures IsSafeNumber(s) <==> exists k: nat :: MatchesNumberAt(s, k)
  {
    if IsSafeNumber(s) {
      assert MatchesNumberAt(s, NumberRun(s));
    }
    if exists k: nat :: MatchesNumberAt(s, k) {
      var k: nat :| MatchesNumberAt(s, k);
      MatchIsGreedy(s, k);
    }
  }

  predicate IsFormulaStart(c: char) {
    c == '=' || c == '+' || c == '-' || c == '@'
  }

  /** rFormula: starts with = + - @ and is not followed by a number-only remainder. */
  predicate IsFormula(s: string) {
    |s| >= 1 && IsFormulaStart(s[0]) && !IsSafeNumber(s[1..])
  }

  function GuardFormula(s: string): (r: string)
    ensures IsFormula(s) ==> r == "'" + s
    ensures !IsFormula(s) ==> r == s
  {
    if IsFormula(s) then "'" + s else s
  }

  /** A guarded value is never a formula, so the guard adds at most one apostrophe. */
  lemma GuardFormulaIdempotent(s: string)
    ensures !IsFormula(GuardFormula(s))
    ensures GuardFormula(GuardFormula(s)) == GuardFormula(s)
  {
  }

  /** Number-only values with a leading sign stay as they are: "-5", "-1,234.5", even "-.,". */
  lemma SafeNumberExamples()
    ensures !IsFormula("-5") && !IsFormula("-1,234.5") && !IsFormula("-.,")
  {
    NumberCharsSafe("5");
    NumberCharsSafe("1,234.5");
    NumberCharsSafe(".,");
  }

  /** A number with an exponent after "=" stays as it is: "=1.2E5". */
  lemma SafeExponentExample()
    ensures !IsFormula("=1.2E5")
  {
    var e := "1.2E5";
    assert !IsNumberChar(e[3]);
    assert NumberRun(e) == 3;
    assert e[3..] == "E5" && AllDigits("5");
  }

  /** A nonempty run of digits, dots and commas is a safe number. */
  lemma NumberCharsSafe(s: string)
    requires |s| >= 1 && forall i :: 0 <= i < |s| ==> IsNumberChar(s[i])
    ensures IsSafeNumber(s)
  {
  }

  /** "=SUM(A1)", a bare "-" and a dangling exponent "+1e" are guarded with exactly one apostrophe. */
  lemma FormulaExamples()
    ensures GuardFormula("=SUM(A1)") == "'=SUM(A1)" && GuardFormula("-") == "'-" && GuardFormula("+1e") == "'+1e"
  {
    assert NumberRun("SUM(A1)") == 0;
    assert NumberRun("") == 0;
    assert NumberRun("1e") == 1 && "1e"[1..] == "e";
  }

  // ---------------------------------------------------------------------
  // Escaping one cell

  function StripBom(s: string): (r: string)
    ensures |s| > 0 && s[0] == '\U{FEFF}' ==> r == s[1..]
    ensures !(|s| > 0 && s[0] == '\U{FEFF}') ==> r == s
  {
    if |s| > 0 && s[0] == '\U{FEFF}' then s[1..] else s
  }

  /** U+FEFF is ECMAScript whitespace, so after trim there is never a byte order mark left to strip. */
  lemma BomStripUnreachable(v: string)
    ensures StripBom(Trim(v)) == Trim(v)
  {
    TrimEnds(v);
  }

  function Truncate(s: string): (r: string)
    ensures |r| <= MaxCellLength
    ensures |s| <= MaxCellLength ==> r == s
    ensures |s| > MaxCellLength ==> r == s[..MaxCellLength]
  {
    if |s| > MaxCellLength then s[..MaxCellLength] else s
  }

  /** The cell content before quoting: trimmed, byte order mark removed, guarded, truncated. */
  function PreQuote(v: string): string {
    Truncate(GuardFormula(StripBom(Trim(v))))
  }

  /** What the content regex built in the constructor looks for, plus the indexOf test for the separator. */
  predicate NeedsQuoting(sep: char, s: string) {
    sep in s || '\r' in s || '\n' in s || '"' in s || '\t' in s
  }

  function QuoteIfNeeded(sep: char, s: string): (r: string)
    ensures r == s <==> !NeedsQuoting(sep, s)
    ensures NeedsQuoting(sep, s) ==> r == Rfc4180.Enclose(s)
  {
    if NeedsQuoting(sep, s) then Rfc4180.Enclose(s) else s
  }

  /** escapeContent */
  function EscapeContent(sep: char, v: string): (r: string)
    ensures v == "" ==> r == ""
  {
    if v == "" then v else QuoteIfNeeded(sep, PreQuote(v))
  }

  /** The cell value before quoting, as getValue sees it: null and undefined read as "". */
  function PreCell(v: JsValue): string {
    if IsNullish(v) then "" else PreQuote(ToJsString(v))
  }

  /** The cell before quoting: at most 32,760 characters, a prefix of the guarded trimmed value, and an apostrophe exactly in front of a formula. */
  lemma PreQuoteShape(v: string)
    ensures var t := Trim(v); var p := PreQuote(v);
      && |p| <= MaxCellLength
      && (IsFormula(t) ==> p == Truncate("'" + t))
      && (!IsFormula(t) ==> p == Truncate(t))
      && p == GuardFormula(t)[..|p|]
      && (|GuardFormula(t)| > MaxCellLength ==> |p| == MaxCellLength)
  {
    BomStripUnreachable(v);
  }

  /** Every written cell is a correct RFC 4180 field for its pre-quoting value, provided the separator is not '"'. */
  lemma EscapedCellEncodes(sep: char, v: string)
    requires sep != '"'
    ensures Rfc4180.Encodes(EscapeContent(sep, v), if v == "" then "" else PreQuote(v), sep)
  {
  }

  // ---------------------------------------------------------------------
  // Rows

  /** getValue: None is the TypeError of reading a property of a null or undefined record. */
  function GetValue(sep: char, rec: JsValue, key: string): (r: Option<string>)
    ensures r.None? <==> IsNullish(rec)
    ensures r.Some? && IsNullish(Member(rec, key).value) ==> r.value == ""
    ensures r.Some? && !IsNullish(Member(rec, key).value) ==>
      r.value == EscapeContent(sep, ToJsString(Member(rec, key).value))
  {
    match Member(rec, key)
    case None => None
    case Some(v) => if IsNullish(v) then Some("") else Some(EscapeContent(sep, ToJsString(v)))
  }

  /** `col.property` of every column; None if some column is null or undefined. */
  function ColumnKeys(columns: seq<JsValue>): (r: Option<seq<string>>)
    ensures r.Some? <==> forall i :: 0 <= i < |columns| ==> !IsNullish(columns[i])
    ensures r.Some? ==> |r.value| == |columns|
  {
    if forall i :: 0 <= i < |columns| ==> !IsNullish(columns[i]) then
      Some(seq(|columns|, i requires 0 <= i < |columns| => ToJsString(OptionalMember(columns[i], "property"))))
    else None
  }

  /** The header line: the labels as Array.prototype.join renders them, joined by the separator, never escaped. */
  function HeaderLine(columns: seq<JsValue>, sep: char): (r: Option<string>)
    ensures r.Some? <==> forall i :: 0 <= i < |columns| ==> !IsNullish(columns[i])
  {
    if forall i :: 0 <= i < |columns| ==> !IsNullish(columns[i]) then
      var labels := seq(|columns|, i requires 0 <= i < |columns| =>
        var l := OptionalMember(columns[i], "label"); if IsNullish(l) then "" else ToJsString(l));
      Some(Join(labels, [sep]))
    else None
  }

  function Cells(sep: char, keys: seq<string>, rec: JsValue): (r: seq<string>)
    requires !IsNullish(rec)
    ensures |r| == |keys|
    ensures forall i :: 0 <= i < |keys| ==> Some(r[i]) == GetValue(sep, rec, keys[i])
  {
    seq(|keys|, i requires 0 <= i < |keys| => GetValue(sep, rec, keys[i]).value)
  }

  function PreCells(keys: seq<string>, rec: JsValue): (r: seq<string>)
    requires !IsNullish(rec)
    ensures |r| == |keys|
  {
    seq(|keys|, i requires 0 <= i < |keys| => PreCell(Member(rec, keys[i]).value))
  }

  function Row(sep: char, keys: seq<string>, rec: JsValue): string
    requires !IsNullish(rec)
  {
    Join(Cells(sep, keys, rec), [sep])
  }

  /** Round trip: reading a written row as an RFC 4180 record gives one field per column, in column order, each the column's pre-quoting cell. */
  lemma RowReadsBack(sep: char, keys: seq<string>, rec: JsValue)
    requires sep != '"'
    requires |keys| >= 1 && !IsNullish(rec)
    ensures Rfc4180.ParseRecord(Row(sep, keys, rec), sep) == Some(PreCells(keys, rec))
  {
    var cs := Cells(sep, keys, rec);
    var ps := PreCells(keys, rec);
    forall i | 0 <= i < |keys|
      ensures Rfc4180.Encodes(cs[i], ps[i], sep)
    {
      var v := Member(rec, keys[i]).value;
      if !IsNullish(v) {
        EscapedCellEncodes(sep, ToJsString(v));
      }
    }
    Rfc4180.ParseJoinedRecord(cs, ps, sep);
  }

  /** Index of the first null or undefined record, or |data|. */
  function FirstNullish(data: seq<JsValue>): (n: nat)
    ensures n <= |data|
    ensures forall i :: 0 <= i < n ==> !IsNullish(data[i])
    ensures n < |data| ==> IsNullish(data[n])
  {
    if data == [] || IsNullish(data[0]) then 0 else 1 + FirstNullish(data[1..])
  }

  function Rows(sep: char, keys: seq<string>, data: seq<JsValue>): (r: seq<string>)
    requires forall i :: 0 <= i < |data| ==> !IsNullish(data[i])
    ensures |r| == |data|
  {
    if data == [] then []
    else Rows(sep, keys, data[..|data| - 1]) + [Row(sep, keys, data[|data| - 1])]
  }

  /** The first nullish record is at i when none comes before it. */
  lemma {:induction false} FirstNullishIs(data: seq<JsValue>, i: nat)
    requires i <= |data| && forall j :: 0 <= j < i ==> !IsNullish(data[j])
    requires i < |data| ==> IsNullish(data[i])
    ensures FirstNullish(data) == i
  {
    if i > 0 {
      FirstNullishIs(data[1..], i - 1);
    }
  }

  /** Writing one more record adds its row at the end. */
  lemma RowsAppend(sep: char, keys: seq<string>, data: seq<JsValue>, i: nat)
    requires i < |data| && forall j :: 0 <= j <= i ==> !IsNullish(data[j])
    ensures Rows(sep, keys, data[..i + 1]) == Rows(sep, keys, data[..i]) + [Row(sep, keys, data[i])]
  {
    assert data[..i + 1][..i] == data[..i];
  }

  /** The cells of the first k + 1 columns: those of the first k, then column k's. */
  lemma CellsStep(sep: char, keys: seq<string>, rec: JsValue, k: nat)
    requires !IsNullish(rec) && k < |keys|
    ensures Cells(sep, keys, rec)[..k + 1] == Cells(sep, keys, rec)[..k] + [GetValue(sep, rec, keys[k]).value]
  {
    var all := Cells(sep, keys, rec);
    assert Some(all[k]) == GetValue(sep, rec, keys[k]);
    PrefixStep(all, k);
  }

  /** One record of append: its cells pushed column by column, then joined by the separator. */
  method WriteRow(sep: char, keys: seq<string>, rec: JsValue) returns (row: Option<string>)
    requires |keys| >= 1
    ensures IsNullish(rec) ==> row.None?
    ensures !IsNullish(rec) ==> row == Some(Row(sep, keys, rec))
  {
    var cells: seq<string> := [];
    var k := 0;
    while k < |keys|
      invariant 0 <= k <= |keys|
      invariant !IsNullish(rec) ==> cells == Cells(sep, keys, rec)[..k]
      invariant IsNullish(rec) ==> k == 0
    {
      var v := GetValue(sep, rec, keys[k]);
      if v.None? {
        return None;
      }
      CellsStep(sep, keys, rec, k);
      cells := cells + [v.value];
      k := k + 1;
    }
    assert cells == Cells(sep, keys, rec);
    return Some(Join(cells, [sep]));
  }

  // ---------------------------------------------------------------------
  // The payload

  datatype Blob = Blob(bytes: seq<byte>, mimeType: string)

  /** Header, CRLF, then the rows joined by CRLF. */
  function CsvText(header: string, rows: seq<string>): string {
    header + Crlf + Join(rows, Crlf)
  }

  function Payload(header: string, rows: seq<string>): seq<byte> {
    Utf8.Bom + Utf8.Encode(CsvText(header, rows))
  }

  /** The payload is the byte order mark followed by well-formed UTF-8 that decodes to the CSV text. */
  lemma PayloadLayout(header: string, rows: seq<string>)
    ensures var p := Payload(header, rows);
      |p| >= 3 && p[..3] == Utf8.Bom && Utf8.Decode(p[3..]) == Some(CsvText(header, rows))
  {
    var p := Payload(header, rows);
    assert p[3..] == Utf8.Encode(CsvText(header, rows));
    Utf8.DecodeEncode(CsvText(header, rows));
  }

  /** The header line ends with CRLF even without rows, and the text ends with the last row: nothing trails it. */
  lemma CsvTextEnds(header: string, rows: seq<string>)
    ensures rows == [] ==> CsvText(header, rows) == header + Crlf
    ensures rows != [] ==>
      var t := CsvText(header, rows); var last := rows[|rows| - 1];
      |last| <= |t| && t[|t| - |last|..] == last
    ensures |header + Crlf| <= |CsvText(header, rows)| && CsvText(header, rows)[..|header| + 2] == header + Crlf
  {
    var t := CsvText(header, rows);
    if rows != [] {
      JoinLast(rows, Crlf);
      var j := Join(rows, Crlf);
      var last := rows[|rows| - 1];
      assert t == (header + Crlf) + j;
      assert t[|t| - |last|..] == j[|j| - |last|..];
    } else {
      assert Join(rows, Crlf) == "";
    }
    assert t == (header + Crlf) + Join(rows, Crlf);
  }

  // ---------------------------------------------------------------------
  // The builder

  class Builder {
    const columns: seq<JsValue>
    const separator: char
    /** aCompleteData: one written row per appended record. */
    var rows: seq<string>

    ghost predicate Valid() {
      |columns| > 0
    }

    /** The constructor after validateSettings succeeded. */
    constructor (settings: Settings)
      requires |settings.columns| > 0
      ensures Valid()
      ensures columns == settings.columns && separator == settings.separator && rows == []
    {
      columns := settings.columns;
      separator := settings.separator;
      rows := [];
    }

    /**
     * append: one row per record, in order, after the rows already there. A
     * null or undefined column or record throws a TypeError (ok is false);
     * the rows of the records before it stay appended.
     */
    method Append(data: seq<JsValue>) returns (ok: bool)
      requires Valid()
      modifies this
      ensures Valid()
      ensures ColumnKeys(columns).None? ==> !ok && rows == old(rows)
      ensures ColumnKeys(columns).Some? ==>
        var n := FirstNullish(data);
        && (ok <==> n == |data|)
        && rows == old(rows) + Rows(separator, ColumnKeys(columns).value, data[..n])
    {
      var keys := ColumnKeys(columns);
      if keys.None? {
        return false;
      }
      var i := 0;
      while i < |data|
        invariant 0 <= i <= |data|
        invariant forall j :: 0 <= j < i ==> !IsNullish(data[j])
        invariant rows == old(rows) + Rows(separator, keys.value, data[..i])
      {
        var row := WriteRow(separator, keys.value, data[i]);
        if row.None? {
          FirstNullishIs(data, i);
          return false;
        }
        RowsAppend(separator, keys.value, data, i);
        rows := rows + [row.value];
        i := i + 1;
      }
      FirstNullishIs(data, i);
      assert data[..i] == data;
      return true;
    }

    /**
     * build: the byte order mark followed by the UTF-8 of the CSV text in a
     * fresh byte array; the Blob constructor's failure (a foreign outcome) is
     * reported as "Failed to create CSV Blob".
     */
    method Build(blobConstructible: bool) returns (r: Result<Blob>)
      requires Valid()
      ensures HeaderLine(columns, separator).None? ==> r == Failure(TypeErrorMessage)
      ensures HeaderLine(columns, separator).Some? && !blobConstructible ==> r == Failure(BlobFailureMessage)
      ensures HeaderLine(columns, separator).Some? && blobConstructible ==>
        r == Success(Blob(Payload(HeaderLine(columns, separator).value, rows), CsvBlobType))
    {
      var header := HeaderLine(columns, separator);
      if header.None? {
        return Failure(TypeErrorMessage);
      }
      var text := header.value + Crlf + Join(rows, Crlf);
      var data := Utf8.Encode(text);
      var content := new byte[|Utf8.Bom| + |data|];
      var i := 0;
      while i < |Utf8.Bom|
        invariant 0 <= i <= |Utf8.Bom|
        invariant forall j :: 0 <= j < i ==> content[j] == Utf8.Bom[j]
      {
        content[i] := Utf8.Bom[i];
        i := i + 1;
      }
      var k := 0;
      while k < |data|
        invariant 0 <= k <= |data|
        invariant forall j :: 0 <= j < |Utf8.Bom| ==> content[j] == Utf8.Bom[j]
        invariant forall j :: 0 <= j < k ==> content[|Utf8.Bom| + j] == data[j]
      {
        content[|Utf8.Bom| + k] := data[k];
        k := k + 1;
      }
      assert content[..] == Utf8.Bom + data;
      if !blobConstructible {
        return Failure(BlobFailureMessage);
      }
      return Success(Blob(content[..], CsvBlobType));
    }
  }
}
