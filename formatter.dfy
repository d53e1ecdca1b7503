/**
 * The view formatters of the application: value states for stock and
 * rating, text clean-ups for display, the date reordering, and the input
 * validators with the messages that go with them.
 */
module Formatter {
  import opened JsCore

  // UI5 value states, as the strings the views bind to.
  const StatusNone: string := "None"
  const StatusSuccess: string := "Success"
  const StatusWarning: string := "Warning"
  const StatusError: string := "Error"

  /** The severity order of the value states a threshold maps to. */
  function Rank(status: string): nat {
    if status == StatusError then 0 else if status == StatusWarning then 1 else 2
  }

  // ---------------------------------------------------------------------
  // stockStatusString

  /** stockStatusString: the value state for an availability text; anything not listed is None. */
  function StockStatusString(v: JsValue): (r: string)
    ensures r == StatusWarning <==> v == Str("Low Stock")
    ensures r == StatusSuccess <==> v == Str("In Stock")
    ensures r == StatusError <==> v == Str("Out of Stock")
    ensures r == StatusNone <==> v !in {Str("Low Stock"), Str("In Stock"), Str("Out of Stock")}
  {
    if v == Str("Low Stock") then StatusWarning
    else if v == Str("In Stock") then StatusSuccess
    else if v == Str("Out of Stock") then StatusError
    else StatusNone
  }

  // ---------------------------------------------------------------------
  // Thresholds

  /** stockStatus: the cases are tried in order, so exactly 30 falls through all of them. */
  function StockStatus(n: JsNumber): string {
    if n.Above(30.0) then StatusSuccess
    else if n.Below(30.0) && n.Above(10.0) then StatusWarning
    else if n.AtMost(10.0) then StatusError
    else StatusNone
  }

  /** The stock thresholds on a finite stock: above 30, strictly between 10 and 30, at most 10, and 30 itself. */
  lemma StockStatusThresholds(x: real)
    ensures StockStatus(Finite(x)) == StatusSuccess <==> x > 30.0
    ensures StockStatus(Finite(x)) == StatusWarning <==> 10.0 < x < 30.0
    ensures StockStatus(Finite(x)) == StatusError <==> x <= 10.0
    ensures StockStatus(Finite(x)) == StatusNone <==> x == 30.0
  {
  }

  /** Away from the gap at 30, a larger stock never gets a more severe state; NaN gets None. */
  lemma StockStatusMonotone(x: real, y: real)
    requires x <= y && x != 30.0 && y != 30.0
    ensures Rank(StockStatus(Finite(x))) <= Rank(StockStatus(Finite(y)))
    ensures StockStatus(NaN) == StatusNone
  {
  }

  /** ratingStatus: a switch(true) over the cases in order; 2 and 3.5 themselves match none. */
  function RatingStatus(n: JsNumber): string {
    if n.Above(3.5) then StatusSuccess
    else if n.Below(3.5) && n.Above(2.0) then StatusWarning
    else if n.Below(2.0) then StatusError
    else StatusNone
  }

  lemma RatingStatusThresholds(x: real)
    ensures RatingStatus(Finite(x)) == StatusSuccess <==> x > 3.5
    ensures RatingStatus(Finite(x)) == StatusWarning <==> 2.0 < x < 3.5
    ensures RatingStatus(Finite(x)) == StatusError <==> x < 2.0
    ensures RatingStatus(Finite(x)) == StatusNone <==> x == 2.0 || x == 3.5
  {
  }

  /** Away from the gaps at 2 and 3.5, a higher rating never gets a more severe state. */
  lemma RatingStatusMonotone(x: real, y: real)
    requires x <= y && x != 2.0 && y != 2.0 && x != 3.5 && y != 3.5
    ensures Rank(RatingStatus(Finite(x))) <= Rank(RatingStatus(Finite(y)))
  {
  }

  // ---------------------------------------------------------------------
  // firstLetterCaps

  /** firstLetterCaps: "" for a falsy value; None is the TypeError of a truthy non-string. */
  function FirstLetterCaps(v: JsValue): (r: Option<string>)
    ensures !Truthy(v) ==> r == Some("")
    ensures Truthy(v) && !v.Str? ==> r.None?
    ensures v.Str? ==> r.Some? && |r.value| == |v.s|
    ensures v.Str? && v.s != "" ==> r.value[0] == UpperChar(v.s[0]) && r.value[1..] == v.s[1..]
  {
    if !Truthy(v) then Some("")
    else if v.Str? then Some(Capitalize(v.s))
    else None
  }

  /** Capitalising twice changes nothing more. */
  lemma FirstLetterCapsIdempotent(s: string)
    requires FirstLetterCaps(Str(s)).Some?
    ensures FirstLetterCaps(Str(FirstLetterCaps(Str(s)).value)) == FirstLetterCaps(Str(s))
  {
    if s != "" {
      var c := s[0];
      assert UpperChar(UpperChar(c)) == UpperChar(c);
    }
  }

  // ---------------------------------------------------------------------
  // convertJoinToList

  /** `s.replaceAll("; ", "\n")`, scanning left to right. */
  function SemicolonsToLines(s: string): (r: string)
    ensures r != [] && r[0] == ' ' ==> s != [] && s[0] == ' '
    decreases |s|
  {
    if s == [] then []
    else if |s| >= 2 && s[0] == ';' && s[1] == ' ' then "\n" + SemicolonsToLines(s[2..])
    else [s[0]] + SemicolonsToLines(s[1..])
  }

  /** The reverse replacement, `s.replaceAll("\n", "; ")`. */
  function LinesToSemicolons(s: string): string
    decreases |s|
  {
    if s == [] then [] else (if s[0] == '\n' then "; " else [s[0]]) + LinesToSemicolons(s[1..])
  }

  predicate NoSemicolonSpace(s: string) {
    forall i :: 0 <= i < |s| - 1 ==> !(s[i] == ';' && s[i + 1] == ' ')
  }

  /** convertJoinToList: "" for a falsy value; None is the TypeError of a truthy non-string. */
  function ConvertJoinToList(v: JsValue): (r: Option<string>)
    ensures !Truthy(v) ==> r == Some("")
    ensures r.None? <==> Truthy(v) && !v.Str?
  {
    if !Truthy(v) then Some("")
    else if v.Str? then Some(SemicolonsToLines(v.s))
    else None
  }

  /** No "; " survives the replacement. */
  lemma {:induction false} ConvertJoinToListLeavesNone(s: string)
    ensures NoSemicolonSpace(SemicolonsToLines(s))
  {
    if s != [] {
      var r := SemicolonsToLines(s);
      if |s| >= 2 && s[0] == ';' && s[1] == ' ' {
        var t := SemicolonsToLines(s[2..]);
        ConvertJoinToListLeavesNone(s[2..]);
        assert r == "\n" + t;
        forall i | 0 <= i < |r| - 1
          ensures !(r[i] == ';' && r[i + 1] == ' ')
        {
          if i > 0 {
            assert r[i] == t[i - 1] && r[i + 1] == t[i];
          }
        }
      } else {
        var t := SemicolonsToLines(s[1..]);
        ConvertJoinToListLeavesNone(s[1..]);
        assert r == [s[0]] + t;
        forall i | 0 <= i < |r| - 1
          ensures !(r[i] == ';' && r[i + 1] == ' ')
        {
          if i > 0 {
            assert r[i] == t[i - 1] && r[i + 1] == t[i];
          }
        }
      }
    }
  }

  /** A text without line breaks comes back from its list form. */
  lemma {:induction false} ConvertJoinToListInverse(s: string)
    requires '\n' !in s
    ensures LinesToSemicolons(SemicolonsToLines(s)) == s
  {
    if s != [] {
      if |s| >= 2 && s[0] == ';' && s[1] == ' ' {
        ConvertJoinToListInverse(s[2..]);
        assert ("\n" + SemicolonsToLines(s[2..]))[1..] == SemicolonsToLines(s[2..]);
        assert s == "; " + s[2..];
      } else {
        ConvertJoinToListInverse(s[1..]);
        assert ([s[0]] + SemicolonsToLines(s[1..]))[1..] == SemicolonsToLines(s[1..]);
        assert s == [s[0]] + s[1..];
      }
    }
  }

  // ---------------------------------------------------------------------
  // dateFormatter

  /** A one-character day or month gets a leading zero. */
  function PadTwo(x: string): (r: string)
    ensures |x| == 1 ==> r == "0" + x
    ensures |x| != 1 ==> r == x
  {
    if |x| == 1 then "0" + x else x
  }

  /**
   * dateFormatter: "Y-M-D" becomes "D-M-Y"; "" for a falsy value. None is
   * the TypeError of a truthy non-string or of fewer than three parts.
   */
  function DateFormatter(v: JsValue): (r: Option<string>)
    ensures !Truthy(v) ==> r == Some("")
  {
    if !Truthy(v) then Some("")
    else if !v.Str? then None
    else
      var parts := Split(v.s, '-');
      if |parts| < 3 then None
      else Some(PadTwo(parts[2]) + "-" + PadTwo(parts[1]) + "-" + parts[0])
  }

  /** Year, month and day written with dashes come out as padded day, padded month, year. */
  lemma DateFormatterReorders(y: string, m: string, d: string)
    requires '-' !in y && '-' !in m && '-' !in d
    ensures DateFormatter(Str(y + "-" + m + "-" + d)) == Some(PadTwo(d) + "-" + PadTwo(m) + "-" + y)
  {
    SplitThree(y, m, d, '-');
    assert |y + "-" + m + "-" + d| > 0;
  }

  /** Three separator-free parts joined by the separator split back into those parts. */
  lemma SplitThree(x: string, y: string, z: string, c: char)
    requires c !in x && c !in y && c !in z
    ensures Split(x + [c] + y + [c] + z, c) == [x, y, z]
  {
    SplitFirst(y, c, z);
    SplitNoSeparator(z, c);
    assert x + [c] + y + [c] + z == x + [c] + (y + [c] + z);
    SplitFirst(x, c, y + [c] + z);
  }

  /** Formatting the formatted date again gives the input back with day and month zero-padded. */
  lemma DateFormatterTwice(y: string, m: string, d: string)
    requires '-' !in y && '-' !in m && '-' !in d && |y| != 1
    ensures DateFormatter(Str(y + "-" + m + "-" + d)).Some?
    ensures DateFormatter(Str(DateFormatter(Str(y + "-" + m + "-" + d)).value))
      == Some(y + "-" + PadTwo(m) + "-" + PadTwo(d))
  {
    DateFormatterReorders(y, m, d);
    var out := PadTwo(d) + "-" + PadTwo(m) + "-" + y;
    assert '-' !in PadTwo(d) && '-' !in PadTwo(m);
    assert out != "" && Truthy(Str(out));
    DateFormatterReorders(PadTwo(d), PadTwo(m), y);
    assert PadTwo(PadTwo(d)) == PadTwo(d) && PadTwo(PadTwo(m)) == PadTwo(m);
  }

  // ---------------------------------------------------------------------
  // Validators

  const EnterValidValue: string := "Please enter a valid value."
  const EnterValidStateCode: string := "Please enter valid state code."
  const FiveDigitsOnly: string := "Code should be 5 digits only."

  /** `v ?? ""` as a string; None is the TypeError that calling a string method on a non-string throws. */
  function TextOrEmpty(v: JsValue): (r: Option<string>)
    ensures IsNullish(v) ==> r == Some("")
    ensures v.Str? ==> r == Some(v.s)
    ensures r.None? <==> !IsNullish(v) && !v.Str?
  {
    match Coalesce(v, Str(""))
    case Str(s) => Some(s)
    case _ => None
  }

  /** `v.length`: a string's or an array's, undefined (None) for anything else. */
  function Length(v: JsValue): Option<nat> {
    match v
    case Str(s) => Some(|s|)
    case Arr(items) => Some(|items|)
    case _ => None
  }

  /** validateString */
  function ValidateString(v: JsValue): Option<string> {
    match TextOrEmpty(v)
    case None => None
    case Some(s) => Some(if Trim(s) == "" then StatusError else StatusNone)
  }

  /** validateStringText */
  function ValidateStringText(v: JsValue): Option<string> {
    match TextOrEmpty(v)
    case None => None
    case Some(s) => Some(if Trim(s) == "" then EnterValidValue else "")
  }

  /** A value is an error exactly when it is missing or all whitespace, and the message is shown exactly then. */
  lemma ValidateStringAgrees(v: JsValue)
    ensures ValidateString(v).Some? <==> ValidateStringText(v).Some?
    ensures ValidateString(v) == Some(StatusError)
      <==> IsNullish(v) || (v.Str? && AllWhitespace(v.s))
    ensures ValidateString(v) == Some(StatusError) <==> ValidateStringText(v).Some? && ValidateStringText(v).value != ""
  {
    if IsNullish(v) {
      assert TextOrEmpty(v) == Some("");
      assert Trim("") == "";
    } else if v.Str? {
      assert TextOrEmpty(v) == Some(v.s);
      TrimEmptyIff(v.s);
    } else {
      assert TextOrEmpty(v).None?;
    }
  }

  /** validateStateCode: the empty test is subsumed by the length test. */
  function ValidateStateCode(v: JsValue): Option<string> {
    match TextOrEmpty(v)
    case None => None
    case Some(s) => Some(if Trim(s) == "" || |Trim(s)| != 2 then StatusError else StatusNone)
  }

  /** validateStateCodeText */
  function ValidateStateCodeText(v: JsValue): Option<string> {
    match TextOrEmpty(v)
    case None => None
    case Some(s) => Some(if Trim(s) == "" || |Trim(s)| != 2 then EnterValidStateCode else "")
  }

  /** A state code is an error exactly when its trimmed length is not 2, and the message is shown exactly then. */
  lemma ValidateStateCodeAgrees(v: JsValue)
    requires TextOrEmpty(v).Some?
    ensures ValidateStateCode(v) == Some(StatusError) <==> |Trim(TextOrEmpty(v).value)| != 2
    ensures ValidateStateCode(v) == Some(StatusError) <==> ValidateStateCodeText(v) == Some(EnterValidStateCode)
    ensures ValidateStateCode(v) == Some(StatusNone) <==> ValidateStateCodeText(v) == Some("")
  {
  }

  /**
   * validatePincode, given number == Number(v ?? ""): an error for 0, for a
   * negative number, or for a length other than 5. A non-string has no
   * length, so it is an error too.
   */
  function ValidatePincode(v: JsValue, number: JsNumber): (r: string)
    ensures r == StatusError || r == StatusNone
  {
    if number.IsZero() || Length(Coalesce(v, Str(""))) != Some(5) || number.Below(0.0) then StatusError
    else StatusNone
  }

  /** validatePincodeText, given number == Number(v ?? ""). */
  function ValidatePincodeText(v: JsValue, number: JsNumber): string {
    if number.IsZero() || number.Below(0.0) then EnterValidValue
    else if Length(Coalesce(v, Str(""))) != Some(5) then FiveDigitsOnly
    else ""
  }

  /** The pincode state is an error exactly when a message is shown. */
  lemma ValidatePincodeAgrees(v: JsValue, number: JsNumber)
    ensures ValidatePincode(v, number) == StatusError <==> ValidatePincodeText(v, number) != ""
  {
  }

  /**
   * Five characters that are not a number (Number gives NaN, as for
   * "abcde") pass validatePincode, and so does a fraction such as "12.50".
   */
  lemma ValidatePincodeAcceptsNonIntegers()
    ensures ValidatePincode(Str("abcde"), NaN) == StatusNone
    ensures ValidatePincodeText(Str("abcde"), NaN) == ""
    ensures ValidatePincode(Str("12.50"), Finite(12.5)) == StatusNone
    ensures ValidatePincodeText(Str("12.50"), Finite(12.5)) == ""
  {
  }

  /**
   * The pincode rule the message "Code should be 5 digits only." and the
   * employee form's own postal-code check call for: an error unless the text
   * is 5 characters long and its number is a positive integer.
   */
  predicate PincodeInvalid(s: string, number: JsNumber) {
    !number.IsInteger() || number.AtMost(0.0) || |s| != 5
  }

  /** The corrected check rejects NaN and fractions, and agrees with validatePincode wherever the number is an integer. */
  lemma PincodeInvalidCorrectsValidatePincode(s: string, number: JsNumber)
    ensures number.NaN? ==> PincodeInvalid(s, number)
    ensures number.Finite? && !number.IsInteger() ==> PincodeInvalid(s, number)
    ensures number.IsInteger() ==> (PincodeInvalid(s, number) <==> ValidatePincode(Str(s), number) == StatusError)
  {
  }
}
