/**
 * The employee details page: editing a copy of the saved details, the
 * per-field validation run on every change (which keeps a list of the
 * paths currently in error), the "modified" flag, and the guard on save.
 */
module EmpDetails {
  import opened JsCore
  import Formatter

  // ---------------------------------------------------------------------
  // Binding paths

  /** Segment i of a split path; a missing one is undefined. */
  function Segment(parts: seq<string>, i: nat): (r: Option<string>)
    ensures r.Some? <==> i < |parts|
    ensures i < |parts| ==> r.value == parts[i]
  {
    if i < |parts| then Some(parts[i]) else None
  }

  /**
   * The property a binding path edits: segment 2, or for a path under
   * "company" or "address" the segment after it, skipping a nested
   * "address" segment.
   */
  function PropertyOf(sPath: string): Option<string> {
    var parts := Split(sPath, '/');
    var second := Segment(parts, 2);
    if second == Some("company") || second == Some("address") then
      if Segment(parts, 3) == Some("address") then Segment(parts, 4) else Segment(parts, 3)
    else second
  }

  /** Splitting a path built by joining segments on "/" gives the segments back. */
  lemma {:induction false} SplitJoin(segs: seq<string>)
    requires |segs| >= 1
    requires forall k :: 0 <= k < |segs| ==> '/' !in segs[k]
    ensures Split(Join(segs, "/"), '/') == segs
  {
    if |segs| > 1 {
      SplitJoin(segs[1..]);
      assert Join(segs, "/") == segs[0] + ['/'] + Join(segs[1..], "/");
      SplitFirst(segs[0], '/', Join(segs[1..], "/"));
      assert segs == [segs[0]] + segs[1..];
    } else {
      SplitNoSeparator(segs[0], '/');
    }
  }

  /** A top-level field path "/<root>/<p>" edits p. */
  lemma PropertyOfField(root: string, p: string)
    requires '/' !in root && '/' !in p
    requires p != "company" && p != "address"
    ensures PropertyOf(Join(["", root, p], "/")) == Some(p)
  {
    SplitJoin(["", root, p]);
  }

  /** A field under "company" or "address" edits the field itself. */
  lemma PropertyOfGroupField(root: string, group: string, p: string)
    requires '/' !in root && '/' !in group && '/' !in p
    requires group == "company" || group == "address"
    requires p != "address"
    ensures PropertyOf(Join(["", root, group, p], "/")) == Some(p)
  {
    assert '/' !in "company" && '/' !in "address";
    SplitJoin(["", root, group, p]);
  }

  /** A field of the company's address edits the field itself. */
  lemma PropertyOfCompanyAddressField(root: string, p: string)
    requires '/' !in root && '/' !in p
    ensures PropertyOf(Join(["", root, "company", "address", p], "/")) == Some(p)
  {
    assert '/' !in "company" && '/' !in "address";
    SplitJoin(["", root, "company", "address", p]);
  }

  /** The street of the personal address has no property name: the default rule applies to it. */
  lemma StreetHasNoPropertyName(root: string)
    requires '/' !in root
    ensures PropertyOf(Join(["", root, "address", "address"], "/")) == None
  {
    assert '/' !in "address";
    SplitJoin(["", root, "address", "address"]);
  }

  /** pat occurs in s at position j. */
  predicate MatchesAt(s: string, pat: string, j: nat) {
    j + |pat| <= |s| && s[j..j + |pat|] == pat
  }

  /** Index of the first occurrence of pat in s at or after i. */
  function IndexFrom(s: string, pat: string, i: nat): (r: Option<nat>)
    requires i <= |s|
    ensures r.Some? ==> i <= r.value && MatchesAt(s, pat, r.value)
    ensures r.Some? ==> forall j: nat :: i <= j < r.value ==> !MatchesAt(s, pat, j)
    ensures r.None? ==> forall j: nat :: i <= j ==> !MatchesAt(s, pat, j)
    decreases |s| - i
  {
    if i + |pat| > |s| then None
    else if s[i..i + |pat|] == pat then Some(i)
    else IndexFrom(s, pat, i + 1)
  }

  /** String.prototype.replace with a string pattern: only the first occurrence is replaced. */
  function ReplaceFirst(s: string, pat: string, rep: string): string {
    match IndexFrom(s, pat, 0)
    case None => s
    case Some(i) => s[..i] + rep + s[i + |pat|..]
  }

  /** `sPath.replace("newDetails", "details")`: the saved copy of an edited field. */
  function DetailPath(sPath: string): string {
    ReplaceFirst(sPath, "newDetails", "details")
  }

  /** An edit path under /newDetails names the same field under /details. */
  lemma DetailPathOfEditPath(rest: string)
    ensures DetailPath("/newDetails" + rest) == "/details" + rest
  {
    var s := "/newDetails" + rest;
    assert s[0..10] != "newDetails" by {
      assert s[0] == '/';
    }
    assert s[1..11] == "newDetails";
    assert !MatchesAt(s, "newDetails", 0) && MatchesAt(s, "newDetails", 1);
    assert IndexFrom(s, "newDetails", 0) == Some(1);
    assert s[11..] == rest;
  }

  // ---------------------------------------------------------------------
  // Reading the page model

  /** Reads keys one after another, stopping at an empty key or at a falsy value, which is then the result. */
  function Lookup(node: JsValue, keys: seq<string>): (r: JsValue)
    ensures keys == [] || keys[0] == "" || !Truthy(node) ==> r == node
    decreases |keys|
  {
    if keys == [] || keys[0] == "" || !Truthy(node) then node
    else Lookup(Member(node, keys[0]).value, keys[1..])
  }

  /**
   * JSONModel.getProperty without a binding context: an absolute path is
   * read from the model's data, a relative or empty one gives null.
   */
  function GetProperty(data: JsValue, path: string): JsValue {
    var parts := Split(path, '/');
    if path == "" || parts[0] != "" then Null else Lookup(data, parts[1..])
  }

  /** The data of the details model, as setDefaultData lays it out. */
  function Root(details: JsValue, isEditing: bool, isDataModified: bool, newDetails: JsValue,
                isModified: bool, aErrors: seq<string>): JsValue
  {
    Obj(map[
      "details" := details,
      "isEditing" := Bool(isEditing),
      "isDataModified" := Bool(isDataModified),
      "newDetails" := newDetails,
      "isModified" := Bool(isModified),
      "aErrors" := Arr(seq(|aErrors|, i requires 0 <= i < |aErrors| => Str(aErrors[i])))])
  }

  /** Reading "details" and then keys from the model's data reads keys from the saved details. */
  lemma LookupDetails(d: JsValue, e: bool, dm: bool, nd: JsValue, m: bool, errs: seq<string>, keys: seq<string>)
    ensures Lookup(Root(d, e, dm, nd, m, errs), ["details"] + keys) == Lookup(d, keys)
  {
    var root := Root(d, e, dm, nd, m, errs);
    assert Member(root, "details") == Some(d);
    assert (["details"] + keys)[1..] == keys;
  }

  /** The saved copy of the edit path "/newDetails/rest" is "/details/rest". */
  lemma DetailPathOfFieldPath(rest: string)
    ensures DetailPath("/newDetails/" + rest) == "/" + "details" + "/" + rest
  {
    assert "/newDetails/" + rest == "/newDetails" + ("/" + rest);
    DetailPathOfEditPath("/" + rest);
    assert "/details" + ("/" + rest) == "/" + "details" + "/" + rest;
  }

  /** An absolute path "/root/rest" splits into "", root and the segments of rest. */
  lemma SplitAbsolute(root: string, rest: string)
    requires '/' !in root
    ensures Split("/" + root + "/" + rest, '/') == ["", root] + Split(rest, '/')
  {
    var tail := root + ['/'] + rest;
    assert Split("/" + root + "/" + rest, '/') == [[]] + Split(tail, '/') by {
      assert "/" + root + "/" + rest == [] + ['/'] + tail;
      SplitFirst([], '/', tail);
    }
    assert Split(tail, '/') == [root] + Split(rest, '/') by {
      SplitFirst(root, '/', rest);
    }
  }

  /** The saved-details path of an edit path "/newDetails/k1/.../kn" splits into "", "details", k1, ..., kn. */
  lemma SplitDetailPath(keys: seq<string>)
    requires |keys| >= 1
    requires forall k :: 0 <= k < |keys| ==> '/' !in keys[k]
    ensures Split(DetailPath("/newDetails/" + Join(keys, "/")), '/') == ["", "details"] + keys
  {
    var j := Join(keys, "/");
    DetailPathOfFieldPath(j);
    assert '/' !in "details";
    SplitAbsolute("details", j);
    SplitJoin(keys);
  }

  /**
   * The saved value onValueChange compares with, for an edit path
   * "/newDetails/k1/.../kn" of non-empty "/"-free keys: the value at
   * k1/.../kn inside the saved details.
   */
  lemma SavedValueOfEditPath(d: JsValue, e: bool, dm: bool, nd: JsValue, m: bool, errs: seq<string>, keys: seq<string>)
    requires |keys| >= 1
    requires forall k :: 0 <= k < |keys| ==> keys[k] != "" && '/' !in keys[k]
    ensures GetProperty(Root(d, e, dm, nd, m, errs), DetailPath("/newDetails/" + Join(keys, "/"))) == Lookup(d, keys)
  {
    var path := DetailPath("/newDetails/" + Join(keys, "/"));
    SplitDetailPath(keys);
    assert path != "" by {
      assert Split("", '/') == [""];
    }
    assert (["", "details"] + keys)[1..] == ["details"] + keys;
    LookupDetails(d, e, dm, nd, m, errs, keys);
  }

  /**
   * For a top-level text field p of the saved details, the value compared
   * by onValueChange differs exactly when the text differs from the saved
   * one.
   */
  lemma ModifiedAgainstSavedField(fields: map<string, JsValue>, e: bool, dm: bool, nd: JsValue, m: bool,
                                  errs: seq<string>, p: string, saved: string, t: string)
    requires p != "" && '/' !in p
    requires p in fields && fields[p] == Str(saved)
    ensures Str(t) != GetProperty(Root(Obj(fields), e, dm, nd, m, errs), DetailPath("/newDetails/" + p)) <==> t != saved
  {
    assert Join([p], "/") == p;
    SavedValueOfEditPath(Obj(fields), e, dm, nd, m, errs, [p]);
    assert Lookup(Obj(fields), [p]) == Str(saved) by {
      assert [p][1..] == [];
    }
  }

  // ---------------------------------------------------------------------
  // Validation

  /** Which rule of oValidations applies. */
  datatype Rule = PostalCodeRule | StateCodeRule | DefaultRule

  /** `oValidations[sProperty] || oValidations.default` */
  function RuleFor(property: Option<string>): (r: Rule)
    ensures r == PostalCodeRule <==> property == Some("postalCode")
    ensures r == StateCodeRule <==> property == Some("stateCode")
  {
    match property
    case Some("postalCode") => PostalCodeRule
    case Some("stateCode") => StateCodeRule
    case _ => DefaultRule
  }

  /** The rule applied to the trimmed value s, with `number` = Number(s). */
  function HasError(rule: Rule, s: string, number: JsNumber): bool {
    match rule
    case PostalCodeRule => Formatter.PincodeInvalid(s, number)
    case StateCodeRule => |s| != 2
    case DefaultRule => s == ""
  }

  /**
   * A postal code is valid only as exactly five characters reading as a
   * positive integer; a state code only as two characters; anything else
   * only when non-empty.
   */
  lemma ValidationRules(s: string, number: JsNumber)
    ensures !HasError(PostalCodeRule, s, number) <==> number.Finite? && number.IsInteger() && number.value > 0.0 && |s| == 5
    ensures !HasError(StateCodeRule, s, number) <==> |s| == 2
    ensures !HasError(DefaultRule, s, number) <==> |s| > 0
  {
  }

  // ---------------------------------------------------------------------
  // The error list

  /** `errors.filter((e) => e !== x)` */
  function RemoveAll(xs: seq<string>, x: string): (r: seq<string>)
    ensures forall y :: y in r <==> y in xs && y != x
    ensures |r| <= |xs|
  {
    if xs == [] then []
    else (if xs[0] == x then [] else [xs[0]]) + RemoveAll(xs[1..], x)
  }

  /** The aErrors update of onValueChange for path p. */
  function UpdateErrors(errors: seq<string>, p: string, hasError: bool): seq<string> {
    if hasError then (if p in errors then errors else errors + [p])
    else RemoveAll(errors, p)
  }

  /** After the update, p is listed exactly when it has an error, and every other path as before. */
  lemma UpdateErrorsMembers(errors: seq<string>, p: string, hasError: bool)
    ensures p in UpdateErrors(errors, p, hasError) <==> hasError
    ensures forall y :: y != p ==> (y in UpdateErrors(errors, p, hasError) <==> y in errors)
  {
  }

  lemma {:induction false} RemoveAllDistinct(xs: seq<string>, x: string)
    requires Distinct(xs)
    ensures Distinct(RemoveAll(xs, x))
  {
    if xs != [] {
      RemoveAllDistinct(xs[1..], x);
      assert xs[0] !in xs[1..];
    }
  }

  /** Removing p from the appended list undoes the append. */
  lemma {:induction false} RemoveAllAppend(xs: seq<string>, p: string)
    ensures RemoveAll(xs + [p], p) == RemoveAll(xs, p)
  {
    if xs == [] {
      assert RemoveAll([p], p) == [] + RemoveAll([], p) by {
        assert [p][1..] == [];
      }
    } else {
      assert (xs + [p])[1..] == xs[1..] + [p];
      RemoveAllAppend(xs[1..], p);
    }
  }

  lemma {:induction false} RemoveAllTwice(xs: seq<string>, p: string)
    ensures RemoveAll(RemoveAll(xs, p), p) == RemoveAll(xs, p)
  {
    if xs != [] {
      RemoveAllTwice(xs[1..], p);
      if xs[0] == p {
        assert RemoveAll(xs, p) == RemoveAll(xs[1..], p);
      } else {
        assert ([xs[0]] + RemoveAll(xs[1..], p))[1..] == RemoveAll(xs[1..], p);
      }
    }
  }

  /** A path is never listed twice, and the other paths keep their order. */
  lemma UpdateErrorsShape(errors: seq<string>, p: string, hasError: bool)
    ensures Distinct(errors) ==> Distinct(UpdateErrors(errors, p, hasError))
    ensures RemoveAll(UpdateErrors(errors, p, hasError), p) == RemoveAll(errors, p)
  {
    if Distinct(errors) && !hasError {
      RemoveAllDistinct(errors, p);
    }
    if hasError && p !in errors {
      RemoveAllAppend(errors, p);
    }
    if !hasError {
      RemoveAllTwice(errors, p);
    }
  }

  // ---------------------------------------------------------------------
  // The page model

  const CheckValuesMessage: string := "Please check all the entered values."

  class DetailsModel {
    var details: JsValue
    var isEditing: bool
    var isDataModified: bool
    var newDetails: JsValue
    var isModified: bool
    var aErrors: seq<string>

    /** No path is listed twice among the errors. */
    ghost predicate Valid()
      reads this
    {
      Distinct(aErrors)
    }

    /** setDefaultData */
    constructor ()
      ensures Valid()
      ensures details == Obj(map[]) && newDetails == Obj(map[])
      ensures !isEditing && !isDataModified && !isModified && aErrors == []
    {
      details := Obj(map[]);
      isEditing := false;
      isDataModified := false;
      newDetails := Obj(map[]);
      isModified := false;
      aErrors := [];
    }

    /** onClickEdit: editing starts on a copy of the saved details. */
    method ClickEdit()
      modifies this
      ensures isEditing && newDetails == old(details)
      ensures details == old(details) && isModified == old(isModified) && aErrors == old(aErrors)
      ensures isDataModified == old(isDataModified)
    {
      isEditing := true;
      newDetails := details;
    }

    /**
     * onClickSave: with errors listed, only a warning and nothing changes.
     * Otherwise the details are sent; when the request succeeds, editing
     * ends and the edited copy becomes the saved details.
     */
    method ClickSave(requestSucceeded: bool) returns (warning: Option<string>)
      modifies this
      ensures |old(aErrors)| > 0 ==> warning == Some(CheckValuesMessage)
      ensures |old(aErrors)| > 0 || !requestSucceeded ==>
        details == old(details) && isEditing == old(isEditing) && isModified == old(isModified)
      ensures |old(aErrors)| == 0 ==> warning == None
      ensures |old(aErrors)| == 0 && requestSucceeded ==> !isEditing && !isModified && details == old(newDetails)
      ensures newDetails == old(newDetails) && aErrors == old(aErrors) && isDataModified == old(isDataModified)
    {
      if |aErrors| > 0 {
        return Some(CheckValuesMessage);
      }
      warning := None;
      if requestSucceeded {
        isEditing := false;
        isModified := false;
        details := newDetails;
      }
    }

    /**
     * onClickCancel: with unsaved changes, editing ends only once the user
     * confirms; without, it ends at once. The saved details stay as they are.
     */
    method ClickCancel(confirmed: bool)
      modifies this
      ensures isEditing == (old(isEditing) && old(isModified) && !confirmed)
      ensures isModified == (old(isModified) && !confirmed)
      ensures details == old(details) && newDetails == old(newDetails) && aErrors == old(aErrors)
      ensures isDataModified == old(isDataModified)
    {
      if isModified {
        if confirmed {
          isEditing := false;
          isModified := false;
        }
      } else {
        isEditing := false;
      }
    }

    /** The model's data. */
    function Data(): JsValue
      reads this
    {
      Root(details, isEditing, isDataModified, newDetails, isModified, aErrors)
    }

    /**
     * onValueChange for the field bound at sPath, with the typed value and
     * `number` = Number(value.trim()). The saved value is read at
     * DetailPath(sPath) after the error list was stored.
     */
    method ValueChange(sPath: string, value: string, number: JsNumber)
      requires Valid()
      modifies this
      ensures Valid()
      ensures aErrors == UpdateErrors(old(aErrors), sPath, HasError(RuleFor(PropertyOf(sPath)), Trim(value), number))
      ensures isModified == (old(isModified) ||
        Str(Trim(value)) != GetProperty(Root(details, isEditing, isDataModified, newDetails, old(isModified), aErrors), DetailPath(sPath)))
      ensures details == old(details) && newDetails == old(newDetails) && isEditing == old(isEditing)
      ensures isDataModified == old(isDataModified)
    {
      var bModified := isModified;
      var errors := aErrors;
      var sValue := Trim(value);
      var sProperty := PropertyOf(sPath);
      var hasError := HasError(RuleFor(sProperty), sValue, number);
      if hasError {
        if sPath !in errors {
          errors := errors + [sPath];
        }
      } else {
        errors := RemoveAll(errors, sPath);
      }
      UpdateErrorsShape(aErrors, sPath, hasError);
      aErrors := errors;
      if !bModified && Str(sValue) != GetProperty(Data(), DetailPath(sPath)) {
        isModified := true;
      }
    }
  }

  /** A change leaves the path listed exactly when its rule fails, and never lists it twice. */
  lemma ValueChangeErrors(errors: seq<string>, sPath: string, value: string, number: JsNumber)
    requires Distinct(errors)
    ensures sPath in UpdateErrors(errors, sPath, HasError(RuleFor(PropertyOf(sPath)), Trim(value), number))
      <==> HasError(RuleFor(PropertyOf(sPath)), Trim(value), number)
    ensures Distinct(UpdateErrors(errors, sPath, HasError(RuleFor(PropertyOf(sPath)), Trim(value), number)))
  {
    var h := HasError(RuleFor(PropertyOf(sPath)), Trim(value), number);
    UpdateErrorsMembers(errors, sPath, h);
    UpdateErrorsShape(errors, sPath, h);
  }
}
