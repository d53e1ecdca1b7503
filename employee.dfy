/**
 * The employee list page: the distinct values offered in its filter boxes,
 * the filter list a search builds from the selections, and the sort path a
 * column label selects.
 */
module Employee {
  import opened JsCore

  /** An employee as the list reads it: a plain object of named fields. */
  type Record = map<string, JsValue>

  // ---------------------------------------------------------------------
  // getEmpProperties

  /** `f2 ? employee[f1]?.[f2] : employee[f1]`; an empty f2 is falsy, like a missing one. */
  function RawValue(e: Record, f1: string, f2: string): (r: JsValue)
    ensures f2 == "" ==> r == (if f1 in e then e[f1] else Undefined)
    ensures f2 != "" && f1 in e && e[f1].Obj? && f2 in e[f1].fields ==> r == e[f1].fields[f2]
    ensures f2 != "" && (f1 !in e || IsNullish(e[f1])) ==> r == Undefined
  {
    var top := if f1 in e then e[f1] else Undefined;
    if f2 != "" then OptionalMember(top, f2) else top
  }

  /** The key an employee contributes: its field value, capitalised, when that is a non-empty string. */
  function KeyOf(e: Record, f1: string, f2: string): (r: Option<string>)
    ensures r.Some? <==> RawValue(e, f1, f2).Str? && RawValue(e, f1, f2).s != ""
    ensures r.Some? ==> r.value == Capitalize(RawValue(e, f1, f2).s) && |r.value| > 0
  {
    var raw := RawValue(e, f1, f2);
    if raw.Str? && |raw.s| > 0 then Some(Capitalize(raw.s)) else None
  }

  /** The keys of all employees, in list order, repeats included. */
  function Keys(employees: seq<Record>, f1: string, f2: string): seq<string> {
    if employees == [] then []
    else
      var init := Keys(employees[..|employees| - 1], f1, f2);
      match KeyOf(employees[|employees| - 1], f1, f2)
      case Some(k) => init + [k]
      case None => init
  }

  /** One entry of a filter box: `{ key: sVal, text: sVal }`. */
  datatype Item = Item(key: string, text: string)

  function Items(keys: seq<string>): (r: seq<Item>)
    ensures |r| == |keys| && forall i :: 0 <= i < |r| ==> r[i] == Item(keys[i], keys[i])
  {
    seq(|keys|, i requires 0 <= i < |keys| => Item(keys[i], keys[i]))
  }

  /** What getEmpProperties stores: one item per distinct key, in first-occurrence order. */
  function Properties(employees: seq<Record>, f1: string, f2: string): seq<Item> {
    Items(Dedup(Keys(employees, f1, f2)))
  }

  /** getEmpProperties: the loop that fills a Set of seen keys and the result list. */
  method GetEmpProperties(employees: seq<Record>, f1: string, f2: string) returns (result: seq<Item>)
    ensures result == Properties(employees, f1, f2)
  {
    var unique: set<string> := {};
    result := [];
    for n := 0 to |employees|
      invariant result == Items(Dedup(Keys(employees[..n], f1, f2)))
      invariant forall x :: x in unique <==> x in Keys(employees[..n], f1, f2)
    {
      ghost var before := Keys(employees[..n], f1, f2);
      assert employees[..n + 1][..n] == employees[..n];
      DedupMembers(before);
      var raw := RawValue(employees[n], f1, f2);
      if raw.Str? && |raw.s| > 0 {
        var sVal := Capitalize(raw.s);
        assert Keys(employees[..n + 1], f1, f2) == before + [sVal];
        assert (before + [sVal])[..|before|] == before;
        if sVal !in unique {
          unique := unique + {sVal};
          result := result + [Item(sVal, sVal)];
        }
      } else {
        assert Keys(employees[..n + 1], f1, f2) == before;
      }
    }
    assert employees[..|employees|] == employees;
  }

  /** Every listed key comes from some employee. */
  lemma {:induction false} KeysSound(employees: seq<Record>, f1: string, f2: string, x: string)
    requires x in Keys(employees, f1, f2)
    ensures exists k :: 0 <= k < |employees| && KeyOf(employees[k], f1, f2) == Some(x)
  {
    var n := |employees|;
    var init := employees[..n - 1];
    if x in Keys(init, f1, f2) {
      KeysSound(init, f1, f2, x);
      var k :| 0 <= k < |init| && KeyOf(init[k], f1, f2) == Some(x);
      assert employees[k] == init[k];
    } else {
      assert KeyOf(employees[n - 1], f1, f2) == Some(x);
    }
  }

  /** The key of every employee that has one is listed. */
  lemma {:induction false} KeysComplete(employees: seq<Record>, f1: string, f2: string, k: nat)
    requires k < |employees| && KeyOf(employees[k], f1, f2).Some?
    ensures KeyOf(employees[k], f1, f2).value in Keys(employees, f1, f2)
  {
    var n := |employees|;
    var init := employees[..n - 1];
    if k < n - 1 {
      assert init[k] == employees[k];
      KeysComplete(init, f1, f2, k);
    }
  }

  /** A key is listed exactly when some employee contributes it. */
  lemma KeysMembers(employees: seq<Record>, f1: string, f2: string, x: string)
    ensures x in Keys(employees, f1, f2) <==> exists k :: 0 <= k < |employees| && KeyOf(employees[k], f1, f2) == Some(x)
  {
    if x in Keys(employees, f1, f2) {
      KeysSound(employees, f1, f2, x);
    }
    if exists k :: 0 <= k < |employees| && KeyOf(employees[k], f1, f2) == Some(x) {
      var k :| 0 <= k < |employees| && KeyOf(employees[k], f1, f2) == Some(x);
      KeysComplete(employees, f1, f2, k);
    }
  }

  /** No key appears twice in a filter box. */
  lemma PropertiesDistinct(employees: seq<Record>, f1: string, f2: string)
    ensures forall i, j :: 0 <= i < j < |Properties(employees, f1, f2)| ==>
      Properties(employees, f1, f2)[i].key != Properties(employees, f1, f2)[j].key
  {
    DedupDistinct(Keys(employees, f1, f2));
  }

  /** Every item is the capitalised non-empty value of some employee, as both key and text. */
  lemma PropertiesSound(employees: seq<Record>, f1: string, f2: string, i: nat)
    requires i < |Properties(employees, f1, f2)|
    ensures Properties(employees, f1, f2)[i].key == Properties(employees, f1, f2)[i].text
    ensures exists k :: 0 <= k < |employees| && KeyOf(employees[k], f1, f2) == Some(Properties(employees, f1, f2)[i].key)
  {
    var keys := Keys(employees, f1, f2);
    DedupIndexMember(keys, i);
    KeysMembers(employees, f1, f2, Dedup(keys)[i]);
  }

  /** Every employee with a non-empty string in the field is represented. */
  lemma PropertiesComplete(employees: seq<Record>, f1: string, f2: string, k: nat)
    requires k < |employees| && KeyOf(employees[k], f1, f2).Some?
    ensures exists i :: (0 <= i < |Properties(employees, f1, f2)| &&
      Properties(employees, f1, f2)[i] == Item(KeyOf(employees[k], f1, f2).value, KeyOf(employees[k], f1, f2).value))
  {
    var keys := Keys(employees, f1, f2);
    var x := KeyOf(employees[k], f1, f2).value;
    KeysMembers(employees, f1, f2, x);
    DedupMembers(keys);
    var i :| 0 <= i < |Dedup(keys)| && Dedup(keys)[i] == x;
    assert Properties(employees, f1, f2)[i] == Item(x, x);
  }

  /** Items come in the order in which their keys first occur among the employees. */
  lemma PropertiesInFirstOccurrenceOrder(employees: seq<Record>, f1: string, f2: string, i: nat, j: nat)
    requires i < j < |Properties(employees, f1, f2)|
    ensures Properties(employees, f1, f2)[i].key in Keys(employees, f1, f2)
    ensures Properties(employees, f1, f2)[j].key in Keys(employees, f1, f2)
    ensures FirstIndex(Keys(employees, f1, f2), Properties(employees, f1, f2)[i].key)
          < FirstIndex(Keys(employees, f1, f2), Properties(employees, f1, f2)[j].key)
  {
    DedupFirstOccurrenceOrder(Keys(employees, f1, f2), i, j);
  }

  // ---------------------------------------------------------------------
  // onFilterSearch

  datatype FilterOperator = EQ

  /** `new Filter({ path, operator, value1 })` */
  datatype Filter = Filter(path: string, operator: FilterOperator, value1: string)

  const DesignationPath: string := "company/title"
  const DepartmentPath: string := "company/department"
  const RolePath: string := "role"
  const OrganizationPath: string := "company/name"
  const GenderPath: string := "gender"

  /** One EQ filter on path per selected key, in selection order. */
  function KeyFilters(path: string, keys: seq<string>): (r: seq<Filter>)
    ensures |r| == |keys| && forall k :: 0 <= k < |r| ==> r[k] == Filter(path, EQ, keys[k])
  {
    seq(|keys|, k requires 0 <= k < |keys| => Filter(path, EQ, keys[k]))
  }

  /** The gender filter, present for a truthy (nonzero) selection. */
  function GenderFilters(gender: int): (r: seq<Filter>) {
    if gender != 0 then [Filter(GenderPath, EQ, if gender == 1 then "male" else "female")] else []
  }

  /** The filter list onFilterSearch hands to the table binding. */
  function SearchFilters(desg: seq<string>, dept: seq<string>, org: seq<string>, role: seq<string>, gender: int): seq<Filter> {
    KeyFilters(DesignationPath, desg) + KeyFilters(DepartmentPath, dept) + KeyFilters(RolePath, role)
      + KeyFilters(OrganizationPath, org) + GenderFilters(gender)
  }

  /** `keys.map((sKey) => aFilters.push(new Filter(...)))` */
  method PushKeyFilters(aFilters: seq<Filter>, path: string, keys: seq<string>) returns (r: seq<Filter>)
    ensures r == aFilters + KeyFilters(path, keys)
  {
    r := aFilters;
    for n := 0 to |keys|
      invariant r == aFilters + KeyFilters(path, keys[..n])
    {
      assert KeyFilters(path, keys[..n + 1]) == KeyFilters(path, keys[..n]) + [Filter(path, EQ, keys[n])];
      r := r + [Filter(path, EQ, keys[n])];
    }
    assert keys[..|keys|] == keys;
  }

  /** onFilterSearch's construction of aFilters. */
  method FilterSearch(desg: seq<string>, dept: seq<string>, org: seq<string>, role: seq<string>, gender: int)
    returns (aFilters: seq<Filter>)
    ensures aFilters == SearchFilters(desg, dept, org, role, gender)
  {
    aFilters := [];
    ghost var expected := KeyFilters(DesignationPath, desg);
    if |desg| > 0 {
      aFilters := PushKeyFilters(aFilters, DesignationPath, desg);
    }
    assert aFilters == expected;
    expected := expected + KeyFilters(DepartmentPath, dept);
    if |dept| > 0 {
      aFilters := PushKeyFilters(aFilters, DepartmentPath, dept);
    }
    assert aFilters == expected;
    expected := expected + KeyFilters(RolePath, role);
    if |role| > 0 {
      aFilters := PushKeyFilters(aFilters, RolePath, role);
    }
    assert aFilters == expected;
    expected := expected + KeyFilters(OrganizationPath, org);
    if |org| > 0 {
      aFilters := PushKeyFilters(aFilters, OrganizationPath, org);
    }
    assert aFilters == expected;
    assert SearchFilters(desg, dept, org, role, gender) == expected + GenderFilters(gender);
    if gender != 0 {
      aFilters := aFilters + [Filter(GenderPath, EQ, if gender == 1 then "male" else "female")];
    }
  }

  /** One filter per selected key, plus one for a nonzero gender; every filter is an equality. */
  lemma SearchFiltersCount(desg: seq<string>, dept: seq<string>, org: seq<string>, role: seq<string>, gender: int)
    ensures |SearchFilters(desg, dept, org, role, gender)| ==
      |desg| + |dept| + |role| + |org| + (if gender != 0 then 1 else 0)
    ensures forall k :: 0 <= k < |SearchFilters(desg, dept, org, role, gender)| ==>
      SearchFilters(desg, dept, org, role, gender)[k].operator == EQ
  {
  }

  /** The filters come grouped: designation, department, role, organisation, each in selection order, then gender. */
  lemma SearchFiltersGroups(desg: seq<string>, dept: seq<string>, org: seq<string>, role: seq<string>, gender: int)
    ensures SearchFilters(desg, dept, org, role, gender)[..|desg|] == KeyFilters(DesignationPath, desg)
    ensures SearchFilters(desg, dept, org, role, gender)[|desg|..|desg| + |dept|] == KeyFilters(DepartmentPath, dept)
    ensures SearchFilters(desg, dept, org, role, gender)[|desg| + |dept|..|desg| + |dept| + |role|] == KeyFilters(RolePath, role)
    ensures SearchFilters(desg, dept, org, role, gender)[|desg| + |dept| + |role|..|desg| + |dept| + |role| + |org|]
      == KeyFilters(OrganizationPath, org)
    ensures SearchFilters(desg, dept, org, role, gender)[|desg| + |dept| + |role| + |org|..] == GenderFilters(gender)
  {
    var a := KeyFilters(DesignationPath, desg);
    var b := KeyFilters(DepartmentPath, dept);
    var c := KeyFilters(RolePath, role);
    var d := KeyFilters(OrganizationPath, org);
    var g := GenderFilters(gender);
    Slices5(a, b, c, d, g);
  }

  /** The five parts of a concatenation, sliced back out. */
  lemma Slices5<T>(a: seq<T>, b: seq<T>, c: seq<T>, d: seq<T>, g: seq<T>)
    ensures var r := a + b + c + d + g;
      && r[..|a|] == a
      && r[|a|..|a| + |b|] == b
      && r[|a| + |b|..|a| + |b| + |c|] == c
      && r[|a| + |b| + |c|..|a| + |b| + |c| + |d|] == d
      && r[|a| + |b| + |c| + |d|..] == g
  {
    var r := a + b + c + d + g;
    assert r[..|a|] == a;
    assert r[|a|..|a| + |b|] == b;
    assert r[|a| + |b|..|a| + |b| + |c|] == c;
    assert r[|a| + |b| + |c|..|a| + |b| + |c| + |d|] == d;
    assert r[|a| + |b| + |c| + |d|..] == g;
  }

  /** There is a gender filter exactly for a nonzero selection; it asks for "male" exactly for 1. */
  lemma SearchFiltersGender(desg: seq<string>, dept: seq<string>, org: seq<string>, role: seq<string>, gender: int)
    ensures (exists k :: (0 <= k < |SearchFilters(desg, dept, org, role, gender)| &&
      SearchFilters(desg, dept, org, role, gender)[k].path == GenderPath)) <==> gender != 0
    ensures gender != 0 ==>
      SearchFilters(desg, dept, org, role, gender)[|desg| + |dept| + |role| + |org|] ==
      Filter(GenderPath, EQ, if gender == 1 then "male" else "female")
  {
    var r := SearchFilters(desg, dept, org, role, gender);
    var n := |desg| + |dept| + |role| + |org|;
    forall k | 0 <= k < n
      ensures r[k].path != GenderPath
    {
      if k < |desg| {
        assert r[k].path == DesignationPath;
      } else if k < |desg| + |dept| {
        assert r[k].path == DepartmentPath;
      } else if k < |desg| + |dept| + |role| {
        assert r[k].path == RolePath;
      } else {
        assert r[k].path == OrganizationPath;
      }
    }
    if gender != 0 {
      assert r[n].path == GenderPath;
    }
  }

  // ---------------------------------------------------------------------
  // handleConfirm

  /** The model path a sort-dialog item sorts by. */
  function SortPath(item: string): (path: string)
    ensures path == "firstName" <==> item == "Name"
    ensures item != "Name" ==> |path| >= 8 && path[..8] == "company/"
  {
    if item == "Name" then "firstName"
    else if item == "Designation" then "company/title"
    else if item == "Organization" then "company/name"
    else
      var p := "company/" + ToLowerCase(item);
      assert p[0] != "firstName"[0];
      p
  }

  /** `new Sorter(path, bDesc)` */
  datatype Sorter = Sorter(path: string, descending: bool)

  /** handleConfirm: a sorter for a selected item, none without a selection. */
  function HandleConfirm(selected: Option<string>, descending: bool): (r: Option<Sorter>)
    ensures r.Some? <==> selected.Some?
    ensures r.Some? ==> r.value.descending == descending && r.value.path == SortPath(selected.value)
  {
    match selected
    case None => None
    case Some(item) => Some(Sorter(SortPath(item), descending))
  }

  /** Labels other than the three named ones sort by the lower-cased item under "company/". */
  lemma SortPathOtherLabels(item: string)
    requires item != "Name" && item != "Designation" && item != "Organization"
    ensures SortPath(item)[8..] == ToLowerCase(item)
    ensures |SortPath(item)| == 8 + |item|
  {
  }
}
