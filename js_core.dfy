/**
 * The small part of ECMAScript semantics that the modelled code relies on:
 * values and their truthiness, String() conversion, property access,
 * String.prototype.trim with the WhiteSpace and LineTerminator sets written
 * out, ASCII case mapping, integer <-> decimal text, split and join, and the
 * "keep the first occurrence" de-duplication that a Set gives.
 */
module JsCore {

  datatype Option<+T> = None | Some(value: T) {
    function GetOr(default: T): T {
      match this
      case Some(v) => v
      case None => default
    }
  }

  datatype Result<+T> = Success(value: T) | Failure(error: string)

  type byte = x: int | 0 <= x < 256

  /** An ECMAScript value, as far as the modelled code looks into it. */
  datatype JsValue =
    | Undefined
    | Null
    | Bool(b: bool)
    | Num(text: string)                 // a number, carried as the text String() gives for it
    | Str(s: string)
    | Arr(items: seq<JsValue>)
    | Obj(fields: map<string, JsValue>)

  /**
   * A Number as comparisons see it. Number() applied to text is not
   * interpreted here: callers receive its result as a parameter.
   */
  datatype JsNumber = NaN | Infinity(negative: bool) | Finite(value: real) {
    /** `n === 0` */
    predicate IsZero() {
      Finite? && value == 0.0
    }

    /** `n < c` for a finite c; false for NaN. */
    predicate Below(c: real) {
      (Finite? && value < c) || this == Infinity(true)
    }

    /** `n > c` for a finite c; false for NaN. */
    predicate Above(c: real) {
      (Finite? && value > c) || this == Infinity(false)
    }

    /** `n <= c` for a finite c; false for NaN. */
    predicate AtMost(c: real) {
      (Finite? && value <= c) || this == Infinity(true)
    }

    /** Number.isInteger */
    predicate IsInteger() {
      Finite? && value.Floor as real == value
    }
  }

  predicate IsNullish(v: JsValue) {
    v.Undefined? || v.Null?
  }

  /** ToBoolean. -0 renders as "0", so the falsy numbers are "0" and "NaN". */
  predicate Truthy(v: JsValue) {
    match v
    case Undefined => false
    case Null => false
    case Bool(b) => b
    case Num(t) => t != "0" && t != "NaN"
    case Str(s) => s != ""
    case Arr(_) => true
    case Obj(_) => true
  }

  /** `v ?? d` */
  function Coalesce(v: JsValue, d: JsValue): (r: JsValue)
    ensures !IsNullish(v) ==> r == v
    ensures IsNullish(v) ==> r == d
  {
    if IsNullish(v) then d else v
  }

  /** The text String(i) gives for an array or string index i: decimal digits without a leading zero. */
  predicate IsIndexKey(key: string) {
    |key| >= 1 && (forall i :: 0 <= i < |key| ==> IsDigit(key[i])) && (|key| == 1 || key[0] != '0')
  }

  /**
   * `v[key]`: None is the TypeError that reading a property of null or
   * undefined throws. An object reads its own keys; an array or a string
   * reads its length and the element or character at an index key;
   * booleans and numbers have no own properties. Inherited members (the
   * prototype's methods) read as undefined.
   */
  function Member(v: JsValue, key: string): (r: Option<JsValue>)
    ensures r.None? <==> IsNullish(v)
    ensures v.Obj? && key in v.fields ==> r == Some(v.fields[key])
    ensures v.Obj? && key !in v.fields ==> r == Some(Undefined)
    ensures v.Arr? && key == "length" ==> r == Some(Num(NatToString(|v.items|)))
    ensures v.Str? && key == "length" ==> r == Some(Num(NatToString(|v.s|)))
    ensures (v.Arr? || v.Str?) && key != "length" && !IsIndexKey(key) ==> r == Some(Undefined)
    ensures v.Bool? || v.Num? ==> r == Some(Undefined)
  {
    match v
    case Undefined => None
    case Null => None
    case Obj(m) => Some(if key in m then m[key] else Undefined)
    case Arr(items) =>
      if key == "length" then Some(Num(NatToString(|items|)))
      else if IsIndexKey(key) && DigitsValue(key) < |items| then Some(items[DigitsValue(key)])
      else Some(Undefined)
    case Str(s) =>
      if key == "length" then Some(Num(NatToString(|s|)))
      else if IsIndexKey(key) && DigitsValue(key) < |s| then Some(Str([s[DigitsValue(key)]]))
      else Some(Undefined)
    case _ => Some(Undefined)
  }

  /** `v?.[key]` */
  function OptionalMember(v: JsValue, key: string): JsValue {
    match Member(v, key)
    case None => Undefined
    case Some(w) => w
  }

  /** String(v); an array renders as its items joined by ",", null and undefined items as "". */
  function ToJsString(v: JsValue): string
    decreases v, 1
  {
    match v
    case Undefined => "undefined"
    case Null => "null"
    case Bool(b) => if b then "true" else "false"
    case Num(t) => t
    case Str(s) => s
    case Arr(items) => ItemsText(v, items)
    case Obj(_) => "[object Object]"
  }

  function ItemsText(ghost parent: JsValue, items: seq<JsValue>): string
    requires forall i :: 0 <= i < |items| ==> items[i] < parent
    decreases parent, 0, |items|
  {
    if items == [] then ""
    else
      var first := if IsNullish(items[0]) then "" else ToJsString(items[0]);
      if |items| == 1 then first else first + "," + ItemsText(parent, items[1..])
  }

  // ---------------------------------------------------------------------
  // Whitespace and trim

  /** The WhiteSpace and LineTerminator code points of ECMAScript (sections 12.2 and 12.3). */
  const Whitespace: set<char> := {
    '\t', '\n', '\U{000B}', '\U{000C}', '\r', ' ', '\U{00A0}', '\U{1680}',
    '\U{2000}', '\U{2001}', '\U{2002}', '\U{2003}', '\U{2004}', '\U{2005}',
    '\U{2006}', '\U{2007}', '\U{2008}', '\U{2009}', '\U{200A}',
    '\U{2028}', '\U{2029}', '\U{202F}', '\U{205F}', '\U{3000}', '\U{FEFF}'
  }

  predicate IsJsWhitespace(c: char) {
    c in Whitespace
  }

  predicate AllWhitespace(s: string) {
    forall i :: 0 <= i < |s| ==> IsJsWhitespace(s[i])
  }

  /** The number of whitespace characters that open s. */
  function LeadingBlanks(s: string): (n: nat)
    ensures n <= |s|
    ensures forall i :: 0 <= i < n ==> IsJsWhitespace(s[i])
    ensures n == |s| || !IsJsWhitespace(s[n])
  {
    if |s| > 0 && IsJsWhitespace(s[0]) then 1 + LeadingBlanks(s[1..]) else 0
  }

  /** The number of whitespace characters that close s. */
  function TrailingBlanks(s: string): (n: nat)
    ensures n <= |s|
    ensures forall i :: |s| - n <= i < |s| ==> IsJsWhitespace(s[i])
    ensures n == |s| || !IsJsWhitespace(s[|s| - n - 1])
  {
    if |s| > 0 && IsJsWhitespace(s[|s| - 1]) then 1 + TrailingBlanks(s[..|s| - 1]) else 0
  }

  /** String.prototype.trimStart */
  function TrimStart(s: string): string {
    s[LeadingBlanks(s)..]
  }

  /** String.prototype.trimEnd */
  function TrimEnd(s: string): string {
    s[..|s| - TrailingBlanks(s)]
  }

  /** String.prototype.trim */
  function Trim(s: string): string {
    TrimEnd(TrimStart(s))
  }

  /** A trimmed string neither starts nor ends with whitespace. */
  lemma TrimEnds(s: string)
    ensures Trim(s) == [] || (!IsJsWhitespace(Trim(s)[0]) && !IsJsWhitespace(Trim(s)[|Trim(s)| - 1]))
  {
    var k := LeadingBlanks(s);
    var u := s[k..];
    var m := TrailingBlanks(u);
    var t := u[..|u| - m];
    assert Trim(s) == t;
    if t != [] {
      assert t[0] == u[0] == s[k];
      assert t[|t| - 1] == u[|u| - m - 1];
    }
  }

  /** A trimmed string is the slice of the input that starts after the leading whitespace. */
  lemma TrimIsSlice(s: string)
    ensures LeadingBlanks(s) + |Trim(s)| <= |s|
    ensures Trim(s) == s[LeadingBlanks(s)..LeadingBlanks(s) + |Trim(s)|]
  {
    var k := LeadingBlanks(s);
    var u := s[k..];
    var t := u[..|u| - TrailingBlanks(u)];
    assert Trim(s) == t;
    SliceOfSuffix(s, k, |t|);
  }

  /** A prefix one longer is the shorter prefix and the next element. */
  lemma PrefixStep<T>(s: seq<T>, k: nat)
    requires k < |s|
    ensures s[..k + 1] == s[..k] + [s[k]]
  {
  }

  lemma ConcatAssoc<T>(a: seq<T>, b: seq<T>, c: seq<T>)
    ensures (a + b) + c == a + (b + c)
  {
  }

  /** Dropping a prefix off a concatenation leaves the rest. */
  lemma DropPrefix<T>(p: seq<T>, t: seq<T>)
    ensures (p + t)[|p|..] == t
  {
  }

  lemma SliceOfSuffix<T>(s: seq<T>, k: nat, n: nat)
    requires k + n <= |s|
    ensures s[k..][..n] == s[k..k + n]
  {
  }

  /** trim() leaves nothing exactly when the string is all whitespace. */
  lemma TrimEmptyIff(s: string)
    ensures Trim(s) == [] <==> AllWhitespace(s)
  {
  }

  /** A string with no whitespace at either end is its own trim. */
  lemma TrimUnchanged(s: string)
    requires s == [] || (!IsJsWhitespace(s[0]) && !IsJsWhitespace(s[|s| - 1]))
    ensures Trim(s) == s
  {
  }

  /** Trimming twice is trimming once. */
  lemma TrimIdempotent(s: string)
    ensures Trim(Trim(s)) == Trim(s)
  {
    TrimEnds(s);
    TrimUnchanged(Trim(s));
  }

  // ---------------------------------------------------------------------
  // Case mapping (ASCII letters only)

  function UpperChar(c: char): char {
    if 'a' <= c <= 'z' then (c as int - 32) as char else c
  }

  function LowerChar(c: char): char {
    if 'A' <= c <= 'Z' then (c as int + 32) as char else c
  }

  function ToLowerCase(s: string): (r: string)
    ensures |r| == |s| && forall i :: 0 <= i < |s| ==> r[i] == LowerChar(s[i])
  {
    seq(|s|, i requires 0 <= i < |s| => LowerChar(s[i]))
  }

  /** `s.charAt(0).toUpperCase() + s.slice(1)` */
  function Capitalize(s: string): (r: string)
    ensures |r| == |s|
    ensures s != [] ==> r[0] == UpperChar(s[0]) && r[1..] == s[1..]
  {
    if s == [] then s else [UpperChar(s[0])] + s[1..]
  }

  // ---------------------------------------------------------------------
  // Integers and their decimal text

  predicate IsDigit(c: char) {
    '0' <= c <= '9'
  }

  function DigitChar(d: int): char
    requires 0 <= d < 10
  {
    ('0' as int + d) as char
  }

  /** Number.prototype.toString for a non-negative integer. */
  function NatToString(n: nat): (r: string)
    ensures |r| >= 1
    ensures forall i :: 0 <= i < |r| ==> IsDigit(r[i])
  {
    if n < 10 then [DigitChar(n)] else NatToString(n / 10) + [DigitChar(n % 10)]
  }

  function IntToString(n: int): string {
    if n < 0 then "-" + NatToString(-n) else NatToString(n)
  }

  /** The value of a run of decimal digits. */
  function DigitsValue(d: string): nat
    requires forall i :: 0 <= i < |d| ==> IsDigit(d[i])
  {
    if d == [] then 0
    else
      var last := d[|d| - 1];
      assert IsDigit(last);
      10 * DigitsValue(d[..|d| - 1]) + (last as int - '0' as int)
  }

  /** The longest prefix of s made of decimal digits. */
  function DigitPrefix(s: string): (r: string)
    ensures |r| <= |s| && r == s[..|r|]
    ensures forall i :: 0 <= i < |r| ==> IsDigit(r[i])
    ensures |r| < |s| ==> !IsDigit(s[|r|])
  {
    if s != [] && IsDigit(s[0]) then [s[0]] + DigitPrefix(s[1..]) else []
  }

  /** parseInt(s, 10); None stands for NaN. */
  function ParseInt(s: string): Option<int> {
    var t := TrimStart(s);
    var negative := |t| > 0 && t[0] == '-';
    var body := if |t| > 0 && (t[0] == '-' || t[0] == '+') then t[1..] else t;
    var d := DigitPrefix(body);
    var v: int := if d == [] then 0 else DigitsValue(d);
    if d == [] then None else Some(if negative then -v else v)
  }

  /** Text that opens with anything but whitespace, a sign or a digit parses as NaN. */
  lemma ParseIntRejects(s: string)
    requires |s| > 0 && !IsJsWhitespace(s[0]) && !IsDigit(s[0]) && s[0] != '-' && s[0] != '+'
    ensures ParseInt(s) == None
  {
    assert LeadingBlanks(s) == 0;
  }

  lemma {:induction false} DigitsValueOfNatToString(n: nat)
    ensures DigitsValue(NatToString(n)) == n
  {
    if n >= 10 {
      var r := NatToString(n);
      assert r[..|r| - 1] == NatToString(n / 10);
      DigitsValueOfNatToString(n / 10);
    }
  }

  lemma {:induction false} DigitPrefixOfDigits(d: string, rest: string)
    requires forall i :: 0 <= i < |d| ==> IsDigit(d[i])
    requires rest == [] || !IsDigit(rest[0])
    ensures DigitPrefix(d + rest) == d
  {
    if d != [] {
      assert (d + rest)[1..] == d[1..] + rest;
      DigitPrefixOfDigits(d[1..], rest);
    }
  }

  /** parseInt reads back what NatToString wrote, up to the first non-digit. */
  lemma ParseIntOfNatToString(n: nat, rest: string)
    requires rest == [] || !IsDigit(rest[0])
    ensures ParseInt(NatToString(n) + rest) == Some(n)
  {
    var d := NatToString(n);
    var s := d + rest;
    assert s[0] == d[0] && IsDigit(d[0]);
    assert TrimStart(s) == s;
    assert !(s[0] == '-' || s[0] == '+');
    DigitPrefixOfDigits(d, rest);
    assert DigitPrefix(s) == d;
    DigitsValueOfNatToString(n);
  }

  /** Only zero is written with a leading '0'. */
  lemma {:induction false} NatToStringLeadingDigit(n: nat)
    ensures NatToString(n)[0] == '0' ==> n == 0
    ensures |NatToString(n)| == 1 <==> n < 10
  {
    if n >= 10 {
      NatToStringLeadingDigit(n / 10);
      assert NatToString(n)[0] == NatToString(n / 10)[0];
    }
  }

  /** The text of a number is an index key, and reading it from an array or a string gives the item there. */
  lemma MemberAtIndex(v: JsValue, n: nat)
    ensures IsIndexKey(NatToString(n))
    ensures v.Arr? ==> Member(v, NatToString(n)) == Some(if n < |v.items| then v.items[n] else Undefined)
    ensures v.Str? ==> Member(v, NatToString(n)) == Some(if n < |v.s| then Str([v.s[n]]) else Undefined)
  {
    NatToStringLeadingDigit(n);
    DigitsValueOfNatToString(n);
    assert NatToString(n) != "length" by {
      assert IsDigit(NatToString(n)[0]);
    }
  }

  lemma {:induction false} NatToStringInjective(a: nat, b: nat)
    requires NatToString(a) == NatToString(b)
    ensures a == b
  {
    DigitsValueOfNatToString(a);
    DigitsValueOfNatToString(b);
  }

  // ---------------------------------------------------------------------
  // split and join

  /** Index of the first occurrence of c in s, or |s|. */
  function FindChar(s: string, c: char): (i: nat)
    ensures i <= |s|
    ensures i < |s| ==> s[i] == c
    ensures forall k :: 0 <= k < i ==> s[k] != c
  {
    if s == [] || s[0] == c then 0 else 1 + FindChar(s[1..], c)
  }

  /** String.prototype.split with a one-character separator. */
  function Split(s: string, c: char): (r: seq<string>)
    ensures |r| >= 1
    decreases |s|
  {
    var i := FindChar(s, c);
    if i == |s| then [s] else [s[..i]] + Split(s[i + 1..], c)
  }

  lemma SplitNoSeparator(s: string, c: char)
    requires c !in s
    ensures Split(s, c) == [s]
  {
  }

  lemma SplitFirst(x: string, c: char, y: string)
    requires c !in x
    ensures Split(x + [c] + y, c) == [x] + Split(y, c)
  {
    var s := x + [c] + y;
    assert s[|x|] == c;
    assert FindChar(s, c) == |x|;
    assert s[..|x|] == x;
    assert s[|x| + 1..] == y;
  }

  /** Array.prototype.join */
  function Join(xs: seq<string>, delim: string): string {
    if xs == [] then ""
    else if |xs| == 1 then xs[0]
    else xs[0] + delim + Join(xs[1..], delim)
  }

  lemma JoinLast(xs: seq<string>, delim: string)
    requires |xs| >= 1
    ensures var j := Join(xs, delim); var l := xs[|xs| - 1];
      |l| <= |j| && j[|j| - |l|..] == l
  {
    if |xs| > 1 {
      JoinLast(xs[1..], delim);
    }
  }

  // ---------------------------------------------------------------------
  // Distinct elements in first-occurrence order

  predicate Distinct<T(==)>(s: seq<T>) {
    forall i, j :: 0 <= i < j < |s| ==> s[i] != s[j]
  }

  /** What adding the elements of xs to a Set, in order, and listing it gives. */
  function Dedup<T(==)>(xs: seq<T>): seq<T> {
    if xs == [] then []
    else
      var r := Dedup(xs[..|xs| - 1]);
      if xs[|xs| - 1] in r then r else r + [xs[|xs| - 1]]
  }

  /** One more element is appended to the de-duplicated list exactly when it is new. */
  lemma DedupAppend<T>(xs: seq<T>, x: T)
    ensures Dedup(xs + [x]) == if x in Dedup(xs) then Dedup(xs) else Dedup(xs) + [x]
  {
    assert (xs + [x])[..|xs|] == xs;
  }

  /** Position of the first occurrence of x in xs. */
  function FirstIndex<T(==)>(xs: seq<T>, x: T): (i: nat)
    requires x in xs
    ensures i < |xs| && xs[i] == x
    ensures forall k :: 0 <= k < i ==> xs[k] != x
  {
    if xs[0] == x then 0 else 1 + FirstIndex(xs[1..], x)
  }

  lemma {:induction false} DedupMembers<T>(xs: seq<T>)
    ensures forall x :: x in Dedup(xs) <==> x in xs
  {
    if xs != [] {
      var init := xs[..|xs| - 1];
      DedupMembers(init);
      assert xs == init + [xs[|xs| - 1]];
    }
  }

  lemma {:induction false} DedupDistinct<T>(xs: seq<T>)
    ensures Distinct(Dedup(xs))
  {
    if xs != [] {
      DedupDistinct(xs[..|xs| - 1]);
    }
  }

  lemma FirstIndexPrefix<T>(xs: seq<T>, n: nat, x: T)
    requires n <= |xs| && x in xs[..n]
    ensures x in xs && FirstIndex(xs, x) == FirstIndex(xs[..n], x)
  {
    var i := FirstIndex(xs[..n], x);
    assert xs[i] == x;
    var j := FirstIndex(xs, x);
    assert j <= i;
    assert xs[..n][j] == x;
  }

  lemma DedupIndexMember<T>(xs: seq<T>, i: nat)
    requires i < |Dedup(xs)|
    ensures Dedup(xs)[i] in xs
  {
    DedupMembers(xs);
    assert Dedup(xs)[i] in Dedup(xs);
  }

  /** The de-duplicated list keeps the order of first occurrences. */
  lemma {:induction false} DedupFirstOccurrenceOrder<T>(xs: seq<T>, i: nat, j: nat)
    requires i < j < |Dedup(xs)|
    ensures Dedup(xs)[i] in xs && Dedup(xs)[j] in xs
    ensures FirstIndex(xs, Dedup(xs)[i]) < FirstIndex(xs, Dedup(xs)[j])
  {
    var n := |xs| - 1;
    var init := xs[..n];
    var last := xs[n];
    var r0 := Dedup(init);
    var r := Dedup(xs);
    assert r == if last in r0 then r0 else r0 + [last];
    DedupIndexMember(init, i);
    assert r[i] == r0[i];
    FirstIndexPrefix(xs, n, r[i]);
    if j < |r0| {
      DedupIndexMember(init, j);
      assert r[j] == r0[j];
      FirstIndexPrefix(xs, n, r[j]);
      DedupFirstOccurrenceOrder(init, i, j);
    } else {
      DedupMembers(init);
      assert r[j] == last && last !in init;
      assert FirstIndex(xs, last) == n;
    }
  }
}
