/**
 * The record grammar of section 2 of RFC 4180, generalised to any separator
 * character: the escaping rules a writer applies (rules 6 and 7) and a reader
 * for one record, against which the writer's output is proved to read back.
 */
module Rfc4180 {
  import opened JsCore

  /** Rule 7: a double quote inside an escaped field is written twice. */
  function DoubleQuotes(s: string): (r: string)
    ensures |r| >= |s|
    ensures '"' !in s ==> r == s
  {
    if s == [] then []
    else (if s[0] == '"' then "\"\"" else [s[0]]) + DoubleQuotes(s[1..])
  }

  /** Rule 6: an escaped field is enclosed in double quotes. */
  function Enclose(s: string): (r: string)
    ensures |r| >= 2 && r[0] == '"' && r[|r| - 1] == '"'
  {
    "\"" + DoubleQuotes(s) + "\""
  }

  /**
   * Reads the inside of an escaped field, the opening quote already consumed:
   * the field's content and what follows the closing quote.
   */
  function ParseQuotedTail(s: string): (r: Option<(string, string)>)
    ensures r.Some? ==> |r.value.1| < |s|
    decreases |s|
  {
    if s == [] then None
    else if s[0] == '"' then
      if |s| >= 2 && s[1] == '"' then
        match ParseQuotedTail(s[2..])
        case None => None
        case Some((c, rest)) => Some(("\"" + c, rest))
      else Some(("", s[1..]))
    else
      match ParseQuotedTail(s[1..])
      case None => None
      case Some((c, rest)) => Some(([s[0]] + c, rest))
  }

  /** Characters a non-escaped field may not hold (besides the separator, which ends it). */
  predicate IsTextData(f: string) {
    '"' !in f && '\r' !in f && '\n' !in f
  }

  /** One field and the remaining input, which is empty or starts with the separator. */
  function ParseField(s: string, sep: char): (r: Option<(string, string)>)
    ensures r.Some? ==> |r.value.1| <= |s| && (r.value.1 == [] || r.value.1[0] == sep)
  {
    if s != [] && s[0] == '"' then
      match ParseQuotedTail(s[1..])
      case None => None
      case Some((c, rest)) => if rest == [] || rest[0] == sep then Some((c, rest)) else None
    else
      var i := FindChar(s, sep);
      var f := s[..i];
      if IsTextData(f) then Some((f, s[i..])) else None
  }

  /** The fields of one record (no line break between records is involved). */
  function ParseRecord(s: string, sep: char): Option<seq<string>>
    decreases |s|
  {
    match ParseField(s, sep)
    case None => None
    case Some((f, rest)) =>
      if rest == [] then Some([f])
      else
        match ParseRecord(rest[1..], sep)
        case None => None
        case Some(fs) => Some([f] + fs)
  }

  /** e is a correct written form of the field value f: escaped, or plain text holding nothing that needs escaping. */
  predicate Encodes(e: string, f: string, sep: char) {
    e == Enclose(f) || (e == f && IsTextData(f) && sep !in f)
  }

  lemma {:induction false} ParseDoubledQuotes(v: string, rest: string)
    requires rest == [] || rest[0] != '"'
    ensures ParseQuotedTail(DoubleQuotes(v) + "\"" + rest) == Some((v, rest))
  {
    var q := "\"" + rest;
    ConcatAssoc(DoubleQuotes(v), "\"", rest);
    if v == [] {
      assert DoubleQuotes(v) + q == q;
      DropPrefix("\"", rest);
    } else {
      ParseDoubledQuotes(v[1..], rest);
      ConcatAssoc(DoubleQuotes(v[1..]), "\"", rest);
      var p := if v[0] == '"' then "\"\"" else [v[0]];
      ConcatAssoc(p, DoubleQuotes(v[1..]), q);
      DropPrefix(p, DoubleQuotes(v[1..]) + q);
      assert [v[0]] + v[1..] == v;
    }
  }

  lemma ParseEncodedField(e: string, f: string, sep: char, rest: string)
    requires sep != '"'
    requires Encodes(e, f, sep)
    requires rest == [] || rest[0] == sep
    ensures ParseField(e + rest, sep) == Some((f, rest))
  {
    var s := e + rest;
    if e == Enclose(f) {
      assert s[1..] == DoubleQuotes(f) + "\"" + rest;
      ParseDoubledQuotes(f, rest);
    } else {
      assert e == f;
      if e != [] {
        assert s[0] == e[0] && e[0] in e;
      }
      var i := FindChar(s, sep);
      if rest != [] {
        assert s[|e|] == sep;
      }
      assert i == |e|;
      assert s[..i] == e && s[i..] == rest;
    }
  }

  /** Writing each field in a correct form and joining them with the separator reads back as the same fields. */
  lemma {:induction false} ParseJoinedRecord(es: seq<string>, fs: seq<string>, sep: char)
    requires sep != '"'
    requires |es| == |fs| >= 1
    requires forall i :: 0 <= i < |es| ==> Encodes(es[i], fs[i], sep)
    ensures ParseRecord(Join(es, [sep]), sep) == Some(fs)
  {
    if |es| == 1 {
      ParseEncodedField(es[0], fs[0], sep, []);
      assert es[0] + [] == es[0];
      assert Join(es, [sep]) == es[0];
      assert fs == [fs[0]];
    } else {
      var tail := Join(es[1..], [sep]);
      assert Join(es, [sep]) == es[0] + ([sep] + tail);
      ParseEncodedField(es[0], fs[0], sep, [sep] + tail);
      assert ([sep] + tail)[1..] == tail;
      ParseJoinedRecord(es[1..], fs[1..], sep);
      assert [fs[0]] + fs[1..] == fs;
    }
  }

  /** With '"' as the separator the written record no longer reads back: two empty fields become one lone quote. */
  lemma QuoteSeparatorBreaksRecords()
    ensures Encodes("", "", '"')
    ensures ParseRecord(Join(["", ""], "\""), '"') != Some(["", ""])
  {
    assert Join(["", ""], "\"") == "\"";
    assert ParseQuotedTail("") == None;
  }
}
