/**
 * A reader for the comma-separated values format of section 2 of RFC 4180:
 * records separated by CRLF with an optional CRLF after the last one, fields
 * separated by commas, and each field either non-escaped or enclosed in
 * double quotes with every inner double quote written twice. The character
 * class TEXTDATA is widened to every character other than the comma, the
 * double quote, CR and LF; within quotes any character may appear.
 */
module Rfc4180 {
  import opened Wrappers
  import opened Text

  const CRLF := "\r\n"

  /** The characters a non-escaped field may not contain. */
  predicate IsDelimiter(c: char) {
    c == ',' || c == '"' || c == '\r' || c == '\n'
  }

  /** The text may stand as a non-escaped field. */
  predicate IsPlain(v: string) {
    forall i :: 0 <= i < |v| ==> !IsDelimiter(v[i])
  }

  /** What may follow a field: the end of the text, a comma or a CRLF. */
  predicate EndsField(rest: string) {
    rest == [] || rest[0] == ',' || StartsWith(rest, CRLF)
  }

  /** A leading non-escaped field: the longest prefix free of delimiters. */
  function ReadPlain(s: string): (r: (string, string))
    ensures r.0 + r.1 == s && IsPlain(r.0)
    ensures r.1 != [] ==> IsDelimiter(r.1[0])
  {
    if s == [] || IsDelimiter(s[0]) then ([], s)
    else
      var (v, rest) := ReadPlain(s[1..]);
      ([s[0]] + v, rest)
  }

  /**
   * The rest of an escaped field after its opening quote: two double quotes
   * stand for one, and a single double quote closes the field. `None` when
   * the closing quote is missing.
   */
  function ReadEscapedBody(s: string): (r: Option<(string, string)>)
    ensures r.Some? ==> |r.value.1| < |s|
  {
    if s == [] then None
    else if s[0] == '"' then
      if |s| >= 2 && s[1] == '"' then
        match ReadEscapedBody(s[2..])
        case None => None
        case Some((v, rest)) => Some((['"'] + v, rest))
      else Some(([], s[1..]))
    else
      match ReadEscapedBody(s[1..])
      case None => None
      case Some((v, rest)) => Some(([s[0]] + v, rest))
  }

  /** One field at the start of `s` and the text after it. */
  function ReadField(s: string): (r: Option<(string, string)>)
    ensures r.Some? ==> |r.value.1| <= |s|
  {
    if s != [] && s[0] == '"' then ReadEscapedBody(s[1..])
    else Some(ReadPlain(s))
  }

  /** One record at the start of `s`: its fields, and the text after it, which is empty or starts with CRLF. */
  function ReadRecord(s: string): (r: Option<(seq<string>, string)>)
    ensures r.Some? ==> r.value.0 != [] && |r.value.1| <= |s|
    ensures r.Some? ==> r.value.1 == [] || StartsWith(r.value.1, CRLF)
    decreases |s|
  {
    match ReadField(s)
    case None => None
    case Some((v, rest)) =>
      if rest != [] && rest[0] == ',' then
        match ReadRecord(rest[1..])
        case None => None
        case Some((vs, after)) => Some(([v] + vs, after))
      else if rest == [] || StartsWith(rest, CRLF) then Some(([v], rest))
      else None
  }

  /** A whole document: its records in order, or `None` when it is malformed. */
  function ReadDocument(s: string): (r: Option<seq<seq<string>>>)
    ensures r.Some? ==> r.value != [] && forall i :: 0 <= i < |r.value| ==> r.value[i] != []
    decreases |s|
  {
    match ReadRecord(s)
    case None => None
    case Some((fields, rest)) =>
      if rest == [] || rest == CRLF then Some([fields])
      else
        match ReadDocument(rest[2..])
        case None => None
        case Some(records) => Some([fields] + records)
  }

  /** A field followed by a comma: the record goes on after the comma. */
  lemma ReadRecordComma(s: string, v: string, rest: string)
    requires ReadField(s) == Some((v, rest))
    requires rest != [] && rest[0] == ','
    ensures ReadRecord(s) == match ReadRecord(rest[1..])
                             case None => None
                             case Some((vs, after)) => Some(([v] + vs, after))
  {
  }

  /** A field followed by the end of the text or by a CRLF is the last of its record. */
  lemma ReadRecordLast(s: string, v: string, rest: string)
    requires ReadField(s) == Some((v, rest))
    requires rest == [] || StartsWith(rest, CRLF)
    ensures ReadRecord(s) == Some(([v], rest))
  {
  }

  /** A record followed by a CRLF and more text: the document goes on after the CRLF. */
  lemma ReadDocumentNext(s: string, fields: seq<string>, rest: string)
    requires ReadRecord(s) == Some((fields, rest))
    requires StartsWith(rest, CRLF) && rest != CRLF
    ensures ReadDocument(s) == match ReadDocument(rest[2..])
                               case None => None
                               case Some(records) => Some([fields] + records)
  {
  }

  /** A record that ends the text is the last of the document. */
  lemma ReadDocumentLast(s: string, fields: seq<string>)
    requires ReadRecord(s) == Some((fields, []))
    ensures ReadDocument(s) == Some([fields])
  {
  }

  /** A field, a comma and a record make a record one field longer. */
  lemma ReadRecordAfterComma(first: string, v: string, others: string, vs: seq<string>, t: string)
    requires ReadField(first + ([','] + (others + t))) == Some((v, [','] + (others + t)))
    requires ReadRecord(others + t) == Some((vs, t))
    ensures ReadRecord(first + ([','] + (others + t))) == Some(([v] + vs, t))
  {
    var rest := [','] + (others + t);
    assert rest[1..] == others + t;
    ReadRecordComma(first + rest, v, rest);
  }

  /** A record, a line break and a non-empty document make a document one record longer. */
  lemma ReadDocumentAfterBreak(first: string, fields: seq<string>, others: string, records: seq<seq<string>>)
    requires others != []
    requires ReadRecord(first + (CRLF + others)) == Some((fields, CRLF + others))
    requires ReadDocument(others) == Some(records)
    ensures ReadDocument(first + (CRLF + others)) == Some([fields] + records)
  {
    var rest := CRLF + others;
    assert rest[2..] == others;
    assert StartsWith(rest, CRLF) && rest != CRLF;
    ReadDocumentNext(first + rest, fields, rest);
  }
}
