/** The CSV serialiser of the report exports: field escaping after RFC 4180,
    section 2, rules 6 and 7; the comments and categories documents (a byte
    order mark, a header row and one row per record, joined by "\n"); and a
    reader for that format, against which the round trip is proved. */
module Csv {
  import opened Base
  import opened Text
  import opened ApiTypes
  import opened ExportsStore

  const Bom: char := '\U{FEFF}'
  const Quote: char := '"'

  /** The characters whose presence forces a field to be quoted. */
  predicate NeedsQuoting(s: string)
  {
    Quote in s || ',' in s || '\n' in s || '\r' in s
  }

  function QuoteCount(s: string): nat
  {
    if s == [] then 0 else (if s[0] == Quote then 1 else 0) + QuoteCount(s[1..])
  }

  /** Every quote of `s` written twice. */
  function DoubleQuotes(s: string): (r: string)
    ensures |r| == |s| + QuoteCount(s)
  {
    if s == [] then []
    else (if s[0] == Quote then [Quote, Quote] else [s[0]]) + DoubleQuotes(s[1..])
  }

  /** `csvEscape`: a null or undefined value is the empty field, a value
      without quote, comma, LF or CR is written as it is, any other value is
      wrapped in quotes with its own quotes doubled. */
  function Escape(value: Option<string>): (r: string)
    ensures value.None? ==> r == []
    ensures value.Some? && !NeedsQuoting(value.value) ==> r == value.value
    ensures value.Some? && NeedsQuoting(value.value) ==>
      |r| == |value.value| + 2 + QuoteCount(value.value)
      && r[0] == Quote && r[|r| - 1] == Quote
  {
    match value
    case None => []
    case Some(s) => if NeedsQuoting(s) then [Quote] + DoubleQuotes(s) + [Quote] else s
  }

  /** One CSV line: the escaped values joined by commas. */
  function EncodeRecord(values: seq<string>): string
  {
    if values == [] then []
    else if |values| == 1 then Escape(Some(values[0]))
    else Escape(Some(values[0])) + "," + EncodeRecord(values[1..])
  }

  /** A whole document: the byte order mark, then the lines joined by "\n". */
  function EncodeDocument(records: seq<seq<string>>): string
  {
    [Bom] + Join(EncodeLines(records), "\n")
  }

  /** One encoded line per record, in order. */
  function EncodeLines(records: seq<seq<string>>): (r: seq<string>)
    ensures |r| == |records| && forall i :: 0 <= i < |records| ==> r[i] == EncodeRecord(records[i])
  {
    if records == [] then [] else [EncodeRecord(records[0])] + EncodeLines(records[1..])
  }

  // ---------------------------------------------------------------------------
  // A reader for the format: fields separated by ',', records by '\n', a field
  // that starts with a quote runs to the next quote that is not doubled.

  /** Length of the unquoted field at the start of `s`. */
  function UnquotedLen(s: string): (n: nat)
    ensures n <= |s|
    ensures forall i :: 0 <= i < n ==> s[i] != ',' && s[i] != '\n'
    ensures n < |s| ==> s[n] == ',' || s[n] == '\n'
  {
    if s == [] || s[0] == ',' || s[0] == '\n' then 0 else 1 + UnquotedLen(s[1..])
  }

  /** The body of a quoted field (after its opening quote): its value and the
      input after the closing quote. An unterminated field ends the input. */
  function ParseQuoted(s: string): (r: (string, string))
    ensures |r.1| < |s| || (s == [] && r.1 == [])
  {
    if s == [] then ([], [])
    else if s[0] == Quote then
      if |s| >= 2 && s[1] == Quote then
        var (v, rest) := ParseQuoted(s[2..]);
        ([Quote] + v, rest)
      else ([], s[1..])
    else
      var (v, rest) := ParseQuoted(s[1..]);
      ([s[0]] + v, rest)
  }

  /** The field at the start of `s` and the input after it. */
  function ParseField(s: string): (r: (string, string))
    ensures |r.1| <= |s|
  {
    if s != [] && s[0] == Quote then ParseQuoted(s[1..])
    else
      var n := UnquotedLen(s);
      (s[..n], s[n..])
  }

  /** The record at the start of `s` and the input after it, which is empty
      or starts with the '\n' that ends the record; None if a field is
      followed by anything else. */
  function ParseRecord(s: string): (r: Option<(seq<string>, string)>)
    ensures r.Some? ==> |r.value.1| <= |s| && (r.value.1 == [] || r.value.1[0] == '\n')
    decreases |s|
  {
    var (f, rest) := ParseField(s);
    if rest != [] && rest[0] == ',' then
      match ParseRecord(rest[1..])
      case None => None
      case Some((fs, tail)) => Some(([f] + fs, tail))
    else if rest == [] || rest[0] == '\n' then Some(([f], rest))
    else None
  }

  function ParseRecords(s: string): Option<seq<seq<string>>>
    decreases |s|
  {
    match ParseRecord(s)
    case None => None
    case Some((fields, rest)) =>
      if rest == [] then Some([fields])
      else
        match ParseRecords(rest[1..])
        case None => None
        case Some(more) => Some([fields] + more)
  }

  /** A document must start with the byte order mark. */
  function ParseDocument(s: string): Option<seq<seq<string>>>
  {
    if s != [] && s[0] == Bom then ParseRecords(s[1..]) else None
  }

  // ---------------------------------------------------------------------------
  // Round trip

  /** The body of an escaped field reads back as the original value. */
  lemma {:induction false} ParseQuotedDoubled(v: string, rest: string)
    requires rest == [] || rest[0] != Quote
    ensures ParseQuoted(DoubleQuotes(v) + [Quote] + rest) == (v, rest)
  {
    if v == [] {
      assert DoubleQuotes(v) + [Quote] + rest == [Quote] + rest;
    } else {
      var s := DoubleQuotes(v) + [Quote] + rest;
      var h: string := if v[0] == Quote then [Quote, Quote] else [v[0]];
      var d := DoubleQuotes(v[1..]);
      var tail := d + [Quote] + rest;
      assert DoubleQuotes(v) == h + d;
      AppendAssoc(d, [Quote], rest);
      AppendAssoc3(h, d, [Quote], rest);
      assert s == h + tail;
      ParseQuotedDoubled(v[1..], rest);
      if v[0] == Quote {
        assert s[2..] == tail;
      } else {
        assert s[1..] == tail;
      }
      assert v == [v[0]] + v[1..];
    }
  }

  /** An escaped field followed by a separator (or by nothing) reads back as
      the original value, and the separator is left in place. */
  lemma ParseEscapedField(v: string, rest: string)
    requires rest == [] || rest[0] == ',' || rest[0] == '\n'
    ensures ParseField(Escape(Some(v)) + rest) == (v, rest)
  {
    if NeedsQuoting(v) {
      ParseQuotedField(v, rest);
    } else {
      ParsePlainField(v, rest);
    }
  }

  lemma ParseQuotedField(v: string, rest: string)
    requires NeedsQuoting(v)
    requires rest == [] || rest[0] == ',' || rest[0] == '\n'
    ensures ParseField(Escape(Some(v)) + rest) == (v, rest)
  {
    var body := DoubleQuotes(v) + [Quote] + rest;
    var s := [Quote] + body;
    assert Escape(Some(v)) + rest == s;
    assert s[1..] == body;
    ParseQuotedDoubled(v, rest);
  }

  lemma ParsePlainField(v: string, rest: string)
    requires Quote !in v && ',' !in v && '\n' !in v
    requires rest == [] || rest[0] == ',' || rest[0] == '\n'
    ensures ParseField(v + rest) == (v, rest)
  {
    var s := v + rest;
    UnquotedLenOf(v, rest);
    assert s[..|v|] == v && s[|v|..] == rest;
    if v != [] {
      assert v[0] in v;
    }
  }

  lemma {:induction false} UnquotedLenOf(v: string, rest: string)
    requires ',' !in v && '\n' !in v
    requires rest == [] || rest[0] == ',' || rest[0] == '\n'
    ensures UnquotedLen(v + rest) == |v|
  {
    if v == [] {
      assert v + rest == rest;
    } else {
      assert (v + rest)[1..] == v[1..] + rest;
      assert v[0] in v;
      UnquotedLenOf(v[1..], rest);
    }
  }

  /** An encoded record followed by '\n' (or by nothing) reads back as its values. */
  lemma {:induction false} ParseEncodedRecord(values: seq<string>, rest: string)
    requires |values| > 0
    requires rest == [] || rest[0] == '\n'
    ensures ParseRecord(EncodeRecord(values) + rest) == Some((values, rest))
    decreases |values|
  {
    if |values| == 1 {
      ParseEncodedSingle(values, rest);
    } else {
      ParseEncodedRecord(values[1..], rest);
      ParseEncodedCons(values, rest);
    }
  }

  lemma ParseEncodedSingle(values: seq<string>, rest: string)
    requires |values| == 1
    requires rest == [] || rest[0] == '\n'
    ensures ParseRecord(EncodeRecord(values) + rest) == Some((values, rest))
  {
    ParseEscapedField(values[0], rest);
    assert [values[0]] == values;
  }

  /** The step of `ParseEncodedRecord`: the first field, then the others. */
  lemma ParseEncodedCons(values: seq<string>, rest: string)
    requires |values| > 1
    requires rest == [] || rest[0] == '\n'
    requires ParseRecord(EncodeRecord(values[1..]) + rest) == Some((values[1..], rest))
    ensures ParseRecord(EncodeRecord(values) + rest) == Some((values, rest))
  {
    var tail := values[1..];
    var after := EncodeRecord(tail) + rest;
    EncodeRecordCons(values, rest);
    ParseEscapedField(values[0], [','] + after);
    ParseRecordCons(EncodeRecord(values) + rest, values[0], after, tail, rest);
    assert [values[0]] + tail == values;
  }

  lemma EncodeRecordCons(values: seq<string>, rest: string)
    requires |values| > 1
    ensures EncodeRecord(values) + rest == Escape(Some(values[0])) + ([','] + (EncodeRecord(values[1..]) + rest))
  {
    var f := Escape(Some(values[0]));
    var e := EncodeRecord(values[1..]);
    assert EncodeRecord(values) == f + "," + e;
    AppendAssoc3(f, [','], e, rest);
  }

  /** A field followed by ',' and a record is a record one field longer. */
  lemma ParseRecordCons(s: string, v: string, after: string, tail: seq<string>, rest: string)
    requires ParseField(s) == (v, [','] + after)
    requires ParseRecord(after) == Some((tail, rest))
    ensures ParseRecord(s) == Some(([v] + tail, rest))
  {
    assert ([','] + after)[1..] == after;
  }

  /** Encoded records joined by '\n' read back as the records. */
  lemma {:induction false} ParseEncodedRecords(records: seq<seq<string>>)
    requires |records| > 0
    requires forall k :: 0 <= k < |records| ==> |records[k]| > 0
    ensures ParseRecords(Join(EncodeLines(records), "\n")) == Some(records)
    decreases |records|
  {
    var lines := EncodeLines(records);
    if |records| == 1 {
      assert Join(lines, "\n") == EncodeRecord(records[0]) + [];
      ParseEncodedRecord(records[0], []);
      assert [records[0]] == records;
    } else {
      var tail := records[1..];
      ParseEncodedRecords(tail);
      ParseRecordsCons(records[0], tail, lines, EncodeLines(tail));
      assert records == [records[0]] + tail;
    }
  }

  /** The step of `ParseEncodedRecords`: the first record, a line break, the
      other records. */
  lemma ParseRecordsCons(first: seq<string>, tail: seq<seq<string>>, lines: seq<string>, tailLines: seq<string>)
    requires |first| > 0 && |lines| > 1 && lines[0] == EncodeRecord(first) && lines[1..] == tailLines
    requires ParseRecords(Join(tailLines, "\n")) == Some(tail)
    ensures ParseRecords(Join(lines, "\n")) == Some([first] + tail)
  {
    var rest := "\n" + Join(tailLines, "\n");
    assert Join(lines, "\n") == EncodeRecord(first) + "\n" + Join(tailLines, "\n");
    AppendAssoc(EncodeRecord(first), "\n", Join(tailLines, "\n"));
    ParseEncodedRecord(first, rest);
    assert rest[1..] == Join(tailLines, "\n");
  }

  /** RFC 4180 round trip for whole documents: reading an encoded document
      gives back exactly its records, whatever commas, quotes and line breaks
      the values hold. */
  lemma DocumentRoundTrip(records: seq<seq<string>>)
    requires |records| > 0
    requires forall k :: 0 <= k < |records| ==> |records[k]| > 0
    ensures ParseDocument(EncodeDocument(records)) == Some(records)
  {
    ParseEncodedRecords(records);
  }

  /** Field-level round trip: stripping the outer quotes of an escaped field
      and collapsing its doubled quotes gives back the value. */
  lemma FieldRoundTrip(v: string)
    ensures ParseField(Escape(Some(v))) == (v, [])
  {
    ParseEscapedField(v, []);
    assert Escape(Some(v)) + [] == Escape(Some(v));
  }

  // ---------------------------------------------------------------------------
  // The two documents

  const CommentsHeader: seq<string> :=
    ["comment_id", "created_time", "sentiment", "sentiment_conf", "category", "category_conf", "text"]

  const CategoriesHeader: seq<string> :=
    ["category", "total_comments", "positive_comments", "neutral_comments", "negative_comments"]

  /** The seven values of a comment row, in header order. A missing
      `created_time` is the empty value; a confidence is written by `fixed4`
      (`toFixed(4)`) when it is a number and is empty otherwise. */
  function CommentValues(c: CommentAnalysis, fixed4: real -> string): (r: seq<string>)
    ensures |r| == |CommentsHeader|
    ensures r[0] == c.commentId && r[2] == c.sentiment && r[4] == c.category && r[6] == c.text
    ensures c.createdTime.None? ==> r[1] == ""
    ensures c.sentimentConf.None? ==> r[3] == ""
    ensures c.categoryConf.None? ==> r[5] == ""
  {
    [c.commentId,
     match c.createdTime case Some(t) => t case None => "",
     c.sentiment,
     match c.sentimentConf case Some(x) => fixed4(x) case None => "",
     c.category,
     match c.categoryConf case Some(x) => fixed4(x) case None => "",
     c.text]
  }

  /** The five values of a category row: neutral comes before negative. */
  function CategoryValues(c: CategoryStats): (r: seq<string>)
    ensures |r| == |CategoriesHeader|
    ensures r[0] == c.category
    ensures CategoriesHeader[3] == "neutral_comments" && r[3] == NatToString(c.neutralComments)
    ensures CategoriesHeader[4] == "negative_comments" && r[4] == NatToString(c.negativeComments)
  {
    [c.category, NatToString(c.totalComments), NatToString(c.positiveComments),
     NatToString(c.neutralComments), NatToString(c.negativeComments)]
  }

  /** A header row followed by one row per item. */
  function Records<T>(header: seq<string>, items: seq<T>, row: T -> seq<string>): (r: seq<seq<string>>)
    ensures |r| == |items| + 1 && r[0] == header
    ensures forall i :: 0 <= i < |items| ==> r[i + 1] == row(items[i])
  {
    [header] + seq(|items|, i requires 0 <= i < |items| => row(items[i]))
  }

  function CommentRow(fixed4: real -> string): CommentAnalysis -> seq<string>
  {
    c => CommentValues(c, fixed4)
  }

  /** The records that `buildCommentsCsv` writes: the header, then one row per comment. */
  function CommentsRecords(comments: seq<CommentAnalysis>, fixed4: real -> string): seq<seq<string>>
  {
    Records(CommentsHeader, comments, CommentRow(fixed4))
  }

  /** The category rows of an analytics value; none without one. */
  function StatsOf(analytics: Option<Analytics>): seq<CategoryStats>
  {
    match analytics case Some(a) => a.categoriesStats case None => []
  }

  /** The records that `buildCategoriesCsv` writes; no analytics means the header only. */
  function CategoriesRecords(analytics: Option<Analytics>): seq<seq<string>>
  {
    Records(CategoriesHeader, StatsOf(analytics), CategoryValues)
  }

  /** The categories document reads back as its records. */
  lemma CategoriesRoundTrip(analytics: Option<Analytics>)
    ensures ParseDocument(EncodeDocument(CategoriesRecords(analytics))) == Some(CategoriesRecords(analytics))
  {
    var records := CategoriesRecords(analytics);
    var stats := StatsOf(analytics);
    forall k | 0 <= k < |records|
      ensures |records[k]| > 0
    {
      if k > 0 {
        assert records[k] == CategoryValues(stats[k - 1]);
      }
    }
    DocumentRoundTrip(records);
  }

  /** The comments document reads back as its records. */
  lemma CommentsRoundTrip(comments: seq<CommentAnalysis>, fixed4: real -> string)
    ensures ParseDocument(EncodeDocument(CommentsRecords(comments, fixed4)))
      == Some(CommentsRecords(comments, fixed4))
  {
    var records := CommentsRecords(comments, fixed4);
    forall k | 0 <= k < |records|
      ensures |records[k]| > 0
    {
      if k > 0 {
        assert records[k] == CommentValues(comments[k - 1], fixed4);
      }
    }
    DocumentRoundTrip(records);
  }

  /** The loop both builders share: the escaped header line, then one
      escaped line per item, joined by "\n" behind the byte order mark. */
  method BuildCsv<T>(header: seq<string>, items: seq<T>, row: T -> seq<string>) returns (csv: string)
    ensures csv == EncodeDocument(Records(header, items, row))
  {
    ghost var records := Records(header, items, row);
    var lines: seq<string> := [EncodeRecord(header)];
    for i := 0 to |items|
      invariant |lines| == i + 1
      invariant forall k :: 0 <= k < i + 1 ==> lines[k] == EncodeRecord(records[k])
    {
      assert records[i + 1] == row(items[i]);
      lines := lines + [EncodeRecord(row(items[i]))];
    }
    assert lines == EncodeLines(records);
    csv := [Bom] + Join(lines, "\n");
  }

  /** `buildCommentsCsv`: the header, then one seven-value row per comment,
      in order (read back by CommentsRoundTrip). */
  method BuildCommentsCsv(comments: seq<CommentAnalysis>, fixed4: real -> string) returns (csv: string)
    ensures csv == EncodeDocument(CommentsRecords(comments, fixed4))
  {
    csv := BuildCsv(CommentsHeader, comments, CommentRow(fixed4));
  }

  /** `buildCategoriesCsv`: the header, then one five-value row per category
      (read back by CategoriesRoundTrip). */
  method BuildCategoriesCsv(analytics: Option<Analytics>) returns (csv: string)
    ensures csv == EncodeDocument(CategoriesRecords(analytics))
  {
    csv := BuildCsv(CategoriesHeader, StatsOf(analytics), CategoryValues);
  }

  // ---------------------------------------------------------------------------
  // File names and export records

  /** `iso.replace(/[:.]/g, "-")`. */
  function FileStamp(iso: string): (r: string)
    ensures |r| == |iso| && ':' !in r && '.' !in r
    ensures forall i :: 0 <= i < |iso| && iso[i] != ':' && iso[i] != '.' ==> r[i] == iso[i]
    ensures forall i :: 0 <= i < |iso| && (iso[i] == ':' || iso[i] == '.') ==> r[i] == '-'
  {
    seq(|iso|, i requires 0 <= i < |iso| => if iso[i] == ':' || iso[i] == '.' then '-' else iso[i])
  }

  /** Number of bytes of the UTF-8 encoding of `s` (what `Blob.size` reports). */
  function Utf8Length(s: string): (n: nat)
    ensures |s| <= n <= 4 * |s|
  {
    if s == [] then 0
    else
      var c := s[0] as int;
      (if c < 0x80 then 1 else if c < 0x800 then 2 else if c < 0x10000 then 3 else 4)
      + Utf8Length(s[1..])
  }

  /** What the export steps do outside the store. */
  datatype CsvEffect = Registered(record: ExportRecord) | Downloaded(filename: string, content: string)

  /** `generateCommentsCsv`: the clock reading, the fresh id, the creation
      time and the data URL that FileReader produces are parameters. The
      record is prepended to the registry and only then is the download
      triggered. */
  method GenerateCommentsCsv(store: ExportsState, comments: seq<CommentAnalysis>, fixed4: real -> string,
                             nowIso: string, id: string, createdAt: string, dataUrl: string)
    returns (effects: seq<CsvEffect>)
    modifies store
    ensures var csv := EncodeDocument(CommentsRecords(comments, fixed4));
      var record := ExportRecord(id, CommentsCsv, "Comments Export", "comments-export-" + FileStamp(nowIso) + ".csv",
                                 "text/csv", Utf8Length(csv), createdAt, dataUrl);
      store.exports == [record] + old(store.exports)
      && effects == [Registered(record), Downloaded(record.filename, csv)]
  {
    var ts := FileStamp(nowIso);
    var csv := BuildCommentsCsv(comments, fixed4);
    var filename := "comments-export-" + ts + ".csv";
    var record := ExportRecord(id, CommentsCsv, "Comments Export", filename, "text/csv", Utf8Length(csv), createdAt, dataUrl);
    store.AddExport(record);
    effects := [Registered(record), Downloaded(filename, csv)];
  }

  /** `generateCategoriesCsv`, the same steps for the categories document. */
  method GenerateCategoriesCsv(store: ExportsState, analytics: Option<Analytics>,
                               nowIso: string, id: string, createdAt: string, dataUrl: string)
    returns (effects: seq<CsvEffect>)
    modifies store
    ensures var csv := EncodeDocument(CategoriesRecords(analytics));
      var record := ExportRecord(id, CategoriesCsv, "Categories Export", "categories-export-" + FileStamp(nowIso) + ".csv",
                                 "text/csv", Utf8Length(csv), createdAt, dataUrl);
      store.exports == [record] + old(store.exports)
      && effects == [Registered(record), Downloaded(record.filename, csv)]
  {
    var ts := FileStamp(nowIso);
    var csv := BuildCategoriesCsv(analytics);
    var filename := "categories-export-" + ts + ".csv";
    var record := ExportRecord(id, CategoriesCsv, "Categories Export", filename, "text/csv", Utf8Length(csv), createdAt, dataUrl);
    store.AddExport(record);
    effects := [Registered(record), Downloaded(filename, csv)];
  }
}
