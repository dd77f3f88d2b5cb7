/** The dashboard's own logic: the checks run on an uploaded CSV file before
    it is sent, the issue list shown under the upload field, the prefill of
    the form from the stored settings, and the request body built on
    submit. Papa Parse is abstracted: the validator receives what the two
    parses produced (or a parse failure). */
module Dashboard {
  import opened Base
  import opened Text
  import opened ApiTypes
  import opened SettingsStore

  // ---------------------------------------------------------------------------
  // CSV validation

  /** What the parse with a header row produced: the raw field names and one
      record per data row, keyed by those raw names. */
  datatype HeaderParse = HeaderParse(fields: seq<string>, rows: seq<map<string, string>>)

  datatype Validation = Validation(valid: bool, issues: seq<string>)

  const NoRowsIssue: string := "CSV has no rows."
  const NoValidCommentsIssue: string := "No valid comments found."
  const NoValidFirstColumnIssue: string := "No valid comments found in first column."
  const MissingColumnIssue: string := "Missing required 'comment' column."
  const ParseFailedIssue: string := "Failed to parse CSV."
  const PlainParseFailedIssue: string := "Failed to parse CSV without header."

  /** `Row <n>: <what>.` */
  function RowMessage(n: nat, what: string): string
  {
    "Row " + NatToString(n) + ": " + what + "."
  }

  /** The field names as compared: trimmed, then lower-cased. */
  function NormalisedFields(fields: seq<string>): seq<string>
  {
    seq(|fields|, i requires 0 <= i < |fields| => Lower(JsTrim(fields[i])))
  }

  /** The file is read in header mode exactly when a normalised field name
      is `comment`. */
  predicate HasHeader(fields: seq<string>)
  {
    "comment" in NormalisedFields(fields)
  }

  /** `(row["comment"] ?? "").trim()`: the lookup uses the raw key `comment`. */
  function CommentCell(row: map<string, string>): string
  {
    JsTrim(if "comment" in row then row["comment"] else "")
  }

  /** `row[0]?.trim()`, the empty string standing for `undefined`. */
  function FirstCell(row: seq<string>): string
  {
    if row == [] then "" else JsTrim(row[0])
  }

  function IsBlank<R>(cell: R -> string): R -> bool
  {
    r => cell(r) == ""
  }

  /** The issues the row loop reports: one per row whose cell is blank, in
      row order, numbered from `offset`. */
  function RowIssues<R>(rows: seq<R>, cell: R -> string, offset: nat, what: string): seq<string>
  {
    if rows == [] then []
    else
      var n := |rows| - 1;
      RowIssues(rows[..n], cell, offset, what)
      + (if cell(rows[n]) == "" then [RowMessage(n + offset, what)] else [])
  }

  /** Header mode: the (unreachable) missing-column check, one issue per row
      with a blank comment numbered idx+2 to account for the header line, and
      a final issue when no row has a comment. */
  function HeaderValidation(fields: seq<string>, rows: seq<map<string, string>>): Validation
  {
    var missing := if HasHeader(fields) then [] else [MissingColumnIssue];
    var issues := missing + RowIssues(rows, CommentCell, 2, "empty comment");
    var validRows := |rows| - CountIf(rows, IsBlank(CommentCell));
    var all := issues + (if validRows == 0 then [NoValidCommentsIssue] else []);
    Validation(all == [], all)
  }

  /** Headerless mode: an issue for no rows at all, one per row with a blank
      first column numbered idx+1, and a final issue when no row has one. */
  function PlainValidation(rows: seq<seq<string>>): Validation
  {
    var none := if rows == [] then [NoRowsIssue] else [];
    var issues := none + RowIssues(rows, FirstCell, 1, "empty first column");
    var validRows := |rows| - CountIf(rows, IsBlank(FirstCell));
    var all := issues + (if validRows == 0 then [NoValidFirstColumnIssue] else []);
    Validation(all == [], all)
  }

  /** The outcome of `validateCsvFile`, given the two parses. The headerless
      parse is only consulted when the header test fails. */
  function Validate(header: Option<HeaderParse>, plain: Option<seq<seq<string>>>): Validation
  {
    match header
    case None => Validation(false, [ParseFailedIssue])
    case Some(h) =>
      if HasHeader(h.fields) then HeaderValidation(h.fields, h.rows)
      else
        match plain
        case None => Validation(false, [PlainParseFailedIssue])
        case Some(rows) => PlainValidation(rows)
  }

  /** The `forEach` over the rows: pushes an issue for each blank cell and
      counts the others. */
  method ScanRows<R>(rows: seq<R>, cell: R -> string, offset: nat, what: string)
    returns (issues: seq<string>, validRowCount: nat)
    ensures issues == RowIssues(rows, cell, offset, what)
    ensures validRowCount == |rows| - CountIf(rows, IsBlank(cell))
  {
    issues := [];
    validRowCount := 0;
    for idx := 0 to |rows|
      invariant issues == RowIssues(rows[..idx], cell, offset, what)
      invariant CountIf(rows[..idx], IsBlank(cell)) <= idx
      invariant validRowCount == idx - CountIf(rows[..idx], IsBlank(cell))
    {
      RowIssuesStep(rows, idx, cell, offset, what);
      if cell(rows[idx]) == "" {
        issues := issues + [RowMessage(idx + offset, what)];
      } else {
        validRowCount := validRowCount + 1;
      }
    }
    assert rows[..|rows|] == rows;
  }

  /** One more row of the loop: its issue, if any, comes last. */
  lemma RowIssuesStep<R>(rows: seq<R>, idx: nat, cell: R -> string, offset: nat, what: string)
    requires idx < |rows|
    ensures RowIssues(rows[..idx + 1], cell, offset, what)
      == RowIssues(rows[..idx], cell, offset, what)
         + (if cell(rows[idx]) == "" then [RowMessage(idx + offset, what)] else [])
    ensures CountIf(rows[..idx + 1], IsBlank(cell))
      == CountIf(rows[..idx], IsBlank(cell)) + (if cell(rows[idx]) == "" then 1 else 0)
  {
    assert rows[..idx + 1][..idx] == rows[..idx];
    assert rows[..idx + 1] == rows[..idx] + [rows[idx]];
    CountIfAppend(rows[..idx], rows[idx], IsBlank(cell));
  }

  /** `validateCsvFile` over the results of the two parses. */
  method ValidateCsvFile(header: Option<HeaderParse>, plain: Option<seq<seq<string>>>)
    returns (v: Validation)
    ensures v == Validate(header, plain)
  {
    if header.None? {
      return Validation(false, [ParseFailedIssue]);
    }
    var fields := header.value.fields;
    var issues: seq<string> := [];
    if !HasHeader(fields) {
      if plain.None? {
        issues := issues + [PlainParseFailedIssue];
        return Validation(false, issues);
      }
      var rows := plain.value;
      if |rows| == 0 {
        issues := issues + [NoRowsIssue];
      }
      var rowIssues, validRowCount := ScanRows(rows, FirstCell, 1, "empty first column");
      issues := issues + rowIssues;
      if validRowCount == 0 {
        issues := issues + [NoValidFirstColumnIssue];
      }
      return Validation(|issues| == 0, issues);
    }
    if !HasHeader(fields) {
      issues := issues + [MissingColumnIssue];
    }
    var rowIssues, validRowCount := ScanRows(header.value.rows, CommentCell, 2, "empty comment");
    issues := issues + rowIssues;
    if validRowCount == 0 {
      issues := issues + [NoValidCommentsIssue];
    }
    v := Validation(|issues| == 0, issues);
  }

  // Properties of the validation

  lemma {:induction false} CountIfNone<T>(s: seq<T>, p: T -> bool)
    ensures CountIf(s, p) == 0 <==> forall i :: 0 <= i < |s| ==> !p(s[i])
  {
    if s != [] {
      CountIfNone(s[1..], p);
      assert forall i :: 1 <= i < |s| ==> s[1..][i - 1] == s[i];
    }
  }

  /** One issue per blank row, each numbered by its row. */
  lemma RowIssuesSpec<R>(rows: seq<R>, cell: R -> string, offset: nat, what: string)
    ensures |RowIssues(rows, cell, offset, what)| == CountIf(rows, IsBlank(cell))
    ensures forall i :: 0 <= i < |rows| && cell(rows[i]) == "" ==>
      RowMessage(i + offset, what) in RowIssues(rows, cell, offset, what)
    ensures forall m :: m in RowIssues(rows, cell, offset, what) ==> StartsWith(m, "Row ")
  {
    RowIssuesCount(rows, cell, offset, what);
    RowIssuesReported(rows, cell, offset, what);
    RowIssuesPrefixed(rows, cell, offset, what);
  }

  lemma {:induction false} RowIssuesCount<R>(rows: seq<R>, cell: R -> string, offset: nat, what: string)
    ensures |RowIssues(rows, cell, offset, what)| == CountIf(rows, IsBlank(cell))
  {
    if rows != [] {
      var n := |rows| - 1;
      RowIssuesCount(rows[..n], cell, offset, what);
      assert rows[..n] + [rows[n]] == rows;
      CountIfAppend(rows[..n], rows[n], IsBlank(cell));
    }
  }

  lemma {:induction false} RowIssuesReported<R>(rows: seq<R>, cell: R -> string, offset: nat, what: string)
    ensures forall i :: 0 <= i < |rows| && cell(rows[i]) == "" ==>
      RowMessage(i + offset, what) in RowIssues(rows, cell, offset, what)
  {
    if rows != [] {
      var n := |rows| - 1;
      RowIssuesReported(rows[..n], cell, offset, what);
      forall i | 0 <= i < n ensures rows[..n][i] == rows[i] { }
    }
  }

  lemma {:induction false} RowIssuesPrefixed<R>(rows: seq<R>, cell: R -> string, offset: nat, what: string)
    ensures forall m :: m in RowIssues(rows, cell, offset, what) ==> StartsWith(m, "Row ")
  {
    if rows != [] {
      var n := |rows| - 1;
      RowIssuesPrefixed(rows[..n], cell, offset, what);
      RowMessagePrefix(n + offset, what);
    }
  }

  lemma RowMessagePrefix(n: nat, what: string)
    ensures StartsWith(RowMessage(n, what), "Row ")
  {
    assert RowMessage(n, what) == "Row " + (NatToString(n) + ": " + what + ".");
  }

  /** A header-mode or headerless file passes exactly when it has at least one
      row and every row has a non-blank comment (first column). */
  lemma ValidIff(header: Option<HeaderParse>, plain: Option<seq<seq<string>>>)
    ensures var v := Validate(header, plain);
      v.valid <==> v.issues == []
    ensures header.Some? && HasHeader(header.value.fields) ==>
      var rows := header.value.rows;
      (Validate(header, plain).valid <==>
        |rows| > 0 && forall i :: 0 <= i < |rows| ==> CommentCell(rows[i]) != "")
    ensures header.Some? && !HasHeader(header.value.fields) && plain.Some? ==>
      var rows := plain.value;
      (Validate(header, plain).valid <==>
        |rows| > 0 && forall i :: 0 <= i < |rows| ==> FirstCell(rows[i]) != "")
    ensures header.None? || (!HasHeader(header.value.fields) && plain.None?) ==>
      !Validate(header, plain).valid
  {
    if header.Some? {
      var h := header.value;
      if HasHeader(h.fields) {
        RowsScanClean(h.rows, CommentCell, 2, "empty comment");
      } else if plain.Some? {
        RowsScanClean(plain.value, FirstCell, 1, "empty first column");
      }
    }
  }

  /** The row scan reports nothing and counts a valid row exactly when there
      is a row and none of them is blank. */
  lemma RowsScanClean<R>(rows: seq<R>, cell: R -> string, offset: nat, what: string)
    ensures (RowIssues(rows, cell, offset, what) == [] && |rows| - CountIf(rows, IsBlank(cell)) != 0)
      <==> |rows| > 0 && forall i :: 0 <= i < |rows| ==> cell(rows[i]) != ""
  {
    RowIssuesSpec(rows, cell, offset, what);
    CountIfNone(rows, IsBlank(cell));
    CountIfBound(rows, IsBlank(cell));
  }

  /** A blank row is always reported, under its own row number. */
  lemma BlankRowReported(header: Option<HeaderParse>, plain: Option<seq<seq<string>>>, idx: nat)
    requires header.Some?
    ensures (HasHeader(header.value.fields) && idx < |header.value.rows|
             && CommentCell(header.value.rows[idx]) == "") ==>
      RowMessage(idx + 2, "empty comment") in Validate(header, plain).issues
    ensures (!HasHeader(header.value.fields) && plain.Some? && idx < |plain.value|
             && FirstCell(plain.value[idx]) == "") ==>
      RowMessage(idx + 1, "empty first column") in Validate(header, plain).issues
  {
    RowIssuesSpec(header.value.rows, CommentCell, 2, "empty comment");
    if plain.Some? {
      RowIssuesSpec(plain.value, FirstCell, 1, "empty first column");
    }
  }

  /** The missing-column message is none of the others. */
  lemma MissingColumnIssueDistinct()
    ensures !StartsWith(MissingColumnIssue, "Row ")
    ensures MissingColumnIssue !in [NoRowsIssue, NoValidCommentsIssue, NoValidFirstColumnIssue,
                                    ParseFailedIssue, PlainParseFailedIssue]
  {
    assert MissingColumnIssue[0] == 'M';
  }

  /** The missing-column issue can never be reported: header mode is chosen
      only when the column is there. */
  lemma MissingColumnUnreachable(header: Option<HeaderParse>, plain: Option<seq<seq<string>>>)
    ensures MissingColumnIssue !in Validate(header, plain).issues
  {
    MissingColumnIssueDistinct();
    if header.Some? {
      var h := header.value;
      if HasHeader(h.fields) {
        RowIssuesSpec(h.rows, CommentCell, 2, "empty comment");
        var rowIssues := RowIssues(h.rows, CommentCell, 2, "empty comment");
        assert MissingColumnIssue !in rowIssues;
      } else if plain.Some? {
        RowIssuesSpec(plain.value, FirstCell, 1, "empty first column");
        var rowIssues := RowIssues(plain.value, FirstCell, 1, "empty first column");
        assert MissingColumnIssue !in rowIssues;
      }
    }
  }

  /** A header spelled `Comment` selects header mode, but the rows are keyed
      by the raw name, so every row is reported blank. */
  lemma CapitalisedHeaderRejected()
    ensures var h := HeaderParse(["Comment"], [map["Comment" := "great"]]);
      HasHeader(h.fields) && !Validate(Some(h), None).valid
  {
    var h := HeaderParse(["Comment"], [map["Comment" := "great"]]);
    assert JsTrim("Comment") == "Comment" by {
      assert !IsJsSpace("Comment"[0]) && !IsJsSpace("Comment"[6]);
    }
    assert Lower("Comment") == "comment";
    assert NormalisedFields(h.fields) == ["comment"];
    assert CommentCell(h.rows[0]) == "" by {
      assert JsTrim("") == "";
    }
    ValidIff(Some(h), None);
  }

  // ---------------------------------------------------------------------------
  // Issue list

  const MoreIssues: string := "…and more"
  const MaxListedIssues: nat := 6

  /** The list items under the upload field: the first six issues, then one
      more item when there are more than six. */
  function VisibleIssues(issues: seq<string>): (r: seq<string>)
    ensures |issues| <= MaxListedIssues ==> r == issues
    ensures |issues| > MaxListedIssues ==>
      |r| == MaxListedIssues + 1 && r[..MaxListedIssues] == issues[..MaxListedIssues]
      && r[MaxListedIssues] == MoreIssues
    ensures |r| <= MaxListedIssues + 1
  {
    issues[..Min(MaxListedIssues, |issues|)] + (if |issues| > MaxListedIssues then [MoreIssues] else [])
  }

  // ---------------------------------------------------------------------------
  // Form

  datatype FormData = FormData(
    graphApiKey: string, page: string, maxPosts: string, maxComments: string,
    since: string, until: string)

  const EmptyForm := FormData("", "", "", "", "", "")

  /** `a || b` on strings. */
  function Or(a: string, b: string): (r: string)
    ensures a != "" ==> r == a
    ensures a == "" ==> r == b
  {
    if a != "" then a else b
  }

  /** The mount effect: a field already typed in is kept, else the stored
      setting is used (else the empty string); the other fields are untouched. */
  function Prefill(prev: FormData, stored: PersistedSettings): (r: FormData)
    ensures r.maxPosts == prev.maxPosts && r.maxComments == prev.maxComments
      && r.since == prev.since && r.until == prev.until
    ensures prev.graphApiKey != "" ==> r.graphApiKey == prev.graphApiKey
    ensures prev.graphApiKey == "" ==> r.graphApiKey == stored.graphApiKey
    ensures prev.page != "" ==> r.page == prev.page
    ensures prev.page == "" ==> r.page == stored.page
  {
    prev.(graphApiKey := Or(Or(prev.graphApiKey, stored.graphApiKey), ""),
          page := Or(Or(prev.page, stored.page), ""))
  }

  /** Prefilling twice is prefilling once, and the empty form takes the
      stored settings as they are. */
  lemma PrefillIdempotent(prev: FormData, stored: PersistedSettings)
    ensures Prefill(Prefill(prev, stored), stored) == Prefill(prev, stored)
    ensures var r := Prefill(EmptyForm, stored);
      r.graphApiKey == stored.graphApiKey && r.page == stored.page
  {
  }

  /** The request body of `handleSubmit`. */
  function Payload(form: FormData): ScrapeAnalyzeRequest
  {
    ScrapeAnalyzeRequest(
      form.graphApiKey, form.page,
      if form.maxPosts != "" then Some(ParseIntJs(form.maxPosts)) else None,
      if form.maxComments != "" then Some(ParseIntJs(form.maxComments)) else None,
      if form.since != "" then Some(form.since) else None,
      if form.until != "" then Some(form.until) else None)
  }

  /** `handleSubmit`: the two required fields always, each optional field
      only when its form value is non-empty. */
  method BuildPayload(form: FormData) returns (payload: ScrapeAnalyzeRequest)
    ensures payload == Payload(form)
    ensures payload.graphApiKey == form.graphApiKey && payload.page == form.page
    ensures payload.maxPosts.Some? <==> form.maxPosts != ""
    ensures payload.maxComments.Some? <==> form.maxComments != ""
    ensures payload.since.Some? <==> form.since != ""
    ensures payload.until.Some? <==> form.until != ""
  {
    payload := ScrapeAnalyzeRequest(form.graphApiKey, form.page, None, None, None, None);
    if form.maxPosts != "" {
      payload := payload.(maxPosts := Some(ParseIntJs(form.maxPosts)));
    }
    if form.maxComments != "" {
      payload := payload.(maxComments := Some(ParseIntJs(form.maxComments)));
    }
    if form.since != "" {
      payload := payload.(since := Some(form.since));
    }
    if form.until != "" {
      payload := payload.(until := Some(form.until));
    }
  }

  /** A count typed as a decimal numeral reaches the request as that number,
      and the two text fields pass through unchanged. */
  lemma PayloadNumbers(form: FormData, posts: nat, comments: nat)
    requires form.maxPosts == NatToString(posts) && form.maxComments == NatToString(comments)
    ensures Payload(form).maxPosts == Some(JsInteger(posts))
    ensures Payload(form).maxComments == Some(JsInteger(comments))
    ensures form.since != "" ==> Payload(form).since == Some(form.since)
  {
    ParseIntOfNatToString(posts);
    ParseIntOfNatToString(comments);
  }
}
