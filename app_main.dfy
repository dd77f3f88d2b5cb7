/** The two analysis endpoints of the API: `/analyze-csv`, which turns the
    rows of a CSV file into comments with synthetic ids, and
    `/scrape-analyze`, which turns scraped comments into the same comment
    records. Both hand the comments to the inference pipeline, an input
    here, and wrap its failures in HTTP errors. */
module AppMain {
  import opened Base
  import opened Text
  import opened ApiTypes
  import opened Schemas
  import opened Utils
  import opened FbScraper

  /** What a handler answers: an HTTP error, the early answer without
      analytics, or the full analysis response. */
  datatype Reply = HttpError(status: int, detail: string) | NoComments(pageId: string) | Analyzed(response: AnalyzeResponse)

  /** What the inference pipeline gives for a list of comments. */
  datatype Inference = Inferred(merged: seq<Merged>, analytics: Analytics) | InferenceFailed(message: string)

  /** What reading the file with `csv.reader` gives. */
  datatype CsvRead = CsvRows(rows: seq<seq<string>>) | CsvReadFailed(message: string)

  /** What the scraper gives. */
  datatype Scrape = Scraped(result: ScrapeResult) | ScrapeFailed(message: string)

  const CsvPageId: string := "csv_input"
  const CsvIdPrefix: string := "csv_"
  const CsvExtension: string := ".csv"
  const FileNotFound: string := "File not found: "
  const NotCsvFile: string := "File must be a CSV file"
  const ProcessingError: string := "Error processing CSV: "
  const InferenceError: string := "Model inference error: "
  const ScraperError: string := "Scraper error: "
  const InternalError: string := "Internal Server Error"

  // ---------------------------------------------------------------------------
  // Path.name and Path.suffix

  /** The last component of a POSIX path: empty and `.` components are not
      components. */
  function LastComponent(segs: seq<string>): (r: string)
    ensures r != "."
    ensures r != "" ==>
      exists i :: 0 <= i < |segs| && segs[i] == r && forall j :: i < j < |segs| ==> segs[j] == "" || segs[j] == "."
    ensures r == "" ==> forall j :: 0 <= j < |segs| ==> segs[j] == "" || segs[j] == "."
  {
    if segs == [] then ""
    else if segs[|segs| - 1] != "" && segs[|segs| - 1] != "." then segs[|segs| - 1]
    else
      var init := segs[..|segs| - 1];
      var r := LastComponent(init);
      assert forall j :: 0 <= j < |init| ==> init[j] == segs[j];
      r
  }

  /** `Path(p).name`. */
  function PathName(path: string): (r: string)
    ensures '/' !in r
  {
    LastComponent(Split(path, '/'))
  }

  /** Index of the last occurrence of `c` in `s`. */
  function LastIndexOf(s: string, c: char): (r: Option<nat>)
    ensures r.Some? ==> r.value < |s| && s[r.value] == c && c !in s[r.value + 1..]
    ensures r.None? ==> c !in s
  {
    if s == [] then None
    else if s[|s| - 1] == c then Some(|s| - 1)
    else
      var r := LastIndexOf(s[..|s| - 1], c);
      assert s == s[..|s| - 1] + [s[|s| - 1]];
      r
  }

  /** `PurePath.suffix` of a name: from its last dot, when that dot is
      neither the first nor the last character; otherwise empty. */
  function Suffix(name: string): (r: string)
    ensures r == "" || (r[0] == '.' && |r| >= 2 && |r| < |name| && r == name[|name| - |r|..] && '.' !in r[1..])
  {
    match LastIndexOf(name, '.')
    case Some(i) => if 0 < i < |name| - 1 then name[i..] else ""
    case None => ""
  }

  /** Whether `/analyze-csv` accepts the path: its suffix, lower-cased, is
      `.csv`. */
  predicate IsCsvPath(path: string)
  {
    Lower(Suffix(PathName(path))) == CsvExtension
  }

  /** The last occurrence is found where no later character matches. */
  lemma LastIndexOfAt(s: string, c: char, i: nat)
    requires i < |s| && s[i] == c && c !in s[i + 1..]
    ensures LastIndexOf(s, c) == Some(i)
  {
    assert s[i] in s;
  }

  /** The suffix of a name is its last extension with the dot, so the check
      reads the extension lower-cased: `.csv`, `.CSV` and `.Csv` pass alike. */
  lemma SuffixOfName(stem: string, ext: string)
    requires stem != [] && ext != [] && '.' !in ext
    ensures Suffix(stem + "." + ext) == "." + ext
    ensures Lower(Suffix(stem + "." + ext)) == "." + Lower(ext)
  {
    SuffixAfterStem(stem, ext);
    LowerCons('.', ext);
  }

  lemma SuffixAfterStem(stem: string, ext: string)
    requires stem != [] && ext != [] && '.' !in ext
    ensures Suffix(stem + "." + ext) == "." + ext
  {
    var name := stem + "." + ext;
    AppendAssoc(stem, ".", ext);
    var i := |stem|;
    assert name[i..] == "." + ext;
    assert name[i + 1..] == ext;
    LastIndexOfAt(name, '.', i);
  }

  lemma LowerCons(c: char, s: string)
    ensures Lower([c] + s) == [LowerChar(c)] + Lower(s)
  {
  }

  /** A file name whose extension lower-cases to `csv` passes the check,
      whatever the case of its letters. */
  lemma CsvExtensionAnyCase(stem: string, ext: string)
    requires stem != [] && '/' !in stem
    requires Lower(ext) == "csv"
    ensures IsCsvPath(stem + "." + ext)
  {
    CsvLikeExtension(ext);
    var name := stem + "." + ext;
    NoSlashInName(stem, ext);
    PathNameOfName(name);
    SuffixOfName(stem, ext);
    assert Lower(Suffix(name)) == "." + Lower(ext);
    assert "." + "csv" == CsvExtension;
  }

  /** An extension that lower-cases to `csv` has neither a dot nor a slash. */
  lemma CsvLikeExtension(ext: string)
    requires Lower(ext) == "csv"
    ensures ext != [] && '.' !in ext && '/' !in ext
  {
    forall k | 0 <= k < |ext| ensures ext[k] != '.' && ext[k] != '/' {
      assert Lower(ext)[k] == LowerChar(ext[k]);
      assert Lower(ext)[k] in "csv";
    }
  }

  /** A name without `/` is its own `Path.name`, unless it is empty or `.`. */
  lemma PathNameOfName(name: string)
    requires '/' !in name && name != "" && name != "."
    ensures PathName(name) == name
  {
    assert Split(name, '/') == [name];
  }

  lemma NoSlashInName(stem: string, ext: string)
    requires '/' !in stem && '/' !in ext
    ensures '/' !in stem + "." + ext
  {
  }

  /** `report.CSV` is accepted like `report.csv`. */
  lemma UpperCaseCsvAccepted(stem: string)
    requires stem != [] && '/' !in stem
    ensures IsCsvPath(stem + ".CSV")
  {
    assert stem + "." + "CSV" == stem + ".CSV";
    LowerUpperCsv();
    CsvExtensionAnyCase(stem, "CSV");
  }

  lemma LowerUpperCsv()
    ensures Lower("CSV") == "csv"
  {
    LowerCaseVariants("CSV", "csv");
  }

  /** A name without a dot has no suffix. */
  lemma NoDotNoSuffix(name: string)
    requires '.' !in name
    ensures Suffix(name) == ""
  {
  }

  // ---------------------------------------------------------------------------
  // The CSV row loop

  function CsvId(n: nat): string
  {
    CsvIdPrefix + NatToString(n)
  }

  /** A row that gives a comment: it has a first column and that column is
      not blank. */
  predicate KeptRow(row: seq<string>)
  {
    row != [] && PyStrip(row[0]) != ""
  }

  /** The comment meta of the row numbered `n`, counting from 1, if kept. */
  function RowMeta(row: seq<string>, n: nat): seq<Meta>
  {
    if KeptRow(row) then [Meta(Some(CsvId(n)), Some(PyStrip(row[0])), None)] else []
  }

  /** The comment metas of `rows`, in row order. */
  function CsvMeta(rows: seq<seq<string>>): seq<Meta>
  {
    if rows == [] then [] else CsvMeta(rows[..|rows| - 1]) + RowMeta(rows[|rows| - 1], |rows|)
  }

  /** The 1-based numbers of the rows that give a comment. */
  function Kept(rows: seq<seq<string>>): seq<nat>
  {
    if rows == [] then []
    else Kept(rows[..|rows| - 1]) + (if KeptRow(rows[|rows| - 1]) then [|rows|] else [])
  }

  /** The reader loop of `/analyze-csv`. */
  method CsvCommentsMeta(rows: seq<seq<string>>) returns (meta: seq<Meta>)
    ensures meta == CsvMeta(rows)
  {
    meta := [];
    for i := 0 to |rows|
      invariant meta == CsvMeta(rows[..i])
    {
      assert rows[..i + 1][..i] == rows[..i];
      var row := rows[i];
      if row == [] {
        continue;
      }
      var text := PyStrip(row[0]);
      if text != "" {
        meta := meta + [Meta(Some(CsvId(i + 1)), Some(text), None)];
      }
    }
    assert rows[..|rows|] == rows;
  }

  /** Every kept row number is a row that gives a comment. */
  lemma {:induction false} KeptSound(rows: seq<seq<string>>)
    ensures forall k :: 0 <= k < |Kept(rows)| ==> 1 <= Kept(rows)[k] <= |rows| && KeptRow(rows[Kept(rows)[k] - 1])
  {
    if rows != [] {
      var init := rows[..|rows| - 1];
      KeptSound(init);
      assert forall k :: 0 <= k < |Kept(init)| ==> Kept(rows)[k] == Kept(init)[k];
      forall j | 0 <= j < |init| ensures rows[j] == init[j] { }
    }
  }

  /** Every row that gives a comment is kept. */
  lemma {:induction false} KeptComplete(rows: seq<seq<string>>)
    ensures forall j :: 0 <= j < |rows| && KeptRow(rows[j]) ==> j + 1 in Kept(rows)
  {
    if rows != [] {
      var init := rows[..|rows| - 1];
      KeptComplete(init);
      forall j | 0 <= j < |init| && KeptRow(rows[j]) ensures j + 1 in Kept(rows) {
        assert rows[j] == init[j];
        assert j + 1 in Kept(init);
      }
    }
  }

  /** The kept row numbers increase, so skipped rows leave gaps. */
  lemma {:induction false} KeptIncreasing(rows: seq<seq<string>>)
    ensures forall a, b :: 0 <= a < b < |Kept(rows)| ==> Kept(rows)[a] < Kept(rows)[b]
  {
    if rows != [] {
      var init := rows[..|rows| - 1];
      KeptIncreasing(init);
      KeptSound(init);
    }
  }

  lemma {:induction false} CsvMetaLength(rows: seq<seq<string>>)
    ensures |CsvMeta(rows)| == |Kept(rows)|
  {
    if rows != [] {
      CsvMetaLength(rows[..|rows| - 1]);
    }
  }

  /** The `k`-th comment meta is the meta of the `k`-th kept row. */
  lemma {:induction false} CsvMetaAt(rows: seq<seq<string>>, k: nat)
    requires k < |Kept(rows)|
    ensures 1 <= Kept(rows)[k] <= |rows| && |CsvMeta(rows)| == |Kept(rows)|
    ensures [CsvMeta(rows)[k]] == RowMeta(rows[Kept(rows)[k] - 1], Kept(rows)[k])
  {
    var n := |rows|;
    var init := rows[..n - 1];
    var last := rows[n - 1];
    CsvMetaLength(rows);
    CsvMetaLength(init);
    KeptSound(init);
    var ks := Kept(init) + (if KeptRow(last) then [n] else []);
    var ms := CsvMeta(init) + RowMeta(last, n);
    assert Kept(rows) == ks;
    assert CsvMeta(rows) == ms;
    if k < |Kept(init)| {
      CsvMetaAt(init, k);
      assert ks[k] == Kept(init)[k];
      assert ms[k] == CsvMeta(init)[k];
      assert rows[ks[k] - 1] == init[ks[k] - 1];
    } else {
      assert ks[k] == n;
    }
  }

  /** The k-th comment comes from the k-th kept row: its id is `csv_` and
      the row number, its text the stripped first column. */
  lemma CsvMetaKept(rows: seq<seq<string>>)
    ensures |CsvMeta(rows)| == |Kept(rows)|
    ensures forall k :: 0 <= k < |Kept(rows)| ==>
      1 <= Kept(rows)[k] <= |rows| && KeptRow(rows[Kept(rows)[k] - 1])
      && CsvMeta(rows)[k] == Meta(Some(CsvId(Kept(rows)[k])), Some(PyStrip(rows[Kept(rows)[k] - 1][0])), None)
  {
    CsvMetaLength(rows);
    KeptSound(rows);
    forall k | 0 <= k < |Kept(rows)|
      ensures CsvMeta(rows)[k] == Meta(Some(CsvId(Kept(rows)[k])), Some(PyStrip(rows[Kept(rows)[k] - 1][0])), None)
    {
      CsvMetaAt(rows, k);
    }
  }

  lemma CsvIdInjective(a: nat, b: nat)
    requires CsvId(a) == CsvId(b)
    ensures a == b
  {
    assert NatToString(a) == CsvId(a)[|CsvIdPrefix|..];
    assert NatToString(b) == CsvId(b)[|CsvIdPrefix|..];
    DigitsValueOfNatToString(a);
    DigitsValueOfNatToString(b);
  }

  /** The synthetic ids are all different, and every kept text is
      non-empty and stripped. */
  lemma CsvMetaFacts(rows: seq<seq<string>>)
    ensures var m := CsvMeta(rows);
      (forall a, b :: 0 <= a < b < |m| ==> m[a].commentId != m[b].commentId)
      && (forall k :: 0 <= k < |m| ==>
            m[k].text.Some? && m[k].text.value != "" && !IsPySpace(m[k].text.value[0]) && !IsPySpace(m[k].text.value[|m[k].text.value| - 1]))
  {
    CsvMetaIdsDistinct(rows);
    CsvMetaLength(rows);
    var m := CsvMeta(rows);
    forall k | 0 <= k < |m|
      ensures m[k].text.Some? && m[k].text.value != ""
      ensures !IsPySpace(m[k].text.value[0]) && !IsPySpace(m[k].text.value[|m[k].text.value| - 1])
    {
      CsvTextStripped(rows, k);
    }
  }

  lemma CsvTextStripped(rows: seq<seq<string>>, k: nat)
    requires k < |CsvMeta(rows)|
    ensures var t := CsvMeta(rows)[k].text;
      t.Some? && t.value != "" && !IsPySpace(t.value[0]) && !IsPySpace(t.value[|t.value| - 1])
  {
    CsvMetaLength(rows);
    CsvMetaAt(rows, k);
    var row := rows[Kept(rows)[k] - 1];
    assert [CsvMeta(rows)[k]] == RowMeta(row, Kept(rows)[k]);
    assert row != [] && CsvMeta(rows)[k].text == Some(PyStrip(row[0]));
    TrimFacts(row[0], IsPySpace);
  }

  lemma CsvMetaIdsDistinct(rows: seq<seq<string>>)
    ensures var m := CsvMeta(rows);
      forall a, b :: 0 <= a < b < |m| ==> m[a].commentId != m[b].commentId
  {
    CsvMetaKept(rows);
    KeptIncreasing(rows);
    var m := CsvMeta(rows);
    var ks := Kept(rows);
    forall a, b | 0 <= a < b < |m| ensures m[a].commentId != m[b].commentId {
      if m[a].commentId == m[b].commentId {
        CsvIdInjective(ks[a], ks[b]);
      }
    }
  }

  // ---------------------------------------------------------------------------
  // Responses

  /** `[CommentResult(**m) for m in merged]`: `None` when a merged comment
      has no id or no text, which fails validation. */
  function Results(merged: seq<Merged>): (r: Option<seq<CommentResult>>)
    ensures r.Some? <==> forall i :: 0 <= i < |merged| ==> merged[i].commentId.Some? && merged[i].text.Some?
    ensures r.Some? ==> |r.value| == |merged| && forall i :: 0 <= i < |merged| ==>
      r.value[i] == CommentResult(merged[i].commentId.value, merged[i].text.value, merged[i].sentiment,
                                  merged[i].sentimentConf, merged[i].category, merged[i].categoryConf,
                                  merged[i].createdTime)
  {
    if merged == [] then Some([])
    else
      var m := merged[0];
      var rest := Results(merged[1..]);
      if m.commentId.None? || m.text.None? || rest.None? then None
      else
        Some([CommentResult(m.commentId.value, m.text.value, m.sentiment, m.sentimentConf, m.category,
                            m.categoryConf, m.createdTime)] + rest.value)
  }

  /** The string of a re-raised `HTTPException`: status, colon, detail. */
  function HttpExceptionText(status: nat, detail: string): string
  {
    NatToString(status) + ": " + detail
  }

  /** `/analyze-csv` after the reader loop: its answer for the comment metas
      the loop built. `invalid(merged)` is the text of the pydantic
      `ValidationError` raised for merged entries that are not all valid
      `CommentResult`s. */
  function CsvReply(read: CsvRead, meta: seq<Meta>, infer: seq<Meta> -> Inference, invalid: seq<Merged> -> string): Reply
  {
    match read
    case CsvReadFailed(msg) => HttpError(500, ProcessingError + msg)
    case CsvRows(_) =>
      if meta == [] then NoComments(CsvPageId)
      else
        match infer(meta)
        case InferenceFailed(msg) => HttpError(500, ProcessingError + HttpExceptionText(500, InferenceError + msg))
        case Inferred(merged, analytics) =>
          match Results(merged)
          case None => HttpError(500, ProcessingError + invalid(merged))
          case Some(results) => Analyzed(AnalyzeResponse(CsvPageId, results, analytics))
  }

  /** `/analyze-csv`: the file must exist and be a `.csv`; its rows become
      comments; an empty file answers early; every failure after the checks
      becomes a 500 "Error processing CSV". The file's existence and the
      reader's rows are inputs. */
  method AnalyzeCsv(req: AnalyzeCsvRequest, fileExists: bool, read: CsvRead, infer: seq<Meta> -> Inference,
                    invalid: seq<Merged> -> string)
    returns (reply: Reply)
    ensures !fileExists ==> reply == HttpError(400, FileNotFound + req.filePath)
    ensures fileExists && !IsCsvPath(req.filePath) ==> reply == HttpError(400, NotCsvFile)
    ensures fileExists && IsCsvPath(req.filePath) ==>
      reply == CsvReply(read, if read.CsvRows? then CsvMeta(read.rows) else [], infer, invalid)
  {
    if !fileExists {
      return HttpError(400, FileNotFound + req.filePath);
    }
    if Lower(Suffix(PathName(req.filePath))) != CsvExtension {
      return HttpError(400, NotCsvFile);
    }
    var meta: seq<Meta> := [];
    if read.CsvRows? {
      meta := CsvCommentsMeta(read.rows);
    }
    reply := CsvReply(read, meta, infer, invalid);
  }

  lemma StartsWithAppend(a: string, b: string)
    ensures StartsWith(a + b, a)
  {
    assert (a + b)[..|a|] == a;
  }

  /** Once the path is accepted, every failure is a 500 wrapped as "Error
      processing CSV", the inference error included (a 400 comes only from
      the two path checks); a success answers for "csv_input" with one
      result per merged comment and the pipeline's analytics. */
  lemma CsvReplyFacts(read: CsvRead, meta: seq<Meta>, infer: seq<Meta> -> Inference, invalid: seq<Merged> -> string)
    ensures var r := CsvReply(read, meta, infer, invalid);
      (r.HttpError? ==> r.status == 500 && StartsWith(r.detail, ProcessingError))
      && (r.NoComments? <==> read.CsvRows? && meta == [])
      && (r.NoComments? ==> r.pageId == CsvPageId)
      && (read.CsvRows? && meta != [] && infer(meta).Inferred? && Results(infer(meta).merged).None? ==>
            r == HttpError(500, ProcessingError + invalid(infer(meta).merged)))
      && (r.Analyzed? ==>
            r.response.pageId == CsvPageId && infer(meta).Inferred?
            && |r.response.commentsAnalyzed| == |infer(meta).merged|
            && r.response.analytics == infer(meta).analytics)
  {
    var r := CsvReply(read, meta, infer, invalid);
    if r.HttpError? {
      StartsWithAppend(ProcessingError, r.detail[|ProcessingError|..]);
      assert r.detail == ProcessingError + r.detail[|ProcessingError|..];
    }
  }

  /** The early answer is given exactly for a file none of whose rows has a
      non-blank first column. */
  lemma CsvMetaEmpty(rows: seq<seq<string>>)
    ensures CsvMeta(rows) == [] <==> forall j :: 0 <= j < |rows| ==> !KeptRow(rows[j])
  {
    CsvMetaLength(rows);
    KeptSound(rows);
    KeptComplete(rows);
    if Kept(rows) != [] {
      assert KeptRow(rows[Kept(rows)[0] - 1]);
    }
  }

  /** `comments_meta` of `/scrape-analyze`: one meta per scraped comment, in
      order, with its id, text and creation time. */
  function ScrapeMeta(comments: seq<CommentOut>): (m: seq<Meta>)
    ensures |m| == |comments|
    ensures forall i :: 0 <= i < |m| ==>
      m[i].commentId == comments[i].commentId && m[i].text == Some(comments[i].text)
      && m[i].createdTime == comments[i].createdTime
  {
    seq(|comments|, i requires 0 <= i < |comments| =>
      Meta(comments[i].commentId, Some(comments[i].text), comments[i].createdTime))
  }

  /** `/scrape-analyze`: a scraper failure is a 500 "Scraper error"; no
      comments answers early with the page id; an inference failure is a
      500 "Model inference error"; a comment without id fails validation of
      the response, which the handler does not catch. */
  function ScrapeAnalyze(scrape: Scrape, infer: seq<Meta> -> Inference): (r: Reply)
    ensures scrape.ScrapeFailed? ==> r == HttpError(500, ScraperError + scrape.message)
    ensures scrape.Scraped? && scrape.result.comments == [] ==> r == NoComments(scrape.result.pageId)
    ensures scrape.Scraped? && scrape.result.comments != [] ==>
      var meta := ScrapeMeta(scrape.result.comments);
      (infer(meta).InferenceFailed? ==> r == HttpError(500, InferenceError + infer(meta).message))
      && (infer(meta).Inferred? && Results(infer(meta).merged).None? ==> r == HttpError(500, InternalError))
      && (infer(meta).Inferred? && Results(infer(meta).merged).Some? ==>
            r == Analyzed(AnalyzeResponse(scrape.result.pageId, Results(infer(meta).merged).value,
                                          infer(meta).analytics)))
  {
    match scrape
    case ScrapeFailed(msg) => HttpError(500, ScraperError + msg)
    case Scraped(result) =>
      if result.comments == [] then NoComments(result.pageId)
      else
        var meta := ScrapeMeta(result.comments);
        match infer(meta)
        case InferenceFailed(msg) => HttpError(500, InferenceError + msg)
        case Inferred(merged, analytics) =>
          match Results(merged)
          case None => HttpError(500, InternalError)
          case Some(results) => Analyzed(AnalyzeResponse(result.pageId, results, analytics))
  }

  /** When inference keeps the comments' ids and texts, the response is
      validated and carries exactly one result per scraped comment. */
  lemma ScrapeResultsComplete(scrape: Scrape, infer: seq<Meta> -> Inference)
    requires scrape.Scraped? && scrape.result.comments != []
    requires var meta := ScrapeMeta(scrape.result.comments);
      infer(meta).Inferred? && |infer(meta).merged| == |meta|
      && forall i :: 0 <= i < |meta| ==>
           infer(meta).merged[i].commentId == meta[i].commentId && infer(meta).merged[i].text == meta[i].text
    requires forall i :: 0 <= i < |scrape.result.comments| ==> scrape.result.comments[i].commentId.Some?
    ensures var r := ScrapeAnalyze(scrape, infer);
      r.Analyzed? && |r.response.commentsAnalyzed| == |scrape.result.comments|
      && forall i :: 0 <= i < |scrape.result.comments| ==>
           r.response.commentsAnalyzed[i].commentId == scrape.result.comments[i].commentId.value
           && r.response.commentsAnalyzed[i].text == scrape.result.comments[i].text
  {
  }
}
