/** The export registry: a persisted list of generated files, newest first. */
module ExportsStore {
  import opened Base

  datatype ExportType = Pdf | CommentsCsv | CategoriesCsv

  /** One generated file, kept as a self-contained data URL for re-download. */
  datatype ExportRecord = ExportRecord(
    id: string,
    kind: ExportType,
    name: string,
    filename: string,
    mime: string,
    size: nat,
    createdAt: string,
    dataUrl: string)

  /** The part of the state written to local storage. */
  datatype PersistedExports = PersistedExports(exports: seq<ExportRecord>)

  /** `xs.filter((x) => x.id !== id)`. */
  function WithoutId(xs: seq<ExportRecord>, id: string): (r: seq<ExportRecord>)
    ensures forall x :: x in r <==> x in xs && x.id != id
    ensures |r| + CountIf(xs, (x: ExportRecord) => x.id == id) == |xs|
  {
    if xs == [] then []
    else (if xs[0].id == id then [] else [xs[0]]) + WithoutId(xs[1..], id)
  }

  /** Removing distributes over concatenation: the records that stay keep
      their relative order. */
  lemma {:induction false} WithoutIdConcat(xs: seq<ExportRecord>, ys: seq<ExportRecord>, id: string)
    ensures WithoutId(xs + ys, id) == WithoutId(xs, id) + WithoutId(ys, id)
  {
    if xs != [] {
      assert (xs + ys)[1..] == xs[1..] + ys;
      WithoutIdConcat(xs[1..], ys, id);
    } else {
      assert xs + ys == ys;
    }
  }

  /** Removing an id that no record carries changes nothing. */
  lemma {:induction false} WithoutAbsentId(xs: seq<ExportRecord>, id: string)
    requires forall x :: x in xs ==> x.id != id
    ensures WithoutId(xs, id) == xs
  {
    if xs != [] {
      assert xs[0] in xs;
      WithoutAbsentId(xs[1..], id);
    }
  }

  /** Removing twice is removing once. */
  lemma WithoutIdIdempotent(xs: seq<ExportRecord>, id: string)
    ensures WithoutId(WithoutId(xs, id), id) == WithoutId(xs, id)
  {
    WithoutAbsentId(WithoutId(xs, id), id);
  }

  /** The registry store. */
  class ExportsState {
    var exports: seq<ExportRecord>

    constructor ()
      ensures exports == []
    {
      exports := [];
    }

    /** Prepends a record; ids are not checked for uniqueness. */
    method AddExport(e: ExportRecord)
      modifies this
      ensures exports == [e] + old(exports)
      ensures |exports| == |old(exports)| + 1 && exports[1..] == old(exports)
    {
      exports := [e] + exports;
    }

    method RemoveExport(id: string)
      modifies this
      ensures exports == WithoutId(old(exports), id)
      ensures forall x :: x in exports ==> x.id != id
    {
      exports := WithoutId(exports, id);
    }

    method ClearExports()
      modifies this
      ensures exports == []
    {
      exports := [];
    }

    /** What is persisted: the list of exports and nothing else. */
    function Persisted(): (p: PersistedExports)
      reads this
      ensures p.exports == exports
    {
      PersistedExports(exports)
    }
  }

  /** After `add(A); add(B)` the registry is `[B, A]` followed by what was
      there before (returned as `added`); removing `B`'s id afterwards keeps
      `A` in front of what was there before, provided no other record shares
      that id. */
  method AddTwiceThenRemove(store: ExportsState, a: ExportRecord, b: ExportRecord)
    returns (added: seq<ExportRecord>)
    requires a.id != b.id
    requires forall x :: x in store.exports ==> x.id != b.id
    modifies store
    ensures added == [b, a] + old(store.exports)
    ensures store.exports == [a] + old(store.exports)
  {
    store.AddExport(a);
    store.AddExport(b);
    added := store.exports;
    ghost var before := store.exports;
    store.RemoveExport(b.id);
    assert before == [b] + ([a] + old(store.exports));
    WithoutIdConcat([b], [a] + old(store.exports), b.id);
    WithoutIdConcat([a], old(store.exports), b.id);
    WithoutAbsentId(old(store.exports), b.id);
  }
}
