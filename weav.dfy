/** The record shaping of ragbot/weav.py: the query response is turned
    into score/text/page records, tenant names are listed in order, and
    the rows of an embedded frame are pushed as data objects into a batch.
    The vector database itself is not modelled: its answers are inputs and
    the batch is an object that remembers what was added to it. */
module Weav {
  import opened Wrappers
  import opened Strings

  // ---------------------------------------------------------------------
  // str.capitalize, on ASCII letters

  function ToUpper(c: char): char
  {
    if 'a' <= c <= 'z' then (c as int - 32) as char else c
  }

  function ToLower(c: char): char
  {
    if 'A' <= c <= 'Z' then (c as int + 32) as char else c
  }

  function LowerAll(s: string): (r: string)
    ensures |r| == |s|
    ensures forall k :: 0 <= k < |s| ==> r[k] == ToLower(s[k])
  {
    if s == [] then [] else [ToLower(s[0])] + LowerAll(s[1..])
  }

  /** The first character upper-cased, every other one lower-cased. */
  function Capitalize(s: string): (r: string)
    ensures |r| == |s|
    ensures s != [] ==> r[0] == ToUpper(s[0])
    ensures forall k :: 1 <= k < |s| ==> r[k] == ToLower(s[k])
  {
    if s == [] then [] else [ToUpper(s[0])] + LowerAll(s[1..])
  }

  /** Capitalizing twice is capitalizing once. */
  lemma CapitalizeIdempotent(s: string)
    ensures Capitalize(Capitalize(s)) == Capitalize(s)
  {
    var once := Capitalize(s);
    var twice := Capitalize(once);
    forall k | 0 <= k < |s| ensures twice[k] == once[k] {
      if k == 0 {
        assert ToUpper(ToUpper(s[0])) == ToUpper(s[0]);
      } else {
        assert ToLower(ToLower(s[k])) == ToLower(s[k]);
      }
    }
  }

  /** Names that differ only in the case of their letters select the same
      class: the lookup key depends on the letters, not on their case. */
  lemma CapitalizeIgnoresCase(s: string, t: string)
    requires |s| == |t|
    requires forall k :: 0 <= k < |s| ==> ToLower(s[k]) == ToLower(t[k])
    ensures Capitalize(s) == Capitalize(t)
  {
    if s != [] {
      assert ToUpper(s[0]) == ToUpper(t[0]) by {
        assert ToLower(s[0]) == ToLower(t[0]);
      }
    }
    assert forall k :: 0 <= k < |s| ==> Capitalize(s)[k] == Capitalize(t)[k];
  }

  // ---------------------------------------------------------------------
  // _format_query_result

  /** One item of `result['data']['Get'][Key]`: its certainty, content,
      page number and file name. */
  datatype ResultItem = ResultItem(certainty: real, content: string, pageNumber: int, filename: string)

  /** `{"score": ..., "text": ..., "page_number": ...}`. */
  datatype QueryHit = QueryHit(score: real, text: string, pageNumber: int)

  /** The KeyError raised when the response has no entry for the class. */
  datatype LookupError = KeyError(key: string)

  /** _format_query_result(result, class_name), where `get` is
      `result['data']['Get']`: one hit per item under the capitalized class
      name, in order, or a KeyError when that key is missing. */
  method FormatQueryResult(get: map<string, seq<ResultItem>>, className: string) returns (r: Result<seq<QueryHit>, LookupError>)
    ensures r.Failure? <==> Capitalize(className) !in get
    ensures r.Failure? ==> r.error == KeyError(Capitalize(className))
    ensures r.Success? ==>
      var items := get[Capitalize(className)];
      && |r.value| == |items|
      && forall k :: 0 <= k < |items| ==>
           r.value[k] == QueryHit(items[k].certainty, items[k].content, items[k].pageNumber)
  {
    var key := Capitalize(className);
    if key !in get {
      return Failure(KeyError(key));
    }
    var items := get[key];
    var resultList: seq<QueryHit> := [];
    for i := 0 to |items|
      invariant |resultList| == i
      invariant forall k :: 0 <= k < i ==>
        resultList[k] == QueryHit(items[k].certainty, items[k].content, items[k].pageNumber)
    {
      var item := items[i];
      resultList := resultList + [QueryHit(item.certainty, item.content, item.pageNumber)];
    }
    return Success(resultList);
  }

  // ---------------------------------------------------------------------
  // write_tenants

  datatype Tenant = Tenant(name: string)

  function Names(tenants: seq<Tenant>): seq<string>
  {
    seq(|tenants|, i requires 0 <= i < |tenants| => tenants[i].name)
  }

  /** write_tenants(class_name), given the class's tenants: their names in
      ascending order. Sorted and a permutation of the names, the result is
      the only such sequence (Strings.SortedUnique). */
  method WriteTenants(tenants: seq<Tenant>) returns (sortedNames: seq<string>)
    ensures Sorted(sortedNames)
    ensures multiset(sortedNames) == multiset(Names(tenants))
  {
    var tenantList: seq<string> := [];
    for i := 0 to |tenants|
      invariant tenantList == Names(tenants[..i])
    {
      tenantList := tenantList + [tenants[i].name];
    }
    assert tenants[..|tenants|] == tenants;
    SortSorted(tenantList);
    SortPermutes(tenantList);
    sortedNames := Sort(tenantList);
  }

  // ---------------------------------------------------------------------
  // add_pdf_data_objects

  /** One row of the stored frame, with its index label. */
  datatype StoredRow = StoredRow(index: int, embedding: seq<real>, text: string, chunkType: string, filename: string, pageNumber: int)

  /** `batch_data` with the class, tenant and vector it is added with. */
  datatype DataObject = DataObject(
    content: string, chunkType: string, chunkNumber: int, filename: string, pageNumber: int,
    className: string, tenant: string, vector: seq<real>)

  /** The batch the client collects objects in. */
  class Batch {
    var objects: seq<DataObject>

    constructor ()
      ensures objects == []
    {
      objects := [];
    }

    /** batch.add_data_object(...) */
    method AddDataObject(o: DataObject)
      modifies this
      ensures objects == old(objects) + [o]
    {
      objects := objects + [o];
    }
  }

  function ToObject(row: StoredRow, className: string, tenant: string): DataObject
  {
    DataObject(row.text, row.chunkType, row.index, row.filename, row.pageNumber, className, tenant, row.embedding)
  }

  function DataObjects(rows: seq<StoredRow>, className: string, tenant: string): seq<DataObject>
  {
    seq(|rows|, k requires 0 <= k < |rows| => ToObject(rows[k], className, tenant))
  }

  /** What a stored object says about the row it came from. */
  function RowOf(o: DataObject): StoredRow
  {
    StoredRow(o.chunkNumber, o.vector, o.content, o.chunkType, o.filename, o.pageNumber)
  }

  /** The mapping loses nothing: every row is recovered from its object,
      and every object carries the class and tenant it was added under. */
  lemma DataObjectsLossless(rows: seq<StoredRow>, className: string, tenant: string)
    ensures |DataObjects(rows, className, tenant)| == |rows|
    ensures forall k :: 0 <= k < |rows| ==> RowOf(DataObjects(rows, className, tenant)[k]) == rows[k]
    ensures forall o :: o in DataObjects(rows, className, tenant) ==> o.className == className && o.tenant == tenant
  {
  }

  /** The counter values at which progress is reported while n rows are
      added: the values below n that are multiples of 100, in order. */
  function ProgressReports(n: nat): (r: seq<nat>)
    ensures forall c: nat :: c in r <==> c < n && c % 100 == 0
  {
    if n == 0 then [] else ProgressReports(n - 1) + (if (n - 1) % 100 == 0 then [n - 1] else [])
  }

  /** Reports come in increasing order, one per started hundred rows. */
  lemma {:induction false} ProgressReportsOrder(n: nat)
    ensures forall i, j :: 0 <= i < j < |ProgressReports(n)| ==> ProgressReports(n)[i] < ProgressReports(n)[j]
    ensures |ProgressReports(n)| == (n + 99) / 100
  {
    if n > 0 {
      ProgressReportsOrder(n - 1);
      var before := ProgressReports(n - 1);
      forall i | 0 <= i < |before| ensures before[i] < n - 1 {
        assert before[i] in before;
      }
    }
  }

  /** add_pdf_data_objects(df, classname, tenant_name): one object per row,
      in row order, and the final counter; `reports` are the counter
      values that are printed as progress. */
  method AddPdfDataObjects(df: seq<StoredRow>, className: string, tenantName: string, batch: Batch)
    returns (counter: nat, reports: seq<nat>)
    modifies batch
    ensures batch.objects == old(batch.objects) + DataObjects(df, className, tenantName)
    ensures counter == |df|
    ensures reports == ProgressReports(|df|)
  {
    counter := 0;
    reports := [];
    for i := 0 to |df|
      invariant counter == i
      invariant reports == ProgressReports(i)
      invariant batch.objects == old(batch.objects) + DataObjects(df[..i], className, tenantName)
    {
      var row := df[i];
      var idx := row.index;
      if counter % 100 == 0 {
        reports := reports + [counter];
      }
      var embed := row.embedding;
      var batchData := DataObject(row.text, row.chunkType, idx, row.filename, row.pageNumber, className, tenantName, embed);
      batch.AddDataObject(batchData);
      assert DataObjects(df[..i + 1], className, tenantName) == DataObjects(df[..i], className, tenantName) + [batchData];
      counter := counter + 1;
    }
    assert df[..|df|] == df;
  }
}
