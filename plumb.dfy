/** The ingestion pipeline of ragbot/plumb.py: text chunks and table rows
    are taken page by page from a PDF, each is embedded, and the text
    records are followed by the table records in one frame.

    The PDF reader is replaced by its results: a document is the sequence
    of its pages, each with what text extraction and table extraction give
    for it (or the exception they raise). The embedding service is the
    function parameter `embed`. */
module Plumb {
  import opened Wrappers
  import opened Strings
  import Chunking

  /** An embedding; its numbers are passed along, never computed with. */
  type Vector = seq<real>

  /** What `page.extract_text()` gives for one page. */
  datatype TextOutcome =
    | Text(text: string)  // the extracted text, possibly empty
    | NoText              // None
    | IndexFault          // raises IndexError, which the loop catches
    | OtherFault          // raises anything else, which the loop does not catch

  /** A table cell: None or the cell's text. */
  type Cell = Option<string>
  type Row = seq<Cell>
  type Table = seq<Row>

  /** What `page.extract_tables()` gives for one page. */
  datatype TablesOutcome = Tables(tables: seq<Table>) | TablesFault

  datatype Page = Page(pageNumber: int, text: TextOutcome, tables: TablesOutcome)

  /** A PDF file as `pdfp.open` presents it, or one it fails to open. */
  datatype Document = Opened(pages: seq<Page>) | Unopenable

  /** `{'page_number': ..., 'text': ...}` of `extract_text_from_pdf`. */
  datatype TextChunk = TextChunk(pageNumber: int, text: string)

  /** `{'table': ..., 'page_number': ...}` of `extract_tables_from_pdf`. */
  datatype TableEntry = TableEntry(table: Table, pageNumber: int)

  const TextChunkType: string := "text"
  const TableChunkType: string := "table"

  /** One row of an embedded data frame: `embedding`, `text`, `chunk_type`,
      `page_number`. A frame is a sequence of records; its row labels
      are the positions 0..n-1. */
  datatype Record = Record(embedding: Vector, text: string, chunkType: string, pageNumber: int)

  /** The exception that escapes `extract_text_from_pdf`. */
  datatype IngestError = OpenFailed | PageFailed(pageNumber: int)

  // ---------------------------------------------------------------------
  // extract_text_from_pdf

  /** Every chunk tagged with one page number. */
  function Tag(pageNumber: int, chunks: seq<string>): seq<TextChunk>
  {
    seq(|chunks|, i requires 0 <= i < |chunks| => TextChunk(pageNumber, chunks[i]))
  }

  /** What a page that does not raise contributes: the chunks of its text,
      or nothing when its text is empty or absent. */
  function PageChunks(page: Page, chunkSize: int): seq<TextChunk>
  {
    match page.text
    case Text(t) =>
      if t != "" then Tag(page.pageNumber, Chunking.Chunks(Chunking.Runs(Split(t, '\n'), chunkSize))) else []
    case _ => []
  }

  /** The chunks `xs` in front of the chunks of a computation that may fail. */
  function Prepend(xs: seq<TextChunk>, r: Result<seq<TextChunk>, IngestError>): Result<seq<TextChunk>, IngestError>
  {
    match r
    case Success(v) => Success(xs + v)
    case Failure(e) => Failure(e)
  }

  /** The pages' chunks, page after page; the first page whose extraction
      raises something other than IndexError ends everything with that error. */
  function ExtractPages(pages: seq<Page>, chunkSize: int): Result<seq<TextChunk>, IngestError>
  {
    if pages == [] then Success([])
    else if pages[0].text.OtherFault? then Failure(PageFailed(pages[0].pageNumber))
    else Prepend(PageChunks(pages[0], chunkSize), ExtractPages(pages[1..], chunkSize))
  }

  function ExtractText(doc: Document, chunkSize: int): Result<seq<TextChunk>, IngestError>
  {
    match doc
    case Unopenable => Failure(OpenFailed)
    case Opened(pages) => ExtractPages(pages, chunkSize)
  }

  /** extract_text_from_pdf(pdf_path, chunk_size). */
  method ExtractTextFromPdf(doc: Document, chunkSize: int) returns (r: Result<seq<TextChunk>, IngestError>)
    ensures r == ExtractText(doc, chunkSize)
  {
    if doc.Unopenable? {
      return Failure(OpenFailed);
    }
    var pages := doc.pages;
    var allChunks: seq<TextChunk> := [];
    PrependEmpty(ExtractPages(pages, chunkSize));
    for i := 0 to |pages|
      invariant Prepend(allChunks, ExtractPages(pages[i..], chunkSize)) == ExtractPages(pages, chunkSize)
    {
      var page := pages[i];
      assert pages[i..][0] == page && pages[i..][1..] == pages[i + 1..];
      if page.text.OtherFault? {
        return Failure(PageFailed(page.pageNumber));
      }
      // an IndexError is reported and the page skipped, like a page without text
      ghost var before := allChunks;
      if page.text.Text? && page.text.text != "" {
        var pageChunks := Chunking.SplitIntoChunks(page.text.text, chunkSize);
        for j := 0 to |pageChunks|
          invariant allChunks == before + Tag(page.pageNumber, pageChunks[..j])
        {
          allChunks := allChunks + [TextChunk(page.pageNumber, pageChunks[j])];
        }
        assert pageChunks[..|pageChunks|] == pageChunks;
      } else {
        assert allChunks == before + [];
      }
      PrependTwice(before, PageChunks(page, chunkSize), ExtractPages(pages[i + 1..], chunkSize));
    }
    assert pages[|pages|..] == [];
    assert allChunks + [] == allChunks;
    return Success(allChunks);
  }

  lemma PrependEmpty(r: Result<seq<TextChunk>, IngestError>)
    ensures Prepend([], r) == r
  {
    if r.Success? {
      assert [] + r.value == r.value;
    }
  }

  lemma PrependTwice(a: seq<TextChunk>, b: seq<TextChunk>, r: Result<seq<TextChunk>, IngestError>)
    ensures Prepend(a, Prepend(b, r)) == Prepend(a + b, r)
  {
    if r.Success? {
      assert a + (b + r.value) == (a + b) + r.value;
    }
  }

  /** Pages are taken in order: the result for a run of pages followed by
      more pages is the first run's chunks followed by the rest's, unless
      the first run already failed. */
  lemma {:induction false} ExtractPagesAppend(a: seq<Page>, b: seq<Page>, chunkSize: int)
    ensures ExtractPages(a + b, chunkSize) ==
      match ExtractPages(a, chunkSize)
      case Success(v) => Prepend(v, ExtractPages(b, chunkSize))
      case Failure(e) => Failure(e)
  {
    if a == [] {
      assert a + b == b;
      PrependEmpty(ExtractPages(b, chunkSize));
    } else {
      assert (a + b)[0] == a[0] && (a + b)[1..] == a[1..] + b;
      ExtractPagesAppend(a[1..], b, chunkSize);
      var rest := ExtractPages(a[1..], chunkSize);
      if rest.Success? {
        PrependTwice(PageChunks(a[0], chunkSize), rest.value, ExtractPages(b, chunkSize));
      }
    }
  }

  /** A page with empty or absent text, or whose extraction raises
      IndexError, contributes nothing, and the pages after it are still read. */
  lemma SkippedPage(page: Page, rest: seq<Page>, chunkSize: int)
    requires page.text.IndexFault? || page.text.NoText? || page.text == Text("")
    ensures ExtractPages([page] + rest, chunkSize) == ExtractPages(rest, chunkSize)
  {
    assert ([page] + rest)[0] == page && ([page] + rest)[1..] == rest;
    PrependEmpty(ExtractPages(rest, chunkSize));
  }

  /** Extraction fails exactly when some page raises something other than
      IndexError. */
  lemma {:induction false} ExtractPagesFails(pages: seq<Page>, chunkSize: int)
    ensures ExtractPages(pages, chunkSize).Failure? <==> exists i :: 0 <= i < |pages| && pages[i].text.OtherFault?
  {
    if pages != [] {
      ExtractPagesFails(pages[1..], chunkSize);
      if exists i :: 0 <= i < |pages[1..]| && pages[1..][i].text.OtherFault? {
        var i :| 0 <= i < |pages[1..]| && pages[1..][i].text.OtherFault?;
        assert pages[i + 1].text.OtherFault?;
      }
      if exists i :: 0 <= i < |pages| && pages[i].text.OtherFault? {
        var i :| 0 <= i < |pages| && pages[i].text.OtherFault?;
        if i > 0 {
          assert pages[1..][i - 1].text.OtherFault?;
        }
      }
    }
  }

  /** The chunk was cut from the page: a page with non-empty text, whose
      number it carries and whose packing produced its text. */
  predicate FromPage(chunk: TextChunk, page: Page, chunkSize: int)
  {
    && page.text.Text? && page.text.text != ""
    && chunk.pageNumber == page.pageNumber
    && chunk.text in Chunking.Chunks(Chunking.Runs(Split(page.text.text, '\n'), chunkSize))
  }

  /** Every chunk comes from one of the pages. */
  lemma {:induction false} ChunkProvenance(pages: seq<Page>, chunkSize: int, k: nat)
    requires ExtractPages(pages, chunkSize).Success?
    requires k < |ExtractPages(pages, chunkSize).value|
    ensures exists i :: 0 <= i < |pages| && FromPage(ExtractPages(pages, chunkSize).value[k], pages[i], chunkSize)
  {
    var head := PageChunks(pages[0], chunkSize);
    var rest := ExtractPages(pages[1..], chunkSize);
    var all := ExtractPages(pages, chunkSize).value;
    assert all == head + rest.value;
    if k < |head| {
      assert all[k] == head[k];
      assert FromPage(all[k], pages[0], chunkSize);
    } else {
      ChunkProvenance(pages[1..], chunkSize, k - |head|);
      var i :| 0 <= i < |pages[1..]| && FromPage(rest.value[k - |head|], pages[1..][i], chunkSize);
      assert all[k] == rest.value[k - |head|];
      assert FromPage(all[k], pages[i + 1], chunkSize);
    }
  }

  /** One chunk per page holding the page's whole text. */
  function WholePages(pages: seq<Page>): seq<TextChunk>
    requires forall i :: 0 <= i < |pages| ==> pages[i].text.Text?
  {
    if pages == [] then [] else [TextChunk(pages[0].pageNumber, pages[0].text.text)] + WholePages(pages[1..])
  }

  /** Pages whose texts are single non-empty lines each give exactly one
      chunk, their whole text, whatever the chunk size. */
  lemma {:induction false} SingleLinePages(pages: seq<Page>, chunkSize: int)
    requires forall i :: 0 <= i < |pages| ==> pages[i].text.Text? && pages[i].text.text != "" && '\n' !in pages[i].text.text
    ensures ExtractPages(pages, chunkSize) == Success(WholePages(pages))
  {
    if pages != [] {
      SingleLinePages(pages[1..], chunkSize);
      Chunking.SingleLine(pages[0].text.text, chunkSize);
      assert PageChunks(pages[0], chunkSize) == [TextChunk(pages[0].pageNumber, pages[0].text.text)];
    }
  }

  // ---------------------------------------------------------------------
  // extract_tables_from_pdf

  /** One entry per table of a page, in the page's order; nothing for a
      page whose extraction raises. */
  function PageTables(page: Page): seq<TableEntry>
  {
    match page.tables
    case Tables(ts) => Entries(ts, page.pageNumber)
    case TablesFault => []
  }

  /** `(table, page_num)` for each table, in order. */
  function Entries(tables: seq<Table>, pageNumber: int): (r: seq<TableEntry>)
    ensures |r| == |tables|
    ensures forall t :: 0 <= t < |tables| ==> r[t] == TableEntry(tables[t], pageNumber)
  {
    if tables == [] then [] else [TableEntry(tables[0], pageNumber)] + Entries(tables[1..], pageNumber)
  }

  function TablesOf(pages: seq<Page>): seq<TableEntry>
  {
    if pages == [] then [] else PageTables(pages[0]) + TablesOf(pages[1..])
  }

  /** A file that cannot be opened gives no tables: the outer handler
      swallows the error. */
  function ExtractTables(doc: Document): seq<TableEntry>
  {
    match doc
    case Unopenable => []
    case Opened(pages) => TablesOf(pages)
  }

  /** extract_tables_from_pdf(pdf_file_path). */
  method ExtractTablesFromPdf(doc: Document) returns (tablesList: seq<TableEntry>)
    ensures tablesList == ExtractTables(doc)
  {
    tablesList := [];
    if doc.Unopenable? {
      return;
    }
    var pages := doc.pages;
    for i := 0 to |pages|
      invariant tablesList + TablesOf(pages[i..]) == TablesOf(pages)
    {
      var page := pages[i];
      ghost var before := tablesList;
      ghost var later := TablesOf(pages[i + 1..]);
      assert TablesOf(pages[i..]) == PageTables(page) + later by {
        assert pages[i..][0] == page && pages[i..][1..] == pages[i + 1..];
      }
      Regroup(before, PageTables(page), later);
      // a page whose extraction raises is reported and skipped
      if page.tables.Tables? {
        var tables := page.tables.tables;
        for j := 0 to |tables|
          invariant tablesList == before + Entries(tables[..j], page.pageNumber)
        {
          EntriesSnoc(tables, j, page.pageNumber);
          Regroup(before, Entries(tables[..j], page.pageNumber), [TableEntry(tables[j], page.pageNumber)]);
          tablesList := tablesList + [TableEntry(tables[j], page.pageNumber)];
        }
        assert tables[..|tables|] == tables;
      } else {
        assert tablesList == before + PageTables(page);
      }
    }
    assert pages[|pages|..] == [];
  }

  lemma Regroup<T>(a: seq<T>, b: seq<T>, c: seq<T>)
    ensures a + b + c == a + (b + c)
  {
  }

  lemma EntriesSnoc(tables: seq<Table>, j: nat, pageNumber: int)
    requires j < |tables|
    ensures Entries(tables[..j + 1], pageNumber) == Entries(tables[..j], pageNumber) + [TableEntry(tables[j], pageNumber)]
  {
    var front := Entries(tables[..j], pageNumber) + [TableEntry(tables[j], pageNumber)];
    assert forall t :: 0 <= t < j + 1 ==> front[t] == TableEntry(tables[..j + 1][t], pageNumber);
  }

  /** Tables come out in page order: those of the first pages, then those
      of the pages after them. */
  lemma {:induction false} TablesOfAppend(a: seq<Page>, b: seq<Page>)
    ensures TablesOf(a + b) == TablesOf(a) + TablesOf(b)
  {
    if a == [] {
      assert a + b == b;
    } else {
      assert (a + b)[0] == a[0] && (a + b)[1..] == a[1..] + b;
      TablesOfAppend(a[1..], b);
    }
  }

  /** Every entry is one table of one page that did not raise, with that
      page's number. */
  lemma {:induction false} TableProvenance(pages: seq<Page>, k: nat)
    requires k < |TablesOf(pages)|
    ensures exists i, t :: (0 <= i < |pages| && pages[i].tables.Tables? && 0 <= t < |pages[i].tables.tables| &&
      TablesOf(pages)[k] == TableEntry(pages[i].tables.tables[t], pages[i].pageNumber))
  {
    var head := PageTables(pages[0]);
    if k < |head| {
      assert TablesOf(pages)[k] == head[k];
      assert pages[0].tables.Tables?;
    } else {
      TableProvenance(pages[1..], k - |head|);
      var i, t :| 0 <= i < |pages[1..]| && pages[1..][i].tables.Tables? && 0 <= t < |pages[1..][i].tables.tables| &&
        TablesOf(pages[1..])[k - |head|] == TableEntry(pages[1..][i].tables.tables[t], pages[1..][i].pageNumber);
      assert pages[i + 1] == pages[1..][i];
    }
  }

  // ---------------------------------------------------------------------
  // generate_text_df_with_embeddings, generate_table_df_with_embeddings

  /** The record of one text chunk. */
  function TextRecord(chunk: TextChunk, embed: string -> Vector): Record
  {
    Record(embed(chunk.text), chunk.text, TextChunkType, chunk.pageNumber)
  }

  function TextRecords(chunks: seq<TextChunk>, embed: string -> Vector): seq<Record>
  {
    seq(|chunks|, k requires 0 <= k < |chunks| => TextRecord(chunks[k], embed))
  }

  /** generate_text_df_with_embeddings(chunks): one record per chunk, in
      order, with the chunk's text and page number and type 'text'. */
  method GenerateTextDfWithEmbeddings(chunks: seq<TextChunk>, embed: string -> Vector) returns (records: seq<Record>)
    ensures |records| == |chunks|
    ensures forall k :: 0 <= k < |chunks| ==>
      records[k].text == chunks[k].text && records[k].pageNumber == chunks[k].pageNumber &&
      records[k].chunkType == TextChunkType && records[k].embedding == embed(chunks[k].text)
  {
    records := [];
    for i := 0 to |chunks|
      invariant records == TextRecords(chunks[..i], embed)
    {
      records := records + [TextRecord(chunks[i], embed)];
    }
    assert chunks[..|chunks|] == chunks;
  }

  /** `str(cell) if cell is not None else ""`. */
  function CellText(cell: Cell): string
  {
    match cell
    case Some(s) => s
    case None => ""
  }

  /** `" ".join(...)` over a row's cells. */
  function RowText(row: Row): string
  {
    Join(" ", seq(|row|, k requires 0 <= k < |row| => CellText(row[k])))
  }

  /** The only row left out is one equal to `['']`. */
  predicate Dropped(row: Row)
  {
    row == [Some("")]
  }

  /** What one row contributes: nothing, or its record. */
  function RowRecord(row: Row, pageNumber: int, embed: string -> Vector): seq<Record>
  {
    if Dropped(row) then [] else [Record(embed(RowText(row)), RowText(row), TableChunkType, pageNumber)]
  }

  function RowRecords(rows: seq<Row>, pageNumber: int, embed: string -> Vector): seq<Record>
  {
    if rows == [] then [] else RowRecord(rows[0], pageNumber, embed) + RowRecords(rows[1..], pageNumber, embed)
  }

  function TableRecords(tables: seq<TableEntry>, embed: string -> Vector): seq<Record>
  {
    if tables == [] then []
    else RowRecords(tables[0].table, tables[0].pageNumber, embed) + TableRecords(tables[1..], embed)
  }

  /** generate_table_df_with_embeddings(table_list). */
  method GenerateTableDfWithEmbeddings(tableList: seq<TableEntry>, embed: string -> Vector) returns (records: seq<Record>)
    ensures records == TableRecords(tableList, embed)
  {
    records := [];
    for i := 0 to |tableList|
      invariant records + TableRecords(tableList[i..], embed) == TableRecords(tableList, embed)
    {
      var table := tableList[i];
      ghost var start := records;
      ghost var later := TableRecords(tableList[i + 1..], embed);
      var rows := table.table;
      assert TableRecords(tableList[i..], embed) == RowRecords(rows, table.pageNumber, embed) + later by {
        assert tableList[i..][0] == table && tableList[i..][1..] == tableList[i + 1..];
      }
      Regroup(start, RowRecords(rows, table.pageNumber, embed), later);
      for j := 0 to |rows|
        invariant records == start + RowRecords(rows[..j], table.pageNumber, embed)
      {
        var row := rows[j];
        RowRecordsSnoc(rows, j, table.pageNumber, embed);
        Regroup(start, RowRecords(rows[..j], table.pageNumber, embed), RowRecord(row, table.pageNumber, embed));
        var text := RowText(row);
        if row != [Some("")] {
          records := records + [Record(embed(text), text, TableChunkType, table.pageNumber)];
        } else {
          assert RowRecords(rows[..j], table.pageNumber, embed) + RowRecord(row, table.pageNumber, embed)
              == RowRecords(rows[..j], table.pageNumber, embed);
        }
      }
      assert rows[..|rows|] == rows;
    }
    assert tableList[|tableList|..] == [];
  }

  /** Rows are taken in order: the records of some rows followed by more
      rows are the first rows' records followed by the others'. */
  lemma {:induction false} RowRecordsAppend(a: seq<Row>, b: seq<Row>, pageNumber: int, embed: string -> Vector)
    ensures RowRecords(a + b, pageNumber, embed) == RowRecords(a, pageNumber, embed) + RowRecords(b, pageNumber, embed)
  {
    if a == [] {
      assert a + b == b;
    } else {
      assert (a + b)[0] == a[0] && (a + b)[1..] == a[1..] + b;
      RowRecordsAppend(a[1..], b, pageNumber, embed);
    }
  }

  lemma RowRecordsSnoc(rows: seq<Row>, j: nat, pageNumber: int, embed: string -> Vector)
    requires j < |rows|
    ensures RowRecords(rows[..j + 1], pageNumber, embed) == RowRecords(rows[..j], pageNumber, embed) + RowRecord(rows[j], pageNumber, embed)
  {
    assert rows[..j + 1] == rows[..j] + [rows[j]];
    RowRecordsAppend(rows[..j], [rows[j]], pageNumber, embed);
    assert [rows[j]][1..] == [];
  }

  /** A row's text is its cells with None as "", separated by single
      spaces: as long as the cells' texts plus one space between each two. */
  lemma RowTextLength(row: Row)
    requires row != []
    ensures |RowText(row)| == SumLen(seq(|row|, k requires 0 <= k < |row| => CellText(row[k]))) + |row| - 1
  {
    JoinLength(" ", seq(|row|, k requires 0 <= k < |row| => CellText(row[k])));
  }

  /** `[None]` and `['', '']` are not dropped: they become the texts "" and " ". */
  lemma NearlyBlankRowsKept(pageNumber: int, embed: string -> Vector)
    ensures RowRecords([[None]], pageNumber, embed) == [Record(embed(""), "", TableChunkType, pageNumber)]
    ensures RowRecords([[Some(""), Some("")]], pageNumber, embed) == [Record(embed(" "), " ", TableChunkType, pageNumber)]
  {
    var a: seq<Row> := [[None]];
    var b: seq<Row> := [[Some(""), Some("")]];
    assert a[1..] == [] && b[1..] == [];
    assert RowText(a[0]) == "" by {
      assert seq(1, k requires 0 <= k < 1 => CellText(a[0][k])) == [""];
    }
    assert RowText(b[0]) == " " by {
      assert seq(2, k requires 0 <= k < 2 => CellText(b[0][k])) == ["", ""];
      assert ["", ""][1..] == [""];
      assert Join(" ", ["", ""]) == "" + " " + "";
    }
    assert !Dropped(b[0]) by {
      assert |b[0]| == 2;
    }
  }

  /** Exactly the rows equal to `['']` are dropped: a table yields one
      record per row, less one per such row. */
  lemma {:induction false} RowRecordsCount(rows: seq<Row>, pageNumber: int, embed: string -> Vector)
    ensures |RowRecords(rows, pageNumber, embed)| == |rows| - multiset(rows)[[Some("")]]
  {
    if rows != [] {
      RowRecordsCount(rows[1..], pageNumber, embed);
      assert rows == [rows[0]] + rows[1..];
      assert multiset(rows) == multiset{rows[0]} + multiset(rows[1..]);
    }
  }

  /** Every table record is a kept row of one of the tables, with that
      row's text, type 'table' and the table's page number. */
  lemma {:induction false} TableRecordProvenance(tables: seq<TableEntry>, embed: string -> Vector, k: nat)
    requires k < |TableRecords(tables, embed)|
    ensures exists i, j :: (0 <= i < |tables| && 0 <= j < |tables[i].table| && !Dropped(tables[i].table[j]) &&
      TableRecords(tables, embed)[k] ==
        Record(embed(RowText(tables[i].table[j])), RowText(tables[i].table[j]), TableChunkType, tables[i].pageNumber))
  {
    var head := RowRecords(tables[0].table, tables[0].pageNumber, embed);
    if k < |head| {
      RowRecordProvenance(tables[0].table, tables[0].pageNumber, embed, k);
      var j :| 0 <= j < |tables[0].table| && !Dropped(tables[0].table[j]) &&
        head[k] == Record(embed(RowText(tables[0].table[j])), RowText(tables[0].table[j]), TableChunkType, tables[0].pageNumber);
      assert TableRecords(tables, embed)[k] == head[k];
    } else {
      TableRecordProvenance(tables[1..], embed, k - |head|);
      var i, j :| 0 <= i < |tables[1..]| && 0 <= j < |tables[1..][i].table| && !Dropped(tables[1..][i].table[j]) &&
        TableRecords(tables[1..], embed)[k - |head|] ==
          Record(embed(RowText(tables[1..][i].table[j])), RowText(tables[1..][i].table[j]), TableChunkType, tables[1..][i].pageNumber);
      assert tables[i + 1] == tables[1..][i];
    }
  }

  lemma {:induction false} RowRecordProvenance(rows: seq<Row>, pageNumber: int, embed: string -> Vector, k: nat)
    requires k < |RowRecords(rows, pageNumber, embed)|
    ensures exists j :: (0 <= j < |rows| && !Dropped(rows[j]) &&
      RowRecords(rows, pageNumber, embed)[k] == Record(embed(RowText(rows[j])), RowText(rows[j]), TableChunkType, pageNumber))
  {
    var head := RowRecord(rows[0], pageNumber, embed);
    if k < |head| {
    } else {
      RowRecordProvenance(rows[1..], pageNumber, embed, k - |head|);
      var j :| 0 <= j < |rows[1..]| && !Dropped(rows[1..][j]) &&
        RowRecords(rows[1..], pageNumber, embed)[k - |head|] == Record(embed(RowText(rows[1..][j])), RowText(rows[1..][j]), TableChunkType, pageNumber);
      assert rows[j + 1] == rows[1..][j];
    }
  }

  // ---------------------------------------------------------------------
  // combine_text_and_table, pdf_to_df

  /** combine_text_and_table(text_df, table_df): all text records, then all
      table records, relabelled 0..n-1 (the label of a record is its position). */
  function CombineTextAndTable(textDf: seq<Record>, tableDf: seq<Record>): (df: seq<Record>)
    ensures |df| == |textDf| + |tableDf|
    ensures forall k :: 0 <= k < |textDf| ==> df[k] == textDf[k]
    ensures forall k :: 0 <= k < |tableDf| ==> df[|textDf| + k] == tableDf[k]
  {
    textDf + tableDf
  }

  function PdfToDfResult(doc: Document, chunkSize: int, embed: string -> Vector): Result<seq<Record>, IngestError>
  {
    match ExtractText(doc, chunkSize)
    case Failure(e) => Failure(e)
    case Success(chunks) =>
      Success(CombineTextAndTable(TextRecords(chunks, embed), TableRecords(ExtractTables(doc), embed)))
  }

  /** pdf_to_df(pdf_path, chunk_size): an error from text extraction
      escapes before the tables are read. */
  method PdfToDf(doc: Document, chunkSize: int, embed: string -> Vector) returns (r: Result<seq<Record>, IngestError>)
    ensures r == PdfToDfResult(doc, chunkSize, embed)
  {
    var chunks := ExtractTextFromPdf(doc, chunkSize);
    if chunks.Failure? {
      return Failure(chunks.error);
    }
    var tables := ExtractTablesFromPdf(doc);
    var textDf := GenerateTextDfWithEmbeddings(chunks.value, embed);
    var tableDf := GenerateTableDfWithEmbeddings(tables, embed);
    assert textDf == TextRecords(chunks.value, embed);
    return Success(CombineTextAndTable(textDf, tableDf));
  }

  /** In the frame of a document, the first records are the text chunks in
      extraction order, with type 'text', and all the others are table
      rows with type 'table'. */
  lemma PdfToDfLayout(doc: Document, chunkSize: int, embed: string -> Vector)
    requires PdfToDfResult(doc, chunkSize, embed).Success?
    ensures ExtractText(doc, chunkSize).Success?
    ensures var df := PdfToDfResult(doc, chunkSize, embed).value;
      var chunks := ExtractText(doc, chunkSize).value;
      && |chunks| <= |df|
      && (forall k :: 0 <= k < |chunks| ==>
            df[k].chunkType == TextChunkType && df[k].text == chunks[k].text && df[k].pageNumber == chunks[k].pageNumber)
      && (forall k :: |chunks| <= k < |df| ==> df[k].chunkType == TableChunkType)
  {
    var df := PdfToDfResult(doc, chunkSize, embed).value;
    var chunks := ExtractText(doc, chunkSize).value;
    var tableDf := TableRecords(ExtractTables(doc), embed);
    forall k | |chunks| <= k < |df| ensures df[k].chunkType == TableChunkType {
      TableRecordProvenance(ExtractTables(doc), embed, k - |chunks|);
    }
  }
}
