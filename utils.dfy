/** The helpers of ragbot/utils.py that hold logic of their own: the tenant
    lookup in the manuals sheet, the loading of all stored frames of a
    directory with their file stems, and the rendering of a directory tree.
    Files, the network and the pickle format are replaced by their
    contents: a sheet of rows, a loader function, a tree of entries. */
module Utils {
  import opened Wrappers
  import opened Strings
  import Plumb
  import Weav

  // ---------------------------------------------------------------------
  // get_tenant_info_from_df

  /** The manuals sheet: its column names and its rows, each row mapping
      every column to its cell. */
  datatype Sheet = Sheet(columns: set<string>, rows: seq<map<string, string>>)

  predicate WellFormed(sheet: Sheet)
  {
    forall i :: 0 <= i < |sheet.rows| ==> sheet.rows[i].Keys == sheet.columns
  }

  const TenantColumn: string := "tenant_name"
  const NoMatchingTenant: string := "No matching tenant found"

  /** KeyError for a missing column; IndexError for `.iloc[0]` of no rows. */
  datatype LookupError = KeyError(key: string) | IndexError

  /** `df[df['tenant_name'] == tenant_name]`: the matching rows, in order. */
  function Matching(rows: seq<map<string, string>>, tenant: string): (m: seq<map<string, string>>)
    requires forall i :: 0 <= i < |rows| ==> TenantColumn in rows[i]
    ensures forall k :: 0 <= k < |m| ==> m[k] in rows && TenantColumn in m[k] && m[k][TenantColumn] == tenant
  {
    if rows == [] then []
    else (if rows[0][TenantColumn] == tenant then [rows[0]] else []) + Matching(rows[1..], tenant)
  }

  /** The position of the first row of the tenant, or the number of rows
      when there is none. */
  function FirstMatch(rows: seq<map<string, string>>, tenant: string): (i: nat)
    requires forall i :: 0 <= i < |rows| ==> TenantColumn in rows[i]
    ensures i <= |rows|
    ensures forall j :: 0 <= j < i ==> rows[j][TenantColumn] != tenant
    ensures i < |rows| ==> rows[i][TenantColumn] == tenant
  {
    if rows == [] then 0
    else if rows[0][TenantColumn] == tenant then 0
    else 1 + FirstMatch(rows[1..], tenant)
  }

  /** The filtered rows are empty exactly when no row matches, and start
      with the first matching row otherwise. */
  lemma {:induction false} MatchingHead(rows: seq<map<string, string>>, tenant: string)
    requires forall i :: 0 <= i < |rows| ==> TenantColumn in rows[i]
    ensures Matching(rows, tenant) == [] <==> FirstMatch(rows, tenant) == |rows|
    ensures Matching(rows, tenant) != [] ==> Matching(rows, tenant)[0] == rows[FirstMatch(rows, tenant)]
  {
    if rows != [] && rows[0][TenantColumn] != tenant {
      MatchingHead(rows[1..], tenant);
    }
  }

  /** get_tenant_info_from_df(col_name, tenant_name) on the given sheet.
      The selected row always has the tenant column, so it is never empty
      and the "No matching tenant found" branch is never taken. */
  function GetTenantInfoFromDf(sheet: Sheet, colName: string, tenant: string): (r: Result<string, LookupError>)
    requires WellFormed(sheet)
    ensures TenantColumn !in sheet.columns ==> r == Failure(KeyError(TenantColumn))
    ensures TenantColumn in sheet.columns ==>
      var i := FirstMatch(sheet.rows, tenant);
      && (i == |sheet.rows| ==> r == Failure(IndexError))
      && (i < |sheet.rows| && colName !in sheet.columns ==> r == Failure(KeyError(colName)))
      && (i < |sheet.rows| && colName in sheet.columns ==> r == Success(sheet.rows[i][colName]))
  {
    if TenantColumn !in sheet.columns then Failure(KeyError(TenantColumn))
    else
      MatchingHead(sheet.rows, tenant);
      var matching := Matching(sheet.rows, tenant);
      if |matching| == 0 then Failure(IndexError)
      else
        var row := matching[0];
        if |row| != 0 then
          (if colName in row then Success(row[colName]) else Failure(KeyError(colName)))
        else Success(NoMatchingTenant)
  }

  /** A sheet without the tenant raises IndexError instead of answering
      "No matching tenant found". */
  lemma NoMatchRaises(colName: string)
    ensures GetTenantInfoFromDf(Sheet({TenantColumn, colName}, []), colName, "acme") == Failure(IndexError)
  {
  }

  /** The fallback answer only ever comes from the cell of the tenant's
      first row, when that cell holds that very text. */
  lemma FallbackNeverProduced(sheet: Sheet, colName: string, tenant: string)
    requires WellFormed(sheet)
    requires GetTenantInfoFromDf(sheet, colName, tenant) == Success(NoMatchingTenant)
    ensures var i := FirstMatch(sheet.rows, tenant);
      && i < |sheet.rows| && sheet.rows[i][TenantColumn] == tenant
      && colName in sheet.rows[i] && sheet.rows[i][colName] == NoMatchingTenant
  {
    var i := FirstMatch(sheet.rows, tenant);
    assert i < |sheet.rows| && colName in sheet.rows[i];
  }

  /** The lookup with the fallback it evidently intends: when no row is
      the tenant's, the answer is "No matching tenant found". */
  function GetTenantInfoIntended(sheet: Sheet, colName: string, tenant: string): (r: Result<string, LookupError>)
    requires WellFormed(sheet)
    ensures TenantColumn !in sheet.columns ==> r == Failure(KeyError(TenantColumn))
    ensures TenantColumn in sheet.columns ==>
      var i := FirstMatch(sheet.rows, tenant);
      && (i == |sheet.rows| ==> r == Success(NoMatchingTenant))
      && (i < |sheet.rows| && colName !in sheet.columns ==> r == Failure(KeyError(colName)))
      && (i < |sheet.rows| && colName in sheet.columns ==> r == Success(sheet.rows[i][colName]))
  {
    if TenantColumn !in sheet.columns then Failure(KeyError(TenantColumn))
    else
      MatchingHead(sheet.rows, tenant);
      var matching := Matching(sheet.rows, tenant);
      if |matching| == 0 then Success(NoMatchingTenant)
      else if colName in matching[0] then Success(matching[0][colName])
      else Failure(KeyError(colName))
  }

  /** The intended lookup agrees with the written one wherever the written
      one answers, and answers with the fallback exactly where it raises
      IndexError. */
  lemma IntendedExtendsWritten(sheet: Sheet, colName: string, tenant: string)
    requires WellFormed(sheet)
    ensures GetTenantInfoFromDf(sheet, colName, tenant).Success? ==>
      GetTenantInfoIntended(sheet, colName, tenant) == GetTenantInfoFromDf(sheet, colName, tenant)
    ensures GetTenantInfoFromDf(sheet, colName, tenant) == Failure(IndexError) <==>
      GetTenantInfoIntended(sheet, colName, tenant) == Success(NoMatchingTenant) &&
      TenantColumn in sheet.columns && FirstMatch(sheet.rows, tenant) == |sheet.rows|
  {
  }

  // ---------------------------------------------------------------------
  // read_all_pickles

  /** `file.split('.')[0]`: the file name up to its first dot. */
  function FileStem(file: string): (stem: string)
    ensures '.' !in stem
    ensures stem <= file
    ensures stem == file || file[|stem|] == '.'
  {
    FileStemShape(file);
    Split(file, '.')[0]
  }

  lemma {:induction false} FileStemShape(file: string)
    ensures var stem := Split(file, '.')[0];
      stem <= file && (stem == file || file[|stem|] == '.')
  {
    if file != [] && file[0] != '.' {
      FileStemShape(file[1..]);
      assert file == [file[0]] + file[1..];
    }
  }

  /** Two names with the same text before their first dot get the same
      stem, whatever follows it. */
  lemma FileStemIgnoresExtension(stem: string, ext: string)
    requires '.' !in stem
    ensures FileStem(stem + "." + ext) == stem
  {
    SplitAtSeparator(stem, ext, '.');
  }

  /** A stored row of one file, with that file's stem, before the rows of
      all files are numbered. */
  datatype Tagged = Tagged(record: Plumb.Record, filename: string)

  /** The rows of the files, file after file, each tagged with its file's
      stem; `load` gives a file's rows, or None when reading it fails, and
      then `pkl_data` is unbound and an UnboundLocalError escapes. */
  function TaggedRows(dir: string, files: seq<string>, load: string -> Option<seq<Plumb.Record>>): Option<seq<Tagged>>
  {
    if files == [] then Some([])
    else
      match load(dir + "/" + files[0])
      case None => None
      case Some(records) =>
        match TaggedRows(dir, files[1..], load)
        case None => None
        case Some(rest) =>
          Some(seq(|records|, k requires 0 <= k < |records| => Tagged(records[k], FileStem(files[0]))) + rest)
  }

  /** `pd.concat(..., ignore_index=True)`: the rows numbered 0..n-1. */
  function Numbered(rows: seq<Tagged>): seq<Weav.StoredRow>
  {
    seq(|rows|, k requires 0 <= k < |rows| =>
      Weav.StoredRow(k, rows[k].record.embedding, rows[k].record.text, rows[k].record.chunkType,
                     rows[k].filename, rows[k].record.pageNumber))
  }

  function TagFile(records: seq<Plumb.Record>, file: string): seq<Tagged>
  {
    seq(|records|, k requires 0 <= k < |records| => Tagged(records[k], FileStem(file)))
  }

  /** read_all_pickles(pickle_dir), given the directory's listing. */
  method ReadAllPickles(pickleDir: string, pickleNames: seq<string>, load: string -> Option<seq<Plumb.Record>>)
    returns (r: Option<seq<Weav.StoredRow>>)
    ensures r.None? <==> TaggedRows(pickleDir, pickleNames, load).None?
    ensures r.Some? ==> r.value == Numbered(TaggedRows(pickleDir, pickleNames, load).value)
  {
    var df: seq<Tagged> := [];
    assert pickleNames[0..] == pickleNames;
    if TaggedRows(pickleDir, pickleNames, load).Some? {
      assert df + TaggedRows(pickleDir, pickleNames, load).value == TaggedRows(pickleDir, pickleNames, load).value;
    }
    for i := 0 to |pickleNames|
      invariant TaggedRows(pickleDir, pickleNames, load) ==
        match TaggedRows(pickleDir, pickleNames[i..], load)
        case None => None
        case Some(rest) => Some(df + rest)
    {
      var file := pickleNames[i];
      assert pickleNames[i..][0] == file && pickleNames[i..][1..] == pickleNames[i + 1..];
      var temp := load(pickleDir + "/" + file);
      if temp.None? {
        return None;
      }
      ghost var before := df;
      df := df + TagFile(temp.value, file);
      assert TaggedRows(pickleDir, pickleNames[i..], load) ==
        match TaggedRows(pickleDir, pickleNames[i + 1..], load)
        case None => None
        case Some(rest) => Some(TagFile(temp.value, file) + rest);
      if TaggedRows(pickleDir, pickleNames[i + 1..], load).Some? {
        var rest := TaggedRows(pickleDir, pickleNames[i + 1..], load).value;
        assert before + (TagFile(temp.value, file) + rest) == df + rest;
      }
    }
    assert pickleNames[|pickleNames|..] == [];
    assert df + [] == df;
    return Some(Numbered(df));
  }

  /** After loading, row labels are the positions and every row carries a
      file name without a dot, the stem of one of the listed files. */
  lemma {:induction false} TaggedRowsFromFiles(dir: string, files: seq<string>, load: string -> Option<seq<Plumb.Record>>)
    requires TaggedRows(dir, files, load).Some?
    ensures forall k :: 0 <= k < |TaggedRows(dir, files, load).value| ==>
      exists f :: f in files && TaggedRows(dir, files, load).value[k].filename == FileStem(f)
  {
    if files != [] {
      TaggedRowsFromFiles(dir, files[1..], load);
      var head: seq<Tagged> := TagFile(load(dir + "/" + files[0]).value, files[0]);
      var rest: seq<Tagged> := TaggedRows(dir, files[1..], load).value;
      assert TaggedRows(dir, files, load).value == head + rest;
      forall k | 0 <= k < |head| + |rest|
        ensures exists f :: f in files && (head + rest)[k].filename == FileStem(f)
      {
        if k < |head| {
          assert files[0] in files;
        } else {
          var f :| f in files[1..] && rest[k - |head|].filename == FileStem(f);
          assert f in files;
        }
      }
    }
  }

  /** Loading fails exactly when one of the listed files fails to load. */
  lemma {:induction false} TaggedRowsFail(dir: string, files: seq<string>, load: string -> Option<seq<Plumb.Record>>)
    ensures TaggedRows(dir, files, load).None? <==> exists i :: 0 <= i < |files| && load(dir + "/" + files[i]).None?
  {
    if files != [] {
      TaggedRowsFail(dir, files[1..], load);
      if exists i :: 0 <= i < |files[1..]| && load(dir + "/" + files[1..][i]).None? {
        var i :| 0 <= i < |files[1..]| && load(dir + "/" + files[1..][i]).None?;
        assert files[1..][i] == files[i + 1];
      }
      if exists i :: 0 <= i < |files| && load(dir + "/" + files[i]).None? {
        var i :| 0 <= i < |files| && load(dir + "/" + files[i]).None?;
        if i > 0 {
          assert files[1..][i - 1] == files[i];
        }
      }
    }
  }

  lemma NumberedLabels(rows: seq<Tagged>)
    ensures |Numbered(rows)| == |rows|
    ensures forall k :: 0 <= k < |rows| ==> Numbered(rows)[k].index == k && Numbered(rows)[k].filename == rows[k].filename
  {
  }

  // ---------------------------------------------------------------------
  // print_tree

  /** A directory listing: a file, or a directory with its listing in
      `os.listdir` order. */
  datatype Entry = File(name: string) | Dir(name: string, children: seq<Entry>)

  function Size(e: Entry): (n: nat)
    ensures n >= 1
  {
    match e
    case File(_) => 1
    case Dir(_, children) => 1 + SizeList(children)
  }

  function SizeList(entries: seq<Entry>): nat
  {
    if entries == [] then 0 else Size(entries[0]) + SizeList(entries[1..])
  }

  lemma {:induction false} SizeListAppend(a: seq<Entry>, b: seq<Entry>)
    ensures SizeList(a + b) == SizeList(a) + SizeList(b)
  {
    if a == [] {
      assert a + b == b;
    } else {
      assert (a + b)[0] == a[0] && (a + b)[1..] == a[1..] + b;
      SizeListAppend(a[1..], b);
    }
  }

  lemma ElementSize(files: seq<Entry>, i: nat)
    requires i < |files|
    ensures Size(files[i]) <= SizeList(files)
  {
    assert files == files[..i] + files[i..];
    SizeListAppend(files[..i], files[i..]);
    assert files[i..][0] == files[i];
  }

  predicate Excluded(name: string, excludedFolders: seq<string>, excludedFiles: seq<string>)
  {
    name in excludedFolders || name in excludedFiles
  }

  /** The listing without the excluded names, in order. */
  function Visible(entries: seq<Entry>, excludedFolders: seq<string>, excludedFiles: seq<string>): (v: seq<Entry>)
    ensures SizeList(v) <= SizeList(entries)
  {
    if entries == [] then []
    else
      var head := if Excluded(entries[0].name, excludedFolders, excludedFiles) then [] else [entries[0]];
      var rest := Visible(entries[1..], excludedFolders, excludedFiles);
      SizeListAppend(head, rest);
      assert SizeList(head) <= Size(entries[0]) by {
        if head != [] {
          assert head[1..] == [];
        }
      }
      head + rest
  }

  /** Filtering keeps the listing's order: the visible entries of `a + b`
      are those of `a` followed by those of `b`. */
  lemma {:induction false} VisibleAppend(a: seq<Entry>, b: seq<Entry>, excludedFolders: seq<string>, excludedFiles: seq<string>)
    ensures Visible(a + b, excludedFolders, excludedFiles)
         == Visible(a, excludedFolders, excludedFiles) + Visible(b, excludedFolders, excludedFiles)
  {
    if a == [] {
      assert a + b == b;
    } else {
      assert (a + b)[0] == a[0] && (a + b)[1..] == a[1..] + b;
      VisibleAppend(a[1..], b, excludedFolders, excludedFiles);
    }
  }

  /** The filtered listing holds exactly the entries whose names are not
      excluded. */
  lemma {:induction false} VisibleMembers(entries: seq<Entry>, excludedFolders: seq<string>, excludedFiles: seq<string>)
    ensures forall k :: 0 <= k < |Visible(entries, excludedFolders, excludedFiles)| ==>
      Visible(entries, excludedFolders, excludedFiles)[k] in entries &&
      !Excluded(Visible(entries, excludedFolders, excludedFiles)[k].name, excludedFolders, excludedFiles)
    ensures forall e :: e in entries && !Excluded(e.name, excludedFolders, excludedFiles) ==> e in Visible(entries, excludedFolders, excludedFiles)
  {
    if entries != [] {
      VisibleMembers(entries[1..], excludedFolders, excludedFiles);
      var head := if Excluded(entries[0].name, excludedFolders, excludedFiles) then [] else [entries[0]];
      var rest := Visible(entries[1..], excludedFolders, excludedFiles);
      assert Visible(entries, excludedFolders, excludedFiles) == head + rest;
      forall e | e in entries && !Excluded(e.name, excludedFolders, excludedFiles)
        ensures e in head + rest
      {
        if e != entries[0] {
          assert e in entries[1..];
        }
      }
      forall k | 0 <= k < |head + rest|
        ensures (head + rest)[k] in entries
      {
        if k >= |head| {
          assert (head + rest)[k] == rest[k - |head|];
          assert rest[k - |head|] in entries[1..];
        }
      }
    }
  }

  /** A single entry is kept exactly when its name is not excluded. */
  lemma VisibleSingle(e: Entry, excludedFolders: seq<string>, excludedFiles: seq<string>)
    ensures Visible([e], excludedFolders, excludedFiles)
         == if Excluded(e.name, excludedFolders, excludedFiles) then [] else [e]
  {
    assert [e][1..] == [];
  }

  // The listing with the contents of every excluded directory, at every
  // depth, thrown away.

  function Prune(e: Entry, excludedFolders: seq<string>, excludedFiles: seq<string>): (p: Entry)
    ensures p.name == e.name && p.Dir? == e.Dir?
    decreases Size(e), 0
  {
    match e
    case File(_) => e
    case Dir(name, children) =>
      if Excluded(name, excludedFolders, excludedFiles) then Dir(name, [])
      else Dir(name, PruneList(children, excludedFolders, excludedFiles))
  }

  function PruneList(entries: seq<Entry>, excludedFolders: seq<string>, excludedFiles: seq<string>): (p: seq<Entry>)
    ensures |p| == |entries|
    decreases SizeList(entries), 1
  {
    if entries == [] then []
    else [Prune(entries[0], excludedFolders, excludedFiles)] + PruneList(entries[1..], excludedFolders, excludedFiles)
  }

  lemma {:induction false} PruneListAppend(a: seq<Entry>, b: seq<Entry>, excludedFolders: seq<string>, excludedFiles: seq<string>)
    ensures PruneList(a + b, excludedFolders, excludedFiles)
         == PruneList(a, excludedFolders, excludedFiles) + PruneList(b, excludedFolders, excludedFiles)
  {
    if a == [] {
      assert a + b == b;
    } else {
      assert (a + b)[0] == a[0] && (a + b)[1..] == a[1..] + b;
      PruneListAppend(a[1..], b, excludedFolders, excludedFiles);
    }
  }

  /** Pruning keeps names, so it commutes with the filter. */
  lemma {:induction false} VisiblePrune(entries: seq<Entry>, excludedFolders: seq<string>, excludedFiles: seq<string>)
    ensures Visible(PruneList(entries, excludedFolders, excludedFiles), excludedFolders, excludedFiles)
         == PruneList(Visible(entries, excludedFolders, excludedFiles), excludedFolders, excludedFiles)
  {
    if entries != [] {
      var head := if Excluded(entries[0].name, excludedFolders, excludedFiles) then [] else [entries[0]];
      VisiblePrune(entries[1..], excludedFolders, excludedFiles);
      PruneListAppend(head, Visible(entries[1..], excludedFolders, excludedFiles), excludedFolders, excludedFiles);
      if head != [] {
        assert PruneList(head, excludedFolders, excludedFiles) == [Prune(entries[0], excludedFolders, excludedFiles)] by {
          assert head[1..] == [];
        }
      }
    }
  }

  const LastConnector: string := "└── "
  const MiddleConnector: string := "├── "
  const LastExtension: string := "    "
  const MiddleExtension: string := "│   "

  /** `print(prefix + connector, file)`: the two arguments are printed
      with one space between them. */
  function EntryLine(prefix: string, isLast: bool, name: string): string
  {
    (prefix + (if isLast then LastConnector else MiddleConnector)) + " " + name
  }

  function Extension(isLast: bool): string
  {
    if isLast then LastExtension else MiddleExtension
  }

  /** The lines of a filtered listing: one per entry, each directory's
      lines right after its own. */
  function ListLines(files: seq<Entry>, prefix: string, excludedFolders: seq<string>, excludedFiles: seq<string>): seq<string>
    decreases SizeList(files), 1
  {
    if files == [] then []
    else
      var isLast := |files| == 1;
      [EntryLine(prefix, isLast, files[0].name)]
      + SubLines(files[0], isLast, prefix, excludedFolders, excludedFiles)
      + ListLines(files[1..], prefix, excludedFolders, excludedFiles)
  }

  /** The lines under an entry: none for a file; for a directory, its
      visible listing with the prefix extended by '    ' when it is the
      last entry and by '│   ' otherwise. */
  function SubLines(e: Entry, isLast: bool, prefix: string, excludedFolders: seq<string>, excludedFiles: seq<string>): seq<string>
    decreases Size(e), 0
  {
    match e
    case File(_) => []
    case Dir(_, children) =>
      ListLines(Visible(children, excludedFolders, excludedFiles), prefix + Extension(isLast), excludedFolders, excludedFiles)
  }

  /** The names in the order their lines appear: depth first, in
      listing order, excluded names and their contents skipped. */
  function Shown(files: seq<Entry>, excludedFolders: seq<string>, excludedFiles: seq<string>): seq<string>
    decreases SizeList(files), 1
  {
    if files == [] then []
    else [files[0].name] + SubShown(files[0], excludedFolders, excludedFiles) + Shown(files[1..], excludedFolders, excludedFiles)
  }

  function SubShown(e: Entry, excludedFolders: seq<string>, excludedFiles: seq<string>): seq<string>
    decreases Size(e), 0
  {
    match e
    case File(_) => []
    case Dir(_, children) => Shown(Visible(children, excludedFolders, excludedFiles), excludedFolders, excludedFiles)
  }

  /** The text after the last '/' of a path: a suffix without '/' that
      is the whole path or starts right after a '/'. */
  function Basename(path: string): (b: string)
    ensures '/' !in b
    ensures |b| <= |path| && b == path[|path| - |b|..]
    ensures b == path || path[|path| - |b| - 1] == '/'
  {
    if path == [] then ""
    else if path[|path| - 1] == '/' then ""
    else
      var b := Basename(path[..|path| - 1]);
      assert path[..|path| - 1][|path| - 1 - |b|..] + [path[|path| - 1]] == path[|path| - |b| - 1..];
      b + [path[|path| - 1]]
  }

  /** `os.path.join(directory, file)` for a file name without '/'. */
  function PathJoin(directory: string, file: string): string
  {
    if directory == [] || directory[|directory| - 1] == '/' then directory + file else directory + "/" + file
  }

  /** print_tree(directory, excluded_folders, excluded_files, prefix), with
      the directory's listing given as `entries`: the lines it prints. */
  method PrintTree(directory: string, entries: seq<Entry>, excludedFolders: seq<string>, excludedFiles: seq<string>, prefix: string)
    returns (out: seq<string>)
    ensures out == (if prefix == "" then [Basename(directory) + "/"] else [])
                   + ListLines(Visible(entries, excludedFolders, excludedFiles), prefix, excludedFolders, excludedFiles)
    decreases SizeList(entries)
  {
    out := [];
    if prefix == "" {
      out := [Basename(directory) + "/"];
    }
    ghost var top := out;
    var files := Visible(entries, excludedFolders, excludedFiles);
    VisibleMembers(entries, excludedFolders, excludedFiles);
    assert files[0..] == files;
    for index := 0 to |files|
      invariant out + ListLines(files[index..], prefix, excludedFolders, excludedFiles)
             == top + ListLines(files, prefix, excludedFolders, excludedFiles)
    {
      var file := files[index];
      var path := PathJoin(directory, file.name);
      var isLast := index == |files| - 1;
      ghost var before := out;
      ghost var line := EntryLine(prefix, isLast, file.name);
      ghost var sub0 := SubLines(file, isLast, prefix, excludedFolders, excludedFiles);
      ghost var rest := ListLines(files[index + 1..], prefix, excludedFolders, excludedFiles);
      ListLinesAt(files, index, prefix, excludedFolders, excludedFiles);
      Regroup(before, [line], sub0, rest);
      out := out + [EntryLine(prefix, isLast, file.name)];
      if file.Dir? && file.name !in excludedFolders {
        var extension := if isLast then LastExtension else MiddleExtension;
        ElementSize(files, index);
        var sub := PrintTree(path, file.children, excludedFolders, excludedFiles, prefix + extension);
        assert sub == sub0 by {
          assert |prefix + extension| >= 4;
          assert extension == Extension(isLast);
        }
        out := out + sub;
      } else {
        assert sub0 == [] by {
          assert !Excluded(file.name, excludedFolders, excludedFiles);
        }
        assert out + sub0 == out;
      }
    }
    assert ListLines(files[|files|..], prefix, excludedFolders, excludedFiles) == [] by {
      assert files[|files|..] == [];
    }
    assert out + [] == out;
  }

  lemma Regroup(a: seq<string>, b: seq<string>, c: seq<string>, d: seq<string>)
    ensures a + (b + c + d) == a + b + c + d
  {
  }

  lemma ListLinesAt(files: seq<Entry>, index: nat, prefix: string, excludedFolders: seq<string>, excludedFiles: seq<string>)
    requires index < |files|
    ensures ListLines(files[index..], prefix, excludedFolders, excludedFiles)
         == [EntryLine(prefix, index == |files| - 1, files[index].name)]
            + SubLines(files[index], index == |files| - 1, prefix, excludedFolders, excludedFiles)
            + ListLines(files[index + 1..], prefix, excludedFolders, excludedFiles)
  {
    assert files[index..][0] == files[index] && files[index..][1..] == files[index + 1..];
  }

  predicate EndsWith(s: string, t: string)
  {
    |t| <= |s| && s[|s| - |t|..] == t
  }

  /** One line per name, every line starting with `prefix` and ending
      with a space and its name. */
  predicate Labelled(lines: seq<string>, names: seq<string>, prefix: string)
  {
    && |lines| == |names|
    && forall k :: 0 <= k < |lines| ==> prefix <= lines[k] && EndsWith(lines[k], " " + names[k])
  }

  lemma LabelledAppend(a: seq<string>, an: seq<string>, b: seq<string>, bn: seq<string>, prefix: string)
    requires Labelled(a, an, prefix) && Labelled(b, bn, prefix)
    ensures Labelled(a + b, an + bn, prefix)
  {
    forall k | 0 <= k < |a + b| ensures prefix <= (a + b)[k] && EndsWith((a + b)[k], " " + (an + bn)[k]) {
      if k < |a| {
        assert (a + b)[k] == a[k] && (an + bn)[k] == an[k];
      } else {
        assert (a + b)[k] == b[k - |a|] && (an + bn)[k] == bn[k - |a|];
      }
    }
  }

  lemma LabelledShorter(lines: seq<string>, names: seq<string>, prefix: string, extension: string)
    requires Labelled(lines, names, prefix + extension)
    ensures Labelled(lines, names, prefix)
  {
    forall k | 0 <= k < |lines| ensures prefix <= lines[k] {
      assert prefix <= prefix + extension <= lines[k];
    }
  }

  /** One line per shown name: every line starts with the prefix it was
      printed under and ends with a space and its entry's name. */
  lemma {:induction false} LinesMatchNames(files: seq<Entry>, prefix: string, excludedFolders: seq<string>, excludedFiles: seq<string>)
    ensures Labelled(ListLines(files, prefix, excludedFolders, excludedFiles), Shown(files, excludedFolders, excludedFiles), prefix)
    decreases SizeList(files)
  {
    if files != [] {
      var isLast := |files| == 1;
      var line := EntryLine(prefix, isLast, files[0].name);
      var subLines := SubLines(files[0], isLast, prefix, excludedFolders, excludedFiles);
      var subNames := SubShown(files[0], excludedFolders, excludedFiles);
      if files[0].Dir? {
        var v := Visible(files[0].children, excludedFolders, excludedFiles);
        ElementSize(files, 0);
        LinesMatchNames(v, prefix + Extension(isLast), excludedFolders, excludedFiles);
        LabelledShorter(subLines, subNames, prefix, Extension(isLast));
      }
      assert Labelled([line], [files[0].name], prefix) by {
        assert line == (prefix + (if isLast then LastConnector else MiddleConnector)) + (" " + files[0].name);
      }
      LabelledAppend([line], [files[0].name], subLines, subNames, prefix);
      LinesMatchNames(files[1..], prefix, excludedFolders, excludedFiles);
      LabelledAppend([line] + subLines, [files[0].name] + subNames,
                     ListLines(files[1..], prefix, excludedFolders, excludedFiles),
                     Shown(files[1..], excludedFolders, excludedFiles), prefix);
    }
  }

  /** No excluded name is ever shown, at any depth, when the listing
      shown is a filtered one. */
  lemma {:induction false} ExcludedNeverShown(files: seq<Entry>, excludedFolders: seq<string>, excludedFiles: seq<string>)
    requires forall k :: 0 <= k < |files| ==> !Excluded(files[k].name, excludedFolders, excludedFiles)
    ensures forall k :: 0 <= k < |Shown(files, excludedFolders, excludedFiles)| ==>
      !Excluded(Shown(files, excludedFolders, excludedFiles)[k], excludedFolders, excludedFiles)
    decreases SizeList(files)
  {
    if files != [] {
      var subNames: seq<string> := [];
      if files[0].Dir? {
        var v := Visible(files[0].children, excludedFolders, excludedFiles);
        ElementSize(files, 0);
        VisibleMembers(files[0].children, excludedFolders, excludedFiles);
        ExcludedNeverShown(v, excludedFolders, excludedFiles);
        subNames := Shown(v, excludedFolders, excludedFiles);
      }
      ExcludedNeverShown(files[1..], excludedFolders, excludedFiles);
      assert Shown(files, excludedFolders, excludedFiles) == [files[0].name] + subNames + Shown(files[1..], excludedFolders, excludedFiles);
    }
  }

  /** A listing of entries none of which is excluded prints the same lines
      once the contents of excluded directories below it are thrown away. */
  lemma {:induction false} PrunedLines(files: seq<Entry>, prefix: string, excludedFolders: seq<string>, excludedFiles: seq<string>)
    requires forall k :: 0 <= k < |files| ==> !Excluded(files[k].name, excludedFolders, excludedFiles)
    ensures ListLines(PruneList(files, excludedFolders, excludedFiles), prefix, excludedFolders, excludedFiles)
         == ListLines(files, prefix, excludedFolders, excludedFiles)
    decreases SizeList(files)
  {
    if files != [] {
      var pruned := PruneList(files, excludedFolders, excludedFiles);
      var isLast := |files| == 1;
      assert pruned[0] == Prune(files[0], excludedFolders, excludedFiles);
      assert pruned[1..] == PruneList(files[1..], excludedFolders, excludedFiles);
      PrunedLines(files[1..], prefix, excludedFolders, excludedFiles);
      if files[0].Dir? {
        var children := files[0].children;
        var v := Visible(children, excludedFolders, excludedFiles);
        ElementSize(files, 0);
        VisibleMembers(children, excludedFolders, excludedFiles);
        VisiblePrune(children, excludedFolders, excludedFiles);
        PrunedLines(v, prefix + Extension(isLast), excludedFolders, excludedFiles);
        assert SubLines(pruned[0], isLast, prefix, excludedFolders, excludedFiles)
            == SubLines(files[0], isLast, prefix, excludedFolders, excludedFiles);
      }
    }
  }

  /** Excluded folders are not entered: what is printed for a listing does
      not depend on the contents of any excluded directory, at any depth. */
  lemma ExcludedFoldersNotEntered(entries: seq<Entry>, prefix: string, excludedFolders: seq<string>, excludedFiles: seq<string>)
    ensures ListLines(Visible(PruneList(entries, excludedFolders, excludedFiles), excludedFolders, excludedFiles), prefix, excludedFolders, excludedFiles)
         == ListLines(Visible(entries, excludedFolders, excludedFiles), prefix, excludedFolders, excludedFiles)
  {
    VisiblePrune(entries, excludedFolders, excludedFiles);
    VisibleMembers(entries, excludedFolders, excludedFiles);
    PrunedLines(Visible(entries, excludedFolders, excludedFiles), prefix, excludedFolders, excludedFiles);
  }

  /** In particular, the children of an excluded directory may be anything. */
  lemma ExcludedContentsIgnored(a: seq<Entry>, name: string, children: seq<Entry>, b: seq<Entry>, prefix: string,
                                excludedFolders: seq<string>, excludedFiles: seq<string>)
    requires name in excludedFolders
    ensures ListLines(Visible(a + [Dir(name, children)] + b, excludedFolders, excludedFiles), prefix, excludedFolders, excludedFiles)
         == ListLines(Visible(a + [Dir(name, [])] + b, excludedFolders, excludedFiles), prefix, excludedFolders, excludedFiles)
  {
    var one := a + [Dir(name, children)] + b;
    var two := a + [Dir(name, [])] + b;
    PruneListAppend(a + [Dir(name, children)], b, excludedFolders, excludedFiles);
    PruneListAppend(a, [Dir(name, children)], excludedFolders, excludedFiles);
    PruneListAppend(a + [Dir(name, [])], b, excludedFolders, excludedFiles);
    PruneListAppend(a, [Dir(name, [])], excludedFolders, excludedFiles);
    assert PruneList([Dir(name, children)], excludedFolders, excludedFiles) == PruneList([Dir(name, [])], excludedFolders, excludedFiles);
    ExcludedFoldersNotEntered(one, prefix, excludedFolders, excludedFiles);
    ExcludedFoldersNotEntered(two, prefix, excludedFolders, excludedFiles);
  }

  /** The lines printed for the first k entries of a listing. */
  function LinesBefore(files: seq<Entry>, k: nat, prefix: string, excludedFolders: seq<string>, excludedFiles: seq<string>): seq<string>
    requires k <= |files|
    decreases k
  {
    if k == 0 then []
    else
      ([EntryLine(prefix, |files| == 1, files[0].name)] + SubLines(files[0], |files| == 1, prefix, excludedFolders, excludedFiles))
      + LinesBefore(files[1..], k - 1, prefix, excludedFolders, excludedFiles)
  }

  /** The lines of the entries from the k-th on close the printed listing. */
  lemma {:induction false} ListLinesSuffix(files: seq<Entry>, k: nat, prefix: string, excludedFolders: seq<string>, excludedFiles: seq<string>)
    requires k <= |files|
    ensures ListLines(files, prefix, excludedFolders, excludedFiles)
         == LinesBefore(files, k, prefix, excludedFolders, excludedFiles) + ListLines(files[k..], prefix, excludedFolders, excludedFiles)
    decreases k
  {
    if k == 0 {
      assert files[0..] == files;
    } else {
      ListLinesSuffix(files[1..], k - 1, prefix, excludedFolders, excludedFiles);
      assert files[1..][k - 1..] == files[k..];
      var head := [EntryLine(prefix, |files| == 1, files[0].name)] + SubLines(files[0], |files| == 1, prefix, excludedFolders, excludedFiles);
      var before := LinesBefore(files[1..], k - 1, prefix, excludedFolders, excludedFiles);
      var rest := ListLines(files[k..], prefix, excludedFolders, excludedFiles);
      assert ListLines(files, prefix, excludedFolders, excludedFiles) == head + (before + rest);
      assert head + (before + rest) == (head + before) + rest;
    }
  }

  /** Of the entries of one listing, the k-th prints the line, in the
      listing's output, that starts the lines of the entries from the k-th
      on; it gets the '└── ' connector when it is the last entry and the
      '├── ' connector otherwise. */
  lemma ConnectorOfEntry(files: seq<Entry>, k: nat, prefix: string, excludedFolders: seq<string>, excludedFiles: seq<string>)
    requires k < |files|
    ensures exists p :: ListLines(files, prefix, excludedFolders, excludedFiles) == p + ListLines(files[k..], prefix, excludedFolders, excludedFiles)
    ensures ListLines(files[k..], prefix, excludedFolders, excludedFiles)[0] == EntryLine(prefix, k == |files| - 1, files[k].name)
    ensures k == |files| - 1 ==> LastConnector <= ListLines(files[k..], prefix, excludedFolders, excludedFiles)[0][|prefix|..]
    ensures k < |files| - 1 ==> MiddleConnector <= ListLines(files[k..], prefix, excludedFolders, excludedFiles)[0][|prefix|..]
  {
    ListLinesSuffix(files, k, prefix, excludedFolders, excludedFiles);
    ListLinesAt(files, k, prefix, excludedFolders, excludedFiles);
    assert ListLines(files, prefix, excludedFolders, excludedFiles)
        == LinesBefore(files, k, prefix, excludedFolders, excludedFiles) + ListLines(files[k..], prefix, excludedFolders, excludedFiles);
    var line := EntryLine(prefix, k == |files| - 1, files[k].name);
    var c := if k == |files| - 1 then LastConnector else MiddleConnector;
    assert line[|prefix|..] == c + " " + files[k].name;
  }
}
