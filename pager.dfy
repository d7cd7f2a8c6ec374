/** db/pager.go: the database header, page reads, the table leaf page and its
    cells, and the records built from them. The file is the sequence of its
    bytes. */
module Pager {
  import opened Base
  import opened GoBinary
  import opened RecordCodec

  const HeaderSize: nat := 100

  /** "SQLite format 3\x00", byte by byte. */
  const SQLiteMagic: seq<byte> :=
    [0x53, 0x51, 0x4c, 0x69, 0x74, 0x65, 0x20, 0x66, 0x6f, 0x72, 0x6d, 0x61, 0x74, 0x20, 0x33, 0x00]

  // ---------------------------------------------------------------------------
  // File reads, the database header and pages
  // ---------------------------------------------------------------------------

  /** `file.ReadAt(buf, offset)` with len(buf) == n: a negative offset fails,
      and so does a read that ends past the end of the file (the short read
      reports io.EOF); an empty buffer reads nothing. */
  function ReadAt(file: seq<byte>, offset: int, n: nat): (r: Result<seq<byte>>)
    ensures r.Ok? <==> 0 <= offset && (n == 0 || offset + n <= |file|)
    ensures r.Ok? ==> |r.value| == n && (n > 0 ==> r.value == file[offset..offset + n])
    ensures r.Err? ==> r.error == ReadFailed
  {
    if offset < 0 then Err(ReadFailed)
    else if n == 0 then Ok([])
    else if offset + n <= |file| then Ok(file[offset..offset + n])
    else Err(ReadFailed)
  }

  /** The fields of the 100-byte header that the program uses. */
  datatype DatabaseHeader = DatabaseHeader(headerString: seq<byte>, pageSize: nat)

  /** ReadDatabaseHeader: the first 100 bytes must be there and start with the
      magic string; the page size is the big-endian word at offset 16. */
  function ReadDatabaseHeader(file: seq<byte>): (r: Result<DatabaseHeader>)
  {
    var hs :- ReadAt(file, 0, HeaderSize);
    if hs[..16] != SQLiteMagic then Err(InvalidDatabaseFile)
    else Ok(DatabaseHeader(hs, Uint16(hs[16..18])))
  }

  /** The header is accepted exactly when the file holds 100 bytes that start
      with the magic string; the page size is bytes 16 and 17, big-endian,
      with no special meaning for the value 1. */
  lemma DatabaseHeaderSpec(file: seq<byte>)
    ensures var r := ReadDatabaseHeader(file);
      && (r.Ok? <==> |file| >= HeaderSize && file[..16] == SQLiteMagic)
      && (r.Err? ==> r.error == if |file| < HeaderSize then ReadFailed else InvalidDatabaseFile)
      && (r.Ok? ==>
            r.value.headerString == file[..HeaderSize] &&
            r.value.pageSize == file[16] as int * 256 + file[17] as int &&
            r.value.pageSize < TwoTo16)
  {
    if |file| >= HeaderSize {
      assert file[..HeaderSize][..16] == file[..16];
      assert file[0..HeaderSize] == file[..HeaderSize];
    }
  }

  /** Where ReadBTreePage starts reading: (pageNumber - 1) * pageSize, and 0
      for page 1. */
  function PageOffset(pageSize: nat, pageNumber: nat): int {
    if pageNumber == 1 then 0 else (pageNumber - 1) * pageSize
  }

  /** ReadBTreePage(file, pageSize, pageNumber): a buffer of pageSize bytes
      read at the page's offset. The page number is a uint32. */
  function ReadBTreePage(file: seq<byte>, pageSize: nat, pageNumber: nat): (r: Result<seq<byte>>)
    requires pageNumber < TwoTo32
    ensures r.Ok? ==> |r.value| == pageSize
  {
    ReadAt(file, PageOffset(pageSize, pageNumber), pageSize)
  }

  /** Page n (n >= 1) holds bytes [(n - 1) * pageSize, n * pageSize) of the
      file; page 1 starts at offset 0, as the general formula also gives; page
      0 would start before the file, so reading it fails unless the page size
      is 0. */
  lemma PageBounds(file: seq<byte>, pageSize: nat, pageNumber: nat)
    requires pageNumber < TwoTo32
    ensures pageNumber >= 1 ==> PageOffset(pageSize, pageNumber) == (pageNumber - 1) * pageSize
    ensures var r := ReadBTreePage(file, pageSize, pageNumber);
      pageNumber >= 1 && pageSize > 0 ==>
        (r.Ok? <==> pageNumber * pageSize <= |file|) &&
        (r.Ok? ==> r.value == file[(pageNumber - 1) * pageSize..pageNumber * pageSize])
    ensures pageNumber == 0 ==> (ReadBTreePage(file, pageSize, 0).Ok? <==> pageSize == 0)
  {
    if pageNumber >= 1 {
      assert (pageNumber - 1) * pageSize + pageSize == pageNumber * pageSize;
    }
  }

  // ---------------------------------------------------------------------------
  // The table leaf page (NewTableLeafPage)
  // ---------------------------------------------------------------------------

  /** The page type is always set to 13 and the page number is stored as a uint16. */
  datatype TableHeader = TableHeader(pageType: byte, cellCount: nat, pageNumber: nat)

  /** A cell: its size and rowid varints, and the payload slice. */
  datatype TableLeafCell = TableLeafCell(size: int, rowId: int, payload: Slice)

  datatype TableLeafPage = TableLeafPage(header: TableHeader, cellPointers: seq<nat>, cells: seq<TableLeafCell>)

  /** The cell whose data starts at `ptr`: the size varint, the rowid varint,
      and the payload `cellData[n:size+1]`, where cellData starts after the
      size varint and n is the rowid varint's length. The payload keeps the
      rest of the page as spare capacity. A varint error aborts, and so does a
      payload window that does not fit the page. */
  function LeafCellAt(pageData: seq<byte>, ptr: nat): (r: Result<TableLeafCell>)
    requires ptr < |pageData|
  {
    var cell := pageData[ptr..];
    var size := Varint(cell, 0);
    if size.status != Complete then Err(VarintError(size.status))
    else
      var rowId := Varint(cell[size.bytesRead..], 0);
      if rowId.status != Complete then Err(VarintError(rowId.status))
      else LeafCell(pageData, ptr + size.bytesRead, size.value, rowId)
  }

  /** The cell once its varints are read: `at` is just after the size varint. */
  function LeafCell(pageData: seq<byte>, at: nat, size: nat, rowId: VarintRead): Result<TableLeafCell>
    requires at <= |pageData|
  {
    var payload :- Reslice(SliceRep(pageData, at, |pageData|), rowId.bytesRead, size + 1);
    Ok(TableLeafCell(size, rowId.value, payload))
  }

  /** A cell's size is its first varint, its rowid the second, and its
      payload runs from just after the rowid to index size+1 counted from just
      after the size varint, inside the page. */
  lemma LeafCellShape(pageData: seq<byte>, ptr: nat)
    requires ptr < |pageData| && LeafCellAt(pageData, ptr).Ok?
    ensures var c, cell := LeafCellAt(pageData, ptr).value, pageData[ptr..];
      var size := Varint(cell, 0);
      var rowId := Varint(cell[size.bytesRead..], 0);
      && size.status == Complete && rowId.status == Complete
      && c.size == size.value && c.rowId == rowId.value
      && rowId.bytesRead <= size.value + 1
      && ptr + size.bytesRead + size.value + 1 <= |pageData|
      && c.payload == SliceRep(pageData, ptr + size.bytesRead + rowId.bytesRead, ptr + size.bytesRead + size.value + 1)
      && Cap(c.payload) == |pageData| - (ptr + size.bytesRead + rowId.bytesRead)
  {
  }

  /** The cells of the in-bounds pointers, in pointer order. */
  function CellsAt(pageData: seq<byte>, ptrs: seq<nat>): Result<seq<TableLeafCell>> {
    if |ptrs| == 0 then Ok([])
    else if ptrs[0] >= |pageData| then CellsAt(pageData, ptrs[1..])
    else
      var c :- LeafCellAt(pageData, ptrs[0]);
      var rest :- CellsAt(pageData, ptrs[1..]);
      Ok([c] + rest)
  }

  /** Where the cell count and the pointer array are read: 100 bytes further
      on page 1, behind the file header. */
  function HeaderBase(pageNumber: int): nat {
    if pageNumber == 1 then 100 else 0
  }

  /** What NewTableLeafPage(file, pageSize, pageNumber) returns. `pageData[3:5]`
      is taken on every page before page 1 takes `pageData[103:105]`; the
      stored pointers are not shifted; the type byte is not checked. */
  function LeafPageOf(file: seq<byte>, pageSize: nat, pageNumber: int): Result<TableLeafPage> {
    var pageData :- ReadBTreePage(file, pageSize, pageNumber % TwoTo32);
    LeafPageFrom(pageData, pageNumber)
  }

  /** NewTableLeafPage once the page is read. */
  function LeafPageFrom(pageData: seq<byte>, pageNumber: int): Result<TableLeafPage> {
    if |pageData| < 5 || |pageData| < HeaderBase(pageNumber) + 5 then Err(Panic(SliceOutOfRange))
    else
      var base := HeaderBase(pageNumber);
      var count := Uint16(pageData[base + 3..base + 5]);
      var ptrs :- CellPointers(pageData, count, base + 8, 0);
      var cells :- CellsAt(pageData, ptrs);
      Ok(TableLeafPage(TableHeader(LeafTablePageType, count, pageNumber % TwoTo16), ptrs, cells))
  }

  method NewTableLeafPage(file: seq<byte>, pageSize: nat, pageNumber: int) returns (r: Result<TableLeafPage>)
    ensures r == LeafPageOf(file, pageSize, pageNumber)
  {
    var pageData :- ReadBTreePage(file, pageSize, pageNumber % TwoTo32);
    if |pageData| < 5 {
      return Err(Panic(SliceOutOfRange));  // pageData[3:5]
    }
    var base := HeaderBase(pageNumber);
    if |pageData| < base + 5 {
      return Err(Panic(SliceOutOfRange));  // pageData[103:105]
    }
    var count := Uint16(pageData[base + 3..base + 5]);
    var ptrs :- ReadCellPointers(pageData, count, base + 8, 0);
    var cells :- ReadCells(pageData, ptrs);
    return Ok(TableLeafPage(TableHeader(LeafTablePageType, count, pageNumber % TwoTo16), ptrs, cells));
  }

  /** NewTableLeafPage's cell loop: out-of-bounds pointers are skipped. */
  method ReadCells(pageData: seq<byte>, ptrs: seq<nat>) returns (r: Result<seq<TableLeafCell>>)
    ensures r == CellsAt(pageData, ptrs)
  {
    var cells: seq<TableLeafCell> := [];
    var i := 0;
    PrependNil(CellsAt(pageData, ptrs));
    while i < |ptrs|
      invariant 0 <= i <= |ptrs|
      invariant CellsAt(pageData, ptrs) == Prepend(cells, CellsAt(pageData, ptrs[i..]))
    {
      ghost var rest := ptrs[i..];
      assert rest[0] == ptrs[i] && rest[1..] == ptrs[i + 1..];
      if ptrs[i] < |pageData| {
        var cell := ReadLeafCell(pageData, ptrs[i]);
        if cell.Err? {
          CellsAtFails(pageData, rest);
          return Err(cell.error);
        }
        CellsAtCons(pageData, rest, cell.value);
        PrependAssoc(cells, [cell.value], CellsAt(pageData, rest[1..]));
        cells := cells + [cell.value];
      }
      i := i + 1;
    }
    assert ptrs[i..] == [];
    assert cells + [] == cells;
    return Ok(cells);
  }

  /** One cell of NewTableLeafPage's loop, read with ReadVarintAt. */
  method ReadLeafCell(pageData: seq<byte>, ptr: nat) returns (r: Result<TableLeafCell>)
    requires ptr < |pageData|
    ensures r == LeafCellAt(pageData, ptr)
  {
    var cellData := pageData[ptr..];
    var n, size, st := ReadVarintAt(cellData, 0);
    if st != Complete {
      return Err(VarintError(st));
    }
    cellData := cellData[n..];
    var n2, rowId, st2 := ReadVarintAt(cellData, 0);
    if st2 != Complete {
      return Err(VarintError(st2));
    }
    LeafCellAtIs(pageData, ptr, n, size, n2, rowId);
    var payload :- Reslice(SliceRep(pageData, ptr + n, |pageData|), n2, size + 1);
    return Ok(TableLeafCell(size, rowId, payload));
  }

  /** LeafCellAt once both varints have been read completely. */
  lemma LeafCellAtIs(pageData: seq<byte>, ptr: nat, n: nat, size: nat, n2: nat, rowId: nat)
    requires ptr < |pageData|
    requires Varint(pageData[ptr..], 0) == VarintRead(n, size, Complete)
    requires Varint(pageData[ptr..][n..], 0) == VarintRead(n2, rowId, Complete)
    ensures ptr + n <= |pageData|
    ensures LeafCellAt(pageData, ptr) == LeafCell(pageData, ptr + n, size, VarintRead(n2, rowId, Complete))
  {
  }

  lemma CellsAtCons(pageData: seq<byte>, ptrs: seq<nat>, c: TableLeafCell)
    requires |ptrs| > 0 && ptrs[0] < |pageData| && LeafCellAt(pageData, ptrs[0]) == Ok(c)
    ensures CellsAt(pageData, ptrs) == Prepend([c], CellsAt(pageData, ptrs[1..]))
  {
  }

  lemma CellsAtFails(pageData: seq<byte>, ptrs: seq<nat>)
    requires |ptrs| > 0 && ptrs[0] < |pageData| && LeafCellAt(pageData, ptrs[0]).Err?
    ensures CellsAt(pageData, ptrs) == Err(LeafCellAt(pageData, ptrs[0]).error)
  {
  }

  /** One cell per in-bounds pointer, so never more cells than the count. */
  lemma {:induction false} CellsCount(pageData: seq<byte>, ptrs: seq<nat>)
    requires CellsAt(pageData, ptrs).Ok?
    ensures |CellsAt(pageData, ptrs).value| == |InBounds(ptrs, |pageData|)| <= |ptrs|
  {
    if |ptrs| > 0 {
      CellsCount(pageData, ptrs[1..]);
    }
  }

  /** The i-th cell is the one the i-th in-bounds pointer points at. */
  lemma {:induction false} CellsFollowPointers(pageData: seq<byte>, ptrs: seq<nat>, i: nat)
    requires CellsAt(pageData, ptrs).Ok? && i < |InBounds(ptrs, |pageData|)|
    ensures var cs, ps := CellsAt(pageData, ptrs).value, InBounds(ptrs, |pageData|);
      i < |cs| && LeafCellAt(pageData, ps[i]) == Ok(cs[i])
  {
    CellsCount(pageData, ptrs);
    var size := |pageData|;
    if ptrs[0] >= size {
      assert InBounds(ptrs, size) == InBounds(ptrs[1..], size);
      CellsFollowPointers(pageData, ptrs[1..], i);
    } else {
      var c := LeafCellAt(pageData, ptrs[0]).value;
      CellsAtCons(pageData, ptrs, c);
      assert InBounds(ptrs, size) == [ptrs[0]] + InBounds(ptrs[1..], size);
      if i > 0 {
        CellsFollowPointers(pageData, ptrs[1..], i - 1);
      }
    }
  }

  /** The page's shape: the count comes from [3, 5), or [103, 105) on page 1;
      the pointers are the count's words from offset 8, 108 on page 1; the
      cells follow the in-bounds pointers and there are at most as many as the
      count says; the page number is kept as a uint16. */
  lemma LeafPageShape(pageData: seq<byte>, pageNumber: int)
    requires LeafPageFrom(pageData, pageNumber).Ok?
    ensures var p, base := LeafPageFrom(pageData, pageNumber).value, HeaderBase(pageNumber);
      && |pageData| >= base + 5
      && p.header.pageType == LeafTablePageType
      && p.header.cellCount == Uint16(pageData[base + 3..base + 5])
      && p.header.pageNumber == pageNumber % TwoTo16
      && CellPointers(pageData, p.header.cellCount, base + 8, 0) == Ok(p.cellPointers)
      && CellsAt(pageData, p.cellPointers) == Ok(p.cells)
      && |p.cells| <= p.header.cellCount
  {
    var p := LeafPageFrom(pageData, pageNumber).value;
    CellsCount(pageData, p.cellPointers);
  }

  /** Pointer i is the big-endian word at 8 + 2i (108 + 2i on page 1), taken
      as stored. */
  lemma LeafPagePointers(pageData: seq<byte>, count: nat, base: nat, i: nat)
    requires CellPointers(pageData, count, base, 0).Ok? && i < count
    ensures base + 2 * i + 2 <= |pageData|
    ensures CellPointers(pageData, count, base, 0).value[i] == Uint16(pageData[base + 2 * i..base + 2 * i + 2])
  {
  }

  /** The page read for NewTableLeafPage has the page size's length. */
  lemma LeafPageRead(file: seq<byte>, pageSize: nat, pageNumber: int)
    requires LeafPageOf(file, pageSize, pageNumber).Ok?
    ensures var pageData := ReadBTreePage(file, pageSize, pageNumber % TwoTo32);
      pageData.Ok? && |pageData.value| == pageSize &&
      LeafPageOf(file, pageSize, pageNumber) == LeafPageFrom(pageData.value, pageNumber)
  {
  }

  // ---------------------------------------------------------------------------
  // Records of a leaf page (GetRecords, GetRecordsFields)
  // ---------------------------------------------------------------------------

  /** What GetRecords returns for the cells from k on: one record per cell,
      with the cell's rowid and payload and the header NewRecordHeader builds
      from the payload; the first header error aborts. */
  function RecordsFrom(cells: seq<TableLeafCell>, k: nat): Result<seq<Record>>
    requires k <= |cells|
    decreases |cells| - k
  {
    if k == |cells| then Ok([])
    else
      var rec :- CellRecord(cells[k]);
      var rest :- RecordsFrom(cells, k + 1);
      Ok([rec] + rest)
  }

  /** One record of GetRecords: the cell's rowid and payload, and the header
      built from the payload. */
  function CellRecord(cell: TableLeafCell): Result<Record> {
    var header :- HeaderOf(cell.payload);
    Ok(Record(cell.rowId, header, cell.payload))
  }

  function CellRecords(page: TableLeafPage): Result<seq<Record>> {
    RecordsFrom(page.cells, 0)
  }

  method GetRecords(page: TableLeafPage) returns (r: Result<seq<Record>>)
    ensures r == CellRecords(page)
  {
    var cells := page.cells;
    var records := new Record[|cells|](_ => Record(0, RecordHeader([]), Whole([])));
    var i := 0;
    PrependNil(RecordsFrom(cells, 0));
    while i < |cells|
      invariant 0 <= i <= |cells|
      invariant RecordsFrom(cells, 0) == Prepend(records[..i], RecordsFrom(cells, i))
    {
      var header := NewRecordHeader(cells[i].payload);
      if header.Err? {
        return Err(header.error);
      }
      var rec := Record(cells[i].rowId, header.value, cells[i].payload);
      RecordsFromCons(cells, i, rec);
      PrependAssoc(records[..i], [rec], RecordsFrom(cells, i + 1));
      ghost var done := records[..i];
      records[i] := rec;
      assert records[..i + 1] == done + [rec];
      i := i + 1;
    }
    assert records[..] == records[..i] + [];
    return Ok(records[..]);
  }

  lemma RecordsFromCons(cells: seq<TableLeafCell>, k: nat, rec: Record)
    requires k < |cells| && CellRecord(cells[k]) == Ok(rec)
    ensures RecordsFrom(cells, k) == Prepend([rec], RecordsFrom(cells, k + 1))
  {
  }

  /** GetRecords keeps length and order: record j is cell j's record, which
      has the cell's rowid and payload and the header built from the payload. */
  lemma {:induction false} RecordsFromCell(cells: seq<TableLeafCell>, k: nat, j: nat)
    requires k <= j < |cells| && RecordsFrom(cells, k).Ok?
    ensures var rs := RecordsFrom(cells, k).value;
      |rs| == |cells| - k && CellRecord(cells[j]) == Ok(rs[j - k])
    decreases |cells| - k
  {
    var rec := CellRecord(cells[k]).value;
    RecordsFromCons(cells, k, rec);
    if k + 1 < |cells| {
      RecordsFromCell(cells, k + 1, if j == k then k + 1 else j);
    } else {
      assert RecordsFrom(cells, k + 1) == Ok([]);
    }
  }

  /** A failure is the error of the first cell whose header fails. */
  lemma {:induction false} RecordsFromFirstError(cells: seq<TableLeafCell>, k: nat)
    requires k <= |cells| && RecordsFrom(cells, k).Err?
    ensures exists j ::
      k <= j < |cells| && CellRecord(cells[j]) == Err(RecordsFrom(cells, k).error) &&
      (forall j' :: k <= j' < j ==> CellRecord(cells[j']).Ok?)
    decreases |cells| - k
  {
    var c := CellRecord(cells[k]);
    if c.Ok? {
      RecordsFromCons(cells, k, c.value);
      RecordsFromFirstError(cells, k + 1);
      var j :| k + 1 <= j < |cells| && CellRecord(cells[j]) == Err(RecordsFrom(cells, k + 1).error) &&
        (forall j' :: k + 1 <= j' < j ==> CellRecord(cells[j']).Ok?);
      assert forall j' :: k <= j' < j ==> CellRecord(cells[j']).Ok?;
    }
  }

  /** Each record's fields as the filter picks them, in filter order;
      `Fields[f]` out of range panics. */
  function Project(fields: seq<RecordField>, filter: seq<int>): (r: Result<seq<RecordField>>)
  {
    if |filter| == 0 then Ok([])
    else if !(0 <= filter[0] < |fields|) then Err(Panic(IndexOutOfRange))
    else Prepend([fields[filter[0]]], Project(fields, filter[1..]))
  }

  function ProjectRecords(records: seq<Record>, filter: seq<int>): Result<seq<Record>> {
    if |records| == 0 then Ok([])
    else
      var fs :- Project(records[0].header.fields, filter);
      Prepend([Record(records[0].rowId, RecordHeader(fs), records[0].payload)], ProjectRecords(records[1..], filter))
  }

  /** What GetRecordsFields(filter) returns: the records themselves for an
      empty filter, and otherwise the records with projected fields. */
  function FieldRecords(page: TableLeafPage, filter: seq<int>): Result<seq<Record>> {
    var records :- CellRecords(page);
    if |filter| == 0 then Ok(records) else ProjectRecords(records, filter)
  }

  method GetRecordsFields(page: TableLeafPage, filter: seq<int>) returns (r: Result<seq<Record>>)
    ensures r == FieldRecords(page, filter)
  {
    var records :- GetRecords(page);
    if |filter| == 0 {
      return Ok(records);
    }
    var newRecords := new Record[|records|](_ => Record(0, RecordHeader([]), Whole([])));
    var ri := 0;
    PrependNil(ProjectRecords(records, filter));
    while ri < |records|
      invariant 0 <= ri <= |records|
      invariant ProjectRecords(records, filter) == Prepend(newRecords[..ri], ProjectRecords(records[ri..], filter))
    {
      var record := records[ri];
      assert records[ri..][0] == record && records[ri..][1..] == records[ri + 1..];
      var fields := ProjectFields(record.header.fields, filter);
      if fields.Err? {
        ProjectRecordsFails(records[ri..], filter);
        return Err(fields.error);
      }
      var newFields := fields.value;
      var rec := Record(record.rowId, RecordHeader(newFields), record.payload);
      ProjectRecordsCons(records[ri..], filter, newFields);
      PrependAssoc(newRecords[..ri], [rec], ProjectRecords(records[ri + 1..], filter));
      ghost var done := newRecords[..ri];
      newRecords[ri] := rec;
      assert newRecords[..ri + 1] == done + [rec];
      ri := ri + 1;
    }
    assert records[ri..] == [];
    assert newRecords[..] == newRecords[..ri] + [];
    return Ok(newRecords[..]);
  }

  /** GetRecordsFields' inner loop: the fields of one record, in filter order. */
  method ProjectFields(fields: seq<RecordField>, filter: seq<int>) returns (r: Result<seq<RecordField>>)
    ensures r == Project(fields, filter)
  {
    var newFields: seq<RecordField> := [];
    var i := 0;
    PrependNil(Project(fields, filter));
    while i < |filter|
      invariant 0 <= i <= |filter|
      invariant Project(fields, filter) == Prepend(newFields, Project(fields, filter[i..]))
    {
      assert filter[i..][1..] == filter[i + 1..];
      if !(0 <= filter[i] < |fields|) {
        return Err(Panic(IndexOutOfRange));
      }
      PrependAssoc(newFields, [fields[filter[i]]], Project(fields, filter[i + 1..]));
      newFields := newFields + [fields[filter[i]]];
      i := i + 1;
    }
    assert filter[i..] == [] && newFields + [] == newFields;
    return Ok(newFields);
  }

  lemma ProjectRecordsCons(records: seq<Record>, filter: seq<int>, fs: seq<RecordField>)
    requires |records| > 0 && Project(records[0].header.fields, filter) == Ok(fs)
    ensures ProjectRecords(records, filter) ==
      Prepend([Record(records[0].rowId, RecordHeader(fs), records[0].payload)], ProjectRecords(records[1..], filter))
  {
  }

  lemma ProjectRecordsFails(records: seq<Record>, filter: seq<int>)
    requires |records| > 0 && Project(records[0].header.fields, filter).Err?
    ensures ProjectRecords(records, filter) == Err(Project(records[0].header.fields, filter).error)
  {
  }

  /** A projection picks `fields[filter[i]]` at position i, and fails only on
      an index outside the fields. */
  lemma {:induction false} ProjectSpec(fields: seq<RecordField>, filter: seq<int>)
    ensures var r := Project(fields, filter);
      && (r.Ok? <==> forall i :: 0 <= i < |filter| ==> 0 <= filter[i] < |fields|)
      && (r.Ok? ==> |r.value| == |filter| && forall i :: 0 <= i < |filter| ==> r.value[i] == fields[filter[i]])
      && (r.Err? ==> r.error == Panic(IndexOutOfRange))
  {
    if |filter| > 0 && 0 <= filter[0] < |fields| {
      ProjectSpec(fields, filter[1..]);
    }
  }

  /** Projection keeps the records, their order, rowids and payloads. */
  lemma {:induction false} ProjectRecordsSpec(records: seq<Record>, filter: seq<int>)
    requires ProjectRecords(records, filter).Ok?
    ensures var rs := ProjectRecords(records, filter).value;
      |rs| == |records| &&
      forall i :: 0 <= i < |rs| ==>
        rs[i].rowId == records[i].rowId && rs[i].payload == records[i].payload &&
        Project(records[i].header.fields, filter) == Ok(rs[i].header.fields)
  {
    if |records| > 0 {
      ProjectRecordsSpec(records[1..], filter);
    }
  }

  /** An empty filter returns the records unchanged. */
  lemma EmptyFilter(page: TableLeafPage)
    ensures FieldRecords(page, []) == CellRecords(page)
  {
  }
}
