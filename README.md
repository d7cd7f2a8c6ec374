# sqlite-go reader core in Dafny

This project models the read path of `sqlite-go`, a small SQLite file reader
written in Go (packages `db` and `executor`), and proves properties of that model.
The read path covers:

- checking the 100-byte database header and reading pages;
- parsing table leaf pages into cells;
- building records from SQLite serial types;
- decoding fields;
- looking tables up in the `sqlite_master` catalog;
- executing a parsed `SELECT` over the joined tables, with the `COUNT(*)` shortcut;
- printing the resulting rows.

The model reproduces the code, including where it departs from the SQLite
Database File Format:

- Varints have at most 8 groups, least significant group first, and the 9-byte form is not recognised.
- Serial type 4 has width 3, type 5 has width 4, and type 3 is rejected.
- Wide integers are read through a 16-bit big-endian word: Int16 through Int64 and Float64 fields take the value of the first two bytes of their window (RecordCodec.FixedWidthValue).
- A page size of 1 is not mapped to 65536.
- The page-1 shift of 100 is applied to the cell count and the pointer array in `NewTableLeafPage`, but to the pointer values in `ParseRecords`.

Modelling choices:

- **The file** is the sequence of its bytes. `ReadAt` fails on a negative offset or a short read.
- **Go slices** are views `(backing, start, end)`. Reslicing is checked against the capacity, as Go does, so spare capacity left by `cellData[n:size+1]` can be reached later.
- **Panics are errors.** Runtime panics (index or slice out of range, a failed type assertion) and `NewRecordHeader`'s endless loop are modelled as `Panic` errors. Code that softens ordinary errors still passes these on.
- **Integer widths** are written out:
  - the `uint16` offsets and pointers wrap modulo 2^16;
  - the `uint64` running offset wraps modulo 2^64;
  - the `int32` conversion of a serial type keeps the low 32 bits;
  - `int8` reads a byte as a two's-complement number.
- **Strings are Go byte strings.** A Dafny `string` stands for a Go string, one character per byte with the same code (`AsString` in base.dfy). Table names, the names in `FindTablePage` and `FindTableSchema`, the `JoinTables` entries and the `SelectFieldExpression` names therefore compare byte by byte, as Go's `==` on strings does.
- **Loops proved against specifications.** Each Go loop is a Dafny `method` with a `while` loop, proved equal to a specification function. The properties are then proved about that function.

Modules follow the source files:

| file | module | source |
|---|---|---|
| base.dfy | `Base` | results, errors and Go slices |
| go_binary.dfy | `GoBinary` | `binary.BigEndian.Uint16` and `binary.Uvarint` |
| record.dfy | `RecordCodec` | db/record.go |
| pager.dfy | `Pager` | db/pager.go |
| table_schema.dfy | `TableSchema` | db/table_schema.go |
| storage.dfy | `Storage` | db/storage.go |
| db_tuple.dfy | `DbTuple` | db/tuple.go |
| query.dfy | `Query` | the parsed-query types of executor/sql.go |
| text.dfy | `Text` | `%v` of integers, joining, line counting |
| exec_tuple.dfy | `ExecTuple` | executor/tuple.go |
| select_query.dfy | `SelectQuery` | executor/select_query.go |

## Model

| member | source | states |
|---|---|---|
| GoBinary.UvarintSpec | db/record.go:60-69 | Covers `binary.Uvarint` as NewRecordHeader calls it. A positive count ends at the first byte with a clear high bit, and the value is the groups of those bytes, low group first. A count of 0 means the buffer (at most 10 bytes) holds only continuation bytes. A count of -11 means 10 continuation bytes; -10 means an overflowing tenth byte. |
| GoBinary.Uint16 | db/record.go:26-36 | `binary.BigEndian.Uint16` of the first two bytes is below 2^16. |
| RecordCodec.ReadVarintAt | db/record.go:221-247 | The loop's bytes read, value and status are exactly those of the specification `Varint`. |
| RecordCodec.Varint | db/record.go:227-246 | At most 8 bytes are read, and never past the end of the buffer. |
| RecordCodec.VarintSpec | db/record.go:228-246 | The value is the sum of the 7-bit groups, byte i contributing its group shifted by 7i. A complete read ends at the first byte with a clear high bit. "Too long" holds exactly when 8 continuation bytes are available. "Buffer too small" means the buffer ended first, with bytesRead equal to the bytes consumed. |
| RecordCodec.VarintFromValue | db/record.go:233-238 | The loop's value from byte i on is the groups of the bytes it consumed. |
| RecordCodec.VarintFromComplete | db/record.go:240-242 | A complete read stops at the first clear high bit. |
| RecordCodec.VarintFromTooLong | db/record.go:228-246 | The read is too long exactly when bytes i..7 exist and are all continuation bytes. |
| RecordCodec.VarintFromShort | db/record.go:229-231 | "Buffer too small" happens only when the buffer ends before 8 bytes, on continuation bytes only. |
| RecordCodec.VarintStep | db/record.go:233-238 | One continuation byte moves its group into the accumulated result. |
| RecordCodec.ReadingEnds | db/record.go:229-246 | When the bytes or the 8 groups run out, the loop's state is the final read: too long after 8 bytes, buffer too small otherwise. |
| RecordCodec.EncodeVarintShape | db/record.go:240 | Every byte of an encoding but the last is a continuation byte. |
| RecordCodec.EncodeVarintValue | db/record.go:235 | The groups of an encoding add up to the encoded value. |
| RecordCodec.EncodeVarintLength | db/record.go:228 | A value below 128^k encodes in at most k bytes. |
| RecordCodec.VarintRoundTrip | db/record.go:221-247 | Decoding the encoding of any value below 2^56 gives the value back, complete, with bytesRead equal to the encoding's length, whatever bytes follow. |
| RecordCodec.FieldOfSerialType | db/record.go:75-105 | The serial-type switch fails exactly for 3, 10 and 11, after truncation to 32 bits. |
| RecordCodec.SerialTypeWidths | db/record.go:76-101 | The width table: 0→Null/0, 1→Int8/1, 2→Int16/2, 4→Int32/3, 5→Int48/4, 6→Int64/8, 7→Float64/8, 8→Zero/0, 9→One/0, even N≥12 a Blob of (N−12)/2 bytes, odd N≥13 a String of (N−13)/2 bytes. |
| RecordCodec.TruncatedSerialType | db/record.go:75 | The switch is on the low 32 bits: 2^32+1 reads as an Int8 of one byte, while 2^32+12 stays a Blob sized from the full value. |
| RecordCodec.NextField | db/record.go:69-71 | One loop turn consumes at least one byte and never more than the data holds. |
| RecordCodec.NewRecordHeader | db/record.go:59-120 | The loop's result is exactly the specification `HeaderOf` of the payload. |
| RecordCodec.EntriesStops | db/record.go:69-104 | The loop stops early in three ways. A negative varint count panics on `data[at:]`. A zero count loops forever. An unsupported serial type returns its error. |
| RecordCodec.EntriesAdvance | db/record.go:69-113 | A turn that decodes a supported serial type prepends its field to the fields of the remaining data. |
| RecordCodec.EntriesFollowSerialTypes | db/record.go:68-115 | The header fields decode exactly when the data tiles into complete serial-type varints that are all supported. Then there is one entry per varint, carrying that serial type's type and width. |
| RecordCodec.EntriesCons | db/record.go:69-105 | Entries and serial types after one varint, with the error case. |
| RecordCodec.LayoutSnoc | db/record.go:107-113 | Appending an entry appends a field at the current uint64 offset stored as uint16. The offset then advances by the width modulo 2^64. |
| RecordCodec.LayoutFirst | db/record.go:64-108 | The first field's offset is the header length, as uint16. |
| RecordCodec.LayoutEntries | db/record.go:107-111 | Field i is numbered i in header order and has entry i's type and width. |
| RecordCodec.LayoutChain | db/record.go:108-113 | Each offset is the previous offset plus the previous width, in uint16 arithmetic. |
| RecordCodec.OffsetStep | db/record.go:108-113 | Advancing the uint64 offset and then truncating to uint16 is the same as uint16 addition. |
| RecordCodec.HeaderRegion | db/record.go:60-63 | An accepted header satisfies varint size ≤ header length ≤ the payload's capacity. |
| RecordCodec.HeaderLayout | db/record.go:59-120 | An accepted header's fields are laid out from the header length on, one per serial type in bytes [varint size, header length). |
| RecordCodec.AsInt8 | db/record.go:24 | `int8(b)` lies in [-128, 128) and is congruent to b modulo 256. |
| RecordCodec.WindowEnd | db/record.go:24-36 | A uint16 window end wraps below its start exactly when the window passes offset 65535. |
| RecordCodec.FieldData | db/record.go:18-53 | An index outside the fields panics, and only then. A decoded datum has the field's type. The non-panic error ("unimplemented") occurs exactly for Zero and One. The values of fixed-width fields are those of RecordCodec.FixedWidthValue. |
| RecordCodec.FixedWidthValue | db/record.go:23-37 | A fixed-width field whose window ends below 65536 and fits the payload's capacity decodes. An Int8 is its byte in two's complement; every wider type, Float64 included, is the big-endian word of the window's first two bytes. |
| RecordCodec.FixedWidthOverflow | db/record.go:23-37 | A fixed-width field whose window ends below 65536 but past the payload's capacity panics with a slice out of range. |
| RecordCodec.WordValue | db/record.go:26-36 | The 16-bit word of a window ending below 65536 is read exactly when the window fits the capacity. It is the big-endian value of the window's first two bytes, and otherwise the read panics. |
| RecordCodec.VariableFieldBytes | db/record.go:38-49 | A String or Blob field that is not last decodes to the `size` bytes at its offset. The last field runs to the end of the payload, whatever its size. |
| RecordCodec.VariableBytesShape | db/record.go:39-47 | A String or Blob field's offset lies inside the payload. A non-last field gets exactly `size` bytes, and the last field gets the rest of the payload. |
| RecordCodec.StringBytes | db/record.go:43 | `string(data)` keeps every byte: converting back gives the bytes. |
| RecordCodec.FixedWidthWraps | db/record.go:23-37 | A fixed-width field whose window would pass offset 65535 panics, because the uint16 end wraps below the start. |
| RecordCodec.WordWraps | db/record.go:26-36 | The 16-bit word of a window that wraps past 65535 panics. |
| RecordCodec.CellPointers | db/record.go:178-184 | Reading the `count` pointers succeeds exactly when the array fits the page. Pointer i is then the big-endian word at base+2i less the shift, in uint16 arithmetic. |
| RecordCodec.ReadCellPointers | db/record.go:177-184 | The pointer loop gives exactly `CellPointers`. |
| RecordCodec.InBoundsFilters | db/record.go:188-190 | The pointers kept are exactly those below the page length. |
| RecordCodec.CellAt | db/record.go:193-204 | A cell's payload is a view of the page from after its two varints to the page's end. |
| RecordCodec.WithHeader | db/record.go:207-213 | The header error is dropped: the record keeps its rowid and payload, with an empty header. Only a panic gets through. |
| RecordCodec.ParseRecords | db/record.go:147-219 | The method's result is exactly the specification `ParseRecordsOf`. |
| RecordCodec.ReadCell | db/record.go:193-215 | One loop body gives exactly the record at the pointer. |
| RecordCodec.ReadCellVarints | db/record.go:195-204 | The two varint reads give exactly `CellAt`. |
| RecordCodec.CellAtIs | db/record.go:195-204 | When both varints are complete, the rowid is the second varint and the payload starts after both. |
| RecordCodec.RecordsAtSkip | db/record.go:188-190 | An out-of-bounds pointer is skipped. |
| RecordCodec.RecordsAtCons | db/record.go:209-215 | An in-bounds pointer prepends its record. |
| RecordCodec.RecordsAtFails | db/record.go:196-204 | A varint error at an in-bounds pointer aborts with that error. |
| RecordCodec.RecordsCount | db/record.go:187-216 | There is one record per in-bounds pointer. |
| RecordCodec.RecordsFollowPointers | db/record.go:187-216 | Record i is the record of the i-th in-bounds pointer, so the records come in pointer order. |
| RecordCodec.PageOnePointerWraps | db/record.go:172-184 | A page-1 pointer below 100 wraps to ptr + 65536 − 100. |
| RecordCodec.ParseRecordsShape | db/record.go:151-184 | An accepted page has at least 5 bytes and type byte 13. Its records are those of the pointer array at 8, with the count taken from [3, 5) and 100 subtracted on page 1. There are never more records than the count. |
| Pager.ReadAt | db/pager.go:14-17 | A read succeeds exactly when the offset is non-negative and the bytes lie in the file. It then returns exactly those bytes. |
| Pager.DatabaseHeaderSpec | db/pager.go:12-39 | The header is accepted exactly when the file has 100 bytes starting with "SQLite format 3\0". Otherwise it fails with the read error or "invalid". The page size is byte16·256 + byte17, with no special case for 1. |
| Pager.ReadBTreePage | db/pager.go:187-198 | A page read returns exactly pageSize bytes. |
| Pager.PageBounds | db/pager.go:187-198 | Page n ≥ 1 is bytes [(n−1)·pageSize, n·pageSize) of the file, and page 1 starts at 0. Page 0 can only be read with a page size of 0. |
| Pager.NewTableLeafPage | db/pager.go:64-131 | The method's result is exactly the specification `LeafPageOf`. |
| Pager.ReadCells | db/pager.go:103-128 | The cell loop gives exactly `CellsAt`. |
| Pager.ReadLeafCell | db/pager.go:109-127 | One loop body gives exactly `LeafCellAt`. |
| Pager.LeafCellShape | db/pager.go:111-127 | Size is the first varint and rowid the second. The payload runs from after the rowid to index size+1, counted from after the size varint, and fits the page. Its spare capacity runs to the page end. |
| Pager.LeafCellAtIs | db/pager.go:111-120 | With both varints complete, the cell is cut at `cellData[n:size+1]`. |
| Pager.CellsAtCons | db/pager.go:123-127 | An in-bounds pointer with a good cell prepends that cell. |
| Pager.CellsAtFails | db/pager.go:111-119 | A varint or slice error at an in-bounds pointer aborts. |
| Pager.CellsCount | db/pager.go:103-106 | There is one cell per in-bounds pointer, so never more cells than pointers. |
| Pager.CellsFollowPointers | db/pager.go:103-128 | Cell i is the cell of the i-th in-bounds pointer. |
| Pager.LeafPageShape | db/pager.go:70-101 | The count comes from [3, 5), or [103, 105) on page 1. The pointers are the words from offset 8 (108 on page 1), unshifted. The cells follow the in-bounds pointers, at most count of them. The page number is kept as uint16, and the type is 13. |
| Pager.LeafPagePointers | db/pager.go:92-100 | Pointer i is the big-endian word at base + 2i, as stored. |
| Pager.LeafPageRead | db/pager.go:65-68 | The page is the uint32 page number's read of pageSize bytes. |
| Pager.GetRecords | db/pager.go:133-147 | The loop gives exactly `CellRecords`. |
| Pager.RecordsFromCons | db/pager.go:135-144 | A cell whose header decodes prepends its record. |
| Pager.RecordsFromCell | db/pager.go:133-147 | Length and order are kept. Record j has cell j's rowid and payload, and the header built from that payload. |
| Pager.RecordsFromFirstError | db/pager.go:136-139 | A failure is the header error of the first cell that fails. |
| Pager.GetRecordsFields | db/pager.go:151-172 | The loop gives exactly `FieldRecords`. |
| Pager.ProjectFields | db/pager.go:164-168 | The inner loop gives exactly `Project`. |
| Pager.ProjectRecordsCons | db/pager.go:163-170 | A record whose projection succeeds keeps its rowid and payload, with the projected fields. |
| Pager.ProjectRecordsFails | db/pager.go:166 | An out-of-range filter index panics. |
| Pager.ProjectSpec | db/pager.go:164-167 | The projection succeeds exactly when every filter index is in range. Position i is then `Fields[filter[i]]`; otherwise it panics with index out of range. |
| Pager.ProjectRecordsSpec | db/pager.go:162-171 | Projection keeps the records, their order, rowids and payloads. Each record's fields are its projection. |
| Pager.EmptyFilter | db/pager.go:157-160 | An empty filter returns GetRecords' result unchanged. |
| TableSchema.HasPrimaryKey | db/table_schema.go:36-38 | True exactly when the primary key differs from the zero `TableColumnInfo`. |
| TableSchema.ColumnIndex | db/table_schema.go:24-34 | The nested loops give exactly `ColumnIndexes`. |
| TableSchema.MatchesRepeat | db/table_schema.go:27-31 | The inner loop adds a column's index once for each request of its name. |
| TableSchema.IndexesRepeated | db/table_schema.go:24-34 | The result is in column order, and each index is repeated as often as its name is requested. |
| TableSchema.RequestOrderIrrelevant | db/table_schema.go:24-34 | Two requests with the same names and multiplicities give the same indexes. |
| TableSchema.UnknownNameIgnored | db/table_schema.go:28 | Requesting a name no column has changes nothing. |
| TableSchema.RepeatedIgnores | db/table_schema.go:28 | Adding a name no column has to the multiset changes nothing. |
| TableSchema.EmptyRequest | db/table_schema.go:24-34 | An empty request gives no indexes. |
| TableSchema.MatchesMembers | db/table_schema.go:27-31 | A column's index is among its matches exactly when its name is requested. |
| TableSchema.IndexesMembers | db/table_schema.go:24-34 | An index is returned exactly when some column with that index has a requested name. |
| TableSchema.IndexesLength | db/table_schema.go:24-34 | The number of indexes is the number of (column, request) pairs whose names agree. |
| Storage.NewDB | db/storage.go:14-21 | The handle exists exactly when the header is accepted. It keeps the file, the header bytes and the big-endian page size; otherwise it returns the header error. |
| Storage.FindSQLiteMaster | db/storage.go:23-29 | The catalog is the leaf page read as page 1. |
| Storage.FindPageID | db/storage.go:31-37 | Page id n is the leaf page read as page n. |
| Storage.MasterPageShape | db/storage.go:23-29 | The catalog page is the first pageSize bytes (at least 105), numbered 1. Its count is big-endian bytes 103 and 104 of the file. |
| Storage.ColumnAt | db/storage.go:52-95 | Entry i of the scanned column is FieldData of record i. |
| Storage.ColumnFindsNoTable | db/storage.go:52-55 | FieldData never reports a missing table. |
| Storage.Scan | db/storage.go:51-76 | A scan that finds an index finds one whose field is the String name. |
| Storage.StopErrorOfRecord | db/storage.go:52-59 | A scan stops without a match on the field's own error, or with "invalid field type" for a non-String field. |
| Storage.ScanSkips | db/storage.go:51-74 | Records whose field is a String other than the name do not change where the scan ends. |
| Storage.ScanStops | db/storage.go:51-74 | The scan ends at the first record not passed over: with its index on a match, with its error otherwise. Later records are never looked at. |
| Storage.ScanPassesAll | db/storage.go:76 | A scan that passes every record reports table not found. |
| Storage.ScanNotFound | db/storage.go:51-76 | "Table not found" is returned exactly when every record's field is a String other than the name. |
| Storage.RootPage | db/storage.go:62-67 | `pageNumber.(int8)` succeeds exactly on an int8 datum. An error passes through, and any other datum fails the type assertion. |
| Storage.RootPageOfRecord | db/storage.go:62-67 | The root page is read only from an Int8 field, so it lies in [-128, 127]. A wider serial type panics. |
| Storage.FindTablePage | db/storage.go:39-77 | The loop gives exactly `TablePage`. |
| Storage.OpenRootPage | db/storage.go:62-71 | A matched record opens the leaf page at its int8 root page. |
| Storage.TablePageFirstMatch | db/storage.go:51-72 | The page returned is the root page of the first record whose tbl_name is the name. |
| Storage.TablePageStops | db/storage.go:52-59 | A tbl_name that fails or is not a String, before any match, ends the search with that error. |
| Storage.TablePageNotFound | db/storage.go:76 | A name no record has in tbl_name gives "table not found". |
| Storage.Seed | db/storage.go:113-138 | The seeded schema has exactly PageID and RawSQL set. |
| Storage.SchemaOf | db/storage.go:104-126 | The sql field's error wins over the rootpage field's error. A non-int8 root page or a non-string sql field panics. Otherwise the schema is the parse of the seeded schema. |
| Storage.FindTableSchema | db/storage.go:79-132 | The method gives exactly `TableSchemaOf`. |
| Storage.SchemaFrom | db/storage.go:104-128 | The work on the matched record gives exactly `SchemaOf`. |
| Storage.MasterSchemaNoScan | db/storage.go:81-151 | "sqlite_master" gives the fixed schema seeded with PageID 1, the same for any file. |
| Storage.TableSchemaFirstMatch | db/storage.go:94-129 | Other names are matched on the name field. The first match's schema comes from its sql and rootpage fields. |
| Storage.SchemaSeed | db/storage.go:113-116 | For a String sql and Int8 rootpage, PageID comes from field 3 and RawSQL from field 4. |
| Storage.TableSchemaStops | db/storage.go:95-101 | A name field that fails or is not a String, before any match, ends the search with that error. |
| Storage.TableSchemaNotFound | db/storage.go:131 | A name no record has gives "table not found". |
| DbTuple.RecordsToRows | db/tuple.go:43-74 | The loops give exactly `RowsFrom`. |
| DbTuple.RecordTuples | db/tuple.go:47-70 | The inner loop gives exactly the record's row outcome. |
| DbTuple.DecodedAt | db/tuple.go:48 | Entry i of the decoded fields is FieldData(i). |
| DbTuple.FieldTupleValue | db/tuple.go:52-69 | A decoded field's type assertion never fails, and the field adds one tuple for Null, Int8, Int64 and String, none otherwise. A Null becomes Int64(rowid) when it is the primary key (HasPrimaryKey and FieldIdx == PrimaryKey.Idx), and a NULL tuple otherwise. Int8, Int64 and String keep their kind and value. |
| DbTuple.DecodedAssertionsHold | db/tuple.go:61-66 | Every decoded field of every record passes its type assertion. |
| DbTuple.RowOfOutcome | db/tuple.go:47-51 | A record gives a row exactly when every field decodes. A stop comes from a non-panic FieldData error, a panic from a panicking field. |
| DbTuple.RowOfTuple | db/tuple.go:47-70 | A row holds one tuple per kept field, in field order. |
| DbTuple.RowTuples | db/tuple.go:47-70 | A record's row holds one tuple per Null/Int8/Int64/String field, in field order, each that field's tuple. |
| DbTuple.RowsFromRows | db/tuple.go:45-73 | There is one row per record, in order, up to the first record that stops. The rows end there, with a nil error. |
| DbTuple.RowsFromPanics | db/tuple.go:43-74 | The conversion fails only with the panic of some field of some record. |
| DbTuple.RowsString | db/tuple.go:76-108 | The builder's text is exactly `RowsText`: the header, a break, then the lines. |
| DbTuple.WriteHeader | db/tuple.go:79-92 | The header loop writes exactly the labels. |
| DbTuple.WriteRow | db/tuple.go:95-104 | The row loop writes exactly the row's cells. |
| DbTuple.CellText | db/tuple.go:96-103 | A value writes "NULL" or its `%v`, then ", " unless it is last. |
| DbTuple.LabelsAt | db/tuple.go:80-91 | Label i is field i's label: an aggregate's name, or the name followed by ", " unless last. |
| DbTuple.CellsAt | db/tuple.go:95-104 | Cell j is value j's cell. |
| DbTuple.LinesAt | db/tuple.go:94-106 | Line k is row k's line. |
| DbTuple.ValuesAt | db/tuple.go:96-100 | Value j's text is "NULL" for a NULL tuple and its `%v` otherwise. |
| DbTuple.RowLine | db/tuple.go:94-106 | A non-empty row's line is its values joined with ", ", then "\n". |
| DbTuple.NamesAt | db/tuple.go:84-88 | Name i is "table.col" when the table is set, and "col" otherwise. |
| DbTuple.HeaderJoins | db/tuple.go:79-92 | Without aggregates, the header is the qualified names joined with ", ". |
| DbTuple.LineCount | db/tuple.go:76-108 | When no name or string holds a break, the text has exactly one break per row plus the header's, and ends with a break. |
| DbTuple.LineOneLine | db/tuple.go:94-106 | A row's line holds exactly one break when its strings hold none. |
| DbTuple.HeaderOneLine | db/tuple.go:79-92 | The header holds no break when the names hold none. |
| ExecTuple.RecordsToRows | executor/tuple.go:39-62 | The loops give exactly `RowsFrom`. |
| ExecTuple.RecordTuples | executor/tuple.go:43-58 | The inner loop gives exactly the record's row outcome. |
| ExecTuple.FieldTupleValue | executor/tuple.go:48-57 | The type assertions never fail. Int8, Int64 and String fields add one tuple of the same kind and value. Other fields, NULL included, add none. |
| ExecTuple.DecodedAssertionsHold | executor/tuple.go:49-54 | Every decoded field passes its type assertion. |
| ExecTuple.RowOfOutcome | executor/tuple.go:43-47 | A record gives a row exactly when every field decodes. A stop comes from a non-panic error, a panic from a panicking field. |
| ExecTuple.RowTuples | executor/tuple.go:43-58 | A row holds one tuple per Int8/Int64/String field, in field order, each that field's tuple. |
| ExecTuple.RowsFromRows | executor/tuple.go:41-61 | There is one row per record, in order, up to the first record that stops, with a nil error. |
| ExecTuple.RowsFromPanics | executor/tuple.go:39-62 | The conversion fails only with a field's panic. |
| ExecTuple.RowsString | executor/tuple.go:64-85 | The builder's text is exactly `RowsText`. |
| ExecTuple.WriteHeader | executor/tuple.go:66-76 | The header loop writes exactly the labels. |
| ExecTuple.WriteLabel | executor/tuple.go:67-75 | One pass writes an aggregate's name, or the column name qualified by its table. |
| ExecTuple.WriteRow | executor/tuple.go:79-81 | The row loop writes exactly the values' texts, with no separator. |
| ExecTuple.LabelsAreNames | executor/tuple.go:66-76 | Without aggregates, the labels are the qualified names. |
| ExecTuple.HeaderIsNames | executor/tuple.go:66-76 | Without aggregates, the header is the qualified names run together with no separator. |
| ExecTuple.LineCount | executor/tuple.go:64-85 | When no name or string holds a break, the text has one break per row plus the header's, and ends with a break. |
| ExecTuple.LineOneLine | executor/tuple.go:78-83 | A row's line holds exactly one break when its strings hold none. |
| Query.AggName | executor/sql.go:52-62 | `AggregationType.String()` is "count" exactly for COUNT and "unknown" otherwise. |
| Text.DecimalRoundTrip | db/tuple.go:99 | `%v` of an integer reads back as the integer, with no leading zero. |
| SelectQuery.ExecuteSelectQuery | executor/select_query.go:8-60 | The method gives exactly `SelectResult`. |
| SelectQuery.CollectRecords | executor/select_query.go:18-40 | The JoinTables loop gives exactly `Joined`. |
| SelectQuery.ReadTable | executor/select_query.go:19-39 | One pass gives exactly that table's records: page 1 for sqlite_master, the catalog's page otherwise. |
| SelectQuery.AnswerFrom | executor/select_query.go:42-59 | The end of the method gives exactly `Answer`. |
| SelectQuery.ResultsAt | executor/select_query.go:18-40 | Result t is the read of table t. |
| SelectQuery.FlattenAborts | executor/select_query.go:20-38 | Once one table fails, the whole collection fails with its error. |
| SelectQuery.FlattenFails | executor/select_query.go:18-40 | The collection fails exactly when some table fails, with the first failure's error. |
| SelectQuery.FlattenAppend | executor/select_query.go:28-39 | Two lists of results flatten to the first list's records followed by the second's. |
| SelectQuery.CollectedAppend | executor/select_query.go:18-40 | Collecting first + second gives first's records followed by second's. A failure in first is reported before second is read. |
| SelectQuery.CollectedOne | executor/select_query.go:18-40 | One table collected alone gives its own records. |
| SelectQuery.CollectedFails | executor/select_query.go:18-40 | Collecting fails exactly when some table's read fails, with the first failing table's error. |
| SelectQuery.MasterBypassesCatalog | executor/select_query.go:19-29 | sqlite_master is read from page 1, even when the catalog lookup itself would report table not found. |
| SelectQuery.CountAllRow | executor/select_query.go:47-56 | With COUNT(*) selected, the other expressions do not matter. The result is exactly one row holding Int64(number of collected records). |
| SelectQuery.OtherFieldsFallThrough | executor/select_query.go:42-59 | Without COUNT(*), the result is RecordsToRows of the collected records, whatever the select list. |
| SelectQuery.BadFileFails | executor/select_query.go:9-12 | A file whose header is rejected gives the header's error. |

## Left out

- The command-line program (`cmd/cli`), the stale `app` package and the SQL front end (`sql/*`): not modelled.
- `ExtractQueryInfo` and `RootSQLVisitor` in executor/sql.go are not modelled. They walk a parse tree through code that is not available, so a query arrives as an already parsed `QueryInfo`.
- `sql.Parse` and `TableSchemaVisitor` in db/storage.go are a function parameter `visit` from the seeded schema to a result. What the parser extracts from a CREATE statement is not modelled.
- The file is the sequence of its bytes, and `ReadAt` is the only I/O. Files that change while they are read, and operating-system errors, are not modelled.
- `fmt.Printf` of the page in ParseRecords and `log.Printf` in RecordsToRows only print, and are left out.
- `math.Float64frombits` is not modelled. A Float64 field is kept as the 16-bit word it is built from, since floating point is outside the model.
- The records slice that ParseRecords returns beside an error is not modelled; the model returns the error alone. RecordsToRows' rows-so-far with a nil error are modelled, since they are its result.
- `%v` is modelled only for the values the rows can hold: integers and strings.
- Storage.TablePageNotFound: states one direction, "no record matches ⇒ table not found", at the level of the catalog columns. Storage.ScanNotFound states the if-and-only-if for the scan itself.
- Storage.TableSchemaNotFound: states one direction, "no record matches ⇒ table not found". Storage.ScanNotFound states the if-and-only-if for the scan.
- RecordCodec.VariableFieldBytes: states the exact-size case for a non-last field only when `offset + size < 2^64`. A larger end wraps in the source's uint64 arithmetic, and the lemma says nothing about the bytes in that case. RecordCodec.VariableBytesShape has the same limit.
- db/tuple.go reads `Fields[i].FieldIdx`, which the shown `RecordField` does not declare. The model adds `fieldIdx` as the field's position in header order, set by NewRecordHeader and kept by GetRecordsFields' projection.
- The `SelectFieldExpression` that db/tuple.go prints is not shown in the db package. It is taken to have the executor's shape: aggregate flag, aggregation type, table and column names.
- Root pages are read only through `pageNumber.(int8)`, as the source does. A catalog entry whose root page needs a wider serial type fails the type assertion, and tables beyond page 127 cannot be reached.
- `binary.Uvarint` is modelled from its documented behaviour in Go's standard library, as a function; its source is not part of this model.
- Declaration-only files (db/type.go, executor/table_schema.go, constant/sqlite.go) contribute types and the magic string "SQLite format 3\0" only.
