/** db/record.go: the varint reader, the record header built from serial
    types, field decoding, and the record list of a table leaf page. */
module RecordCodec {
  import opened Base
  import opened GoBinary

  // ---------------------------------------------------------------------------
  // Varints (ReadVarintAt)
  // ---------------------------------------------------------------------------

  datatype VarintStatus = Complete | BufferTooSmall | TooLong

  datatype VarintRead = VarintRead(bytesRead: nat, value: nat, status: VarintStatus)

  function VarintError(status: VarintStatus): Error {
    if status == TooLong then VarintTooLong else VarintBufferTooSmall
  }

  /** The bytes of `buffer` from `offset` on; none when offset is past the end. */
  function From(buffer: seq<byte>, offset: nat): seq<byte> {
    if offset <= |buffer| then buffer[offset..] else []
  }

  lemma FromAt(buffer: seq<byte>, offset: nat, k: nat)
    requires offset + k < |buffer|
    ensures k < |From(buffer, offset)| && From(buffer, offset)[k] == buffer[offset + k]
  {
  }

  /** What ReadVarintAt(buffer, offset) returns. Groups are accumulated least
      significant first, at most 8 of them, and the 9-byte form of the SQLite
      format is not recognised. */
  function Varint(buffer: seq<byte>, offset: nat): (r: VarintRead)
    ensures r.bytesRead <= 8 && r.bytesRead <= |From(buffer, offset)|
  {
    VarintFrom(From(buffer, offset), 0)
  }

  /** ReadVarintAt's loop from the i-th byte of w on; the value is that of the
      groups from i on. */
  function VarintFrom(w: seq<byte>, i: nat): (r: VarintRead)
    requires i <= 8 && i <= |w|
    ensures i <= r.bytesRead <= 8 && r.bytesRead <= |w|
    decreases 8 - i
  {
    if i == 8 then VarintRead(8, 0, TooLong)
    else if i == |w| then VarintRead(i, 0, BufferTooSmall)
    else if w[i] < 128 then VarintRead(i + 1, w[i] as nat, Complete)
    else
      var r := VarintFrom(w, i + 1);
      VarintRead(r.bytesRead, Low7(w[i]) + 128 * r.value, r.status)
  }

  /** The value read from w[i..] is that of the groups consumed. */
  lemma {:induction false} VarintFromValue(w: seq<byte>, i: nat)
    requires i <= 8 && i <= |w|
    ensures VarintFrom(w, i).value == Groups(w[i..VarintFrom(w, i).bytesRead])
    decreases 8 - i
  {
    if i < 8 && i < |w| {
      if w[i] < 128 {
        assert w[i..i + 1] == [w[i]];
      } else {
        VarintFromValue(w, i + 1);
        var g := w[i..VarintFrom(w, i + 1).bytesRead];
        assert g[1..] == w[i + 1..VarintFrom(w, i + 1).bytesRead];
      }
    }
  }

  /** A complete varint ends at the first byte from i on whose high bit is clear. */
  lemma {:induction false} VarintFromComplete(w: seq<byte>, i: nat)
    requires i <= 8 && i <= |w|
    ensures var r := VarintFrom(w, i);
      r.status == Complete ==>
        i < r.bytesRead && w[r.bytesRead - 1] < 128 &&
        forall j :: i <= j < r.bytesRead - 1 ==> w[j] >= 128
    decreases 8 - i
  {
    if i < 8 && i < |w| && w[i] >= 128 {
      VarintFromComplete(w, i + 1);
    }
  }

  /** The read is too long exactly when bytes i..7 all exist and are
      continuation bytes. */
  lemma {:induction false} VarintFromTooLong(w: seq<byte>, i: nat)
    requires i <= 8 && i <= |w|
    ensures VarintFrom(w, i).status == TooLong <==> 8 <= |w| && forall j :: i <= j < 8 ==> w[j] >= 128
    decreases 8 - i
  {
    if i < 8 && i < |w| && w[i] >= 128 {
      VarintFromTooLong(w, i + 1);
    }
  }

  /** The read runs out of buffer when the buffer ends before a byte with a
      clear high bit and before the eighth byte. */
  lemma {:induction false} VarintFromShort(w: seq<byte>, i: nat)
    requires i <= 8 && i <= |w|
    ensures VarintFrom(w, i).status == BufferTooSmall ==>
      VarintFrom(w, i).bytesRead == |w| < 8 && forall j :: i <= j < |w| ==> w[j] >= 128
    decreases 8 - i
  {
    if i < 8 && i < |w| && w[i] >= 128 {
      VarintFromShort(w, i + 1);
    }
  }

  /** The value is the groups read; a complete varint ends at the first byte
      with a clear high bit; it is too long exactly when eight continuation
      bytes are available, and the buffer is too small when it ends first. */
  lemma VarintSpec(buffer: seq<byte>, offset: nat)
    ensures var r, w := Varint(buffer, offset), From(buffer, offset);
      && r.value == Groups(w[..r.bytesRead])
      && (r.status == Complete ==>
            r.bytesRead >= 1 && w[r.bytesRead - 1] < 128 &&
            forall j :: 0 <= j < r.bytesRead - 1 ==> w[j] >= 128)
      && (r.status == TooLong <==> 8 <= |w| && forall j :: 0 <= j < 8 ==> w[j] >= 128)
      && (r.status == BufferTooSmall ==>
            r.bytesRead == |w| < 8 && forall j :: 0 <= j < |w| ==> w[j] >= 128)
  {
    var w := From(buffer, offset);
    VarintFromValue(w, 0);
    VarintFromComplete(w, 0);
    VarintFromTooLong(w, 0);
    VarintFromShort(w, 0);
    assert w[0..Varint(buffer, offset).bytesRead] == w[..Varint(buffer, offset).bytesRead];
  }

  /** One continuation byte moves its group from the rest of the run into the
      accumulated value. */
  lemma VarintStep(w: seq<byte>, i: nat, acc: nat)
    requires i < 8 && i < |w| && w[i] >= 128
    ensures var r, r1 := VarintFrom(w, i), VarintFrom(w, i + 1);
      VarintRead(r.bytesRead, acc + Shift(r.value, i), r.status)
        == VarintRead(r1.bytesRead, acc + Shift(Low7(w[i]), i) + Shift(r1.value, i + 1), r1.status)
  {
    var r1 := VarintFrom(w, i + 1);
    ShiftAdd(Low7(w[i]), 128 * r1.value, i);
    ShiftUp(r1.value, i);
  }

  method ReadVarintAt(buffer: seq<byte>, offset: nat) returns (bytesRead: nat, value: nat, status: VarintStatus)
    ensures VarintRead(bytesRead, value, status) == Varint(buffer, offset)
  {
    var size: nat := 0;
    var result: nat := 0;
    var at := offset;
    ghost var w := From(buffer, offset);
    while size < 8
      invariant size <= 8 && at == offset + size && size <= |w|
      invariant Reading(w, size, result)
    {
      if at >= |buffer| {
        ReadingEnds(w, size, result);
        return size, result, BufferTooSmall;
      }
      var byteVal := buffer[at];
      FromAt(buffer, offset, size);
      var dataBits := Low7(byteVal);
      // `result |= dataBits << (7 * size)`: result < 2^(7*size), so the OR is a sum.
      if byteVal < 128 {
        return size + 1, result + Shift(dataBits, size), Complete;
      }
      VarintStep(w, size, result);
      result := result + Shift(dataBits, size);
      size := size + 1;
      at := at + 1;
    }
    ReadingEnds(w, size, result);
    return size, result, TooLong;
  }

  /** ReadVarintAt's loop invariant: `result` holds the groups before byte
      `size`, and the rest of the read is that of the bytes from `size` on. */
  ghost predicate Reading(w: seq<byte>, size: nat, result: nat)
    requires size <= 8 && size <= |w|
  {
    var r := VarintFrom(w, size);
    VarintFrom(w, 0) == VarintRead(r.bytesRead, result + Shift(r.value, size), r.status)
  }

  /** The loop stops without a further group when the bytes or the eight
      groups run out. */
  lemma ReadingEnds(w: seq<byte>, size: nat, result: nat)
    requires size <= 8 && size <= |w| && Reading(w, size, result)
    requires size == 8 || size == |w|
    ensures VarintFrom(w, 0) == VarintRead(size, result, if size == 8 then TooLong else BufferTooSmall)
  {
    ShiftAdd(0, 0, size);
  }

  /** The shortest low-group-first encoding of v: every byte but the last has its high bit set. */
  function EncodeVarint(v: nat): (e: seq<byte>)
    ensures |e| >= 1
  {
    if v < 128 then [v] else [v % 128 + 128] + EncodeVarint(v / 128)
  }

  /** Every byte of an encoding but the last is a continuation byte. */
  lemma {:induction false} EncodeVarintShape(v: nat)
    ensures var e := EncodeVarint(v);
      e[|e| - 1] < 128 && forall j :: 0 <= j < |e| - 1 ==> e[j] >= 128
  {
    if v >= 128 {
      EncodeVarintShape(v / 128);
      var e, t := EncodeVarint(v), EncodeVarint(v / 128);
      assert forall j :: 1 <= j < |e| ==> e[j] == t[j - 1];
    }
  }

  /** The groups of an encoding add up to the encoded value. */
  lemma {:induction false} EncodeVarintValue(v: nat)
    ensures Groups(EncodeVarint(v)) == v
  {
    if v >= 128 {
      EncodeVarintValue(v / 128);
      var e := EncodeVarint(v);
      assert e[1..] == EncodeVarint(v / 128);
      assert Low7(e[0]) == v % 128;
    }
  }

  lemma {:induction false} EncodeVarintLength(v: nat, k: nat)
    requires 1 <= k && v < Pow128(k)
    ensures |EncodeVarint(v)| <= k
  {
    if v >= 128 {
      assert k >= 2;
      EncodeVarintLength(v / 128, k - 1);
    }
  }

  /** Decoding an encoded value of at most 8 groups gives it back, reading
      exactly its groups, whatever follows it in the buffer. */
  lemma VarintRoundTrip(v: nat, rest: seq<byte>)
    requires v < Pow128(8)
    ensures Varint(EncodeVarint(v) + rest, 0) == VarintRead(|EncodeVarint(v)|, v, Complete)
  {
    var e := EncodeVarint(v);
    var w := e + rest;
    EncodeVarintShape(v);
    EncodeVarintLength(v, 8);
    assert From(w, 0) == w;
    VarintFromComplete(w, 0);
    VarintFromTooLong(w, 0);
    VarintFromShort(w, 0);
    VarintFromValue(w, 0);
    var n := VarintFrom(w, 0).bytesRead;
    assert w[|e| - 1] < 128;
    assert n == |e|;
    assert w[0..n] == e;
    EncodeVarintValue(v);
  }

  // ---------------------------------------------------------------------------
  // Field types and the record header (NewRecordHeader)
  // ---------------------------------------------------------------------------

  datatype FieldType = Null | Int8 | Int16 | Int24 | Int32 | Int48 | Int64 | Float64 | Zero | One | Blob | String

  /** One column of a record. `fieldIdx` is the field's position in header
      order (db/tuple.go reads it; the shown RecordField omits it). The offset
      is stored as a uint16. */
  datatype RecordField = RecordField(offset: nat, size: nat, fieldType: FieldType, fieldIdx: nat)

  datatype RecordHeader = RecordHeader(fields: seq<RecordField>)

  datatype Record = Record(rowId: int, header: RecordHeader, payload: Slice)

  /** The field type and width NewRecordHeader gives a serial type. The switch
      is on FieldType(serialType), an int32 conversion that keeps the low 32 bits. */
  function FieldOfSerialType(serialType: nat): (r: Result<(FieldType, nat)>)
    ensures r.Err? <==> serialType in {3, 10, 11}
    ensures r.Err? ==> r.error == UnsupportedSerialType(serialType)
  {
    match serialType % TwoTo32
    case 0 => Ok((Null, 0))
    case 1 => Ok((Int8, 1))
    case 2 => Ok((Int16, 2))
    case 4 => Ok((Int32, 3))
    case 5 => Ok((Int48, 4))
    case 6 => Ok((Int64, 8))
    case 7 => Ok((Float64, 8))
    case 8 => Ok((Zero, 0))
    case 9 => Ok((One, 0))
    case _ =>
      if serialType >= 12 && serialType % 2 == 0 then Ok((Blob, (serialType - 12) / 2))
      else if serialType >= 13 && serialType % 2 == 1 then Ok((String, (serialType - 13) / 2))
      else Err(UnsupportedSerialType(serialType))
  }

  /** The width table for serial types that fit in 32 bits. */
  lemma SerialTypeWidths(n: nat)
    requires n < TwoTo32
    ensures n == 0 ==> FieldOfSerialType(n) == Ok((Null, 0))
    ensures n == 1 ==> FieldOfSerialType(n) == Ok((Int8, 1))
    ensures n == 2 ==> FieldOfSerialType(n) == Ok((Int16, 2))
    ensures n == 4 ==> FieldOfSerialType(n) == Ok((Int32, 3))
    ensures n == 5 ==> FieldOfSerialType(n) == Ok((Int48, 4))
    ensures n == 6 ==> FieldOfSerialType(n) == Ok((Int64, 8))
    ensures n == 7 ==> FieldOfSerialType(n) == Ok((Float64, 8))
    ensures n == 8 ==> FieldOfSerialType(n) == Ok((Zero, 0))
    ensures n == 9 ==> FieldOfSerialType(n) == Ok((One, 0))
    ensures n >= 12 && n % 2 == 0 ==> FieldOfSerialType(n) == Ok((Blob, (n - 12) / 2))
    ensures n >= 13 && n % 2 == 1 ==> FieldOfSerialType(n) == Ok((String, (n - 13) / 2))
  {
  }

  /** Above 32 bits the truncated switch wins: 2^32 + 1 is read as an Int8 of
      one byte, where the parity rule alone would make it a String. */
  lemma TruncatedSerialType()
    ensures FieldOfSerialType(TwoTo32 + 1) == Ok((Int8, 1))
    ensures FieldOfSerialType(TwoTo32 + 12) == Ok((Blob, TwoTo32 / 2))
  {
  }

  /** A field's type and width, as the header's serial type gives them. */
  type Entry = (FieldType, nat)

  /** One turn of NewRecordHeader's loop: the serial-type varint at the front
      of `data` gives the bytes it occupies and the field's entry. The loop
      spins forever when Uvarint finds no terminating byte (it returns a zero
      count), and `data[n:]` panics on a negative count. */
  function NextField(data: seq<byte>): (r: Result<(nat, Entry)>)
    requires |data| > 0
    ensures r.Ok? ==> 0 < r.value.0 <= |data|
  {
    var sv := Uvarint(data);
    if sv.1 < 0 then Err(Panic(SliceOutOfRange))
    else if sv.1 == 0 then Err(Panic(EndlessLoop))
    else match FieldOfSerialType(sv.0)
      case Ok(ft) => Ok((sv.1, ft))
      case Err(e) => Err(e)
  }

  /** The entries named by the serial-type varints that fill `data`, in order;
      the first failure ends the list. */
  function Entries(data: seq<byte>): Result<seq<Entry>>
    decreases |data|
  {
    if |data| == 0 then Ok([])
    else match NextField(data)
      case Err(e) => Err(e)
      case Ok(f) => Prepend([f.1], Entries(data[f.0..]))
  }

  /** The fields NewRecordHeader builds from `entries`, the first at the
      uint64 offset `cur`: each offset is stored as a uint16, and the next
      offset adds the width in uint64 arithmetic. */
  function Layout(entries: seq<Entry>, cur: nat, idx: nat): (fs: seq<RecordField>)
    ensures |fs| == |entries|
  {
    if |entries| == 0 then []
    else [RecordField(cur % TwoTo16, entries[0].1, entries[0].0, idx)] + Layout(entries[1..], (cur + entries[0].1) % TwoTo64, idx + 1)
  }

  /** The uint64 offset after the fields of `entries`, the first at `cur`. */
  function EndOffset(entries: seq<Entry>, cur: nat): nat {
    if |entries| == 0 then cur else EndOffset(entries[1..], (cur + entries[0].1) % TwoTo64)
  }

  /** What NewRecordHeader(payload) returns: the header length is the first
      varint, and the serial types fill bytes [varint size, header length). */
  function HeaderOf(payload: Slice): Result<RecordHeader> {
    var hv := Uvarint(Bytes(payload));
    match Reslice(payload, hv.1, hv.0)
    case Err(e) => Err(e)
    case Ok(data) =>
      match Entries(Bytes(data))
      case Err(e) => Err(e)
      case Ok(entries) => Ok(RecordHeader(Layout(entries, hv.0, 0)))
  }

  method NewRecordHeader(payload: Slice) returns (r: Result<RecordHeader>)
    ensures r == HeaderOf(payload)
  {
    var hv := Uvarint(Bytes(payload));
    var headerLength, varintSize := hv.0, hv.1;
    var data :- Reslice(payload, varintSize, headerLength);
    ghost var region := Bytes(data);
    ghost var entries: seq<Entry> := [];
    var curOffset: nat := headerLength;
    var fields: seq<RecordField> := [];
    PrependNil(Entries(region));
    while Len(data) != 0
      invariant Entries(region) == Prepend(entries, Entries(Bytes(data)))
      invariant fields == Layout(entries, headerLength, 0)
      invariant curOffset == EndOffset(entries, headerLength)
      decreases Len(data)
    {
      ghost var rest := Bytes(data);
      EntriesStops(rest);
      var sv := Uvarint(Bytes(data));
      var serialType, at := sv.0, sv.1;
      if at == 0 {
        // data[0:] leaves data unchanged and a Null field is appended: the source never leaves the loop.
        return Err(Panic(EndlessLoop));
      }
      data :- Suffix(data, at);
      var ft :- FieldOfSerialType(serialType);
      EntriesAdvance(rest, at, ft);
      PrependAssoc(entries, [ft], Entries(rest[at..]));
      LayoutSnoc(entries, ft, headerLength, 0);
      fields := fields + [RecordField(curOffset % TwoTo16, ft.1, ft.0, |fields|)];
      curOffset := (curOffset + ft.1) % TwoTo64;
      entries := entries + [ft];
    }
    assert entries + [] == entries;
    return Ok(RecordHeader(fields));
  }

  lemma PrependNil<T>(r: Result<seq<T>>)
    ensures Prepend([], r) == r
  {
    if r.Ok? {
      assert [] + r.value == r.value;
    }
  }

  lemma PrependAssoc<T>(a: seq<T>, b: seq<T>, r: Result<seq<T>>)
    ensures Prepend(a, Prepend(b, r)) == Prepend(a + b, r)
  {
    if r.Ok? {
      assert a + (b + r.value) == (a + b) + r.value;
    }
  }

  /** The ways NewRecordHeader's loop stops early. */
  lemma EntriesStops(data: seq<byte>)
    requires |data| > 0
    ensures var sv := Uvarint(data);
      && (sv.1 < 0 ==> Entries(data) == Err(Panic(SliceOutOfRange)))
      && (sv.1 == 0 ==> Entries(data) == Err(Panic(EndlessLoop)))
      && (sv.1 > 0 && FieldOfSerialType(sv.0).Err? ==> Entries(data) == Err(FieldOfSerialType(sv.0).error))
  {
  }

  /** A turn of NewRecordHeader's loop that appends a field. */
  lemma EntriesAdvance(data: seq<byte>, at: nat, ft: Entry)
    requires |data| > 0 && Uvarint(data).1 == at > 0 && FieldOfSerialType(Uvarint(data).0) == Ok(ft)
    ensures Entries(data) == Prepend([ft], Entries(data[at..]))
  {
  }

  /** Appending an entry appends its field, at the offset where the others end. */
  lemma {:induction false} LayoutSnoc(entries: seq<Entry>, e: Entry, cur: nat, idx: nat)
    ensures Layout(entries + [e], cur, idx) ==
      Layout(entries, cur, idx) + [RecordField(EndOffset(entries, cur) % TwoTo16, e.1, e.0, idx + |entries|)]
    ensures EndOffset(entries + [e], cur) == (EndOffset(entries, cur) + e.1) % TwoTo64
  {
    if |entries| > 0 {
      assert (entries + [e])[1..] == entries[1..] + [e];
      LayoutSnoc(entries[1..], e, (cur + entries[0].1) % TwoTo64, idx + 1);
    }
  }

  /** The serial types that tile `data` as consecutive complete varints. */
  function SerialTypes(data: seq<byte>): Result<seq<nat>>
    decreases |data|
  {
    if |data| == 0 then Ok([])
    else
      var sv := Uvarint(data);
      if sv.1 <= 0 then Err(Panic(SliceOutOfRange))
      else Prepend([sv.0], SerialTypes(data[sv.1..]))
  }

  /** There is one entry per serial-type varint, the type and width of that
      serial type; and every tiling by supported serial types gives a header. */
  lemma {:induction false} EntriesFollowSerialTypes(data: seq<byte>)
    ensures Entries(data).Ok? <==>
      SerialTypes(data).Ok? && forall t :: t in SerialTypes(data).value ==> FieldOfSerialType(t).Ok?
    ensures Entries(data).Ok? ==>
      var es, ts := Entries(data).value, SerialTypes(data).value;
      |es| == |ts| && forall i :: 0 <= i < |es| ==> FieldOfSerialType(ts[i]) == Ok(es[i])
    decreases |data|
  {
    if |data| > 0 {
      var sv := Uvarint(data);
      if sv.1 > 0 {
        EntriesFollowSerialTypes(data[sv.1..]);
        EntriesCons(data);
      }
    }
  }

  /** Entries and SerialTypes after one varint. */
  lemma EntriesCons(data: seq<byte>)
    requires |data| > 0 && Uvarint(data).1 > 0
    ensures var sv := Uvarint(data);
      var ft, es, ts := FieldOfSerialType(sv.0), Entries(data[sv.1..]), SerialTypes(data[sv.1..]);
      && SerialTypes(data) == Prepend([sv.0], ts)
      && Entries(data) == if ft.Err? then Err(ft.error) else Prepend([ft.value], es)
  {
  }

  /** The first field starts where the fields start. */
  lemma LayoutFirst(entries: seq<Entry>, cur: nat, idx: nat)
    requires |entries| > 0
    ensures Layout(entries, cur, idx)[0].offset == cur % TwoTo16
  {
  }

  /** Fields are numbered in header order and carry their entry's type and width. */
  lemma {:induction false} LayoutEntries(entries: seq<Entry>, cur: nat, idx: nat)
    ensures var fs := Layout(entries, cur, idx);
      forall i :: 0 <= i < |fs| ==> fs[i].fieldIdx == idx + i && (fs[i].fieldType, fs[i].size) == entries[i]
  {
    if |entries| > 0 {
      var next := (cur + entries[0].1) % TwoTo64;
      var fs, rest := Layout(entries, cur, idx), Layout(entries[1..], next, idx + 1);
      LayoutEntries(entries[1..], next, idx + 1);
      assert forall i :: 0 < i < |fs| ==> fs[i] == rest[i - 1] && entries[i] == entries[1..][i - 1];
    }
  }

  /** Offsets are cumulative: each field starts at the previous offset plus
      the previous width, in uint16 arithmetic. */
  predicate Chained(fs: seq<RecordField>) {
    forall i :: 0 < i < |fs| ==> fs[i].offset == (fs[i - 1].offset + fs[i - 1].size) % TwoTo16
  }

  lemma {:induction false} LayoutChain(entries: seq<Entry>, cur: nat, idx: nat)
    ensures Chained(Layout(entries, cur, idx))
  {
    if |entries| > 1 {
      var next := (cur + entries[0].1) % TwoTo64;
      var fs, rest := Layout(entries, cur, idx), Layout(entries[1..], next, idx + 1);
      LayoutChain(entries[1..], next, idx + 1);
      OffsetStep(cur, entries[0].1);
      forall i | 0 < i < |fs|
        ensures fs[i].offset == (fs[i - 1].offset + fs[i - 1].size) % TwoTo16
      {
        assert fs[i] == rest[i - 1];
        if i > 1 {
          assert fs[i - 1] == rest[i - 2];
        }
      }
    }
  }

  /** Adding a multiple of 2^16 does not change the remainder modulo 2^16. */
  lemma ModAddMultiple(x: nat, r: nat)
    ensures (x * TwoTo16 + r) % TwoTo16 == r % TwoTo16
  {
    var a := x * TwoTo16 + r;
    assert a == (x + r / TwoTo16) * TwoTo16 + r % TwoTo16;
  }

  /** Advancing the uint64 offset, then storing it as uint16, is uint16 addition. */
  lemma OffsetStep(cur: nat, size: nat)
    ensures ((cur + size) % TwoTo64) % TwoTo16 == (cur % TwoTo16 + size) % TwoTo16
  {
    var a := cur + size;
    var q, r := a / TwoTo64, a % TwoTo64;
    assert a == (q * 0x1_0000_0000_0000) * TwoTo16 + r;
    ModAddMultiple(q * 0x1_0000_0000_0000, r);
    var c := cur / TwoTo16;
    assert a == c * TwoTo16 + (cur % TwoTo16 + size);
    ModAddMultiple(c, cur % TwoTo16 + size);
  }

  /** The header's varints lie in [varint size, header length) of the payload,
      possibly reaching into the slice's spare capacity. */
  lemma HeaderRegion(payload: Slice)
    requires HeaderOf(payload).Ok?
    ensures var hv := Uvarint(Bytes(payload));
      0 <= hv.1 <= hv.0 <= Cap(payload)
  {
  }

  /** The fields are laid out from the header length on, one per entry of the
      serial types in the header's region. */
  lemma HeaderLayout(payload: Slice)
    requires HeaderOf(payload).Ok?
    ensures var hv := Uvarint(Bytes(payload));
      0 <= hv.1 <= hv.0 <= Cap(payload) &&
      var entries := Entries(payload.backing[payload.start + hv.1..payload.start + hv.0]);
      entries.Ok? && HeaderOf(payload).value.fields == Layout(entries.value, hv.0, 0)
  {
    HeaderRegion(payload);
    var hv := Uvarint(Bytes(payload));
    assert Bytes(Reslice(payload, hv.1, hv.0).value) == payload.backing[payload.start + hv.1..payload.start + hv.0];
  }

  // ---------------------------------------------------------------------------
  // Field decoding (Record.FieldData)
  // ---------------------------------------------------------------------------

  /** The dynamic value behind FieldData's `any` result; the constructor is
      its Go type. A float64 is kept as the bit pattern it was built from. */
  datatype Value =
    | Nil
    | Int8Value(i: int)
    | Uint16Value(u: nat)
    | Int32Value(i: int)
    | Int64Value(i: int)
    | Float64Value(bits: nat)
    | StringValue(s: string)
    | BlobValue(b: seq<byte>)

  datatype FieldDatum = FieldDatum(value: Value, fieldType: FieldType)

  /** `int8(b)`: the byte as a two's-complement number. */
  function AsInt8(b: byte): (i: int)
    ensures -128 <= i < 128 && i % 256 == b
  {
    if b < 128 then b else b - 256
  }

  /** The bytes of a String or Blob field: `size` bytes from its offset, except
      the last field, whose bytes run to the end of the payload. */
  function VariableBytes(r: Record, idx: nat): Result<Slice>
    requires idx < |r.header.fields|
  {
    var field := r.header.fields[idx];
    var data :- Suffix(r.payload, field.offset);
    if idx + 1 != |r.header.fields| then Reslice(r.payload, field.offset, (field.offset + field.size) % TwoTo64)
    else Ok(data)
  }

  /** The leading 16-bit word of the `width` bytes at the field's offset.
      The end of the window is a uint16 sum and wraps past 65535. */
  function Word(r: Record, offset: nat, width: nat): Result<nat>
    requires 2 <= width <= 8
  {
    var b :- Reslice(r.payload, offset, (offset + width) % TwoTo16);
    WindowEnd(offset, width);
    Ok(Uint16(Bytes(b)))
  }

  /** The uint16 end of a window of `width` bytes: below the start exactly
      when the window passes offset 65535 (for a start below 65536). */
  lemma WindowEnd(offset: nat, width: nat)
    requires 0 < width < TwoTo16
    ensures (offset + width) % TwoTo16 >= offset ==> (offset + width) % TwoTo16 == offset + width
    ensures offset < TwoTo16 <= offset + width ==> (offset + width) % TwoTo16 == offset + width - TwoTo16
  {
    var q, m := (offset + width) / TwoTo16, (offset + width) % TwoTo16;
    assert q * TwoTo16 + m == offset + width;
    if q > 0 {
      assert q * TwoTo16 >= TwoTo16;
    }
    if offset < TwoTo16 <= offset + width {
      assert q == 1 by {
        assert q * TwoTo16 < 2 * TwoTo16;
      }
    }
  }

  /** Whether a value came out of one of the integer, float or null cases. */
  predicate IsFixedWidth(v: Value) {
    v.Nil? || v.Int8Value? || v.Uint16Value? || v.Int32Value? || v.Int64Value? || v.Float64Value?
  }

  function FieldData(r: Record, idx: int): (d: Result<FieldDatum>)
    ensures d.Err? && d.error == Panic(IndexOutOfRange) <==> !(0 <= idx < |r.header.fields|)
    ensures d.Ok? ==> d.value.fieldType == r.header.fields[idx].fieldType
    ensures d.Err? && !d.error.IsPanic() <==>
      0 <= idx < |r.header.fields| && r.header.fields[idx].fieldType in {Zero, One}
    ensures d.Err? && !d.error.IsPanic() ==> d.error == Unimplemented
    ensures d.Ok? && d.value.fieldType !in {Int8, String, Blob} ==> IsFixedWidth(d.value.value)
    ensures d.Ok? && d.value.fieldType == Null ==> d.value.value == Nil
    ensures d.Ok? && d.value.fieldType == Int8 ==> d.value.value.Int8Value? && -128 <= d.value.value.i < 128
    ensures d.Ok? && d.value.fieldType in {Int16, Int24, Int32, Int48, Int64} ==>
      match d.value.value
      case Uint16Value(u) => u < TwoTo16
      case Int32Value(i) => 0 <= i < TwoTo16
      case Int64Value(i) => 0 <= i < TwoTo16
      case _ => false
    ensures d.Ok? && d.value.fieldType == String ==> d.value.value.StringValue?
    ensures d.Ok? && d.value.fieldType == Blob ==> d.value.value.BlobValue?
  {
    if !(0 <= idx < |r.header.fields|) then Err(Panic(IndexOutOfRange))
    else
      var field := r.header.fields[idx];
      var off, ft := field.offset, field.fieldType;
      match ft
      case Null => Ok(FieldDatum(Nil, ft))
      case Int8 =>
        var b :- Reslice(r.payload, off, (off + 1) % TwoTo16);
        Ok(FieldDatum(Int8Value(AsInt8(Bytes(b)[0])), ft))
      case Int16 => var w :- Word(r, off, 2); Ok(FieldDatum(Uint16Value(w), ft))
      case Int24 => var w :- Word(r, off, 3); Ok(FieldDatum(Int32Value(w), ft))
      case Int32 => var w :- Word(r, off, 4); Ok(FieldDatum(Int32Value(w), ft))
      case Int48 => var w :- Word(r, off, 6); Ok(FieldDatum(Int64Value(w), ft))
      case Int64 => var w :- Word(r, off, 8); Ok(FieldDatum(Int64Value(w), ft))
      case Float64 => var w :- Word(r, off, 8); Ok(FieldDatum(Float64Value(w), ft))
      case String => var b :- VariableBytes(r, idx); Ok(FieldDatum(StringValue(AsString(Bytes(b))), ft))
      case Blob => var b :- VariableBytes(r, idx); Ok(FieldDatum(BlobValue(Bytes(b)), ft))
      case _ => Err(Unimplemented)
  }

  /** The bytes a String or Blob field decodes to: exactly `size` bytes of the
      payload's backing array for every field but the last, and the rest of
      the payload for the last field, whatever its declared size. */
  lemma VariableFieldBytes(r: Record, idx: nat)
    requires idx < |r.header.fields| && r.header.fields[idx].fieldType in {String, Blob}
    requires FieldData(r, idx).Ok?
    ensures var f := r.header.fields[idx];
      var bytes := match FieldData(r, idx).value.value
        case StringValue(s) => seq(|s|, i requires 0 <= i < |s| => s[i] as int)
        case BlobValue(b) => b
        case _ => [];
      && f.offset <= Len(r.payload)
      && (idx + 1 < |r.header.fields| && f.offset + f.size < TwoTo64 ==>
            |bytes| == f.size && bytes == r.payload.backing[r.payload.start + f.offset..r.payload.start + f.offset + f.size])
      && (idx + 1 == |r.header.fields| ==> bytes == Bytes(r.payload)[f.offset..])
  {
    var b := VariableBytes(r, idx).value;
    VariableBytesShape(r, idx);
    if r.header.fields[idx].fieldType == String {
      StringBytes(Bytes(b));
    }
  }

  lemma VariableBytesShape(r: Record, idx: nat)
    requires idx < |r.header.fields| && VariableBytes(r, idx).Ok?
    ensures var f, bytes := r.header.fields[idx], Bytes(VariableBytes(r, idx).value);
      && f.offset <= Len(r.payload)
      && (idx + 1 < |r.header.fields| && f.offset + f.size < TwoTo64 ==>
            |bytes| == f.size && bytes == r.payload.backing[r.payload.start + f.offset..r.payload.start + f.offset + f.size])
      && (idx + 1 == |r.header.fields| ==> bytes == Bytes(r.payload)[f.offset..])
  {
  }

  lemma StringBytes(b: seq<byte>)
    ensures var s := AsString(b); seq(|s|, i requires 0 <= i < |s| => s[i] as int) == b
  {
  }

  /** The bytes FieldData reads for a fixed-width integer or float field. */
  function ReadWidth(ft: FieldType): nat {
    match ft
    case Int8 => 1
    case Int16 => 2
    case Int24 => 3
    case Int32 => 4
    case Int48 => 6
    case Int64 => 8
    case Float64 => 8
    case _ => 0
  }

  /** The value of a fixed-width field read from the bytes of its window: an
      Int8 is its byte as a two's-complement number, and every wider type is
      the big-endian word of the window's first two bytes. */
  function FixedValue(ft: FieldType, window: seq<byte>): Value
    requires ReadWidth(ft) > 0 && |window| == ReadWidth(ft)
  {
    var word := if |window| >= 2 then window[0] as int * 256 + window[1] as int else 0;
    match ft
    case Int8 => Int8Value(AsInt8(window[0]))
    case Int16 => Uint16Value(word)
    case Int24 => Int32Value(word)
    case Int32 => Int32Value(word)
    case Int48 => Int64Value(word)
    case Int64 => Int64Value(word)
    case Float64 => Float64Value(word)
  }

  /** A fixed-width field whose window would end past offset 65535 panics: the
      end of the window is a uint16 sum that wraps below the start. */
  lemma FixedWidthWraps(r: Record, idx: nat)
    requires idx < |r.header.fields|
    requires var f := r.header.fields[idx];
      ReadWidth(f.fieldType) > 0 && f.offset < TwoTo16 <= f.offset + ReadWidth(f.fieldType)
    ensures FieldData(r, idx) == Err(Panic(SliceOutOfRange))
  {
    var f := r.header.fields[idx];
    var off := f.offset;
    match f.fieldType {
      case Int8 =>
        WindowEnd(off, 1);
        assert Reslice(r.payload, off, (off + 1) % TwoTo16).Err?;
      case Int16 => WordWraps(r, off, 2);
      case Int24 => WordWraps(r, off, 3);
      case Int32 => WordWraps(r, off, 4);
      case Int48 => WordWraps(r, off, 6);
      case Int64 => WordWraps(r, off, 8);
      case Float64 => WordWraps(r, off, 8);
    }
  }

  /** A fixed-width field whose window ends below offset 65536 and fits the
      payload's capacity decodes to the value of the window's bytes. */
  lemma FixedWidthValue(r: Record, idx: nat)
    requires idx < |r.header.fields|
    requires var f := r.header.fields[idx];
      0 < ReadWidth(f.fieldType) && f.offset + ReadWidth(f.fieldType) <= Cap(r.payload)
    requires var f := r.header.fields[idx];
      f.offset + ReadWidth(f.fieldType) < TwoTo16
    ensures FieldData(r, idx).Ok?
    ensures var f, p := r.header.fields[idx], r.payload;
      var s := p.start + f.offset;
      FieldData(r, idx).value.value == FixedValue(f.fieldType, p.backing[s..s + ReadWidth(f.fieldType)])
  {
    var f, p := r.header.fields[idx], r.payload;
    var off, s := f.offset, p.start + f.offset;
    var window := p.backing[s..s + ReadWidth(f.fieldType)];
    assert window[0] == p.backing[s];
    match f.fieldType {
      case Int8 => WindowEnd(off, 1);
      case Int16 => WordValue(r, off, 2); assert window[1] == p.backing[s + 1];
      case Int24 => WordValue(r, off, 3); assert window[1] == p.backing[s + 1];
      case Int32 => WordValue(r, off, 4); assert window[1] == p.backing[s + 1];
      case Int48 => WordValue(r, off, 6); assert window[1] == p.backing[s + 1];
      case Int64 => WordValue(r, off, 8); assert window[1] == p.backing[s + 1];
      case Float64 => WordValue(r, off, 8); assert window[1] == p.backing[s + 1];
    }
  }

  /** A fixed-width field whose window ends below offset 65536 but beyond the
      payload's capacity panics. */
  lemma FixedWidthOverflow(r: Record, idx: nat)
    requires idx < |r.header.fields|
    requires var f := r.header.fields[idx];
      ReadWidth(f.fieldType) > 0 && Cap(r.payload) < f.offset + ReadWidth(f.fieldType) < TwoTo16
    ensures FieldData(r, idx) == Err(Panic(SliceOutOfRange))
  {
    var f := r.header.fields[idx];
    var off := f.offset;
    match f.fieldType {
      case Int8 =>
        WindowEnd(off, 1);
        assert Reslice(r.payload, off, (off + 1) % TwoTo16).Err?;
      case Int16 => WordValue(r, off, 2);
      case Int24 => WordValue(r, off, 3);
      case Int32 => WordValue(r, off, 4);
      case Int48 => WordValue(r, off, 6);
      case Int64 => WordValue(r, off, 8);
      case Float64 => WordValue(r, off, 8);
    }
  }

  /** The word of a window that ends below offset 65536: read exactly when
      the window fits the capacity, the big-endian value of its first two
      bytes. */
  lemma WordValue(r: Record, offset: nat, width: nat)
    requires 2 <= width <= 8 && offset + width < TwoTo16
    ensures Word(r, offset, width).Ok? <==> offset + width <= Cap(r.payload)
    ensures Word(r, offset, width).Err? ==> Word(r, offset, width).error == Panic(SliceOutOfRange)
    ensures var p, s := r.payload, r.payload.start + offset;
      Word(r, offset, width).Ok? ==>
        Word(r, offset, width).value == p.backing[s] as int * 256 + p.backing[s + 1] as int
  {
    WindowEnd(offset, width);
  }

  lemma WordWraps(r: Record, offset: nat, width: nat)
    requires 2 <= width <= 8 && offset < TwoTo16 <= offset + width
    ensures Word(r, offset, width) == Err(Panic(SliceOutOfRange))
  {
    WindowEnd(offset, width);
  }

  // ---------------------------------------------------------------------------
  // Records of a table leaf page (ParseRecords)
  // ---------------------------------------------------------------------------

  const LeafTablePageType: byte := 13

  /** The cell pointer stored at `offset`, less `shift`, as uint16 arithmetic. */
  function PointerAt(pageData: seq<byte>, offset: nat, shift: nat): (p: nat)
    requires offset + 2 <= |pageData|
    ensures p < TwoTo16
  {
    (Uint16(pageData[offset..offset + 2]) - shift) % TwoTo16
  }

  /** The `count` big-endian cell pointers stored from `base` on. Reading
      `pageData[offset:offset+2]` past the end of the page panics. */
  function CellPointers(pageData: seq<byte>, count: nat, base: nat, shift: nat): (r: Result<seq<nat>>)
    ensures r.Ok? ==> |r.value| == count
    ensures r.Ok? ==> forall i :: 0 <= i < count ==>
      base + 2 * i + 2 <= |pageData| && r.value[i] == PointerAt(pageData, base + 2 * i, shift)
    ensures r.Err? <==> count > 0 && base + 2 * count > |pageData|
  {
    if count == 0 || base + 2 * count <= |pageData| then
      Ok(seq(count, i requires 0 <= i < count && base + 2 * count <= |pageData| => PointerAt(pageData, base + 2 * i, shift)))
    else Err(Panic(SliceOutOfRange))
  }

  method ReadCellPointers(pageData: seq<byte>, count: nat, base: nat, shift: nat) returns (r: Result<seq<nat>>)
    ensures r == CellPointers(pageData, count, base, shift)
  {
    var pointers := new nat[count];
    var i := 0;
    while i < count
      invariant 0 <= i <= count
      invariant forall j :: 0 <= j < i ==> base + 2 * j + 2 <= |pageData| && pointers[j] == PointerAt(pageData, base + 2 * j, shift)
    {
      var offset := base + 2 * i;
      if offset + 2 > |pageData| {
        return Err(Panic(SliceOutOfRange));
      }
      var ptr := Uint16(pageData[offset..offset + 2]);
      pointers[i] := (ptr - shift) % TwoTo16;
      i := i + 1;
    }
    assert count > 0 ==> base + 2 * (count - 1) + 2 <= |pageData|;
    assert pointers[..] == CellPointers(pageData, count, base, shift).value;
    return Ok(pointers[..]);
  }

  /** The pointers that fall inside a page of `size` bytes, in order. */
  function InBounds(ptrs: seq<nat>, size: nat): (r: seq<nat>)
    ensures |r| <= |ptrs|
    ensures forall i :: 0 <= i < |r| ==> r[i] < size
  {
    if |ptrs| == 0 then []
    else (if ptrs[0] < size then [ptrs[0]] else []) + InBounds(ptrs[1..], size)
  }

  /** InBounds keeps exactly the pointers below `size`. */
  lemma {:induction false} InBoundsFilters(ptrs: seq<nat>, size: nat)
    ensures forall p :: p in InBounds(ptrs, size) <==> p in ptrs && p < size
  {
    if |ptrs| > 0 {
      InBoundsFilters(ptrs[1..], size);
      assert ptrs == [ptrs[0]] + ptrs[1..];
    }
  }

  /** The rowid and payload of the cell that starts at `ptr`: a size varint,
      a rowid varint, then the payload to the end of the page. A varint error
      aborts. */
  function CellAt(pageData: seq<byte>, ptr: nat): (r: Result<(int, Slice)>)
    requires ptr < |pageData|
    ensures r.Ok? ==> r.value.1.backing == pageData && ptr + 2 <= r.value.1.start && r.value.1.end == |pageData|
  {
    var cell := pageData[ptr..];
    var size := Varint(cell, 0);
    if size.status != Complete then Err(VarintError(size.status))
    else
      var rowId := Varint(cell[size.bytesRead..], 0);
      if rowId.status != Complete then Err(VarintError(rowId.status))
      else Ok((rowId.value, SliceRep(pageData, ptr + size.bytesRead + rowId.bytesRead, |pageData|)))
  }

  /** The record whose cell starts at `ptr`. A header error is dropped and
      leaves the record with no fields. */
  function RecordAt(pageData: seq<byte>, ptr: nat): Result<Record>
    requires ptr < |pageData|
  {
    match CellAt(pageData, ptr)
    case Err(e) => Err(e)
    case Ok(c) => WithHeader(c.0, c.1, HeaderOf(c.1))
  }

  /** ParseRecords discards NewRecordHeader's error and keeps the record with
      the header it got, an empty one; only a panic gets through. */
  function WithHeader(rowId: int, payload: Slice, header: Result<RecordHeader>): (r: Result<Record>)
    ensures r.Err? <==> header.Err? && header.error.IsPanic()
    ensures r.Err? ==> r.error == header.error
    ensures r.Ok? ==> r.value.rowId == rowId && r.value.payload == payload
    ensures r.Ok? ==> r.value.header == (if header.Ok? then header.value else RecordHeader([]))
  {
    if header.Err? && header.error.IsPanic() then Err(header.error)
    else Ok(Record(rowId, if header.Ok? then header.value else RecordHeader([]), payload))
  }

  function RecordsAt(pageData: seq<byte>, ptrs: seq<nat>): Result<seq<Record>> {
    if |ptrs| == 0 then Ok([])
    else if ptrs[0] >= |pageData| then RecordsAt(pageData, ptrs[1..])
    else
      var rec :- RecordAt(pageData, ptrs[0]);
      var rest :- RecordsAt(pageData, ptrs[1..]);
      Ok([rec] + rest)
  }

  /** What ParseRecords(file, pageData, pageNumber) returns (the records slice
      it returns beside an error is not modelled). */
  function ParseRecordsOf(pageData: seq<byte>, pageNumber: int): Result<seq<Record>> {
    if |pageData| < 1 then Err(PageDataTooShort)
    else if pageData[0] != LeafTablePageType then Err(NotTableLeafPage)
    else if |pageData| < 4 then Err(PageHeaderTooShort)
    else if |pageData| < 5 then Err(Panic(SliceOutOfRange))
    else
      var numCells := Uint16(pageData[3..5]);
      var pointers :- CellPointers(pageData, numCells, 8, if pageNumber == 1 then 100 else 0);
      RecordsAt(pageData, pointers)
  }

  method ParseRecords(pageData: seq<byte>, pageNumber: int) returns (r: Result<seq<Record>>)
    ensures r == ParseRecordsOf(pageData, pageNumber)
  {
    if |pageData| < 1 {
      return Err(PageDataTooShort);
    }
    if pageData[0] != LeafTablePageType {
      return Err(NotTableLeafPage);
    }
    if |pageData| < 4 {
      return Err(PageHeaderTooShort);
    }
    if |pageData| < 5 {
      return Err(Panic(SliceOutOfRange));  // pageData[3:5]
    }
    var numCells := Uint16(pageData[3..5]);
    var ptrOffset := if pageNumber == 1 then 100 else 0;
    var cellPointers :- ReadCellPointers(pageData, numCells, 8, ptrOffset);
    var records: seq<Record> := [];
    var i := 0;
    PrependNil(RecordsAt(pageData, cellPointers));
    while i < |cellPointers|
      invariant 0 <= i <= |cellPointers|
      invariant RecordsAt(pageData, cellPointers) == Prepend(records, RecordsAt(pageData, cellPointers[i..]))
    {
      var ptr := cellPointers[i];
      ghost var ptrs := cellPointers[i..];
      assert ptrs[0] == ptr && ptrs[1..] == cellPointers[i + 1..];
      if ptr >= |pageData| {
        RecordsAtSkip(pageData, ptrs);
      } else {
        var cell := ReadCell(pageData, ptr);
        if cell.Err? {
          RecordsAtFails(pageData, ptrs);
          return Err(cell.error);
        }
        var rec := cell.value;
        RecordsAtCons(pageData, ptrs, rec);
        PrependAssoc(records, [rec], RecordsAt(pageData, ptrs[1..]));
        records := records + [rec];
      }
      i := i + 1;
    }
    assert cellPointers[i..] == [];
    assert records + [] == records;
    return Ok(records);
  }

  /** The body of ParseRecords' cell loop for a pointer inside the page. */
  method ReadCell(pageData: seq<byte>, ptr: nat) returns (r: Result<Record>)
    requires ptr < |pageData|
    ensures r == RecordAt(pageData, ptr)
  {
    var cell := ReadCellVarints(pageData, ptr);
    if cell.Err? {
      return Err(cell.error);
    }
    var (rowId, payload) := cell.value;
    var header := NewRecordHeader(payload);
    return WithHeader(rowId, payload, header);
  }

  /** The two varints at the front of the cell, read with ReadVarintAt. */
  method ReadCellVarints(pageData: seq<byte>, ptr: nat) returns (r: Result<(int, Slice)>)
    requires ptr < |pageData|
    ensures r == CellAt(pageData, ptr)
  {
    var cellData := pageData[ptr..];
    var n, _, st := ReadVarintAt(cellData, 0);
    if st != Complete {
      return Err(VarintError(st));
    }
    cellData := cellData[n..];
    var n2, rowId, st2 := ReadVarintAt(cellData, 0);
    if st2 != Complete {
      return Err(VarintError(st2));
    }
    CellAtIs(pageData, ptr, n, n2, rowId);
    return Ok((rowId, SliceRep(pageData, ptr + n + n2, |pageData|)));
  }

  /** CellAt once both varints have been read completely. */
  lemma CellAtIs(pageData: seq<byte>, ptr: nat, n: nat, n2: nat, rowId: nat)
    requires ptr < |pageData|
    requires Varint(pageData[ptr..], 0).status == Complete && Varint(pageData[ptr..], 0).bytesRead == n
    requires Varint(pageData[ptr..][n..], 0) == VarintRead(n2, rowId, Complete)
    ensures CellAt(pageData, ptr).Ok? && CellAt(pageData, ptr).value.0 == rowId
    ensures CellAt(pageData, ptr).value.1 == SliceRep(pageData, ptr + n + n2, |pageData|)
  {
    var cell := pageData[ptr..];
    assert From(cell, 0) == cell;
    assert From(cell[n..], 0) == cell[n..];
  }

  lemma RecordsAtSkip(pageData: seq<byte>, ptrs: seq<nat>)
    requires |ptrs| > 0 && ptrs[0] >= |pageData|
    ensures RecordsAt(pageData, ptrs) == RecordsAt(pageData, ptrs[1..])
  {
  }

  lemma RecordsAtCons(pageData: seq<byte>, ptrs: seq<nat>, rec: Record)
    requires |ptrs| > 0 && ptrs[0] < |pageData| && RecordAt(pageData, ptrs[0]) == Ok(rec)
    ensures RecordsAt(pageData, ptrs) == Prepend([rec], RecordsAt(pageData, ptrs[1..]))
  {
  }

  lemma RecordsAtFails(pageData: seq<byte>, ptrs: seq<nat>)
    requires |ptrs| > 0 && ptrs[0] < |pageData| && RecordAt(pageData, ptrs[0]).Err?
    ensures RecordsAt(pageData, ptrs) == Err(RecordAt(pageData, ptrs[0]).error)
  {
  }

  /** ParseRecords keeps one record per in-bounds pointer. */
  lemma {:induction false} RecordsCount(pageData: seq<byte>, ptrs: seq<nat>)
    requires RecordsAt(pageData, ptrs).Ok?
    ensures |RecordsAt(pageData, ptrs).value| == |InBounds(ptrs, |pageData|)|
  {
    if |ptrs| > 0 {
      RecordsCount(pageData, ptrs[1..]);
    }
  }

  /** The i-th record is the one whose cell the i-th in-bounds pointer points
      at, so the records come in pointer order. */
  lemma {:induction false} RecordsFollowPointers(pageData: seq<byte>, ptrs: seq<nat>, i: nat)
    requires RecordsAt(pageData, ptrs).Ok? && i < |InBounds(ptrs, |pageData|)|
    ensures var rs, ps := RecordsAt(pageData, ptrs).value, InBounds(ptrs, |pageData|);
      i < |rs| && RecordAt(pageData, ps[i]) == Ok(rs[i])
  {
    RecordsCount(pageData, ptrs);
    var rest := ptrs[1..];
    if ptrs[0] >= |pageData| {
      RecordsFollowPointers(pageData, rest, i);
    } else if i > 0 {
      RecordsFollowPointers(pageData, rest, i - 1);
    }
  }

  /** A page-1 pointer below 100 wraps around as uint16 arithmetic does, and
      then lands outside any page shorter than 65436 bytes. */
  lemma PageOnePointerWraps(pageData: seq<byte>, i: nat)
    requires 8 + 2 * i + 2 <= |pageData| && Uint16(pageData[8 + 2 * i..10 + 2 * i]) < 100
    ensures PointerAt(pageData, 8 + 2 * i, 100) == Uint16(pageData[8 + 2 * i..10 + 2 * i]) + TwoTo16 - 100
  {
  }

  /** The type byte, the cell count at [3, 5) and the page-1 shift. */
  lemma ParseRecordsShape(pageData: seq<byte>, pageNumber: int)
    requires ParseRecordsOf(pageData, pageNumber).Ok?
    ensures |pageData| >= 5 && pageData[0] == LeafTablePageType
    ensures var ptrs := CellPointers(pageData, Uint16(pageData[3..5]), 8, if pageNumber == 1 then 100 else 0);
      ptrs.Ok? && ParseRecordsOf(pageData, pageNumber) == RecordsAt(pageData, ptrs.value)
      && |ParseRecordsOf(pageData, pageNumber).value| <= Uint16(pageData[3..5])
  {
    var ptrs := CellPointers(pageData, Uint16(pageData[3..5]), 8, if pageNumber == 1 then 100 else 0);
    RecordsCount(pageData, ptrs.value);
  }
}
