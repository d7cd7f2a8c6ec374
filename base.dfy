/** Vocabulary shared by the whole model: bytes, Go byte slices, results and
    the errors (including Go runtime panics) the decoder can end in. */
module Base {

  type byte = b: int | 0 <= b < 256

  const TwoTo16: nat := 0x1_0000
  const TwoTo32: nat := 0x1_0000_0000
  const TwoTo64: nat := 0x1_0000_0000_0000_0000

  function Min(a: int, b: int): int { if a <= b then a else b }

  /** Ways the Go program stops abnormally. None of them is recovered anywhere. */
  datatype PanicKind =
    | IndexOutOfRange        // s[i] with i outside [0, len(s))
    | SliceOutOfRange        // s[lo:hi] with hi > cap(s), lo > hi or lo < 0
    | FailedTypeAssertion    // v.(T) on a value whose dynamic type is not T
    | EndlessLoop            // a loop that never finishes (it appends until memory runs out)

  /** Every way an operation of the core can fail: the Go `error` values it
      returns, plus the panics above. */
  datatype Error =
    | Panic(kind: PanicKind)
    | ReadFailed                        // os.File.ReadAt: negative offset or short read
    | InvalidDatabaseFile               // bad magic string
    | VarintBufferTooSmall              // "buffer too small to contain varint"
    | VarintTooLong                     // "varint is too long (exceeds 8 bytes)"
    | UnsupportedSerialType(serialType: nat)
    | Unimplemented                     // FieldData on a type it does not decode
    | PageDataTooShort                  // ParseRecords: empty page
    | NotTableLeafPage                  // ParseRecords: page type byte is not 13
    | PageHeaderTooShort                // ParseRecords: fewer than 4 bytes
    | InvalidFieldType                  // catalog name column is not text
    | TableNotFound(name: string)
    | SchemaRejected                    // error raised by the SQL front end
  {
    predicate IsPanic() { Panic? }
  }

  datatype Result<+T> = Ok(value: T) | Err(error: Error) {
    predicate IsFailure() { Err? }
    function PropagateFailure<U>(): Result<U>
      requires Err?
    {
      Err(error)
    }
    function Extract(): T
      requires Ok?
    {
      value
    }
  }

  /** `prefix` followed by the elements of `r`, or r's error. */
  function Prepend<T>(prefix: seq<T>, r: Result<seq<T>>): Result<seq<T>> {
    if r.Ok? then Ok(prefix + r.value) else r
  }

  /** How the conversion of one record into a row ends: with the row's
      tuples, by ending the whole conversion early, or in a panic. */
  datatype RowOutcome<T> = Row(tuples: seq<T>) | Stopped | Panicked(error: Error)

  /** `prefix` in front of the row's tuples; a stop or a panic is kept. */
  function PrependRow<T>(prefix: seq<T>, o: RowOutcome<T>): RowOutcome<T> {
    if o.Row? then Row(prefix + o.tuples) else o
  }

  lemma PrependRowNil<T>(o: RowOutcome<T>)
    ensures PrependRow([], o) == o
  {
    if o.Row? {
      assert [] + o.tuples == o.tuples;
    }
  }

  lemma PrependRowAssoc<T>(a: seq<T>, b: seq<T>, o: RowOutcome<T>)
    ensures PrependRow(a, PrependRow(b, o)) == PrependRow(a + b, o)
  {
    if o.Row? {
      assert a + (b + o.tuples) == (a + b) + o.tuples;
    }
  }

  /** A Go `[]byte`: the window [start, end) of a backing array. The bytes from
      `end` to the end of the backing array are the slice's spare capacity:
      Go lets `s[lo:hi]` reach them, since it checks `hi` against cap(s). */
  datatype SliceRep = SliceRep(backing: seq<byte>, start: nat, end: nat)
  type Slice = s: SliceRep | s.start <= s.end <= |s.backing| witness SliceRep([], 0, 0)

  function Len(s: Slice): nat { s.end - s.start }

  function Cap(s: Slice): nat { |s.backing| - s.start }

  /** The bytes the slice holds, `s[:len(s)]`. */
  function Bytes(s: Slice): (b: seq<byte>)
    ensures |b| == Len(s)
  {
    s.backing[s.start..s.end]
  }

  /** A slice whose length equals its capacity, such as one made by `make`. */
  function Whole(b: seq<byte>): (s: Slice)
    ensures Bytes(s) == b && Cap(s) == Len(s) == |b|
  {
    SliceRep(b, 0, |b|)
  }

  /** `s[lo:hi]`; Go panics unless 0 <= lo <= hi <= cap(s). */
  function Reslice(s: Slice, lo: int, hi: int): (r: Result<Slice>)
    ensures r.Ok? <==> 0 <= lo <= hi <= Cap(s)
    ensures r.Ok? ==> Bytes(r.value) == s.backing[s.start + lo..s.start + hi]
    ensures r.Ok? ==> r.value.backing == s.backing && r.value.start == s.start + lo
    ensures r.Err? ==> r.error == Panic(SliceOutOfRange)
  {
    if 0 <= lo <= hi <= Cap(s) then Ok(SliceRep(s.backing, s.start + lo, s.start + hi))
    else Err(Panic(SliceOutOfRange))
  }

  /** `s[lo:]`; Go panics unless 0 <= lo <= len(s). */
  function Suffix(s: Slice, lo: int): (r: Result<Slice>)
    ensures r.Ok? <==> 0 <= lo <= Len(s)
    ensures r.Ok? ==> Bytes(r.value) == Bytes(s)[lo..]
    ensures r.Ok? ==> r.value.backing == s.backing && r.value.start == s.start + lo && r.value.end == s.end
    ensures r.Err? ==> r.error == Panic(SliceOutOfRange)
  {
    if 0 <= lo <= Len(s) then Ok(SliceRep(s.backing, s.start + lo, s.end))
    else Err(Panic(SliceOutOfRange))
  }

  /** Go's `string(b)`: a Go string is a byte sequence; each byte is represented
      here by the character with the same code, so that string equality is
      byte equality. */
  function AsString(b: seq<byte>): (s: string)
    ensures |s| == |b|
    ensures forall i :: 0 <= i < |b| ==> s[i] as int == b[i]
  {
    seq(|b|, i requires 0 <= i < |b| => b[i] as char)
  }
}
