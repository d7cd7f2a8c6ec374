/** The two routines of Go's encoding/binary package the decoder relies on:
    `BigEndian.Uint16` and `Uvarint`, together with the 7-bit-group arithmetic
    that `Uvarint` shares with the decoder's own varint reader. */
module GoBinary {
  import opened Base

  /** `binary.BigEndian.Uint16(b)`: the first two bytes, most significant first. */
  function Uint16(b: seq<byte>): (w: nat)
    requires |b| >= 2
    ensures w < TwoTo16
  {
    (b[0] as int) * 256 + b[1] as int
  }

  function Pow128(k: nat): (p: nat)
    ensures p >= 1
  {
    if k == 0 then 1 else 128 * Pow128(k - 1)
  }

  /** `b & 0x7F`: the byte without its high bit. */
  function Low7(b: byte): (d: nat)
    ensures d < 128 && d == b % 128
  {
    if b >= 128 then b - 128 else b
  }

  /** The number whose base-128 digits are the low 7 bits of the bytes of s,
      s[0] being the least significant group. */
  function Groups(s: seq<byte>): nat {
    if |s| == 0 then 0 else Low7(s[0]) + 128 * Groups(s[1..])
  }

  lemma {:induction false} GroupsBound(s: seq<byte>)
    ensures Groups(s) < Pow128(|s|)
  {
    if |s| > 0 {
      GroupsBound(s[1..]);
    }
  }

  /** `x << (7 * k)`: x moved up by k groups. */
  function Shift(x: nat, k: nat): nat {
    if k == 0 then x else 128 * Shift(x, k - 1)
  }

  lemma {:induction false} ShiftAdd(a: nat, b: nat, k: nat)
    ensures Shift(a + b, k) == Shift(a, k) + Shift(b, k)
  {
    if k > 0 {
      ShiftAdd(a, b, k - 1);
    }
  }

  lemma {:induction false} ShiftUp(x: nat, k: nat)
    ensures Shift(128 * x, k) == Shift(x, k + 1)
  {
    if k > 0 {
      ShiftUp(x, k - 1);
    }
  }

  /** Appending a byte adds its group at the next position. */
  lemma {:induction false} GroupsSnoc(s: seq<byte>, b: byte)
    ensures Groups(s + [b]) == Groups(s) + Shift(Low7(b), |s|)
  {
    if |s| > 0 {
      assert (s + [b])[1..] == s[1..] + [b];
      GroupsSnoc(s[1..], b);
    }
  }

  /** `binary.Uvarint(buf)`: groups are taken least significant first; at most
      ten bytes are read. The count is positive on success, 0 when the buffer
      ends before a terminating byte, and negative on overflow. */
  function Uvarint(buf: seq<byte>): (r: (nat, int))
    ensures r.1 <= 10 && r.1 <= |buf|
  {
    UvarintFrom(buf, 0)
  }

  /** Uvarint's loop from byte i on: the value is that of the groups from i
      on, and the count is an index of buf. */
  function UvarintFrom(buf: seq<byte>, i: nat): (r: (nat, int))
    requires i <= |buf|
    ensures r.1 <= 10 && r.1 <= |buf|
    decreases |buf| - i
  {
    if i == |buf| then (0, 0)
    else if i >= 10 then (0, -11)
    else if buf[i] < 128 then
      if i == 9 && buf[i] > 1 then (0, -10) else (buf[i] as nat, i + 1)
    else
      var r := UvarintFrom(buf, i + 1);
      if r.1 > 0 then (Low7(buf[i]) + 128 * r.0, r.1) else r
  }

  /** A positive count from byte i on covers its groups. */
  lemma {:induction false} UvarintFromValue(buf: seq<byte>, i: nat)
    requires i <= |buf|
    ensures var r := UvarintFrom(buf, i);
      r.1 > 0 ==> i < r.1 && r.0 == Groups(buf[i..r.1])
    decreases |buf| - i
  {
    if i < |buf| && i < 10 {
      if buf[i] < 128 {
        assert buf[i..i + 1] == [buf[i]];
      } else {
        UvarintFromValue(buf, i + 1);
        var r := UvarintFrom(buf, i + 1);
        if r.1 > 0 {
          assert buf[i..r.1][1..] == buf[i + 1..r.1];
        }
      }
    }
  }

  /** A positive count ends at the first byte from i on with a clear high bit. */
  lemma {:induction false} UvarintFromComplete(buf: seq<byte>, i: nat)
    requires i <= |buf|
    ensures var r := UvarintFrom(buf, i);
      r.1 > 0 ==> i < r.1 && buf[r.1 - 1] < 128 && forall j :: i <= j < r.1 - 1 ==> buf[j] >= 128
    decreases |buf| - i
  {
    if i < |buf| && i < 10 && buf[i] >= 128 {
      UvarintFromComplete(buf, i + 1);
    }
  }

  /** A zero count means the buffer ran out within ten bytes; -11 that ten
      continuation bytes were read; -10 that the tenth byte ends the varint
      but carries more than the one bit left of 64. */
  lemma {:induction false} UvarintFromIncomplete(buf: seq<byte>, i: nat)
    requires i <= |buf| && i <= 10
    ensures var r := UvarintFrom(buf, i);
      && (r.1 == 0 <==> |buf| <= 10 && forall j :: i <= j < |buf| ==> buf[j] >= 128)
      && (r.1 == -11 <==> 10 < |buf| && forall j :: i <= j < 10 ==> buf[j] >= 128)
      && (r.1 == -10 <==> i <= 9 < |buf| && 1 < buf[9] < 128 && forall j :: i <= j < 9 ==> buf[j] >= 128)
      && (r.1 < 0 ==> r.1 == -10 || r.1 == -11)
    decreases |buf| - i
  {
    if i < |buf| && i < 10 && buf[i] >= 128 {
      UvarintFromIncomplete(buf, i + 1);
    }
  }

  /** A positive count covers continuation bytes and one final byte, and the
      value is their groups; the count is zero exactly when the buffer is at
      most ten bytes long and all of them are continuation bytes; it is
      negative on overflow. */
  lemma UvarintSpec(buf: seq<byte>)
    ensures var r := Uvarint(buf);
      && (r.1 > 0 ==> buf[r.1 - 1] < 128 && r.0 == Groups(buf[..r.1]))
      && (r.1 > 0 ==> forall j :: 0 <= j < r.1 - 1 ==> buf[j] >= 128)
      && (r.1 == 0 <==> |buf| <= 10 && forall j :: 0 <= j < |buf| ==> buf[j] >= 128)
      && (r.1 == -11 <==> 10 < |buf| && forall j :: 0 <= j < 10 ==> buf[j] >= 128)
      && (r.1 == -10 <==> 9 < |buf| && 1 < buf[9] < 128 && forall j :: 0 <= j < 9 ==> buf[j] >= 128)
      && (r.1 < 0 ==> r.1 == -10 || r.1 == -11)
  {
    UvarintFromValue(buf, 0);
    UvarintFromComplete(buf, 0);
    UvarintFromIncomplete(buf, 0);
    assert buf[0..] == buf;
  }
}
