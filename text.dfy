/** The text the row printers produce: Go's `%v` for integers, joining with a
    separator, and counting lines. */
module Text {

  function DigitChar(d: nat): (c: char)
    requires d < 10
    ensures '0' <= c <= '9'
  {
    ['0', '1', '2', '3', '4', '5', '6', '7', '8', '9'][d]
  }

  /** The decimal digits of n, most significant first, without leading zeros. */
  function NatDecimal(n: nat): (s: string)
    ensures |s| >= 1 && forall i :: 0 <= i < |s| ==> '0' <= s[i] <= '9'
  {
    if n < 10 then [DigitChar(n)] else NatDecimal(n / 10) + [DigitChar(n % 10)]
  }

  /** `fmt.Sprintf("%v", i)` for a Go integer: a minus sign for negatives. */
  function Decimal(i: int): (s: string)
    ensures |s| >= 1
  {
    if i < 0 then "-" + NatDecimal(-i) else NatDecimal(i)
  }

  /** Reading digits back. */
  function DigitsValue(s: string): int {
    if |s| == 0 then 0 else 10 * DigitsValue(s[..|s| - 1]) + (s[|s| - 1] as int - '0' as int)
  }

  function DecimalValue(s: string): int {
    if |s| > 0 && s[0] == '-' then -DigitsValue(s[1..]) else DigitsValue(s)
  }

  lemma {:induction false} NatDecimalValue(n: nat)
    ensures DigitsValue(NatDecimal(n)) == n
    ensures n > 0 ==> NatDecimal(n)[0] != '0'
  {
    if n >= 10 {
      var q, d := n / 10, n % 10;
      assert n == 10 * q + d;
      NatDecimalValue(q);
      var s := NatDecimal(n);
      assert s == NatDecimal(q) + [DigitChar(d)];
      assert s[..|s| - 1] == NatDecimal(q);
      assert s[|s| - 1] as int - '0' as int == d;
      if q > 0 {
        assert s[0] == NatDecimal(q)[0];
      }
    } else {
      assert DigitChar(n) as int - '0' as int == n;
    }
  }

  /** Printing an integer and reading it back gives the integer, and a
      printed integer has no leading zero. */
  lemma DecimalRoundTrip(i: int)
    ensures DecimalValue(Decimal(i)) == i
    ensures var s := Decimal(i); s[0] == '-' ==> |s| >= 2 && s[1] != '0'
    ensures i != 0 ==> Decimal(i)[0] != '0'
  {
    if i < 0 {
      NatDecimalValue(-i);
      assert Decimal(i)[1..] == NatDecimal(-i);
    } else {
      NatDecimalValue(i);
    }
  }

  /** The parts in order with `sep` between neighbours. */
  function Join(parts: seq<string>, sep: string): string {
    if |parts| == 0 then ""
    else if |parts| == 1 then parts[0]
    else Join(parts[..|parts| - 1], sep) + sep + parts[|parts| - 1]
  }

  /** Joining one more part adds the separator and the part. */
  lemma JoinStep(parts: seq<string>, last: string, sep: string)
    requires |parts| > 0
    ensures Join(parts + [last], sep) == Join(parts, sep) + sep + last
  {
    assert (parts + [last])[..|parts|] == parts;
  }

  /** The parts in order with nothing between them. */
  function Concat(parts: seq<string>): string {
    if |parts| == 0 then "" else Concat(parts[..|parts| - 1]) + parts[|parts| - 1]
  }

  /** How often c occurs in s. */
  function Occurrences(s: string, c: char): nat {
    if |s| == 0 then 0 else Occurrences(s[..|s| - 1], c) + (if s[|s| - 1] == c then 1 else 0)
  }

  lemma {:induction false} OccurrencesAppend(a: string, b: string, c: char)
    ensures Occurrences(a + b, c) == Occurrences(a, c) + Occurrences(b, c)
    decreases |b|
  {
    if |b| > 0 {
      assert (a + b)[..|a + b| - 1] == a + b[..|b| - 1];
      OccurrencesAppend(a, b[..|b| - 1], c);
    } else {
      assert a + b == a;
    }
  }

  lemma {:induction false} OccurrencesAbsent(s: string, c: char)
    requires c !in s
    ensures Occurrences(s, c) == 0
  {
    if |s| > 0 {
      assert c !in s[..|s| - 1];
      OccurrencesAbsent(s[..|s| - 1], c);
    }
  }

  /** A printed integer holds no line break. */
  lemma DecimalOneLine(i: int)
    ensures Occurrences(Decimal(i), '\n') == 0
  {
    var n := if i < 0 then -i else i;
    assert '\n' !in NatDecimal(n);
    OccurrencesAbsent(NatDecimal(n), '\n');
    if i < 0 {
      OccurrencesAppend("-", NatDecimal(n), '\n');
      OccurrencesAbsent("-", '\n');
    }
  }

  /** A line without breaks followed by a break holds one break. */
  lemma OccurrencesOneLine(line: string)
    requires Occurrences(line, '\n') == 0
    ensures Occurrences(line + "\n", '\n') == 1
  {
    OccurrencesAppend(line, "\n", '\n');
    assert "\n"[..0] == "";
  }

  lemma AppendAssoc(a: string, b: string, c: string)
    ensures a + (b + c) == (a + b) + c
  {
  }

  lemma ConcatSnoc(parts: seq<string>, last: string)
    ensures Concat(parts + [last]) == Concat(parts) + last
  {
    assert (parts + [last])[..|parts|] == parts;
  }

  /** Parts without breaks concatenate to a text without breaks. */
  lemma {:induction false} ConcatNoBreak(parts: seq<string>)
    requires forall i :: 0 <= i < |parts| ==> Occurrences(parts[i], '\n') == 0
    ensures Occurrences(Concat(parts), '\n') == 0
  {
    if |parts| > 0 {
      var init := parts[..|parts| - 1];
      ConcatNoBreak(init);
      OccurrencesAppend(Concat(init), parts[|parts| - 1], '\n');
    }
  }

  /** Parts with one break each concatenate to a text with one break per part. */
  lemma {:induction false} ConcatOneBreakEach(parts: seq<string>)
    requires forall i :: 0 <= i < |parts| ==> Occurrences(parts[i], '\n') == 1
    ensures Occurrences(Concat(parts), '\n') == |parts|
  {
    if |parts| > 0 {
      var init := parts[..|parts| - 1];
      ConcatOneBreakEach(init);
      OccurrencesAppend(Concat(init), parts[|parts| - 1], '\n');
    }
  }

  /** A concatenation ends as its last part does. */
  lemma ConcatLast(parts: seq<string>, c: char)
    requires |parts| > 0 && |parts[|parts| - 1]| > 0
    requires parts[|parts| - 1][|parts[|parts| - 1]| - 1] == c
    ensures |Concat(parts)| > 0 && Concat(parts)[|Concat(parts)| - 1] == c
  {
  }
}
