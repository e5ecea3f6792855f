/** The few pieces of the Java library the stores lean on, written out:
    64-bit `long` arithmetic and its decimal text (`String.valueOf`,
    `Long.parseLong`), `Boolean` text, ASCII `equalsIgnoreCase`, and
    `String.split(";")` / `String.join(";", ...)`. */
module JavaText {
  import opened Wrappers

  // ---------------------------------------------------------------------
  // long
  // ---------------------------------------------------------------------

  const LongMin: int := -0x8000_0000_0000_0000
  const LongMax: int := 0x7FFF_FFFF_FFFF_FFFF
  const LongModulus: int := 0x1_0000_0000_0000_0000

  /** A Java `long` (also the value of a non-null `Long`). */
  type Long = n: int | LongMin <= n <= LongMax

  /** Java's `n + 1` on a `long`: past `LongMax` it wraps to `LongMin`. */
  function LongSucc(n: Long): (r: Long)
    ensures n < LongMax ==> r == n + 1
    ensures n == LongMax ==> r == LongMin
  {
    if n == LongMax then LongMin else n + 1
  }

  /** The increment is two's-complement addition: the exact sum reduced into
      the `long` range modulo 2^64. */
  lemma LongSuccIsModular(n: Long)
    ensures LongSucc(n) == (n + 1 - LongMin) % LongModulus + LongMin
  {
  }

  // ---------------------------------------------------------------------
  // Decimal text
  // ---------------------------------------------------------------------

  predicate IsDigit(c: char) {
    '0' <= c <= '9'
  }

  predicate AllDigits(s: string) {
    forall i :: 0 <= i < |s| ==> IsDigit(s[i])
  }

  function DigitChar(d: nat): (c: char)
    requires d < 10
    ensures IsDigit(c)
  {
    ('0' as int + d) as char
  }

  function DigitValue(c: char): (d: nat)
    requires IsDigit(c)
    ensures d < 10
  {
    c as int - '0' as int
  }

  /** Shortest decimal numeral of `n`, most significant digit first. */
  function Digits(n: nat): (s: string)
    ensures |s| >= 1 && AllDigits(s)
    ensures n >= 10 ==> s[0] != '0'
  {
    if n < 10 then [DigitChar(n)] else Digits(n / 10) + [DigitChar(n % 10)]
  }

  /** Value of a digit string read left to right, as `Long.parseLong` accumulates it. */
  function DigitsValue(s: string): nat
    requires AllDigits(s)
  {
    if |s| == 0 then 0 else DigitsValue(s[..|s| - 1]) * 10 + DigitValue(s[|s| - 1])
  }

  lemma {:induction false} DigitsRoundTrip(n: nat)
    ensures DigitsValue(Digits(n)) == n
  {
    if n >= 10 {
      var s := Digits(n);
      assert s[..|s| - 1] == Digits(n / 10);
      DigitsRoundTrip(n / 10);
    }
  }

  /** Decimal text of any integer: `String.valueOf(long)` on the `long` range. */
  function IntToString(n: int): (s: string)
    ensures |s| >= 1
    ensures forall i :: 0 <= i < |s| ==> IsDigit(s[i]) || (i == 0 && s[i] == '-')
  {
    if n < 0 then "-" + Digits(-n) else Digits(n)
  }

  /** Reads an optionally signed decimal numeral; `None` for anything else. */
  function ParseInt(s: string): (r: Option<int>)
    ensures r.Some? ==> |s| >= 1 && forall i :: 1 <= i < |s| ==> IsDigit(s[i])
  {
    if |s| == 0 then None
    else if s[0] == '-' || s[0] == '+' then
      var body := s[1..];
      if |body| > 0 && AllDigits(body) then
        var v: int := DigitsValue(body);
        Some(if s[0] == '-' then -v else v)
      else None
    else if AllDigits(s) then Some(DigitsValue(s))
    else None
  }

  lemma IntRoundTrip(n: int)
    ensures ParseInt(IntToString(n)) == Some(n)
  {
    var s := IntToString(n);
    if n < 0 {
      assert s == "-" + Digits(-n);
      assert s[0] == '-' && s[1..] == Digits(-n);
      DigitsRoundTrip(-n);
    } else {
      assert s == Digits(n);
      assert s[0] != '-' && s[0] != '+' by { assert IsDigit(s[0]); }
      DigitsRoundTrip(n);
    }
  }

  /** `Long.parseLong`: a numeral whose value lies in the `long` range.
      `None` stands for the `NumberFormatException`. */
  function ParseLong(s: string): (r: Option<Long>)
    ensures r.Some? <==> ParseInt(s).Some? && LongMin <= ParseInt(s).value <= LongMax
    ensures r.Some? ==> r.value == ParseInt(s).value
  {
    match ParseInt(s)
    case Some(n) => if LongMin <= n <= LongMax then Some(n) else None
    case None => None
  }

  function LongToString(n: Long): string {
    IntToString(n)
  }

  lemma LongRoundTrip(n: Long)
    ensures ParseLong(LongToString(n)) == Some(n)
  {
    IntRoundTrip(n);
  }

  /** Text of a nullable `Long` as Java's string conversion produces it. */
  function IdText(id: Option<Long>): (s: string)
    ensures id.None? ==> ParseLong(s).None?
    ensures id.Some? ==> ParseLong(s) == id
  {
    match id
    case None => "null"
    case Some(n) => LongRoundTrip(n); LongToString(n)
  }

  // ---------------------------------------------------------------------
  // Case-insensitive comparison (ASCII letters)
  // ---------------------------------------------------------------------

  function ToLowerAscii(c: char): char {
    if 'A' <= c <= 'Z' then (c as int + 32) as char else c
  }

  function LowerCase(s: string): (r: string)
    ensures |r| == |s|
    ensures forall i :: 0 <= i < |s| ==> r[i] == ToLowerAscii(s[i])
  {
    seq(|s|, i requires 0 <= i < |s| => ToLowerAscii(s[i]))
  }

  /** `String.equalsIgnoreCase`, restricted to ASCII case folding. */
  predicate EqualsIgnoreCase(a: string, b: string) {
    |a| == |b| && forall i :: 0 <= i < |a| ==> ToLowerAscii(a[i]) == ToLowerAscii(b[i])
  }

  /** Case-insensitive equality is equality of the lower-cased texts, so it is
      an equivalence relation. */
  lemma EqualsIgnoreCaseIsLowerEquality(a: string, b: string)
    ensures EqualsIgnoreCase(a, b) <==> LowerCase(a) == LowerCase(b)
  {
    if LowerCase(a) == LowerCase(b) {
      assert |a| == |LowerCase(a)|;
      forall i | 0 <= i < |a|
        ensures ToLowerAscii(a[i]) == ToLowerAscii(b[i])
      {
        assert LowerCase(a)[i] == LowerCase(b)[i];
      }
    }
  }

  // ---------------------------------------------------------------------
  // Boolean text
  // ---------------------------------------------------------------------

  /** `String.valueOf(boolean)`. */
  function BoolText(b: bool): string {
    if b then "true" else "false"
  }

  /** `Boolean.valueOf(String)`: true exactly for "true" in any letter case. */
  predicate BooleanValueOf(s: string) {
    EqualsIgnoreCase(s, "true")
  }

  lemma BoolRoundTrip(b: bool)
    ensures BooleanValueOf(BoolText(b)) == b
  {
    if !b {
      assert ToLowerAscii(BoolText(b)[0]) != ToLowerAscii("true"[0]);
    }
  }

  // ---------------------------------------------------------------------
  // Splitting and joining on ';'
  // ---------------------------------------------------------------------

  const Delimiter: char := ';'

  /** A text `BufferedReader.readLine` can return: it ends a line at '\n',
      at '\r' and at "\r\n", so neither character survives inside a line. */
  predicate NoLineBreak(s: string) {
    '\n' !in s && '\r' !in s
  }

  /** A field value the flat files can hold unchanged: no delimiter, no line break. */
  predicate FieldOk(s: string) {
    Delimiter !in s && NoLineBreak(s)
  }

  /** Every piece between delimiters, empty pieces included. */
  function SplitAll(s: string): (parts: seq<string>)
    ensures |parts| >= 1
    ensures forall i :: 0 <= i < |parts| ==> Delimiter !in parts[i]
  {
    if |s| == 0 then [""]
    else
      var rest := SplitAll(s[1..]);
      if s[0] == Delimiter then [""] + rest
      else [[s[0]] + rest[0]] + rest[1..]
  }

  function DropTrailingEmpty(parts: seq<string>): (r: seq<string>)
    ensures |r| <= |parts| && r == parts[..|r|]
    ensures |r| > 0 ==> r[|r| - 1] != ""
    ensures forall i :: |r| <= i < |parts| ==> parts[i] == ""
  {
    if |parts| > 0 && parts[|parts| - 1] == "" then DropTrailingEmpty(parts[..|parts| - 1])
    else parts
  }

  /** `String.split(";")`: a text without the delimiter is its own single
      field; otherwise the pieces, with trailing empty pieces removed. */
  function Split(s: string): (parts: seq<string>)
    ensures forall i :: 0 <= i < |parts| ==> Delimiter !in parts[i]
    ensures Delimiter !in s ==> parts == [s]
    ensures Delimiter in s ==> |parts| == 0 || parts[|parts| - 1] != ""
  {
    if Delimiter !in s then [s] else DropTrailingEmpty(SplitAll(s))
  }

  /** `String.join(";", fields)`. */
  function Join(fields: seq<string>): string {
    if |fields| == 0 then ""
    else if |fields| == 1 then fields[0]
    else fields[0] + [Delimiter] + Join(fields[1..])
  }

  /** The shape of every non-empty `Split` result, and the rows `Join` can
      carry through a write and a re-read without change. */
  predicate SplitStable(row: seq<string>) {
    && |row| >= 1
    && (forall i :: 0 <= i < |row| ==> FieldOk(row[i]))
    && (|row| >= 2 ==> row[|row| - 1] != "")
  }

  lemma {:induction false} SplitAllWithoutDelimiter(s: string)
    requires Delimiter !in s
    ensures SplitAll(s) == [s]
  {
    if |s| > 0 {
      SplitAllWithoutDelimiter(s[1..]);
      assert [s[0]] + s[1..] == s;
    }
  }

  lemma {:induction false} SplitAllAfterField(a: string, t: string)
    requires Delimiter !in a
    ensures SplitAll(a + [Delimiter] + t) == [a] + SplitAll(t)
  {
    var s := a + [Delimiter] + t;
    if |a| == 0 {
      assert s[1..] == t;
    } else {
      assert s[1..] == a[1..] + [Delimiter] + t;
      SplitAllAfterField(a[1..], t);
      assert [a[0]] + a[1..] == a;
    }
  }

  lemma {:induction false} SplitAllJoin(fields: seq<string>)
    requires |fields| >= 1
    requires forall i :: 0 <= i < |fields| ==> Delimiter !in fields[i]
    ensures SplitAll(Join(fields)) == fields
  {
    if |fields| == 1 {
      SplitAllWithoutDelimiter(fields[0]);
    } else {
      SplitAllAfterField(fields[0], Join(fields[1..]));
      SplitAllJoin(fields[1..]);
      assert [fields[0]] + fields[1..] == fields;
    }
  }

  /** Joining a stable row and splitting it again gives the row back. */
  lemma SplitJoin(row: seq<string>)
    requires SplitStable(row)
    ensures Split(Join(row)) == row
  {
    if |row| == 1 {
      assert Join(row) == row[0];
    } else {
      assert Join(row) == row[0] + [Delimiter] + Join(row[1..]);
      assert Delimiter in Join(row) by {
        assert Join(row)[|row[0]|] == Delimiter;
      }
      SplitAllJoin(row);
    }
  }

  /** Every piece between delimiters is made of characters of the text. */
  lemma {:induction false} SplitAllChars(s: string)
    ensures forall i, c :: 0 <= i < |SplitAll(s)| && c in SplitAll(s)[i] ==> c in s
  {
    if |s| > 0 {
      SplitAllChars(s[1..]);
      assert forall c :: c in s[1..] ==> c in s;
    }
  }

  /** Every non-empty split result of a line is stable, so split/join/split
      is split. */
  lemma SplitIsStable(s: string)
    requires |Split(s)| >= 1 && NoLineBreak(s)
    ensures SplitStable(Split(s))
    ensures Split(Join(Split(s))) == Split(s)
  {
    SplitAllChars(s);
    SplitJoin(Split(s));
  }

  /** Joining fields that hold no line break gives a text that holds none. */
  lemma {:induction false} JoinNoLineBreak(fields: seq<string>)
    requires forall i :: 0 <= i < |fields| ==> FieldOk(fields[i])
    ensures NoLineBreak(Join(fields))
  {
    if |fields| > 1 {
      JoinNoLineBreak(fields[1..]);
      assert FieldOk(fields[0]);
    }
  }
}
