/**
 The text of a timestamp and of a size, as the worker listing prints them.
 */
module Rfc3339 {
  import opened Wrappers
  import opened CivilDate
  import opened Decimals
  import opened ModulePaths

  function Zeros(n: nat): string {
    if n == 0 then "" else "0" + Zeros(n - 1)
  }

  /** `{n:0w}`: at least `w` digits. */
  function Padded(n: nat, w: nat): string {
    var s := Decimal(n);
    Zeros(if |s| < w then w - |s| else 0) + s
  }

  function Format(t: DateTime): string
    requires Valid(t)
  {
    Padded(t.year, 4) + "-" + Padded(t.month, 2) + "-" + Padded(t.day, 2) + "T"
    + Padded(t.hour, 2) + ":" + Padded(t.minute, 2) + ":" + Padded(t.second, 2) + "Z"
  }

  /**
   Section 5.6 of RFC 3339, for a UTC time in whole seconds: four, two and two
   digits, `T`, three times two digits, `Z`; and the ranges of section 5.7.
   */
  function Parse(s: string): Option<DateTime> {
    if |s| != 20 || s[4] != '-' || s[7] != '-' || s[10] != 'T' || s[13] != ':' || s[16] != ':' || s[19] != 'Z' then None
    else
      var (year, month, day) := (Value(s[0..4]), Value(s[5..7]), Value(s[8..10]));
      var (hour, minute, second) := (Value(s[11..13]), Value(s[14..16]), Value(s[17..19]));
      if year.None? || month.None? || day.None? || hour.None? || minute.None? || second.None? then None
      else
        var t := DateTime(year.value, month.value, day.value, hour.value, minute.value, second.value);
        if Valid(t) then Some(t) else None
  }

  lemma {:induction false} ZerosLength(n: nat)
    ensures |Zeros(n)| == n
  {
    if n > 0 { ZerosLength(n - 1); }
  }

  lemma {:induction false} ValueAfterZeros(n: nat, s: string)
    ensures Value(Zeros(n) + s) == Value(s)
    decreases n, |s|
  {
    if s == "" {
      assert Zeros(n) + s == Zeros(n);
      if n > 0 {
        ZerosSnoc(n - 1);
        assert Zeros(n)[..|Zeros(n)| - 1] == Zeros(n - 1);
        assert Zeros(n - 1) + "" == Zeros(n - 1);
        ValueAfterZeros(n - 1, "");
      }
    } else {
      var t := Zeros(n) + s;
      assert t[..|t| - 1] == Zeros(n) + s[..|s| - 1] && t[|t| - 1] == s[|s| - 1];
      ValueAfterZeros(n, s[..|s| - 1]);
    }
  }

  lemma {:induction false} ZerosSnoc(n: nat)
    ensures Zeros(n + 1) == Zeros(n) + "0"
  {
    if n > 0 { ZerosSnoc(n - 1); }
  }

  /** A number is written in `w` digits or fewer exactly when it is below ten to the `w`. */
  lemma DecimalLength(n: nat)
    ensures |Decimal(n)| <= 2 <==> n < 100
    ensures |Decimal(n)| <= 4 <==> n < 10000
  {
    assert |Decimal(n)| == if n < 10 then 1 else |Decimal(n / 10)| + 1;
    assert n >= 10 ==> |Decimal(n / 10)| == if n < 100 then 1 else |Decimal(n / 10 / 10)| + 1;
    assert n >= 100 ==> |Decimal(n / 10 / 10)| == if n < 1000 then 1 else |Decimal(n / 10 / 10 / 10)| + 1;
    assert n >= 1000 ==> |Decimal(n / 10 / 10 / 10)| == if n < 10000 then 1 else |Decimal(n / 10 / 10 / 10 / 10)| + 1;
  }

  lemma PaddedReads(n: nat, w: nat)
    requires w == 2 || w == 4
    ensures Value(Padded(n, w)) == Some(n)
    ensures |Padded(n, w)| == w <==> n < if w == 2 then 100 else 10000
    ensures |Padded(n, w)| >= w
  {
    var s := Decimal(n);
    DecimalLength(n);
    ZerosLength(if |s| < w then w - |s| else 0);
    ValueOfDecimal(n);
    ValueAfterZeros(if |s| < w then w - |s| else 0, s);
  }

  lemma DateStands(y: string, mo: string, d: string)
    requires |y| == 4 && |mo| == 2 && |d| == 2
    ensures var t := y + "-" + mo + "-" + d;
            |t| == 10 && t[0..4] == y && t[4] == '-' && t[5..7] == mo && t[7] == '-' && t[8..10] == d
  {
  }

  lemma TimeStands(date: string, h: string, mi: string)
    requires |date| == 10 && |h| == 2 && |mi| == 2
    ensures var t := date + "T" + h + ":" + mi;
            |t| == 16 && t[..10] == date && t[10] == 'T' && t[11..13] == h && t[13] == ':' && t[14..16] == mi
  {
  }

  lemma EndStands(start: string, s: string)
    requires |start| == 16 && |s| == 2
    ensures var t := start + ":" + s + "Z";
            |t| == 20 && t[..16] == start && t[16] == ':' && t[17..19] == s && t[19] == 'Z'
  {
  }

  lemma SliceOfPrefix(t: string, n: nat, a: nat, b: nat)
    requires a <= b <= n <= |t|
    ensures t[a..b] == t[..n][a..b]
  {
  }

  /** Where each field stands in text put together from its parts. */
  lemma FieldsStand(y: string, mo: string, d: string, h: string, mi: string, s: string)
    requires |y| == 4 && |mo| == 2 && |d| == 2 && |h| == 2 && |mi| == 2 && |s| == 2
    ensures var t := y + "-" + mo + "-" + d + "T" + h + ":" + mi + ":" + s + "Z";
            && |t| == 20 && t[4] == '-' && t[7] == '-' && t[10] == 'T' && t[13] == ':' && t[16] == ':' && t[19] == 'Z'
            && t[0..4] == y && t[5..7] == mo && t[8..10] == d && t[11..13] == h && t[14..16] == mi && t[17..19] == s
  {
    var date := y + "-" + mo + "-" + d;
    var start := date + "T" + h + ":" + mi;
    var t := start + ":" + s + "Z";
    DateStands(y, mo, d);
    TimeStands(date, h, mi);
    EndStands(start, s);
    assert t[..10] == date by { SliceOfPrefix(t, 16, 0, 10); }
    SliceOfPrefix(t, 10, 0, 4);
    SliceOfPrefix(t, 10, 5, 7);
    SliceOfPrefix(t, 10, 8, 10);
    SliceOfPrefix(t, 16, 11, 13);
    SliceOfPrefix(t, 16, 14, 16);
    assert t[4] == t[..10][4] && t[7] == t[..10][7] && t[10] == t[..16][10] && t[13] == t[..16][13];
  }

  lemma ValidFieldsAreShort(t: DateTime)
    requires Valid(t)
    ensures t.month < 100 && t.day < 100 && t.hour < 100 && t.minute < 100 && t.second < 100
  {
  }

  /**
   The text of any second is RFC 3339 exactly up to the year 9999, and then it
   reads back as the same date and time.
   */
  lemma TextReadsBack(secs: nat)
    ensures Valid(FromEpoch(secs))
    ensures Parse(Format(FromEpoch(secs))) == if FromEpoch(secs).year <= 9999 then Some(FromEpoch(secs)) else None
  {
    EpochRoundTrip(secs);
    var t := FromEpoch(secs);
    ValidFieldsAreShort(t);
    PaddedReads(t.year, 4);
    PaddedReads(t.month, 2);
    PaddedReads(t.day, 2);
    PaddedReads(t.hour, 2);
    PaddedReads(t.minute, 2);
    PaddedReads(t.second, 2);
    var (y, mo, d) := (Padded(t.year, 4), Padded(t.month, 2), Padded(t.day, 2));
    var (h, mi, s) := (Padded(t.hour, 2), Padded(t.minute, 2), Padded(t.second, 2));
    if t.year <= 9999 {
      FieldsStand(y, mo, d, h, mi, s);
    } else {
      LongYear(y, mo, d, h, mi, s);
    }
  }

  lemma LongYear(y: string, mo: string, d: string, h: string, mi: string, s: string)
    requires |y| > 4 && |mo| == 2 && |d| == 2 && |h| == 2 && |mi| == 2 && |s| == 2
    ensures |y + "-" + mo + "-" + d + "T" + h + ":" + mi + ":" + s + "Z"| > 20
  {
  }

  // --- sizes ---------------------------------------------------------------------------

  function FormatMib(bytes: nat): string {
    Decimal(bytes / MIB) + "." + Padded(bytes % MIB * 100 / MIB, 2) + " MiB"
  }

  /** The two parts are the size in hundredths of a MiB, rounded down; nothing on the way leaves 64 bits. */
  lemma Hundredths(bytes: nat)
    requires bytes <= U64_MAX
    ensures bytes % MIB * 100 <= U64_MAX
    ensures 0 <= bytes % MIB * 100 / MIB < 100
    ensures bytes / MIB * 100 + bytes % MIB * 100 / MIB == bytes * 100 / MIB
  {
    var (q, r) := (bytes / MIB, bytes % MIB);
    assert bytes == q * MIB + r;
    assert bytes * 100 == q * 100 * MIB + r * 100;
    assert (q * 100 * MIB + r * 100) / MIB == q * 100 + r * 100 / MIB;
  }

  lemma {:induction false} ZerosAreDigits(n: nat)
    ensures forall i :: 0 <= i < |Zeros(n)| ==> IsDigit(Zeros(n)[i])
  {
    if n > 0 { ZerosAreDigits(n - 1); }
  }

  lemma PaddedHasNoDot(n: nat, w: nat)
    ensures !HasDot(Padded(n, w)) && !HasDot(Decimal(n)) && !HasDot(Padded(n, w) + " MiB")
  {
    DecimalIsDigits(n);
    ZerosAreDigits(if |Decimal(n)| < w then w - |Decimal(n)| else 0);
  }

  /** The whole and the hundredths a text of a size shows, up to and after its dot. */
  function ReadMib(text: string): Option<(int, int)> {
    var parts := Split(text);
    if |parts| != 2 || |parts[1]| != 6 || parts[1][2..] != " MiB" then None
    else
      var (whole, part) := (Value(parts[0]), Value(parts[1][..2]));
      if whole.None? || part.None? then None else Some((whole.value, part.value))
  }

  /** The text of a size reads back as its hundredths of a MiB, rounded down. */
  lemma MibReadsBack(bytes: nat)
    requires bytes <= U64_MAX
    ensures bytes % MIB * 100 <= U64_MAX
    ensures var read := ReadMib(FormatMib(bytes));
            read.Some? && 0 <= read.value.1 < 100 && 100 * read.value.0 + read.value.1 == bytes * 100 / MIB
  {
    var (q, h) := (bytes / MIB, bytes % MIB * 100 / MIB);
    Hundredths(bytes);
    MibParts(q, h);
  }

  lemma MibParts(q: nat, h: nat)
    requires h < 100
    ensures ReadMib(Decimal(q) + "." + Padded(h, 2) + " MiB") == Some((q, h))
  {
    var (whole, part) := (Decimal(q), Padded(h, 2));
    PaddedReads(h, 2);
    ValueOfDecimal(q);
    PaddedHasNoDot(q, 2);
    PaddedHasNoDot(h, 2);
    SplitAtDot(whole, part + " MiB");
    SplitPlain(part + " MiB");
    assert whole + "." + part + " MiB" == whole + "." + (part + " MiB");
    assert (part + " MiB")[2..] == " MiB" && (part + " MiB")[..2] == part;
  }
}
