/** The server's log sink: per-level visibility masks for the console and the log file,
    timestamp and line formatting, and the queue that carries file lines to the write
    stream, including the synchronous flush that runs when the process terminates. */
module LogHandler {
  import opened JsBuiltins

  // ---------------------------------------------------------------------------------------
  // Decimal numerals

  predicate IsDigit(c: char)
  {
    '0' <= c <= '9'
  }

  predicate AllDigits(s: string)
  {
    forall i :: 0 <= i < |s| ==> IsDigit(s[i])
  }

  function Pow10(k: nat): (p: nat)
    ensures p >= 1
  {
    if k == 0 then 1 else 10 * Pow10(k - 1)
  }

  function DigitChar(k: nat): (c: char)
    requires k < 10
    ensures IsDigit(c) && c as int - '0' as int == k
  {
    ('0' as int + k) as char
  }

  /** The number a string of decimal digits denotes (the empty string denotes 0). */
  function DecimalValue(s: string): (v: nat)
    requires AllDigits(s)
    decreases |s|
  {
    if |s| == 0 then 0
    else DecimalValue(s[..|s| - 1]) * 10 + (s[|s| - 1] as int - '0' as int)
  }

  /** `String(n)` for a non-negative integer: the shortest decimal numeral denoting `n`. */
  function NatToDecimal(n: nat): (r: string)
    ensures |r| >= 1
    decreases n
  {
    if n < 10 then [DigitChar(n)] else NatToDecimal(n / 10) + [DigitChar(n % 10)]
  }

  /** The numeral of `n` consists of digits, denotes `n`, and has no superfluous leading
      zero. */
  lemma {:induction false} NatToDecimalDigits(n: nat)
    ensures AllDigits(NatToDecimal(n))
    ensures DecimalValue(NatToDecimal(n)) == n
    ensures NatToDecimal(n)[0] == '0' ==> NatToDecimal(n) == "0"
    decreases n
  {
    if n >= 10 {
      var r := NatToDecimal(n);
      NatToDecimalDigits(n / 10);
      assert r[..|r| - 1] == NatToDecimal(n / 10);
      assert r[0] == NatToDecimal(n / 10)[0];
    }
  }

  /** `String(i)` for an integer: a minus sign in front of the numeral of a negative value. */
  function IntToDecimal(i: int): (r: string)
    ensures |r| >= 1
  {
    if i < 0 then "-" + NatToDecimal(-i) else NatToDecimal(i)
  }

  /** The printed integer is a minus sign exactly for negative values, followed by the
      digits of the magnitude. */
  lemma IntToDecimalDigits(i: int)
    ensures IntToDecimal(i)[0] == '-' <==> i < 0
    ensures i >= 0 ==> AllDigits(IntToDecimal(i)) && DecimalValue(IntToDecimal(i)) == i
    ensures i < 0 ==> AllDigits(IntToDecimal(i)[1..]) && DecimalValue(IntToDecimal(i)[1..]) == -i
  {
    if i < 0 {
      NatToDecimalDigits(-i);
      assert IntToDecimal(i)[1..] == NatToDecimal(-i);
    } else {
      NatToDecimalDigits(i);
    }
  }

  /** Distinct integers print differently. */
  lemma IntToDecimalInjective(a: int, b: int)
    requires IntToDecimal(a) == IntToDecimal(b)
    ensures a == b
  {
    IntToDecimalDigits(a);
    IntToDecimalDigits(b);
    if a < 0 && b < 0 {
      assert IntToDecimal(a)[1..] == IntToDecimal(b)[1..];
    }
  }

  /** A numeral is read back as the number it was printed from, and a digit string without
      a superfluous leading zero is printed back as it was read. */
  lemma {:induction false} DecimalCanonical(s: string)
    requires |s| >= 1 && AllDigits(s) && (s[0] == '0' ==> |s| == 1)
    ensures NatToDecimal(DecimalValue(s)) == s
    decreases |s|
  {
    var n := |s| - 1;
    var d := s[n] as int - '0' as int;
    if n == 0 {
      assert [DigitChar(d)] == s;
    } else {
      var init := s[..n];
      assert init[0] == s[0];
      DecimalCanonical(init);
      DecimalLeadingValue(init);
      var v := DecimalValue(s);
      assert v == DecimalValue(init) * 10 + d;
      assert v / 10 == DecimalValue(init) && v % 10 == d;
      assert s == init + [s[n]];
    }
  }

  /** A digit string whose first digit is not zero, and which has at least two digits,
      denotes at least 1. */
  lemma {:induction false} DecimalLeadingValue(s: string)
    requires |s| >= 1 && AllDigits(s) && s[0] != '0'
    ensures DecimalValue(s) >= 1
    decreases |s|
  {
    if |s| > 1 {
      var init := s[..|s| - 1];
      assert init[0] == s[0];
      DecimalLeadingValue(init);
    }
  }

  /** Concatenating digit strings multiplies the value of the first by the weight of the
      second's length. */
  lemma {:induction false} DecimalAppend(a: string, b: string)
    requires AllDigits(a) && AllDigits(b)
    ensures AllDigits(a + b)
    ensures DecimalValue(a + b) == DecimalValue(a) * Pow10(|b|) + DecimalValue(b)
    decreases |b|
  {
    if |b| == 0 {
      assert a + b == a;
    } else {
      var n := |b| - 1;
      var c := b[n] as int - '0' as int;
      DecimalAppend(a, b[..n]);
      assert (a + b)[..|a + b| - 1] == a + b[..n];
      calc {
        DecimalValue(a + b);
        DecimalValue(a + b[..n]) * 10 + c;
        (DecimalValue(a) * Pow10(n) + DecimalValue(b[..n])) * 10 + c;
        { MulAssoc(DecimalValue(a), Pow10(n), 10); }
        DecimalValue(a) * Pow10(|b|) + DecimalValue(b);
      }
    }
  }

  lemma MulAssoc(x: nat, y: nat, z: nat)
    ensures (x * y) * z == x * (z * y)
  {
  }

  /** A string of `k` digits denotes less than 10^k. */
  lemma {:induction false} DecimalBound(s: string)
    requires AllDigits(s)
    ensures DecimalValue(s) < Pow10(|s|)
    decreases |s|
  {
    if |s| > 0 {
      DecimalBound(s[..|s| - 1]);
    }
  }

  /** The last `k` digits of a digit string denote its value modulo 10^k. */
  lemma SuffixValue(s: string, k: nat)
    requires AllDigits(s) && k <= |s|
    ensures AllDigits(s[|s| - k..])
    ensures DecimalValue(s[|s| - k..]) == DecimalValue(s) % Pow10(k)
  {
    var a, b := s[..|s| - k], s[|s| - k..];
    assert a + b == s;
    DecimalAppend(a, b);
    DecimalBound(b);
    assert |b| == k;
    var x, y, p := DecimalValue(a), DecimalValue(b), Pow10(k);
    assert DecimalValue(s) == (x as int) * (p as int) + y;
    RemainderOf(DecimalValue(s), x, y, p);
  }

  /** A value written as `x * p + y` with `0 <= y < p` leaves `y` modulo `p`. */
  lemma RemainderOf(v: int, x: nat, y: nat, p: nat)
    requires 0 <= y < p && v == x * p + y
    ensures v % p == y
  {
    ModOfMulAdd(x, y, p);
  }

  lemma ModOfMulAdd(x: nat, y: nat, p: nat)
    requires 0 <= y < p
    ensures (x * p + y) % p == y
  {
    var a := x * p + y;
    var q, m := a / p, a % p;
    assert a == q * p + m;
    var k := x - q;
    assert k * p == m - y;
    if k >= 1 {
      MulAtLeast(k, p);
    } else if k <= -1 {
      MulAtLeast(-k, p);
    }
  }

  lemma {:induction false} MulAtLeast(k: int, p: nat)
    requires k >= 1
    ensures k * p >= p
    decreases k
  {
    if k > 1 {
      MulAtLeast(k - 1, p);
      assert k * p == (k - 1) * p + p;
    }
  }

  function Zeros(k: nat): (r: string)
    ensures |r| == k
  {
    if k == 0 then "" else Zeros(k - 1) + "0"
  }

  lemma {:induction false} ZerosDigits(k: nat)
    ensures AllDigits(Zeros(k)) && DecimalValue(Zeros(k)) == 0
  {
    if k > 0 {
      ZerosDigits(k - 1);
      assert Zeros(k)[..k - 1] == Zeros(k - 1);
    }
  }

  /** `s.slice(-k)` for a positive `k`: the last `k` characters, or all of `s` when it is
      shorter. */
  function SliceFromEnd(s: string, k: nat): (r: string)
    requires k > 0
    ensures |r| == if |s| < k then |s| else k
  {
    var start := if |s| - k < 0 then 0 else |s| - k;
    s[start..]
  }

  /** `("00" + n).slice(-2)` and `("000" + n).slice(-3)`: `n` zero-padded to `width` digits,
      keeping only the last `width` digits when `n` is wider. */
  function Pad(n: nat, width: nat): string
    requires width > 0
  {
    SliceFromEnd(Zeros(width) + NatToDecimal(n), width)
  }

  /** The zero-prefixed numeral that `slice` cuts from denotes `n`. */
  lemma ZeroPrefixedValue(n: nat, width: nat)
    ensures AllDigits(Zeros(width) + NatToDecimal(n))
    ensures DecimalValue(Zeros(width) + NatToDecimal(n)) == n
  {
    var z, t := Zeros(width), NatToDecimal(n);
    NatToDecimalDigits(n);
    ZerosDigits(width);
    DecimalAppend(z, t);
    ZeroTimes(DecimalValue(z), Pow10(|t|));
  }

  lemma ZeroTimes(x: nat, p: nat)
    requires x == 0
    ensures x * p == 0
  {
  }

  /** Padding always gives exactly `width` digits, denoting `n` modulo 10^width. */
  lemma PadDigits(n: nat, width: nat)
    requires width > 0
    ensures |Pad(n, width)| == width && AllDigits(Pad(n, width))
    ensures DecimalValue(Pad(n, width)) == n % Pow10(width)
  {
    var s := Zeros(width) + NatToDecimal(n);
    ZeroPrefixedValue(n, width);
    assert Pad(n, width) == s[|s| - width..];
    SuffixValue(s, width);
  }

  /** A value that fits in `width` digits is padded to digits denoting exactly it. */
  lemma PadFits(n: nat, width: nat)
    requires width > 0 && n < Pow10(width)
    ensures AllDigits(Pad(n, width)) && DecimalValue(Pad(n, width)) == n
  {
    PadDigits(n, width);
    ModOfMulAdd(0, n, Pow10(width));
  }

  lemma PadLength(n: nat, width: nat)
    requires width > 0
    ensures |Pad(n, width)| == width
  {
  }

  /** Values that fit in `width` digits pad to distinct strings. */
  lemma PadInjective(n: nat, m: nat, width: nat)
    requires width > 0 && n < Pow10(width) && m < Pow10(width) && Pad(n, width) == Pad(m, width)
    ensures n == m
  {
    PadFits(n, width);
    PadFits(m, width);
  }

  /** In `a`, separator, `c`, separator, `f`, each piece sits at the offset the lengths of
      the earlier pieces give. */
  lemma Pieces(a: string, s1: char, c: string, s2: char, f: string)
    ensures var t := a + [s1] + c + [s2] + f;
            |t| == |a| + |c| + |f| + 2 && t[..|a|] == a && t[|a|] == s1 &&
            t[|a| + 1..|a| + 1 + |c|] == c && t[|a| + 1 + |c|] == s2 && t[|a| + 2 + |c|..] == f
  {
    var t := a + [s1] + c + [s2] + f;
    assert t[|a| + 2 + |c|..] == f;
    assert t[|a| + 1..|a| + 1 + |c|] == c;
  }

  // ---------------------------------------------------------------------------------------
  // Timestamps

  /** The components a JavaScript `Date` reports in local time: `month` is 0-based as
      `getMonth` gives it. */
  datatype Date = Date(year: int, month: nat, day: nat, hours: nat, minutes: nat,
                       seconds: nat, milliseconds: nat)

  /** The ranges a `Date` keeps its components in. */
  predicate InRange(d: Date)
  {
    d.month < 12 && 1 <= d.day <= 31 && d.hours < 24 && d.minutes < 60 && d.seconds < 60 &&
    d.milliseconds < 1000
  }

  /** `Y-MM-DD`, the year unpadded and the month counted from 1: the part `dateTime` and
      `filename` share. */
  function CalendarDate(d: Date): string
  {
    IntToDecimal(d.year) + "-" + Pad(d.month + 1, 2) + "-" + Pad(d.day, 2)
  }

  /** `HH<sep>MM<sep>SS`: the clock part of `time` (with ':') and of `filename` (with '-'). */
  function Clock(d: Date, sep: char): string
  {
    Pad(d.hours, 2) + [sep] + Pad(d.minutes, 2) + [sep] + Pad(d.seconds, 2)
  }

  /** `time(date)`: `HH:MM:SS`. */
  function Time(d: Date): string
  {
    Clock(d, ':')
  }

  /** `dateTime(date)`: `Y-MM-DD HH:MM:SS.mmm`. */
  function DateTime(d: Date): string
  {
    CalendarDate(d) + " " + Time(d) + "." + Pad(d.milliseconds, 3)
  }

  /** `filename(date)`: `Y-MM-DDTHH-MM-SS.log`. */
  function Filename(d: Date): string
  {
    CalendarDate(d) + "T" + Clock(d, '-') + ".log"
  }

  /** The clock layout: three two-digit fields at offsets 0, 3 and 6, separated by `sep`. */
  lemma ClockLayout(d: Date, sep: char)
    ensures |Clock(d, sep)| == 8 && Clock(d, sep)[2] == sep && Clock(d, sep)[5] == sep
    ensures Clock(d, sep)[0..2] == Pad(d.hours, 2)
    ensures Clock(d, sep)[3..5] == Pad(d.minutes, 2)
    ensures Clock(d, sep)[6..8] == Pad(d.seconds, 2)
  {
    var h, m := Pad(d.hours, 2), Pad(d.minutes, 2);
    PadLength(d.hours, 2);
    PadLength(d.minutes, 2);
    PadLength(d.seconds, 2);
    Pieces(h, sep, m, sep, Pad(d.seconds, 2));
    assert |h| + 1 + |m| == 5;
  }

  /** The calendar layout: the year as printed, then '-', two month digits, '-' and two day
      digits. */
  lemma CalendarDateLayout(d: Date)
    ensures var y := IntToDecimal(d.year);
            |CalendarDate(d)| == |y| + 6 && CalendarDate(d)[..|y|] == y &&
            CalendarDate(d)[|y|] == '-' && CalendarDate(d)[|y| + 1..|y| + 3] == Pad(d.month + 1, 2) &&
            CalendarDate(d)[|y| + 3] == '-' && CalendarDate(d)[|y| + 4..] == Pad(d.day, 2)
  {
    PadLength(d.month + 1, 2);
    PadLength(d.day, 2);
    var y, mo := IntToDecimal(d.year), Pad(d.month + 1, 2);
    Pieces(y, '-', mo, '-', Pad(d.day, 2));
    assert |y| + 1 + |mo| == |y| + 3 && |y| + 2 + |mo| == |y| + 4;
  }

  /** The timestamp layout: the calendar date, ' ', `time(date)`, '.', and three millisecond
      digits; so the timestamp of every line embeds the `time` of the same date. */
  lemma DateTimeLayout(d: Date)
    ensures var c := CalendarDate(d);
            |DateTime(d)| == |c| + 13 && DateTime(d)[..|c|] == c && DateTime(d)[|c|] == ' ' &&
            DateTime(d)[|c| + 1..|c| + 9] == Time(d) && DateTime(d)[|c| + 9] == '.' &&
            DateTime(d)[|c| + 10..] == Pad(d.milliseconds, 3)
  {
    ClockLayout(d, ':');
    PadLength(d.milliseconds, 3);
    var c := CalendarDate(d);
    Pieces(c, ' ', Time(d), '.', Pad(d.milliseconds, 3));
    assert |c| + 1 + |Time(d)| == |c| + 9 && |c| + 2 + |Time(d)| == |c| + 10;
  }

  /** The log file name layout: the calendar date, 'T', the clock with '-' separators, and
      the `.log` extension. */
  lemma FilenameLayout(d: Date)
    ensures var c := CalendarDate(d);
            |Filename(d)| == |c| + 13 && Filename(d)[..|c|] == c && Filename(d)[|c|] == 'T' &&
            Filename(d)[|c| + 1..|c| + 9] == Clock(d, '-') && Filename(d)[|c| + 9..] == ".log"
  {
    ClockLayout(d, '-');
    var c := CalendarDate(d);
    Pieces(c, 'T', Clock(d, '-'), '.', "log");
    assert |c| + 1 + |Clock(d, '-')| == |c| + 9 && |c| + 2 + |Clock(d, '-')| == |c| + 10;
    assert Filename(d)[|c| + 9..] == ['.'] + Filename(d)[|c| + 10..];
  }

  /** Two calendar dates spelled from two-digit fields agree only when their years, months
      and days are spelled alike. */
  lemma CalendarFieldsInjective(y1: string, m1: string, dd1: string,
                                y2: string, m2: string, dd2: string)
    requires |m1| == 2 && |dd1| == 2 && |m2| == 2 && |dd2| == 2
    requires y1 + "-" + m1 + "-" + dd1 == y2 + "-" + m2 + "-" + dd2
    ensures y1 == y2 && m1 == m2 && dd1 == dd2
  {
    Pieces(y1, '-', m1, '-', dd1);
    Pieces(y2, '-', m2, '-', dd2);
    assert |y1| == |y2|;
  }

  /** Equal calendar dates are made of equal year, month and day numerals. */
  lemma CalendarDateParts(d1: Date, d2: Date)
    requires CalendarDate(d1) == CalendarDate(d2)
    ensures IntToDecimal(d1.year) == IntToDecimal(d2.year)
    ensures Pad(d1.month + 1, 2) == Pad(d2.month + 1, 2) && Pad(d1.day, 2) == Pad(d2.day, 2)
  {
    PadLength(d1.month + 1, 2);
    PadLength(d1.day, 2);
    PadLength(d2.month + 1, 2);
    PadLength(d2.day, 2);
    CalendarFieldsInjective(IntToDecimal(d1.year), Pad(d1.month + 1, 2), Pad(d1.day, 2),
                            IntToDecimal(d2.year), Pad(d2.month + 1, 2), Pad(d2.day, 2));
  }

  /** Dates in range print distinct calendar dates unless year, month and day agree. */
  lemma CalendarDateInjective(d1: Date, d2: Date)
    requires InRange(d1) && InRange(d2) && CalendarDate(d1) == CalendarDate(d2)
    ensures d1.year == d2.year && d1.month == d2.month && d1.day == d2.day
  {
    CalendarDateParts(d1, d2);
    IntToDecimalInjective(d1.year, d2.year);
    assert Pow10(2) == 100;
    PadInjective(d1.month + 1, d2.month + 1, 2);
    PadInjective(d1.day, d2.day, 2);
  }

  /** Dates in range print distinct clocks unless hours, minutes and seconds agree. */
  lemma ClockInjective(d1: Date, d2: Date, sep: char)
    requires InRange(d1) && InRange(d2) && Clock(d1, sep) == Clock(d2, sep)
    ensures d1.hours == d2.hours && d1.minutes == d2.minutes && d1.seconds == d2.seconds
  {
    ClockLayout(d1, sep);
    ClockLayout(d2, sep);
    assert Pow10(2) == 100;
    PadInjective(d1.hours, d2.hours, 2);
    PadInjective(d1.minutes, d2.minutes, 2);
    PadInjective(d1.seconds, d2.seconds, 2);
  }

  /** Dates in range print distinct timestamps: the timestamp determines every component. */
  lemma DateTimeInjective(d1: Date, d2: Date)
    requires InRange(d1) && InRange(d2) && DateTime(d1) == DateTime(d2)
    ensures d1 == d2
  {
    var c1, c2 := CalendarDate(d1), CalendarDate(d2);
    DateTimeLayout(d1);
    DateTimeLayout(d2);
    assert c1 == DateTime(d1)[..|c1|] && c2 == DateTime(d2)[..|c2|];
    CalendarDateInjective(d1, d2);
    ClockInjective(d1, d2, ':');
    assert Pow10(3) == 1000;
    PadInjective(d1.milliseconds, d2.milliseconds, 3);
  }

  /** Dates in range get distinct log file names unless they differ only in their
      milliseconds. */
  lemma FilenameInjective(d1: Date, d2: Date)
    requires InRange(d1) && InRange(d2) && Filename(d1) == Filename(d2)
    ensures d1.(milliseconds := 0) == d2.(milliseconds := 0)
  {
    var c1, c2 := CalendarDate(d1), CalendarDate(d2);
    FilenameLayout(d1);
    FilenameLayout(d2);
    assert c1 == Filename(d1)[..|c1|] && c2 == Filename(d2)[..|c2|];
    CalendarDateInjective(d1, d2);
    ClockInjective(d1, d2, '-');
  }

  /** Within a timestamp followed by anything, the year's own characters after the first
      are digits and the character right after the year is '-'. */
  lemma YearThenDash(d: Date, s: string, k: nat)
    requires 1 <= k <= |IntToDecimal(d.year)|
    ensures var y := IntToDecimal(d.year);
            (DateTime(d) + s)[k] == '-' <==> k == |y|
  {
    var y, c := IntToDecimal(d.year), CalendarDate(d);
    CalendarDateLayout(d);
    DateTimeLayout(d);
    IntToDecimalDigits(d.year);
    assert (DateTime(d) + s)[k] == c[k];
    if k < |y| {
      assert c[k] == y[k];
      if d.year < 0 {
        assert y[k] == y[1..][k - 1];
      }
    }
  }

  /** A timestamp followed by ' ' is never a proper prefix of another such timestamp: a string
      starting with the timestamp of an in-range date determines the date and the rest. */
  lemma DateTimePrefixUnique(d1: Date, d2: Date, s1: string, s2: string)
    requires InRange(d1) && InRange(d2) && DateTime(d1) + s1 == DateTime(d2) + s2
    ensures d1 == d2 && s1 == s2
  {
    var y1, y2 := IntToDecimal(d1.year), IntToDecimal(d2.year);
    var t := DateTime(d1) + s1;
    if |y1| < |y2| {
      YearThenDash(d1, s1, |y1|);
      YearThenDash(d2, s2, |y1|);
      assert false;
    } else if |y2| < |y1| {
      YearThenDash(d2, s2, |y2|);
      YearThenDash(d1, s1, |y2|);
      assert false;
    }
    CalendarDateLayout(d1);
    CalendarDateLayout(d2);
    DateTimeLayout(d1);
    DateTimeLayout(d2);
    var n := |DateTime(d1)|;
    assert DateTime(d1) == t[..n] == DateTime(d2);
    DateTimeInjective(d1, d2);
    assert s1 == t[n..] == s2;
  }

  // ---------------------------------------------------------------------------------------
  // Levels and lines

  /** The levels the logger emits, each written in its line under its upper-case name. */
  datatype Level = Print | File | Debug | Access | Info | Warn | Error | Fatal

  /** The name each level is passed to `write` under, which is also its key in the masks
      and appears in a line's tag. */
  function Name(level: Level): string
  {
    match level
    case Print => "PRINT"
    case File => "FILE"
    case Debug => "DEBUG"
    case Access => "ACCESS"
    case Info => "INFO"
    case Warn => "WARN"
    case Error => "ERROR"
    case Fatal => "FATAL"
  }

  /** Distinct levels have distinct names, so the tag in a line identifies its level. */
  lemma NameInjective(a: Level, b: Level)
    requires Name(a) == Name(b)
    ensures a == b
  {
  }

  /** `settings.showingConsole[level]`: which levels are echoed to the console. */
  predicate ShowingConsole(level: Level)
  {
    match level
    case Print => true
    case File => false
    case Debug => false
    case Access => false
    case Info => true
    case Warn => true
    case Error => true
    case Fatal => true
  }

  /** `settings.showingFile[level]`: which levels are written to the log file. */
  predicate ShowingFile(level: Level)
  {
    match level
    case Print => true
    case File => true
    case Debug => true
    case Access => true
    case Info => true
    case Warn => true
    case Error => true
    case Fatal => true
  }

  /** Every level goes to the file, and the levels that reach the file but not the console
      are exactly FILE, DEBUG and ACCESS. */
  lemma Visibility(level: Level)
    ensures ShowingFile(level)
    ensures ShowingConsole(level) ==> ShowingFile(level)
    ensures !ShowingConsole(level) <==> level == File || level == Debug || level == Access
  {
  }

  /** The levels whose lines carry no timestamp or level tag of their own. */
  predicate Bare(level: Level)
  {
    level == Print || level == File
  }

  /** `formatConsole(date, level, message)`, given `dateTime(date)` as `stamp`: the date
      enters the line only through that rendering. */
  function FormatConsole(stamp: string, level: Level, message: string): string
  {
    if Bare(level) then message else stamp + " [" + Name(level) + "] " + message
  }

  /** `formatFile(date, level, message)`, given `dateTime(date)` as `stamp`. */
  function FormatFile(stamp: string, level: Level, message: string): string
  {
    if Bare(level) then stamp + " " + message else stamp + " [" + Name(level) + "] " + message
  }

  /** The line terminator, `os.EOL` on a POSIX host. */
  const EOL := "\n"

  /** The text `write` queues for the file: the file form and the line terminator. */
  function FileLine(stamp: string, level: Level, message: string): string
  {
    FormatFile(stamp, level, message) + EOL
  }

  /** What follows the timestamp in a file line. */
  function AfterTimestamp(level: Level, message: string): (r: string)
    ensures |r| > |message| && r[0] == ' ' && r[|r| - |message|..] == message
  {
    var r := if Bare(level) then " " + message else " [" + Name(level) + "] " + message;
    assert r[|r| - |message|..] == message;
    r
  }

  /** Regrouping a concatenation of five strings after its first. */
  lemma RegroupAfterFirst(a: string, b: string, c: string, d: string, e: string)
    ensures a + b + c + d + e == a + (b + c + d + e)
  {
    AppendAssoc(a, b + c + d, e);
    AppendAssoc(a, b + c, d);
    AppendAssoc(a, b, c);
  }

  /** The file form is the timestamp followed by the level tag (unless the level is bare) and
      the message; the console form is the message alone for a bare level and the file form
      otherwise. */
  lemma FormatShapes(stamp: string, level: Level, message: string)
    ensures FormatFile(stamp, level, message) == stamp + AfterTimestamp(level, message)
    ensures Bare(level) ==> FormatConsole(stamp, level, message) == message
    ensures Bare(level) ==> FormatFile(stamp, level, message) == stamp + " " + message
    ensures !Bare(level) ==> FormatConsole(stamp, level, message) == FormatFile(stamp, level, message)
  {
    if !Bare(level) {
      RegroupAfterFirst(stamp, " [", Name(level), "] ", message);
    }
  }

  /** Every console and file form ends with the message; every file form starts with the
      timestamp and a space. */
  lemma FormatsFrameMessage(stamp: string, level: Level, message: string)
    ensures var f := FormatFile(stamp, level, message);
            |f| > |stamp| + |message| && f[..|stamp|] == stamp &&
            f[|stamp|] == ' ' && f[|f| - |message|..] == message
    ensures var c := FormatConsole(stamp, level, message);
            |c| >= |message| && c[|c| - |message|..] == message
  {
    FormatShapes(stamp, level, message);
    var a := AfterTimestamp(level, message);
    var f := stamp + a;
    assert f[|f| - |message|..] == a[|a| - |message|..];
  }

  /** A file line is its timestamp followed by the rest of the line. */
  lemma FileLineSplits(stamp: string, level: Level, message: string)
    ensures FileLine(stamp, level, message) == stamp + (AfterTimestamp(level, message) + EOL)
  {
    FormatShapes(stamp, level, message);
    AppendAssoc(stamp, AfterTimestamp(level, message), EOL);
  }

  /** After the timestamp, a file line of a known level determines its message. */
  lemma AfterTimestampInjective(level: Level, m1: string, m2: string)
    requires AfterTimestamp(level, m1) + EOL == AfterTimestamp(level, m2) + EOL
    ensures m1 == m2
  {
    var a1, a2 := AfterTimestamp(level, m1), AfterTimestamp(level, m2);
    assert a1 == (a1 + EOL)[..|a1|] == (a2 + EOL)[..|a2|] == a2;
    if Bare(level) {
      assert m1 == a1[1..] && m2 == a2[1..];
    } else {
      var tag := " [" + Name(level) + "] ";
      assert a1 == tag + m1 && a2 == tag + m2;
      assert m1 == a1[|tag|..] && m2 == a2[|tag|..];
    }
  }

  /** Two file lines of one level stamped with in-range dates are equal only when their
      dates and messages are. */
  lemma FileLineInjective(d1: Date, d2: Date, level: Level, m1: string, m2: string)
    requires InRange(d1) && InRange(d2)
    requires FileLine(DateTime(d1), level, m1) == FileLine(DateTime(d2), level, m2)
    ensures d1 == d2 && m1 == m2
  {
    FileLineSplits(DateTime(d1), level, m1);
    FileLineSplits(DateTime(d2), level, m2);
    DateTimePrefixUnique(d1, d2, AfterTimestamp(level, m1) + EOL, AfterTimestamp(level, m2) + EOL);
    AfterTimestampInjective(level, m1, m2);
  }

  // ---------------------------------------------------------------------------------------
  // The sink

  /** `x || ""` for the in-flight chunk: nothing when there is none. */
  function OrEmpty(x: Option<string>): string
  {
    if x.Some? then x.value else ""
  }

  /** Joining with "" after pushing one line appends that line. */
  lemma JoinPush(q: seq<string>, line: string)
    ensures Join(q + [line], "") == Join(q, "") + line
  {
    JoinEmptyAppend(q, [line]);
  }

  /** Two pushes append a two-element array. */
  lemma PushTwo<T>(s: seq<T>, a: T, b: T)
    ensures s + [a] + [b] == s + [a, b]
  {
    AppendAssoc(s, [a], [b]);
    assert [a] + [b] == [a, b];
  }

  /** What the flush appends after two more lines were queued: the earlier text, then the
      two lines in the order they were queued. */
  lemma TailAfterPushes(x: string, q: seq<string>, a: string, b: string)
    ensures x + Join(q + [a, b], "") == x + Join(q, "") + a + b
  {
    PushTwo(q, a, b);
    JoinPush(q, a);
    JoinPush(q + [a], b);
    AppendAssoc(x, Join(q, "") + a, b);
    AppendAssoc(x, Join(q, ""), a);
  }

  /** Pushing the same line onto the queue and onto the record of file lines keeps the
      record equal to what the stream and the queue hold, in that order. */
  lemma PushKeepsOrder(chunks: seq<string>, q: seq<string>, lines: seq<string>, line: string)
    requires Join(chunks, "") + Join(q, "") == Join(lines, "")
    ensures Join(chunks, "") + Join(q + [line], "") == Join(lines + [line], "")
  {
    JoinPush(q, line);
    JoinPush(lines, line);
    AppendAssoc(Join(chunks, ""), Join(q, ""), line);
  }

  /** Issuing the joined queue as one more chunk and emptying the queue keeps the record
      equal to what the stream and the queue hold. */
  lemma IssueKeepsOrder(chunks: seq<string>, q: seq<string>, lines: seq<string>)
    requires Join(chunks, "") + Join(q, "") == Join(lines, "")
    ensures Join(chunks + [Join(q, "")], "") + Join([], "") == Join(lines, "")
  {
    var j := Join(q, "");
    JoinEmptyAppend(chunks, [j]);
    assert Join([j], "") == j && Join([], "") == "";
    assert Join(chunks, "") + j + "" == Join(chunks, "") + j;
  }

  /** The logger's module state: the file queue, the chunk in flight, the two mode flags, the
      write stream as the chunks issued to it, and what the synchronous flush appended to the
      file. The ghost fields record the console output and every file-bound line in call
      order. */
  class LogSink {
    var fqueue: seq<string>
    var fconsuming: Option<string>
    var fprocessing: bool
    var synchronous: bool
    /** Whether `fstream` is still the write stream; the synchronous flush destroys it. */
    var streamOpen: bool
    /** The chunks handed to `fstream.write`, in order. */
    var streamChunks: seq<string>
    /** What `appendFileSync` added to the file. */
    var appended: string
    ghost var console: seq<string>
    ghost var fileLines: seq<string>

    /** The state `fprocess` may be entered in, which `write` passes through after a push:
        while the stream is open, nothing has been appended to the file, the chunk in flight
        is the last one issued, and the file lines reach the stream, then the queue, in call
        order. */
    ghost predicate Ordered()
      reads this
    {
      !fprocessing &&
      (!streamOpen ==> synchronous) &&
      (streamOpen ==> appended == "") &&
      (streamOpen && fconsuming.Some? ==>
         |streamChunks| > 0 && fconsuming.value == streamChunks[|streamChunks| - 1]) &&
      (streamOpen ==> Join(streamChunks, "") + Join(fqueue, "") == Join(fileLines, ""))
    }

    /** Between calls: outside synchronous mode nothing waits in the queue. */
    ghost predicate Valid()
      reads this
    {
      Ordered() && (!synchronous ==> fqueue == [])
    }

    /** The state right after the module loads: an open stream and nothing written. */
    constructor ()
      ensures Valid() && !synchronous && streamOpen
      ensures fqueue == [] && fconsuming == None && streamChunks == [] && appended == ""
      ensures console == [] && fileLines == []
    {
      fqueue := [];
      fconsuming := None;
      fprocessing := false;
      synchronous := false;
      streamOpen := true;
      streamChunks := [];
      appended := "";
      console := [];
      fileLines := [];
    }

    /** `fprocess()`, also run as the stream's write-completion callback: clears the chunk in
        flight and, if lines are queued, joins them into one chunk, issues it and empties the
        queue. Once the stream is gone, issuing a chunk throws, which `ok == false` reports. */
    method Fprocess() returns (ok: bool)
      requires Ordered()
      modifies this
      ensures Valid() && !fprocessing
      ensures ok <==> streamOpen || old(fqueue) == []
      ensures old(fqueue) == [] ==>
                fconsuming == None && fqueue == [] && streamChunks == old(streamChunks)
      ensures old(fqueue) != [] ==> fconsuming == Some(Join(old(fqueue), ""))
      ensures old(fqueue) != [] && ok ==>
                fqueue == [] && streamChunks == old(streamChunks) + [Join(old(fqueue), "")]
      ensures !ok ==> fqueue == old(fqueue) && streamChunks == old(streamChunks)
      ensures synchronous == old(synchronous) && streamOpen == old(streamOpen)
      ensures appended == old(appended) && console == old(console) && fileLines == old(fileLines)
    {
      fconsuming := None;
      if |fqueue| == 0 {
        fprocessing := false;
        return true;
      }
      var chunk := Join(fqueue, "");
      fconsuming := Some(chunk);
      if !streamOpen {
        return false;
      }
      IssueKeepsOrder(streamChunks, fqueue, fileLines);
      streamChunks := streamChunks + [chunk];
      fqueue := [];
      fprocessing := false;
      ok := true;
    }

    /** The file half of `write`: queues one line and, outside synchronous mode, sends it to
        the stream at once. */
    method Enqueue(line: string)
      requires Valid()
      modifies this
      ensures Valid()
      ensures fileLines == old(fileLines) + [line] && console == old(console)
      ensures synchronous == old(synchronous) && streamOpen == old(streamOpen) && appended == old(appended)
      ensures synchronous ==>
                fqueue == old(fqueue) + [line] && fconsuming == old(fconsuming) &&
                streamChunks == old(streamChunks)
      ensures !synchronous ==>
                fqueue == [] && fconsuming == Some(line) && streamChunks == old(streamChunks) + [line]
    {
      if streamOpen {
        PushKeepsOrder(streamChunks, fqueue, fileLines, line);
      }
      fqueue := fqueue + [line];
      fileLines := fileLines + [line];
      if !fprocessing && !synchronous {
        assert fqueue == [line];
        var ok := Fprocess();
      }
    }

    /** `write(date, level, message)`: echoes the console form if the level shows on the
        console; if it shows in the file, queues the file line and, outside synchronous mode,
        sends it to the stream at once. */
    method Write(stamp: string, level: Level, message: string)
      requires Valid()
      modifies this
      ensures Valid()
      ensures console == old(console) + (if ShowingConsole(level) then [FormatConsole(stamp, level, message)] else [])
      ensures fileLines == old(fileLines) + (if ShowingFile(level) then [FileLine(stamp, level, message)] else [])
      ensures synchronous == old(synchronous) && streamOpen == old(streamOpen) && appended == old(appended)
      ensures !ShowingFile(level) ==>
                fqueue == old(fqueue) && fconsuming == old(fconsuming) && streamChunks == old(streamChunks)
      ensures ShowingFile(level) && synchronous ==>
                fqueue == old(fqueue) + [FileLine(stamp, level, message)] &&
                fconsuming == old(fconsuming) && streamChunks == old(streamChunks)
      ensures ShowingFile(level) && !synchronous ==>
                fqueue == [] && fconsuming == Some(FileLine(stamp, level, message)) &&
                streamChunks == old(streamChunks) + [FileLine(stamp, level, message)]
    {
      if ShowingConsole(level) {
        console := console + [FormatConsole(stamp, level, message)];
      }
      if ShowingFile(level) {
        Enqueue(FileLine(stamp, level, message));
      }
    }

    /** `fprocessSync()`, called once synchronous mode is set: destroys the stream and
        appends the chunk in flight and the joined queue to the file, then empties the queue.
        The file then holds every file line in call order, with the chunk in flight possibly
        twice. Destroying a stream that is already gone throws, which `ok == false` reports. */
    method FprocessSync() returns (ok: bool)
      requires Valid() && synchronous
      modifies this
      ensures Valid() && !streamOpen
      ensures ok <==> old(streamOpen)
      ensures ok ==> fqueue == [] &&
                     appended == old(appended) + OrEmpty(old(fconsuming)) + Join(old(fqueue), "")
      ensures ok ==> Join(streamChunks, "") + Join(old(fqueue), "") == Join(fileLines, "")
      ensures ok && fconsuming.Some? ==>
                |streamChunks| > 0 && fconsuming.value == streamChunks[|streamChunks| - 1]
      ensures !ok ==> fqueue == old(fqueue) && appended == old(appended)
      ensures fconsuming == old(fconsuming) && streamChunks == old(streamChunks)
      ensures synchronous && console == old(console) && fileLines == old(fileLines)
    {
      if !streamOpen {
        return false;
      }
      streamOpen := false;
      appended := appended + OrEmpty(fconsuming) + Join(fqueue, "");
      fqueue := [];
      ok := true;
    }

    /** `synchronous = true`, the first step of both handlers: from here on `write` only
        queues. */
    method BeginSynchronous()
      requires Valid()
      modifies this
      ensures Valid() && synchronous
      ensures fqueue == old(fqueue) && fconsuming == old(fconsuming) && streamOpen == old(streamOpen)
      ensures streamChunks == old(streamChunks) && appended == old(appended)
      ensures console == old(console) && fileLines == old(fileLines)
    {
      synchronous := true;
    }

    /** The body of the `uncaughtException` handler: switch to synchronous mode, log the
        stack at FATAL and the termination notice at ERROR, and flush. */
    method OnUncaughtException(stamp1: string, stamp2: string, stack: string) returns (ok: bool)
      requires Valid()
      modifies this
      ensures Valid() && synchronous && !streamOpen
      ensures ok <==> old(streamOpen)
      ensures console == old(console) + [FormatConsole(stamp1, Fatal, stack),
                                         FormatConsole(stamp2, Error, TerminationNotice)]
      ensures fileLines == old(fileLines) + [FileLine(stamp1, Fatal, stack),
                                             FileLine(stamp2, Error, TerminationNotice)]
      ensures ok ==> appended == old(appended) + OrEmpty(old(fconsuming)) + Join(old(fqueue), "") +
                                 FileLine(stamp1, Fatal, stack) + FileLine(stamp2, Error, TerminationNotice)
      ensures !ok ==> appended == old(appended) &&
                      fqueue == old(fqueue) + [FileLine(stamp1, Fatal, stack),
                                               FileLine(stamp2, Error, TerminationNotice)]
      ensures ok ==> fqueue == []
      ensures fconsuming == old(fconsuming) && streamChunks == old(streamChunks)
    {
      var a, b := FileLine(stamp1, Fatal, stack), FileLine(stamp2, Error, TerminationNotice);
      ghost var ca, cb := FormatConsole(stamp1, Fatal, stack), FormatConsole(stamp2, Error, TerminationNotice);
      BeginSynchronous();
      Write(stamp1, Fatal, stack);
      assert fqueue == old(fqueue) + [a] && console == old(console) + [ca] &&
             fileLines == old(fileLines) + [a];
      Write(stamp2, Error, TerminationNotice);
      assert fqueue == old(fqueue) + [a] + [b];
      PushTwo(old(console), ca, cb);
      PushTwo(old(fileLines), a, b);
      PushTwo(old(fqueue), a, b);
      TailAfterPushes(old(appended) + OrEmpty(old(fconsuming)), old(fqueue), a, b);
      ok := FprocessSync();
    }

    /** The body of the `exit` handler: switch to synchronous mode, log the exit code at
        INFO, and flush. */
    method OnExit(stamp: string, code: int) returns (ok: bool)
      requires Valid()
      modifies this
      ensures Valid() && synchronous && !streamOpen
      ensures ok <==> old(streamOpen)
      ensures console == old(console) + [FormatConsole(stamp, Info, ExitNotice(code))]
      ensures fileLines == old(fileLines) + [FileLine(stamp, Info, ExitNotice(code))]
      ensures ok ==> appended == old(appended) + OrEmpty(old(fconsuming)) + Join(old(fqueue), "") +
                                 FileLine(stamp, Info, ExitNotice(code))
      ensures !ok ==> appended == old(appended) &&
                      fqueue == old(fqueue) + [FileLine(stamp, Info, ExitNotice(code))]
      ensures ok ==> fqueue == []
      ensures fconsuming == old(fconsuming) && streamChunks == old(streamChunks)
    {
      var m := ExitNotice(code);
      var a := FileLine(stamp, Info, m);
      BeginSynchronous();
      Write(stamp, Info, m);
      assert fqueue == old(fqueue) + [a] && fconsuming == old(fconsuming) && appended == old(appended);
      JoinPush(old(fqueue), a);
      AppendAssoc(old(appended) + OrEmpty(old(fconsuming)), Join(old(fqueue), ""), a);
      ok := FprocessSync();
    }
  }

  /** The ERROR line the `uncaughtException` handler logs after the stack. */
  const TerminationNotice := "uncaught exception - process is terminating"

  /** The INFO line the `exit` handler logs: `ended with code ${code}`. */
  function ExitNotice(code: int): string
  {
    "ended with code " + IntToDecimal(code)
  }
}
