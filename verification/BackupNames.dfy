/** Timestamped backup names: the printer of src/model_forge/application/state_promotion.py and
    the parser of src/model_forge/application/retention.py. */
module BackupNames {
  import opened Wrappers
  import opened Sequences

  /** A UTC `datetime`; valid ones have a real calendar date. */
  datatype Stamp = Stamp(year: nat, month: nat, day: nat, hour: nat, minute: nat, second: nat, micro: nat)

  predicate IsLeap(y: nat) {
    y % 4 == 0 && (y % 100 != 0 || y % 400 == 0)
  }

  function DaysInMonth(y: nat, m: nat): nat {
    if m == 2 then (if IsLeap(y) then 29 else 28)
    else if m == 4 || m == 6 || m == 9 || m == 11 then 30
    else 31
  }

  predicate ValidStamp(t: Stamp) {
    && 1 <= t.year <= 9999 && 1 <= t.month <= 12 && 1 <= t.day <= DaysInMonth(t.year, t.month)
    && t.hour < 24 && t.minute < 60 && t.second < 60 && t.micro < 1_000_000
  }

  // ---------------------------------------------------------------- time

  function DaysBeforeYear(y: nat): int
    requires y >= 1
  {
    (y - 1) * 365 + (y - 1) / 4 - (y - 1) / 100 + (y - 1) / 400
  }

  function DaysBeforeMonth(y: nat, m: nat): nat
    requires m >= 1
  {
    if m == 1 then 0 else DaysBeforeMonth(y, m - 1) + DaysInMonth(y, m - 1)
  }

  /** Microseconds since the day before 0001-01-01. */
  function Instant(t: Stamp): int
    requires ValidStamp(t)
  {
    (((DaysBeforeYear(t.year) + DaysBeforeMonth(t.year, t.month) + t.day) * 24 + t.hour) * 3600
     + t.minute * 60 + t.second) * 1_000_000 + t.micro
  }

  /** `datetime.min`, the sort key of an unreadable stamp. */
  const EARLIEST := Stamp(1, 1, 1, 0, 0, 0, 0)

  // ---------------------------------------------------------------- text

  function DigitChar(d: nat): char
    requires d < 10
  {
    '0' + d as char
  }

  predicate IsDigit(c: char) {
    '0' <= c <= '9'
  }

  function DigitValue(c: char): (d: nat)
    requires IsDigit(c)
    ensures d < 10
  {
    c as int - '0' as int
  }

  function Pow10(w: nat): nat {
    if w == 0 then 1 else 10 * Pow10(w - 1)
  }

  /** `n` in exactly `w` decimal digits. */
  function Digits(n: nat, w: nat): (s: string)
    ensures |s| == w && forall i | 0 <= i < w :: IsDigit(s[i])
  {
    if w == 0 then "" else Digits(n / 10, w - 1) + [DigitChar(n % 10)]
  }

  predicate AllDigits(s: string) {
    forall i | 0 <= i < |s| :: IsDigit(s[i])
  }

  function Number(s: string): nat
    requires AllDigits(s)
  {
    if s == "" then 0 else Number(s[..|s| - 1]) * 10 + DigitValue(s[|s| - 1])
  }

  predicate IsHex8(s: string) {
    |s| == 8 && forall i | 0 <= i < 8 :: IsDigit(s[i]) || 'a' <= s[i] <= 'f'
  }

  function DateText(t: Stamp): (s: string)
    ensures |s| == 8 && AllDigits(s)
  {
    Digits(t.year, 4) + Digits(t.month, 2) + Digits(t.day, 2)
  }

  function ClockText(t: Stamp): (s: string)
    ensures |s| == 12 && AllDigits(s)
  {
    Digits(t.hour, 2) + Digits(t.minute, 2) + Digits(t.second, 2) + Digits(t.micro, 6)
  }

  /** `_backup_suffix`: `bak-%Y%m%dT%H%M%S%f` and eight hexadecimal digits of a random id. */
  function BackupSuffix(t: Stamp, hex: string): string {
    "bak-" + DateText(t) + "T" + ClockText(t) + "-" + hex
  }

  function ReadStamp(date: string, clock: string): Stamp
    requires |date| == 8 && AllDigits(date) && |clock| == 12 && AllDigits(clock)
  {
    Stamp(Number(date[..4]), Number(date[4..6]), Number(date[6..]),
          Number(clock[..2]), Number(clock[2..4]), Number(clock[4..6]), Number(clock[6..]))
  }

  /** The fixed part of a backup name: `.bak-`, 8 digits, `T`, 12 digits, `-`, 8 hex digits. */
  predicate IsBackupTail(tail: string) {
    |tail| == 35 && tail[..5] == ".bak-" && AllDigits(tail[5..13]) && tail[13] == 'T'
    && AllDigits(tail[14..26]) && tail[26] == '-' && IsHex8(tail[27..])
  }

  /** `_parse_backup_stamp`: the last 35 characters carry the stamp, anything may precede them. */
  function ParseBackupStamp(name: string): (r: Option<Stamp>)
    ensures r.Some? ==> ValidStamp(r.value)
  {
    if |name| < 36 then None
    else
      var cut := |name| - 35;
      var tail := name[cut..];
      if '\n' in name[..cut] || !IsBackupTail(tail) then None
      else
        var t := ReadStamp(tail[5..13], tail[14..26]);
        if ValidStamp(t) then Some(t) else None
  }

  // ---------------------------------------------------------------- printer and parser are inverse

  lemma {:induction false} NumberOfDigits(n: nat, w: nat)
    requires n < Pow10(w)
    ensures Number(Digits(n, w)) == n
  {
    if w > 0 {
      NumberOfDigits(n / 10, w - 1);
      var s := Digits(n, w);
      assert s[..|s| - 1] == Digits(n / 10, w - 1);
    }
  }

  lemma {:induction false} DigitsOfNumber(s: string)
    requires AllDigits(s)
    ensures Digits(Number(s), |s|) == s && Number(s) < Pow10(|s|)
  {
    if s != "" {
      var init := s[..|s| - 1];
      DigitsOfNumber(init);
      assert s == init + [s[|s| - 1]];
    }
  }

  lemma Powers()
    ensures Pow10(2) == 100 && Pow10(4) == 10_000 && Pow10(6) == 1_000_000
  {
    assert Pow10(1) == 10 && Pow10(2) == 100 && Pow10(3) == 1000 && Pow10(4) == 10_000 && Pow10(5) == 100_000;
  }

  lemma ReadPrinted(t: Stamp)
    requires ValidStamp(t)
    ensures ReadStamp(DateText(t), ClockText(t)) == t
  {
    var d, c := DateText(t), ClockText(t);
    assert d[..4] == Digits(t.year, 4) && d[4..6] == Digits(t.month, 2) && d[6..] == Digits(t.day, 2);
    assert c[..2] == Digits(t.hour, 2) && c[2..4] == Digits(t.minute, 2);
    assert c[4..6] == Digits(t.second, 2) && c[6..] == Digits(t.micro, 6);
    Powers();
    NumberOfDigits(t.year, 4);
    NumberOfDigits(t.month, 2);
    NumberOfDigits(t.day, 2);
    NumberOfDigits(t.hour, 2);
    NumberOfDigits(t.minute, 2);
    NumberOfDigits(t.second, 2);
    NumberOfDigits(t.micro, 6);
  }

  lemma PrintReadDate(date: string, clock: string)
    requires |date| == 8 && AllDigits(date) && |clock| == 12 && AllDigits(clock)
    ensures DateText(ReadStamp(date, clock)) == date
  {
    DigitsOfNumber(date[..4]);
    DigitsOfNumber(date[4..6]);
    DigitsOfNumber(date[6..]);
    assert date == date[..4] + date[4..6] + date[6..];
  }

  lemma PrintReadClock(date: string, clock: string)
    requires |date| == 8 && AllDigits(date) && |clock| == 12 && AllDigits(clock)
    ensures ClockText(ReadStamp(date, clock)) == clock
  {
    DigitsOfNumber(clock[..2]);
    DigitsOfNumber(clock[2..4]);
    DigitsOfNumber(clock[4..6]);
    DigitsOfNumber(clock[6..]);
    assert clock == clock[..2] + clock[2..4] + clock[4..6] + clock[6..];
  }

  lemma TailParts(date: string, clock: string, hex: string)
    requires |date| == 8 && |clock| == 12 && |hex| == 8
    ensures var tail := "." + ("bak-" + date + "T" + clock + "-" + hex);
      |tail| == 35 && tail[..5] == ".bak-" && tail[5..13] == date && tail[13] == 'T'
      && tail[14..26] == clock && tail[26] == '-' && tail[27..] == hex
  {
  }

  /** Every backup name the promotion prints is read back as the time it was printed for. */
  lemma ParsePrinted(target: string, t: Stamp, hex: string)
    requires target != "" && '\n' !in target && ValidStamp(t) && IsHex8(hex)
    ensures ParseBackupStamp(target + "." + BackupSuffix(t, hex)) == Some(t)
  {
    var name, tail := target + "." + BackupSuffix(t, hex), "." + BackupSuffix(t, hex);
    TailParts(DateText(t), ClockText(t), hex);
    ReadPrinted(t);
    assert name[..|name| - 35] == target && name[|name| - 35..] == tail;
  }

  /** A readable tail is what is printed for its stamp. */
  lemma TailPrinted(tail: string)
    requires IsBackupTail(tail) && ValidStamp(ReadStamp(tail[5..13], tail[14..26]))
    ensures tail == "." + BackupSuffix(ReadStamp(tail[5..13], tail[14..26]), tail[27..])
  {
    var printed := "." + BackupSuffix(ReadStamp(tail[5..13], tail[14..26]), tail[27..]);
    PrintReadDate(tail[5..13], tail[14..26]);
    PrintReadClock(tail[5..13], tail[14..26]);
    TailParts(tail[5..13], tail[14..26], tail[27..]);
    assert tail == tail[..5] + tail[5..13] + [tail[13]] + tail[14..26] + [tail[26]] + tail[27..];
    assert printed == printed[..5] + printed[5..13] + [printed[13]] + printed[14..26] + [printed[26]] + printed[27..];
  }

  /** Every name the parser reads is one the printer writes for that time. */
  lemma PrintParsed(name: string)
    requires ParseBackupStamp(name).Some?
    ensures exists target, hex :: target != "" && '\n' !in target && IsHex8(hex)
              && name == target + "." + BackupSuffix(ParseBackupStamp(name).value, hex)
  {
    var cut := |name| - 35;
    var target, tail := name[..cut], name[cut..];
    TailPrinted(tail);
    NameFrom(name, target, BackupSuffix(ParseBackupStamp(name).value, tail[27..]), cut);
  }

  lemma NameFrom(name: string, target: string, suffix: string, cut: nat)
    requires cut <= |name| && name[..cut] == target && name[cut..] == "." + suffix
    ensures name == target + "." + suffix
  {
    assert name == name[..cut] + name[cut..];
  }

  // ---------------------------------------------------------------- name order is time order

  lemma {:induction false} TextCommonPrefix(p: string, a: string, b: string)
    ensures TextLess(p + a, p + b) <==> TextLess(a, b)
  {
    if p == "" {
      assert p + a == a && p + b == b;
    } else {
      assert (p + a)[1..] == p[1..] + a && (p + b)[1..] == p[1..] + b;
      TextCommonPrefix(p[1..], a, b);
    }
  }

  /** Fixed-width digits order like the numbers they print. */
  lemma {:induction false} DigitsOrder(m: nat, n: nat, w: nat, a: string, b: string)
    requires m < n < Pow10(w)
    ensures TextLess(Digits(m, w) + a, Digits(n, w) + b)
  {
    var x, y := [DigitChar(m % 10)] + a, [DigitChar(n % 10)] + b;
    assert Digits(m, w) + a == Digits(m / 10, w - 1) + x && Digits(n, w) + b == Digits(n / 10, w - 1) + y;
    if m / 10 < n / 10 {
      DigitsOrder(m / 10, n / 10, w - 1, x, y);
    } else {
      TextCommonPrefix(Digits(m / 10, w - 1), x, y);
      assert x[0] < y[0];
    }
  }

  /** Lexicographic order of the fields. */
  predicate Earlier(s: Stamp, t: Stamp) {
    s.year < t.year || (s.year == t.year &&
    (s.month < t.month || (s.month == t.month &&
    (s.day < t.day || (s.day == t.day &&
    (s.hour < t.hour || (s.hour == t.hour &&
    (s.minute < t.minute || (s.minute == t.minute &&
    (s.second < t.second || (s.second == t.second && s.micro < t.micro)))))))))))
  }

  lemma FieldOrder(m: nat, n: nat, w: nat, a: string, b: string)
    requires m < Pow10(w) && n < Pow10(w)
    requires m < n || (m == n && TextLess(a, b))
    ensures TextLess(Digits(m, w) + a, Digits(n, w) + b)
  {
    if m < n { DigitsOrder(m, n, w, a, b); } else { TextCommonPrefix(Digits(m, w), a, b); }
  }

  function ClockTail(t: Stamp, hex: string): string {
    Digits(t.hour, 2) + (Digits(t.minute, 2) + (Digits(t.second, 2) + (Digits(t.micro, 6) + ("-" + hex))))
  }

  function DateTail(t: Stamp, rest: string): string {
    Digits(t.year, 4) + (Digits(t.month, 2) + (Digits(t.day, 2) + ("T" + rest)))
  }

  lemma ClockOrder(s: Stamp, t: Stamp, g: string, h: string)
    requires ValidStamp(s) && ValidStamp(t) && Earlier(s, t)
    requires s.year == t.year && s.month == t.month && s.day == t.day
    ensures TextLess(ClockTail(s, g), ClockTail(t, h))
  {
    Powers();
    if s.hour == t.hour && s.minute == t.minute && s.second == t.second {
      FieldOrder(s.micro, t.micro, 6, "-" + g, "-" + h);
    }
    var s3, t3 := Digits(s.micro, 6) + ("-" + g), Digits(t.micro, 6) + ("-" + h);
    if s.hour == t.hour && s.minute == t.minute { FieldOrder(s.second, t.second, 2, s3, t3); }
    var s2, t2 := Digits(s.second, 2) + s3, Digits(t.second, 2) + t3;
    if s.hour == t.hour { FieldOrder(s.minute, t.minute, 2, s2, t2); }
    FieldOrder(s.hour, t.hour, 2, Digits(s.minute, 2) + s2, Digits(t.minute, 2) + t2);
  }

  lemma DateOrder(s: Stamp, t: Stamp, a: string, b: string)
    requires ValidStamp(s) && ValidStamp(t) && Earlier(s, t)
    requires s.year == t.year && s.month == t.month && s.day == t.day ==> TextLess(a, b)
    ensures TextLess(DateTail(s, a), DateTail(t, b))
  {
    Powers();
    if s.year == t.year && s.month == t.month {
      if s.day == t.day { TextCommonPrefix("T", a, b); }
      FieldOrder(s.day, t.day, 2, "T" + a, "T" + b);
    }
    var s2, t2 := Digits(s.day, 2) + ("T" + a), Digits(t.day, 2) + ("T" + b);
    if s.year == t.year { FieldOrder(s.month, t.month, 2, s2, t2); }
    FieldOrder(s.year, t.year, 4, Digits(s.month, 2) + s2, Digits(t.month, 2) + t2);
  }

  lemma EarlierNameLess(target: string, s: Stamp, g: string, t: Stamp, h: string)
    requires ValidStamp(s) && ValidStamp(t) && Earlier(s, t)
    ensures TextLess(target + "." + BackupSuffix(s, g), target + "." + BackupSuffix(t, h))
  {
    if s.year == t.year && s.month == t.month && s.day == t.day { ClockOrder(s, t, g, h); }
    DateOrder(s, t, ClockTail(s, g), ClockTail(t, h));
    var p := target + ".bak-";
    TextCommonPrefix(p, DateTail(s, ClockTail(s, g)), DateTail(t, ClockTail(t, h)));
    NameLayout(target, s, g);
    NameLayout(target, t, h);
  }

  lemma NameLayout(target: string, t: Stamp, hex: string)
    ensures target + "." + BackupSuffix(t, hex) == (target + ".bak-") + DateTail(t, ClockTail(t, hex))
  {
  }

  // ---------------------------------------------------------------- calendar

  lemma {:induction false} YearsGrow(y: nat, z: nat)
    requires 1 <= y <= z
    ensures DaysBeforeYear(y) <= DaysBeforeYear(z)
    decreases z - y
  {
    if y < z { YearsGrow(y + 1, z); }
  }

  lemma {:induction false} MonthsGrow(y: nat, m: nat, n: nat)
    requires 1 <= m <= n
    ensures DaysBeforeMonth(y, m) <= DaysBeforeMonth(y, n)
    decreases n
  {
    if m < n { MonthsGrow(y, m, n - 1); }
  }

  lemma DayWithinYear(t: Stamp)
    requires ValidStamp(t)
    ensures 1 <= DaysBeforeMonth(t.year, t.month) + t.day <= DaysBeforeYear(t.year + 1) - DaysBeforeYear(t.year)
  {
    MonthsGrow(t.year, t.month + 1, 13);
    MonthsGrow(t.year, 1, t.month);
    YearLength(t.year);
  }

  lemma MonthsOfYear(y: nat)
    ensures DaysBeforeMonth(y, 13) == 337 + DaysInMonth(y, 2)
  {
    var f := DaysInMonth(y, 2);
    assert DaysBeforeMonth(y, 2) == 31 && DaysBeforeMonth(y, 3) == 31 + f;
    assert DaysBeforeMonth(y, 4) == 62 + f && DaysBeforeMonth(y, 5) == 92 + f;
    assert DaysBeforeMonth(y, 6) == 123 + f && DaysBeforeMonth(y, 7) == 153 + f;
    assert DaysBeforeMonth(y, 8) == 184 + f && DaysBeforeMonth(y, 9) == 215 + f;
    assert DaysBeforeMonth(y, 10) == 245 + f && DaysBeforeMonth(y, 11) == 276 + f;
    assert DaysBeforeMonth(y, 12) == 306 + f;
  }

  lemma LeapSteps(y: nat)
    requires y >= 1
    ensures y / 4 - (y - 1) / 4 == if y % 4 == 0 then 1 else 0
    ensures y / 100 - (y - 1) / 100 == if y % 100 == 0 then 1 else 0
    ensures y / 400 - (y - 1) / 400 == if y % 400 == 0 then 1 else 0
    ensures y % 100 == 0 ==> y % 4 == 0
    ensures y % 400 == 0 ==> y % 100 == 0
  {
  }

  lemma YearLength(y: nat)
    requires y >= 1
    ensures DaysBeforeMonth(y, 13) == DaysBeforeYear(y + 1) - DaysBeforeYear(y)
  {
    MonthsOfYear(y);
    LeapSteps(y);
  }

  /** Field order is time order. */
  lemma EarlierIsLess(s: Stamp, t: Stamp)
    requires ValidStamp(s) && ValidStamp(t)
    ensures Earlier(s, t) <==> Instant(s) < Instant(t)
  {
    if Earlier(s, t) { EarlierImpliesLess(s, t); }
    if Earlier(t, s) { EarlierImpliesLess(t, s); }
  }

  lemma EarlierImpliesLess(s: Stamp, t: Stamp)
    requires ValidStamp(s) && ValidStamp(t) && Earlier(s, t)
    ensures Instant(s) < Instant(t)
  {
    var a := DaysBeforeYear(s.year) + DaysBeforeMonth(s.year, s.month) + s.day;
    var b := DaysBeforeYear(t.year) + DaysBeforeMonth(t.year, t.month) + t.day;
    if s.year < t.year {
      DayWithinYear(s);
      DayWithinYear(t);
      YearsGrow(s.year + 1, t.year);
      assert a < b;
    } else if s.month < t.month {
      MonthsGrow(s.year, s.month + 1, t.month);
      assert a < b;
    }
  }

  lemma EarliestIsLeast(t: Stamp)
    requires ValidStamp(t)
    ensures Instant(EARLIEST) <= Instant(t)
  {
    if Earlier(EARLIEST, t) { EarlierImpliesLess(EARLIEST, t); }
  }

  /** Among the backups one target gets, the order of names is the order of times. */
  lemma NameOrderIsTimeOrder(target: string, s: Stamp, g: string, t: Stamp, h: string)
    requires ValidStamp(s) && ValidStamp(t) && s != t
    ensures TextLess(target + "." + BackupSuffix(s, g), target + "." + BackupSuffix(t, h)) <==> Instant(s) < Instant(t)
  {
    EarlierIsLess(s, t);
    TextAsymmetric(target + "." + BackupSuffix(s, g), target + "." + BackupSuffix(t, h));
    if Earlier(s, t) { EarlierNameLess(target, s, g, t, h); } else { EarlierNameLess(target, t, h, s, g); }
  }

  // ---------------------------------------------------------------- the scale of time

  /** No valid stamp lies between the two. */
  ghost predicate Consecutive(s: Stamp, t: Stamp) {
    Earlier(s, t) && forall u | ValidStamp(u) :: !(Earlier(s, u) && Earlier(u, t))
  }

  const LATEST := Stamp(9999, 12, 31, 23, 59, 59, 999_999)

  /** The next day. */
  function DayAfter(t: Stamp): Stamp {
    if t.day < DaysInMonth(t.year, t.month) then Stamp(t.year, t.month, t.day + 1, 0, 0, 0, 0)
    else if t.month < 12 then Stamp(t.year, t.month + 1, 1, 0, 0, 0, 0)
    else Stamp(t.year + 1, 1, 1, 0, 0, 0, 0)
  }

  /** The stamp a microsecond later. */
  function Tick(t: Stamp): Stamp {
    if t.micro < 999_999 then t.(micro := t.micro + 1)
    else if t.second < 59 then t.(second := t.second + 1, micro := 0)
    else if t.minute < 59 then t.(minute := t.minute + 1, second := 0, micro := 0)
    else if t.hour < 23 then t.(hour := t.hour + 1, minute := 0, second := 0, micro := 0)
    else DayAfter(t)
  }

  function DayNumber(t: Stamp): int
    requires ValidStamp(t)
  {
    DaysBeforeYear(t.year) + DaysBeforeMonth(t.year, t.month) + t.day
  }

  lemma DayAfterIsNext(t: Stamp)
    requires ValidStamp(t) && ValidStamp(DayAfter(t))
    ensures DayNumber(DayAfter(t)) == DayNumber(t) + 1
  {
    YearLength(t.year);
    assert DaysBeforeMonth(t.year, t.month + 1) == DaysBeforeMonth(t.year, t.month) + DaysInMonth(t.year, t.month);
  }

  lemma TickIsNext(t: Stamp)
    requires ValidStamp(t) && Earlier(t, LATEST)
    ensures ValidStamp(Tick(t)) && Instant(Tick(t)) == Instant(t) + 1
  {
    if t.micro == 999_999 && t.second == 59 && t.minute == 59 && t.hour == 23 { DayAfterIsNext(t); }
    assert Instant(t) == ((DayNumber(t) * 24 + t.hour) * 3600 + t.minute * 60 + t.second) * 1_000_000 + t.micro;
    hide DaysBeforeYear, DaysBeforeMonth;
  }

  /** Consecutive stamps are one microsecond apart, so the difference of two instants is the time
      between them. */
  lemma InstantsCountMicroseconds(s: Stamp, t: Stamp)
    requires ValidStamp(s) && ValidStamp(t) && Consecutive(s, t)
    ensures Instant(t) == Instant(s) + 1
  {
    assert Earlier(s, LATEST);
    TickIsNext(s);
    EarlierIsLess(s, t);
    EarlierIsLess(s, Tick(s));
    EarlierIsLess(Tick(s), t);
    hide Instant, Tick;
  }
}
