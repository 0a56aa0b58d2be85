/** Seconds since the epoch as text and back: crates/kiseki-backup/src/lib.rs. The text is the date-time of
    section 5.6 of RFC 3339, month lengths are those of its section 5.7. */
module Calendar {
  import opened Base

  /* ---------------------------------------------------------------- days and dates */

  predicate IsLeap(y: nat) { (y % 4 == 0 && y % 100 != 0) || y % 400 == 0 }

  function YearLen(y: nat): nat { if IsLeap(y) then 366 else 365 }

  function Months(y: nat): (dim: seq<nat>)
    ensures |dim| == 12
  {
    [31, if IsLeap(y) then 29 else 28, 31, 30, 31, 30, 31, 31, 30, 31, 30, 31]
  }

  function SumFirst(dim: seq<nat>, n: nat): nat
    requires n <= |dim|
  {
    if n == 0 then 0 else SumFirst(dim, n - 1) + dim[n - 1]
  }

  /** Days from the start of 1970 to the start of a year. */
  function DaysBefore(y: nat): nat { if y <= 1970 then 0 else DaysBefore(y - 1) + YearLen(y - 1) }

  /** The d-th day of month mo of year y is `days` days after the epoch. */
  predicate IsDate(days: nat, y: nat, mo: nat, d: nat) {
    && 1970 <= y && 1 <= mo <= 12 && 1 <= d <= Months(y)[mo - 1]
    && days == DaysBefore(y) + SumFirst(Months(y), mo - 1) + d - 1
  }

  lemma {:induction false} YearIsItsMonths(y: nat)
    ensures SumFirst(Months(y), 12) == YearLen(y)
  {
    var dim := Months(y);
    assert SumFirst(dim, 1) == 31 && SumFirst(dim, 2) == 31 + dim[1];
    assert SumFirst(dim, 3) == 62 + dim[1] && SumFirst(dim, 4) == 92 + dim[1];
    assert SumFirst(dim, 5) == 123 + dim[1] && SumFirst(dim, 6) == 153 + dim[1];
    assert SumFirst(dim, 7) == 184 + dim[1] && SumFirst(dim, 8) == 215 + dim[1];
    assert SumFirst(dim, 9) == 245 + dim[1] && SumFirst(dim, 10) == 276 + dim[1];
    assert SumFirst(dim, 11) == 306 + dim[1];
  }

  lemma {:induction false} SumFirstGrows(dim: seq<nat>, a: nat, b: nat)
    requires a <= b <= |dim|
    ensures SumFirst(dim, a) <= SumFirst(dim, b)
  {
    if a < b {
      SumFirstGrows(dim, a, b - 1);
    }
  }

  lemma {:induction false} DaysBeforeGrows(x: nat, y: nat)
    requires x < y && 1970 <= x
    ensures DaysBefore(x) + YearLen(x) <= DaysBefore(y)
  {
    if x + 1 < y {
      DaysBeforeGrows(x, y - 1);
    }
  }

  /** The year loop and the month loop find the date. */
  method DaysToYmd(days: nat) returns (y: nat, mo: nat, d: nat)
    ensures IsDate(days, y, mo, d)
  {
    y, d := 1970, days;
    while d >= YearLen(y)
      invariant y >= 1970 && DaysBefore(y) + d == days
    {
      d := d - YearLen(y);
      y := y + 1;
    }
    var dim := Months(y);
    YearIsItsMonths(y);
    mo := 1;
    while mo <= 12 && d >= dim[mo - 1]
      invariant 1 <= mo <= 13 && DaysBefore(y) + SumFirst(dim, mo - 1) + d == days
      invariant SumFirst(dim, mo - 1) + d < YearLen(y)
    {
      d := d - dim[mo - 1];
      mo := mo + 1;
    }
    d := d + 1;
  }

  /** There is only one. */
  lemma {:induction false} DateUnique(days: nat, y: nat, mo: nat, d: nat, y': nat, mo': nat, d': nat)
    requires IsDate(days, y, mo, d) && IsDate(days, y', mo', d')
    ensures (y, mo, d) == (y', mo', d')
  {
    InsideYear(days, y, mo, d);
    InsideYear(days, y', mo', d');
    if y < y' {
      DaysBeforeGrows(y, y');
    } else if y' < y {
      DaysBeforeGrows(y', y);
    } else if mo < mo' {
      SumFirstGrows(Months(y), mo, mo' - 1);
    } else if mo' < mo {
      SumFirstGrows(Months(y), mo', mo - 1);
    }
  }

  lemma {:induction false} InsideYear(days: nat, y: nat, mo: nat, d: nat)
    requires IsDate(days, y, mo, d)
    ensures DaysBefore(y) <= days < DaysBefore(y) + YearLen(y)
  {
    YearIsItsMonths(y);
    SumFirstGrows(Months(y), mo, 12);
  }

  /* ---------------------------------------------------------------- text */

  function DigitChar(n: nat): char
    requires n < 10
  {
    "0123456789"[n]
  }

  function Digits(n: nat): (s: string)
    ensures s != []
  {
    if n < 10 then [DigitChar(n)] else Digits(n / 10) + [DigitChar(n % 10)]
  }

  function Padded(n: nat, w: nat): string { Repeat('0', SaturatingSub(w, |Digits(n)|)) + Digits(n) }

  predicate IsDigit(c: char) { '0' <= c <= '9' }

  function DigitOf(c: char): nat
    requires IsDigit(c)
  {
    c as int - '0' as int
  }

  predicate AllDigits(s: string) { forall i :: 0 <= i < |s| ==> IsDigit(s[i]) }

  function Decimal(s: string): nat
    requires AllDigits(s)
  {
    if s == [] then 0 else 10 * Decimal(s[..|s| - 1]) + DigitOf(s[|s| - 1])
  }

  /** Rust's parse of an unsigned 64-bit number: an optional plus sign, digits, no overflow. */
  function ParseU64(s: string): Option<nat> {
    var body := if s != [] && s[0] == '+' then s[1..] else s;
    if body == [] || !AllDigits(body) || Decimal(body) >= U64 then None else Some(Decimal(body))
  }

  lemma {:induction false} DigitReads(n: nat)
    requires n < 10
    ensures IsDigit(DigitChar(n)) && DigitOf(DigitChar(n)) == n
  {
  }

  lemma {:induction false} DecimalMore(s: string, n: nat)
    requires AllDigits(s) && n < 10
    ensures AllDigits(s + [DigitChar(n)]) && Decimal(s + [DigitChar(n)]) == 10 * Decimal(s) + n
  {
    DigitReads(n);
    WithoutLast(s, DigitChar(n));
  }

  lemma {:induction false} DigitsParse(n: nat)
    ensures AllDigits(Digits(n)) && Decimal(Digits(n)) == n
  {
    if n < 10 {
      DecimalMore([], n);
      assert [] + [DigitChar(n)] == Digits(n);
    } else {
      DigitsParse(n / 10);
      DecimalMore(Digits(n / 10), n % 10);
    }
  }

  lemma {:induction false} LeadingZeros(z: nat, s: string)
    requires AllDigits(s)
    ensures AllDigits(Repeat('0', z) + s) && Decimal(Repeat('0', z) + s) == Decimal(s)
  {
    var zs := Repeat('0', z);
    if s == [] {
      assert zs + s == zs;
      ZerosAreZero(z);
    } else {
      var n := |s| - 1;
      LeadingZeros(z, s[..n]);
      assert (zs + s)[..z + n] == zs + s[..n];
    }
  }

  lemma {:induction false} ZerosAreZero(z: nat)
    ensures AllDigits(Repeat('0', z)) && Decimal(Repeat('0', z)) == 0
  {
    if z > 0 {
      ZerosAreZero(z - 1);
      DecimalMore(Repeat('0', z - 1), 0);
    }
  }

  lemma {:induction false} PaddedParses(n: nat, w: nat)
    requires n < U64
    ensures AllDigits(Padded(n, w)) && Padded(n, w) != [] && ParseU64(Padded(n, w)) == Some(n)
  {
    DigitsParse(n);
    LeadingZeros(SaturatingSub(w, |Digits(n)|), Digits(n));
  }

  function PrintAll(values: seq<nat>, widths: seq<nat>): (f: seq<string>)
    requires |values| == |widths|
    ensures |f| == |values| && forall i :: 0 <= i < |f| ==> f[i] == Padded(values[i], widths[i])
  {
    if values == [] then []
    else
      var n := |values| - 1;
      PrintAll(values[..n], widths[..n]) + [Padded(values[n], widths[n])]
  }

  function ParseEach(f: seq<string>): (r: seq<Option<nat>>)
    ensures |r| == |f| && forall i :: 0 <= i < |f| ==> r[i] == ParseU64(f[i])
  {
    if f == [] then [] else ParseEach(f[..|f| - 1]) + [ParseU64(f[|f| - 1])]
  }

  /** All values, if none is missing. */
  function AllSome(os: seq<Option<nat>>): (r: Option<seq<nat>>)
    ensures r.Some? ==> |r.value| == |os|
  {
    if os == [] then Some([])
    else
      var front, last := AllSome(os[..|os| - 1]), os[|os| - 1];
      if front.None? || last.None? then None else Some(front.value + [last.value])
  }

  function ParseAll(f: seq<string>): (r: Option<seq<nat>>)
    ensures r.Some? ==> |r.value| == |f|
  {
    AllSome(ParseEach(f))
  }

  predicate Numeric(f: seq<string>) { forall i :: 0 <= i < |f| ==> AllDigits(f[i]) && f[i] != [] }

  lemma {:induction false} AllSomeIs(os: seq<Option<nat>>, values: seq<nat>)
    requires |os| == |values| && forall i :: 0 <= i < |os| ==> os[i] == Some(values[i])
    ensures AllSome(os) == Some(values)
  {
    if os != [] {
      var n := |os| - 1;
      AllSomeIs(os[..n], values[..n]);
      assert values == values[..n] + [values[n]];
    }
  }

  lemma {:induction false} PrintedParses(values: seq<nat>, widths: seq<nat>)
    requires |values| == |widths| && forall i :: 0 <= i < |values| ==> values[i] < U64
    ensures Numeric(PrintAll(values, widths)) && ParseAll(PrintAll(values, widths)) == Some(values)
  {
    var f := PrintAll(values, widths);
    forall i | 0 <= i < |f|
      ensures AllDigits(f[i]) && f[i] != [] && ParseU64(f[i]) == Some(values[i])
    {
      PaddedParses(values[i], widths[i]);
    }
    AllSomeIs(ParseEach(f), values);
  }

  /* ---------------------------------------------------------------- splitting */

  predicate IsSeparator(c: char) { c == '-' || c == 'T' || c == ':' || c == 'Z' }

  /** The non-empty pieces that are finished, and the one that is open. */
  function Split(s: string): (seq<string>, string) {
    if s == [] then ([], [])
    else
      var (done, open) := Split(s[..|s| - 1]);
      var c := s[|s| - 1];
      if !IsSeparator(c) then (done, open + [c]) else if open == [] then (done, []) else (done + [open], [])
  }

  function Parts(s: string): seq<string> {
    var (done, open) := Split(s);
    if open == [] then done else done + [open]
  }

  lemma {:induction false} SplitDigit(s: string, c: char)
    requires IsDigit(c)
    ensures Split(s + [c]) == (Split(s).0, Split(s).1 + [c])
  {
    WithoutLast(s, c);
  }

  lemma {:induction false} SplitDigits(s: string, digits: string)
    requires AllDigits(digits)
    ensures Split(s + digits) == (Split(s).0, Split(s).1 + digits)
  {
    if digits == [] {
      assert s + digits == s && Split(s).1 + digits == Split(s).1;
    } else {
      var front, last := digits[..|digits| - 1], digits[|digits| - 1];
      SplitDigits(s, front);
      SplitDigit(s + front, last);
      Assoc(s, front, [last]);
      Assoc(Split(s).1, front, [last]);
      assert front + [last] == digits;
    }
  }

  /** A number and the separator behind it make one more piece. */
  lemma {:induction false} SplitField(s: string, done: seq<string>, digits: string, c: char)
    requires Split(s) == (done, []) && AllDigits(digits) && digits != [] && IsSeparator(c)
    ensures Split(s + digits + [c]) == (done + [digits], [])
  {
    SplitDigits(s, digits);
    assert (s + digits + [c])[..|s| + |digits|] == s + digits;
    assert [] + digits == digits;
  }

  /* ---------------------------------------------------------------- printing and parsing */

  datatype Time = Time(y: nat, mo: nat, d: nat, h: nat, mi: nat, s: nat)

  function Values(t: Time): seq<nat> { [t.y, t.mo, t.d, t.h, t.mi, t.s] }

  const WIDTHS: seq<nat> := [4, 2, 2, 2, 2, 2]

  /** Each field with its separator behind it. */
  function Joined(fields: seq<string>, separators: string): string
    requires |fields| == |separators|
  {
    if fields == [] then []
    else
      var n := |fields| - 1;
      Joined(fields[..n], separators[..n]) + fields[n] + [separators[n]]
  }

  const SEPARATORS: string := "--T::Z"

  function Text(t: Time): string { Joined(PrintAll(Values(t), WIDTHS), SEPARATORS) }

  /** A second count and its date and time of day. */
  predicate IsTime(secs: nat, t: Time) {
    && IsDate(secs / 86400, t.y, t.mo, t.d)
    && t.h == secs / 3600 % 24 && t.mi == secs / 60 % 60 && t.s == secs % 60
  }

  method ChronoLiteIso(secs: nat) returns (iso: string)
    ensures exists t: Time :: IsTime(secs, t) && iso == Text(t)
  {
    var y, mo, d := DaysToYmd(secs / 86400);
    var h, mi, s := secs / 3600 % 24, secs / 60 % 60, secs % 60;
    iso := Joined(PrintAll([y, mo, d, h, mi, s], WIDTHS), SEPARATORS);
    assert IsTime(secs, Time(y, mo, d, h, mi, s));
  }

  /** Refused text, an arithmetic overflow in the parser, or a second count. */
  datatype Outcome = Refused | Overflow | Epoch(secs: nat)

  function EpochOf(t: Time): Outcome {
    if t.mo == 0 || t.d == 0 then Overflow
    else
      var days := DaysBefore(t.y) + SumFirst(Months(t.y), Min(t.mo - 1, 12)) + (t.d - 1);
      var secs := days * 86400 + t.h * 3600 + t.mi * 60 + t.s;
      if secs >= U64 then Overflow else Epoch(secs)
  }

  function Parsed(iso: string): Outcome {
    var p := Parts(iso);
    if |p| < 6 then Refused
    else
      match ParseAll(p[..6])
      case None => Refused
      case Some(v) => EpochOf(Time(v[0], v[1], v[2], v[3], v[4], v[5]))
  }

  method ParseIsoEpoch(iso: string) returns (r: Outcome)
    ensures r == Parsed(iso)
  {
    var p := Parts(iso);
    if |p| < 6 {
      return Refused;
    }
    var v := ParseAll(p[..6]);
    if v.None? {
      return Refused;
    }
    var y, mo, d, h, mi, s := v.value[0], v.value[1], v.value[2], v.value[3], v.value[4], v.value[5];
    if mo == 0 || d == 0 {
      return Overflow;
    }
    var days := CountDays(y, mo, d);
    var secs := days * 86400 + h * 3600 + mi * 60 + s;
    return if secs >= U64 then Overflow else Epoch(secs);
  }

  method CountDays(y: nat, mo: nat, d: nat) returns (days: nat)
    requires mo > 0 && d > 0
    ensures days == DaysBefore(y) + SumFirst(Months(y), Min(mo - 1, 12)) + (d - 1)
  {
    days := 0;
    var yy := 1970;
    while yy < y
      invariant 1970 <= yy && (yy <= y || yy == 1970) && days == DaysBefore(yy)
    {
      days := days + YearLen(yy);
      yy := yy + 1;
    }
    var dim := Months(y);
    ghost var before := days;
    for i := 0 to Min(mo - 1, 12)
      invariant days == before + SumFirst(dim, i)
    {
      days := days + dim[i];
    }
    days := days + (d - 1);
  }

  /* ---------------------------------------------------------------- the round trip */

  lemma {:induction false} SplitJoined(fields: seq<string>, separators: string)
    requires |fields| == |separators| && Numeric(fields)
    requires forall i :: 0 <= i < |separators| ==> IsSeparator(separators[i])
    ensures Split(Joined(fields, separators)) == (fields, [])
  {
    if fields != [] {
      var n := |fields| - 1;
      SplitJoined(fields[..n], separators[..n]);
      SplitField(Joined(fields[..n], separators[..n]), fields[..n], fields[n], separators[n]);
      assert fields == fields[..n] + [fields[n]];
    }
  }

  lemma {:induction false} JoinedParts(values: seq<nat>, widths: seq<nat>, separators: string)
    requires |values| == |widths| == |separators| && forall i :: 0 <= i < |values| ==> values[i] < U64
    requires forall i :: 0 <= i < |separators| ==> IsSeparator(separators[i])
    ensures var parts := Parts(Joined(PrintAll(values, widths), separators));
            |parts| == |values| && ParseAll(parts) == Some(values)
  {
    PrintedParses(values, widths);
    SplitJoined(PrintAll(values, widths), separators);
  }

  lemma {:induction false} SeparatorsAre()
    ensures |SEPARATORS| == 6 && forall i :: 0 <= i < |SEPARATORS| ==> IsSeparator(SEPARATORS[i])
  {
  }

  lemma {:induction false} TextParts(t: Time)
    requires t.y < U64 && t.mo < U64 && t.d < U64 && t.h < U64 && t.mi < U64 && t.s < U64
    ensures |Parts(Text(t))| == 6 && ParseAll(Parts(Text(t))) == Some(Values(t))
  {
    SeparatorsAre();
    JoinedParts(Values(t), WIDTHS, SEPARATORS);
  }

  lemma {:induction false} TextParses(t: Time)
    requires t.y < U64 && t.mo < U64 && t.d < U64 && t.h < U64 && t.mi < U64 && t.s < U64
    ensures Parsed(Text(t)) == EpochOf(t)
  {
    TextParts(t);
    TakeAll(Parts(Text(t)));
  }

  lemma {:induction false} TimeOfDay(secs: nat)
    ensures secs == secs / 86400 * 86400 + secs / 3600 % 24 * 3600 + secs / 60 % 60 * 60 + secs % 60
  {
    var minutes := secs / 60;
    var hours := minutes / 60;
    var days := hours / 24;
    assert secs == minutes * 60 + secs % 60;
    assert minutes == hours * 60 + minutes % 60;
    assert hours == days * 24 + hours % 24;
    DivUnique(secs, 3600, hours, minutes % 60 * 60 + secs % 60);
    DivUnique(secs, 86400, days, hours % 24 * 3600 + minutes % 60 * 60 + secs % 60);
  }

  lemma {:induction false} YearBelowDays(y: nat)
    requires y >= 1970
    ensures y <= 1970 + DaysBefore(y)
  {
    if y > 1970 {
      YearBelowDays(y - 1);
    }
  }

  /** For every 64-bit second count, the text it is printed as parses back to it; the month is one of twelve, the day
      is within its month, and there is no other date it could have been printed as. */
  lemma {:induction false} IsoRoundTrip(secs: nat, t: Time)
    requires secs < U64 && IsTime(secs, t)
    ensures Parsed(Text(t)) == Epoch(secs)
    ensures 1 <= t.mo <= 12 && 1 <= t.d <= Months(t.y)[t.mo - 1] && t.h < 24 && t.mi < 60 && t.s < 60
  {
    YearBelowDays(t.y);
    TimeOfDay(secs);
    TextParses(t);
  }
}
