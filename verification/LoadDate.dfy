/**
  * The vault's time stamps: music-api/src/vault.rs, `load_date`. Rows are ordered by comparing
  * these strings, so string order has to be time order.
  */
module LoadDate {
  import opened CivilCalendar

  // ---------------------------------------------------------------- text order

  /** The order the database gives to text: byte by byte, a proper prefix first. */
  predicate Before(a: string, b: string) {
    b != "" && (a == "" || a[0] < b[0] || (a[0] == b[0] && Before(a[1..], b[1..])))
  }

  lemma {:induction false} BeforeDecidedEarly(p: string, q: string, a: string, b: string)
    requires |p| == |q| && Before(p, q)
    ensures Before(p + a, q + b)
  {
    assert (p + a)[0] == p[0] && (q + b)[0] == q[0];
    if p[0] == q[0] {
      assert (p + a)[1..] == p[1..] + a && (q + b)[1..] == q[1..] + b;
      BeforeDecidedEarly(p[1..], q[1..], a, b);
    }
  }

  lemma {:induction false} BeforeDecidedLate(p: string, a: string, b: string)
    requires Before(a, b)
    ensures Before(p + a, p + b)
  {
    if p == "" {
      assert p + a == a && p + b == b;
    } else {
      assert (p + a)[1..] == p[1..] + a && (p + b)[1..] == p[1..] + b;
      BeforeDecidedLate(p[1..], a, b);
    }
  }

  lemma {:induction false} BeforeIsStrict(a: string, b: string)
    requires Before(a, b)
    ensures !Before(b, a) && a != b
  {
    if a != "" && a[0] == b[0] {
      BeforeIsStrict(a[1..], b[1..]);
    }
  }

  lemma {:induction false} BeforeIsTotal(a: string, b: string)
    ensures Before(a, b) || Before(b, a) || a == b
  {
    if a != "" && b != "" && a[0] == b[0] {
      BeforeIsTotal(a[1..], b[1..]);
      assert a == [a[0]] + a[1..] && b == [b[0]] + b[1..];
    }
  }

  lemma {:induction false} BeforeIsTransitive(a: string, b: string, c: string)
    requires Before(a, b) && Before(b, c)
    ensures Before(a, c)
  {
    if a != "" && a[0] == b[0] == c[0] {
      BeforeIsTransitive(a[1..], b[1..], c[1..]);
    }
  }

  // ---------------------------------------------------------------- numbers, zero-padded

  function Digit(n: nat): char
    requires n < 10
  {
    '0' + n as char
  }

  function Decimal(n: nat): string {
    if n < 10 then [Digit(n)] else Decimal(n / 10) + [Digit(n % 10)]
  }

  /** A number in at least `width` digits, zeros in front; longer numbers are not cut. */
  function Padded(n: nat, width: nat): string {
    var digits := Decimal(n);
    seq(if |digits| < width then width - |digits| else 0, _ => '0') + digits
  }

  function Power10(k: nat): nat {
    if k == 0 then 1 else 10 * Power10(k - 1)
  }

  /** Exactly `width` digits, from the last one back. */
  function Fixed(n: nat, width: nat): string {
    if width == 0 then "" else Fixed(n / 10, width - 1) + [Digit(n % 10)]
  }

  lemma {:induction false} ZerosAreFixed(width: nat)
    ensures Fixed(0, width) == seq(width, _ => '0')
  {
    if width > 0 {
      ZerosAreFixed(width - 1);
      assert Digit(0) == '0';
    }
  }

  lemma {:induction false} PaddedIsFixed(n: nat, width: nat)
    requires width > 0 && n < Power10(width)
    ensures Padded(n, width) == Fixed(n, width)
    ensures |Decimal(n)| <= width
  {
    if n < 10 {
      ZerosAreFixed(width - 1);
      assert Fixed(n, width) == Fixed(0, width - 1) + [Digit(n)];
    } else {
      assert width > 1;
      PaddedIsFixed(n / 10, width - 1);
      assert Padded(n, width) == Padded(n / 10, width - 1) + [Digit(n % 10)];
    }
  }

  lemma {:induction false} FixedLength(n: nat, width: nat)
    ensures |Fixed(n, width)| == width
  {
    if width > 0 {
      FixedLength(n / 10, width - 1);
    }
  }

  lemma {:induction false} FixedKeepsOrder(a: nat, b: nat, width: nat)
    requires a < b < Power10(width)
    ensures Before(Fixed(a, width), Fixed(b, width))
  {
    if width > 0 {
      FixedLength(a / 10, width - 1);
      FixedLength(b / 10, width - 1);
      if a / 10 < b / 10 {
        FixedKeepsOrder(a / 10, b / 10, width - 1);
        BeforeDecidedEarly(Fixed(a / 10, width - 1), Fixed(b / 10, width - 1), [Digit(a % 10)], [Digit(b % 10)]);
      } else {
        BeforeDecidedLate(Fixed(a / 10, width - 1), [Digit(a % 10)], [Digit(b % 10)]);
      }
    }
  }

  // ---------------------------------------------------------------- the stamp

  /** A number, the digits it is padded to, and the character that follows. */
  datatype Field = Field(value: nat, width: nat, after: char)

  function Rendered(fs: seq<Field>): string {
    if fs == [] then "" else Padded(fs[0].value, fs[0].width) + ([fs[0].after] + Rendered(fs[1..]))
  }

  function Stamp(x: Date, secs: nat, micros: nat): seq<Field>
    requires x.year >= 0
  {
    [Field(x.year, 4, '-'), Field(x.month, 2, '-'), Field(x.day, 2, 'T'),
     Field(secs / 3600, 2, ':'), Field(secs % 3600 / 60, 2, ':'), Field(secs % 60, 2, '.'),
     Field(micros, 6, 'Z')]
  }

  /** `at` counts microseconds since the Unix epoch. */
  function FieldsAt(at: nat): seq<Field> {
    var secs := at / 1_000_000;
    YearAfterEpoch(secs / 86_400);
    Stamp(CivilFromDays(secs / 86_400), secs % 86_400, at % 1_000_000)
  }

  function LoadDateAt(at: nat): string {
    Rendered(FieldsAt(at))
  }

  lemma YearAfterEpoch(day: nat)
    ensures CivilFromDays(day).year >= 1970
  {
    EpochIsDayZero();
    if day > 0 {
      DatesFollowDays(0, day);
    }
  }

  // ---------------------------------------------------------------- order of stamps

  predicate SameLayout(fs: seq<Field>, gs: seq<Field>) {
    && |fs| == |gs|
    && forall k :: 0 <= k < |fs| ==>
         && fs[k].width == gs[k].width > 0
         && fs[k].after == gs[k].after
         && fs[k].value < Power10(fs[k].width)
         && gs[k].value < Power10(gs[k].width)
  }

  /** At the first field that differs, the left value is the smaller. */
  predicate FieldsBefore(fs: seq<Field>, gs: seq<Field>)
    requires |fs| == |gs|
  {
    fs != [] && (fs[0].value < gs[0].value || (fs[0].value == gs[0].value && FieldsBefore(fs[1..], gs[1..])))
  }

  lemma {:induction false} RenderedKeepsOrder(fs: seq<Field>, gs: seq<Field>)
    requires SameLayout(fs, gs) && FieldsBefore(fs, gs)
    ensures Before(Rendered(fs), Rendered(gs))
  {
    var f, g := fs[0], gs[0];
    PaddedIsFixed(f.value, f.width);
    PaddedIsFixed(g.value, g.width);
    FixedLength(f.value, f.width);
    FixedLength(g.value, g.width);
    if f.value < g.value {
      FixedKeepsOrder(f.value, g.value, f.width);
      BeforeDecidedEarly(Padded(f.value, f.width), Padded(g.value, g.width),
                         [f.after] + Rendered(fs[1..]), [g.after] + Rendered(gs[1..]));
    } else {
      RenderedKeepsOrder(fs[1..], gs[1..]);
      BeforeDecidedLate([f.after], Rendered(fs[1..]), Rendered(gs[1..]));
      BeforeDecidedLate(Padded(f.value, f.width), [f.after] + Rendered(fs[1..]), [f.after] + Rendered(gs[1..]));
    }
  }

  lemma {:induction false} RenderedLength(fs: seq<Field>)
    requires SameLayout(fs, fs)
    ensures |Rendered(fs)| == Widths(fs) + |fs|
  {
    if fs != [] {
      PaddedIsFixed(fs[0].value, fs[0].width);
      FixedLength(fs[0].value, fs[0].width);
      RenderedLength(fs[1..]);
    }
  }

  function Widths(fs: seq<Field>): nat {
    if fs == [] then 0 else fs[0].width + Widths(fs[1..])
  }

  // ---------------------------------------------------------------- the last instant of year 9999

  /** Microseconds from the Unix epoch to the first instant of the year 10000. */
  const HORIZON: nat := 253_402_300_800_000_000

  lemma FourDigitYears(at: nat)
    ensures at < HORIZON <==> CivilFromDays(at / 1_000_000 / 86_400).year < 10_000
  {
    var days := at / 1_000_000 / 86_400;
    assert at < HORIZON <==> days < 2_932_897;
    FirstDayOfYear10000();
    if days < 2_932_897 {
      DatesFollowDays(days, 2_932_897);
    } else if days > 2_932_897 {
      DatesFollowDays(2_932_897, days);
    }
  }

  lemma FirstDayOfYear10000()
    ensures CivilFromDays(2_932_897) == Date(10_000, 1, 1)
  {
    assert DaysBeforeYear(10_000) - DaysBeforeYear(1970) == 2_932_897;
    CivilOfNumber(Date(10_000, 1, 1));
  }

  /** What keeps every number of a stamp within its digits. */
  predicate InRange(x: Date, secs: nat, micros: nat) {
    ValidDate(x) && 0 <= x.year < 10_000 && secs < 86_400 && micros < 1_000_000
  }

  lemma StampLayout(x: Date, secs: nat, micros: nat, x': Date, secs': nat, micros': nat)
    requires InRange(x, secs, micros) && InRange(x', secs', micros')
    ensures SameLayout(Stamp(x, secs, micros), Stamp(x', secs', micros'))
  {
    assert Power10(2) == 100 && Power10(4) == 10_000;
    assert Power10(6) == 1_000_000;
  }

  lemma {:induction false} WidthsFrom(fs: seq<Field>, k: nat)
    requires k <= |fs|
    ensures Widths(fs) == Widths(fs[..k]) + Widths(fs[k..])
  {
    if k > 0 {
      WidthsFrom(fs[1..], k - 1);
      assert fs[1..][..k - 1] == fs[..k][1..];
      assert fs[1..][k - 1..] == fs[k..];
    } else {
      assert fs[0..] == fs;
    }
  }

  lemma StampWidths(x: Date, secs: nat, micros: nat)
    requires x.year >= 0
    ensures Widths(Stamp(x, secs, micros)) == 20
  {
    var fs := Stamp(x, secs, micros);
    WidthsFrom(fs, 3);
    WidthsFrom(fs[3..], 2);
    WidthsFrom(fs[..3], 2);
    assert Widths(fs[..3][..2]) == 6 && Widths(fs[..3][2..]) == 2;
    assert fs[3..][2..] == [fs[5], fs[6]] && [fs[5], fs[6]][1..] == [fs[6]];
    assert Widths([fs[6]]) == 6;
    assert Widths(fs[3..][..2]) == 4 && Widths(fs[3..][2..]) == 8;
  }

  lemma StampOrder(x: Date, secs: nat, micros: nat, x': Date, secs': nat, micros': nat)
    requires x.year >= 0 && x'.year >= 0
    requires Earlier(x, x') || (x == x' && (secs < secs' || (secs == secs' && micros < micros')))
    ensures FieldsBefore(Stamp(x, secs, micros), Stamp(x', secs', micros'))
  {
    var fs, gs := Stamp(x, secs, micros), Stamp(x', secs', micros');
    if x == x' {
      ClockOrder(fs[3..], gs[3..], secs, micros, secs', micros');
      EqualUpTo(fs, gs, 3);
    }
  }

  lemma {:induction false} EqualUpTo(fs: seq<Field>, gs: seq<Field>, k: nat)
    requires k <= |fs| == |gs|
    requires forall i :: 0 <= i < k ==> fs[i].value == gs[i].value
    requires FieldsBefore(fs[k..], gs[k..])
    ensures FieldsBefore(fs, gs)
  {
    if k > 0 {
      assert fs[1..][k - 1..] == fs[k..] && gs[1..][k - 1..] == gs[k..];
      EqualUpTo(fs[1..], gs[1..], k - 1);
    } else {
      assert fs[0..] == fs && gs[0..] == gs;
    }
  }

  lemma SecondHand(s: nat)
    ensures s % 60 == s % 3600 % 60
  {
    assert s == 60 * (60 * (s / 3600) + s % 3600 / 60) + s % 3600 % 60;
  }

  lemma ClockHands(s: nat, t: nat)
    ensures s < t ==> s / 3600 < t / 3600
                      || (s / 3600 == t / 3600 && (s % 3600 / 60 < t % 3600 / 60
                                                   || (s % 3600 / 60 == t % 3600 / 60 && s % 60 < t % 60)))
  {
    SecondHand(s);
    SecondHand(t);
    var a, b := s % 3600, t % 3600;
    assert s == 3600 * (s / 3600) + a && t == 3600 * (t / 3600) + b;
    assert s < t ==> s / 3600 < t / 3600 || (s / 3600 == t / 3600 && a < b);
    assert a < b ==> a / 60 < b / 60 || (a / 60 == b / 60 && a % 60 < b % 60);
  }

  lemma ClockOrder(fs: seq<Field>, gs: seq<Field>, secs: nat, micros: nat, secs': nat, micros': nat)
    requires |fs| == |gs| == 4
    requires fs[0].value == secs / 3600 && fs[1].value == secs % 3600 / 60 && fs[2].value == secs % 60
    requires gs[0].value == secs' / 3600 && gs[1].value == secs' % 3600 / 60 && gs[2].value == secs' % 60
    requires fs[3].value == micros && gs[3].value == micros'
    requires secs < secs' || (secs == secs' && micros < micros')
    ensures FieldsBefore(fs, gs)
  {
    ClockHands(secs, secs');
    if fs[0].value == gs[0].value {
      var k := if fs[1].value != gs[1].value then 1 else if fs[2].value != gs[2].value then 2 else 3;
      EqualUpTo(fs, gs, k);
    }
  }

  lemma InstantInRange(at: nat)
    requires at < HORIZON
    ensures InRange(CivilFromDays(at / 1_000_000 / 86_400), at / 1_000_000 % 86_400, at % 1_000_000)
  {
    FourDigitYears(at);
    NumberOfCivil(at / 1_000_000 / 86_400);
    YearAfterEpoch(at / 1_000_000 / 86_400);
  }

  lemma ClockParts(a: nat, b: nat)
    requires a < b
    ensures var da, db := a / 1_000_000 / 86_400, b / 1_000_000 / 86_400;
      var s, t := a / 1_000_000 % 86_400, b / 1_000_000 % 86_400;
      da < db || (da == db && (s < t || (s == t && a % 1_000_000 < b % 1_000_000)))
  {
    var x, y := a / 1_000_000, b / 1_000_000;
    assert x < y || (x == y && a % 1_000_000 < b % 1_000_000);
    assert x < y ==> x / 86_400 < y / 86_400 || (x / 86_400 == y / 86_400 && x % 86_400 < y % 86_400);
  }

  lemma FieldsFollowTime(a: nat, b: nat)
    requires a < b < HORIZON
    ensures SameLayout(FieldsAt(a), FieldsAt(b))
    ensures FieldsBefore(FieldsAt(a), FieldsAt(b))
  {
    InstantInRange(a);
    InstantInRange(b);
    ClockParts(a, b);
    if a / 1_000_000 / 86_400 < b / 1_000_000 / 86_400 {
      DatesFollowDays(a / 1_000_000 / 86_400, b / 1_000_000 / 86_400);
    }
    StampLayout(CivilFromDays(a / 1_000_000 / 86_400), a / 1_000_000 % 86_400, a % 1_000_000,
                CivilFromDays(b / 1_000_000 / 86_400), b / 1_000_000 % 86_400, b % 1_000_000);
    StampOrder(CivilFromDays(a / 1_000_000 / 86_400), a / 1_000_000 % 86_400, a % 1_000_000,
               CivilFromDays(b / 1_000_000 / 86_400), b / 1_000_000 % 86_400, b % 1_000_000);
  }

  /** Later instants have later stamps, up to the end of the year 9999. */
  lemma StampsFollowTime(a: nat, b: nat)
    requires a < b < HORIZON
    ensures Before(LoadDateAt(a), LoadDateAt(b))
  {
    FieldsFollowTime(a, b);
    RenderedKeepsOrder(FieldsAt(a), FieldsAt(b));
  }

  lemma StampsHave27Characters(at: nat)
    requires at < HORIZON
    ensures |LoadDateAt(at)| == 27
  {
    var x, s, m := CivilFromDays(at / 1_000_000 / 86_400), at / 1_000_000 % 86_400, at % 1_000_000;
    InstantInRange(at);
    StampLayout(x, s, m, x, s, m);
    StampWidths(x, s, m);
    RenderedLength(Stamp(x, s, m));
  }

  /** The year 10000 sorts before the year 9999. */
  lemma OrderBreaksAtHorizon()
    ensures Before(LoadDateAt(HORIZON), LoadDateAt(HORIZON - 1))
  {
    FirstDayOfYear10000();
    LastDayOfYear9999();
    FirstDigits();
    YearField(HORIZON, 2_932_897);
    YearField(HORIZON - 1, 2_932_896);
    FirstCharacter(FieldsAt(HORIZON));
    FirstCharacter(FieldsAt(HORIZON - 1));
    FirstCharacterDecides(LoadDateAt(HORIZON), LoadDateAt(HORIZON - 1));
  }

  lemma LastDayOfYear9999()
    ensures CivilFromDays(2_932_896).year == 9_999
  {
    FirstDayOfYear10000();
    NumberOfCivil(2_932_896);
    DaysFollowTheCalendar(2_932_896);
  }

  lemma FirstDigits()
    ensures |Decimal(10_000)| == 5 && Decimal(10_000)[0] == '1'
    ensures |Decimal(9_999)| == 4 && Decimal(9_999)[0] == '9'
  {
    assert |Decimal(100)| == 3 && Decimal(100)[0] == '1';
    assert |Decimal(99)| == 2 && Decimal(99)[0] == '9';
  }

  lemma YearField(at: nat, day: nat)
    requires day == at / 1_000_000 / 86_400
    ensures FieldsAt(at) != [] && FieldsAt(at)[0].value == CivilFromDays(day).year
    ensures FieldsAt(at)[0].width == 4
  {
  }

  lemma FirstCharacterDecides(a: string, b: string)
    requires a != "" && b != "" && a[0] < b[0]
    ensures Before(a, b)
  {
  }

  lemma FirstCharacter(fs: seq<Field>)
    requires fs != [] && |Decimal(fs[0].value)| >= fs[0].width
    ensures Rendered(fs) != "" && Rendered(fs)[0] == Decimal(fs[0].value)[0]
  {
  }

  /** The stamps of all instants up to `last` sort by time exactly when `last` is before the horizon. */
  lemma StampsFollowTimeExactly(last: nat)
    ensures (forall a: nat, b: nat :: a < b <= last ==> Before(LoadDateAt(a), LoadDateAt(b))) <==> last < HORIZON
  {
    if last < HORIZON {
      forall a: nat, b: nat | a < b <= last ensures Before(LoadDateAt(a), LoadDateAt(b)) {
        StampsFollowTime(a, b);
      }
    } else {
      OrderBreaksAtHorizon();
      BeforeIsStrict(LoadDateAt(HORIZON), LoadDateAt(HORIZON - 1));
    }
  }

  // ---------------------------------------------------------------- what a stamp says

  /** `digits` are the decimal digits of `n`, zeros in front allowed. */
  predicate Writes(digits: string, n: nat) {
    if digits == "" then n == 0
    else digits[|digits| - 1] as int == '0' as int + n % 10 && Writes(digits[..|digits| - 1], n / 10)
  }

  lemma {:induction false} FixedWrites(n: nat, width: nat)
    requires n < Power10(width)
    ensures |Fixed(n, width)| == width && Writes(Fixed(n, width), n)
  {
    if width > 0 {
      FixedWrites(n / 10, width - 1);
      var front := Fixed(n / 10, width - 1);
      assert Fixed(n, width)[..width - 1] == front;
    }
  }

  /** From `k` on, a field's digits, its closing character, and the fields after it. */
  lemma FieldWrites(text: string, k: nat, fs: seq<Field>)
    requires k <= |text| && text[k..] == Rendered(fs)
    requires fs != [] && 0 < fs[0].width && fs[0].value < Power10(fs[0].width)
    ensures k + fs[0].width < |text|
    ensures Writes(text[k..k + fs[0].width], fs[0].value)
    ensures text[k + fs[0].width] == fs[0].after
    ensures text[k + fs[0].width + 1..] == Rendered(fs[1..])
  {
    var f := fs[0];
    PaddedIsFixed(f.value, f.width);
    FixedWrites(f.value, f.width);
    var digits := Padded(f.value, f.width);
    assert text[k..] == digits + ([f.after] + Rendered(fs[1..]));
    assert text[k..k + f.width] == text[k..][..f.width] == digits;
    assert text[k + f.width + 1..] == text[k..][f.width + 1..];
  }

  /** `YYYY-MM-DDThh:mm:ss.uuuuuuZ` with these numbers. */
  predicate Spells(text: string, x: Date, hour: nat, minute: nat, second: nat, micros: nat) {
    && |text| == 27 && x.year >= 0
    && SpellsDate(text, x)
    && SpellsTime(text, hour, minute, second, micros)
  }

  predicate SpellsTime(text: string, hour: nat, minute: nat, second: nat, micros: nat)
    requires |text| == 27
  {
    && Writes(text[11..13], hour) && text[13] == ':'
    && Writes(text[14..16], minute) && text[16] == ':'
    && Writes(text[17..19], second) && text[19] == '.'
    && Writes(text[20..26], micros) && text[26] == 'Z'
  }

  predicate SpellsDate(text: string, x: Date)
    requires |text| == 27 && x.year >= 0
  {
    && Writes(text[..4], x.year) && text[4] == '-'
    && Writes(text[5..7], x.month) && text[7] == '-'
    && Writes(text[8..10], x.day) && text[10] == 'T'
  }

  lemma DateSpells(x: Date, secs: nat, micros: nat)
    requires InRange(x, secs, micros)
    ensures var fs := Stamp(x, secs, micros);
      |Rendered(fs)| == 27 && SpellsDate(Rendered(fs), x) && Rendered(fs)[11..] == Rendered(fs[3..])
  {
    var fs := Stamp(x, secs, micros);
    var text := Rendered(fs);
    StampLayout(x, secs, micros, x, secs, micros);
    StampWidths(x, secs, micros);
    RenderedLength(fs);
    assert text[0..] == text && text[0..4] == text[..4];
    FieldWrites(text, 0, fs);
    assert fs[1..][1..] == fs[2..] && fs[2..][1..] == fs[3..];
    FieldWrites(text, 5, fs[1..]);
    FieldWrites(text, 8, fs[2..]);
  }

  lemma TimeSpells(text: string, hour: nat, minute: nat, second: nat, micros: nat)
    requires |text| == 27 && hour < 100 && minute < 100 && second < 100 && micros < 1_000_000
    requires text[11..] == Rendered([Field(hour, 2, ':'), Field(minute, 2, ':'), Field(second, 2, '.'), Field(micros, 6, 'Z')])
    ensures SpellsTime(text, hour, minute, second, micros)
  {
    var fs := [Field(hour, 2, ':'), Field(minute, 2, ':'), Field(second, 2, '.'), Field(micros, 6, 'Z')];
    assert Power10(2) == 100 && Power10(6) == 1_000_000;
    FieldWrites(text, 11, fs);
    FieldWrites(text, 14, fs[1..]);
    assert fs[1..][1..] == fs[2..] && fs[2..][1..] == fs[3..];
    FieldWrites(text, 17, fs[2..]);
    FieldWrites(text, 20, fs[3..]);
  }

  lemma StampSpells(x: Date, secs: nat, micros: nat)
    requires InRange(x, secs, micros)
    ensures Spells(Rendered(Stamp(x, secs, micros)), x, secs / 3600, secs % 3600 / 60, secs % 60, micros)
  {
    var fs := Stamp(x, secs, micros);
    DateSpells(x, secs, micros);
    assert fs[3..] == [Field(secs / 3600, 2, ':'), Field(secs % 3600 / 60, 2, ':'), Field(secs % 60, 2, '.'),
                       Field(micros, 6, 'Z')];
    TimeSpells(Rendered(fs), secs / 3600, secs % 3600 / 60, secs % 60, micros);
  }

  /** A stamp of an instant before the year 10000 spells a real date and time, the one that instant is. */
  lemma StampTellsTheInstant(at: nat) returns (x: Date, hour: nat, minute: nat, second: nat, micros: nat)
    requires at < HORIZON
    ensures Spells(LoadDateAt(at), x, hour, minute, second, micros)
    ensures ValidDate(x) && hour < 24 && minute < 60 && second < 60 && micros < 1_000_000
    ensures at == (((DayNumber(x) * 24 + hour) * 60 + minute) * 60 + second) * 1_000_000 + micros
  {
    var days, secs := at / 1_000_000 / 86_400, at / 1_000_000 % 86_400;
    x, hour, minute, second, micros := CivilFromDays(days), secs / 3600, secs % 3600 / 60, secs % 60, at % 1_000_000;
    InstantInRange(at);
    NumberOfCivil(days);
    StampSpells(x, secs, micros);
    SecondHand(secs);
    DayInMicros(at, days, secs);
  }

  lemma DayInMicros(at: nat, days: nat, secs: nat)
    requires days == at / 1_000_000 / 86_400 && secs == at / 1_000_000 % 86_400
    ensures at == (days * 86_400 + secs) * 1_000_000 + at % 1_000_000
  {
  }
}
