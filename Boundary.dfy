/**
 * The boundary predicates: does the value fall on a named weekday or month,
 * in a given year, ISO week or day of the year, and the wrappers built on
 * them. The host calendar's fields of the value (`format('w')`, `'n'`,
 * `'W'`, `'z'`, `'Y'`) and of the clock (`date('Y')`, `date('W')`) are
 * inputs.
 */
module Boundary {
  import opened Wrappers
  import opened PhpStrings

  type Weekday = d: int | 0 <= d <= 6
  type MonthNumber = m: int | 1 <= m <= 12 witness 1
  type IsoWeek = w: int | 1 <= w <= 53 witness 1
  type YearDay = z: int | 0 <= z <= 365

  /** What the host calendar reports for an instant in its timezone. */
  datatype Fields = Fields(weekday: Weekday, month: MonthNumber, week: IsoWeek, yearDay: YearDay, year: int)

  const DayNames: seq<string> := ["sunday", "monday", "tuesday", "wednesday", "thursday", "friday", "saturday"]

  const MonthNames: seq<string> := [
    "january", "february", "march", "april", "may", "june",
    "july", "august", "september", "october", "november", "december"
  ]

  const Separator: char := '|'

  /**
   * `isDay($day)`: the English name of the value's weekday is one of the
   * `|`-separated pieces of the lower-cased argument.
   */
  function IsDay(f: Fields, day: string): (r: bool)
    ensures day == "" ==> !r
  {
    DayNames[f.weekday] in Explode(Separator, Lower(day))
  }

  /** `isMonth($month)`: the same test on the month name at index `format('n') - 1`. */
  function IsMonth(f: Fields, month: string): (r: bool)
    ensures month == "" ==> !r
  {
    MonthNames[f.month - 1] in Explode(Separator, Lower(month))
  }

  /** Some `|`-separated piece of `s`, lower-cased, is exactly `name`: pieces are not trimmed. */
  predicate SomePieceIs(name: string, s: string)
  {
    exists k :: 0 <= k < |Explode(Separator, s)| && Lower(Explode(Separator, s)[k]) == name
  }

  /** Lower-casing before splitting is the same as lower-casing each piece. */
  lemma NameTestsByPiece(f: Fields, s: string)
    ensures IsDay(f, s) <==> SomePieceIs(DayNames[f.weekday], s)
    ensures IsMonth(f, s) <==> SomePieceIs(MonthNames[f.month - 1], s)
  {
    ExplodeLower(Separator, s);
  }

  /** Case does not matter to the name tests. */
  lemma NameTestsIgnoreCase(f: Fields, s: string)
    ensures IsDay(f, s) == IsDay(f, Lower(s))
    ensures IsMonth(f, s) == IsMonth(f, Lower(s))
  {
    LowerIdempotent(s);
  }

  /**
   * A PHP value as the year, week and year-day tests receive it. Floats and
   * objects are not modelled.
   */
  datatype PhpValue =
    | IntVal(i: int)
    | StrVal(s: string)
    | BoolVal(b: bool)
    | NullVal
    | ArrayVal(elems: seq<PhpValue>)

  /**
   * PHP 8 `$n == $v` for an int n: a string is equal when it is an integer
   * numeric string of n, `true` equals every int but 0, `false` and null
   * only 0, an array never.
   */
  function LooseEqualsInt(n: int, v: PhpValue): (r: bool)
    ensures v.IntVal? ==> (r <==> v.i == n)
    ensures v.StrVal? ==> (r <==> IntegerNumericValue(v.s) == Some(n))
    ensures v.BoolVal? ==> (r <==> (n != 0) == v.b)
    ensures v.NullVal? ==> (r <==> n == 0)
    ensures v.ArrayVal? ==> !r
  {
    match v
    case IntVal(i) => i == n
    case StrVal(s) =>
      LooseEqualsTextIff(n, s);
      LooseEqualsText(n, s)
    case BoolVal(b) => (n != 0) == b
    case NullVal => n == 0
    case ArrayVal(_) => false
  }

  /** `in_array($n, $xs)` with loose comparison: some element is loosely equal to n. */
  function InArray(n: int, xs: seq<PhpValue>): (r: bool)
    ensures IntVal(n) in xs ==> r
    ensures StrVal(IntToDecimal(n)) in xs ==> r
    ensures n != 0 && BoolVal(true) in xs ==> r
    ensures n == 0 && (BoolVal(false) in xs || NullVal in xs) ==> r
    ensures r ==> exists k :: 0 <= k < |xs| && LooseEqualsInt(n, xs[k])
    ensures xs == [] ==> !r
  {
    IntToDecimalIsNumeric(n);
    assert LooseEqualsInt(n, StrVal(IntToDecimal(n)));
    exists k :: 0 <= k < |xs| && LooseEqualsInt(n, xs[k])
  }

  /** `explode('|', $s)` as an array of PHP strings. */
  function Pieces(s: string): (xs: seq<PhpValue>)
    ensures |xs| == |Explode(Separator, s)|
    ensures forall k :: 0 <= k < |xs| ==> xs[k] == StrVal(Explode(Separator, s)[k])
  {
    var parts := Explode(Separator, s);
    seq(|parts|, k requires 0 <= k < |parts| => StrVal(parts[k]))
  }

  /** Some `|`-separated piece of `s` is an integer numeral of `field`. */
  predicate HasNumeral(field: int, s: string)
  {
    exists k :: 0 <= k < |Explode(Separator, s)| && IntegerNumericValue(Explode(Separator, s)[k]) == Some(field)
  }

  lemma TextArgument(field: int, s: string)
    ensures InArray(field, Pieces(s)) <==> HasNumeral(field, s)
  {
    var xs := Pieces(s);
    var parts := Explode(Separator, s);
    forall k | 0 <= k < |parts|
      ensures LooseEqualsInt(field, xs[k]) <==> IntegerNumericValue(parts[k]) == Some(field)
    {
      LooseEqualsTextIff(field, parts[k]);
    }
  }

  /**
   * The body shared by `isYear`, `isWeek` and `isYearDay`: an int is compared
   * strictly, a string is exploded on `|` and searched loosely, an array is
   * searched loosely, any other value gives false.
   */
  function MatchesField(field: int, arg: PhpValue): (r: bool)
    ensures arg.IntVal? ==> (r <==> arg.i == field)
    ensures arg.StrVal? ==> (r <==> HasNumeral(field, arg.s))
    ensures arg.ArrayVal? ==> (r <==> exists k :: 0 <= k < |arg.elems| && LooseEqualsInt(field, arg.elems[k]))
    ensures arg.BoolVal? || arg.NullVal? ==> !r
  {
    match arg
    case IntVal(i) => i == field
    case StrVal(s) =>
      TextArgument(field, s);
      InArray(field, Pieces(s))
    case ArrayVal(xs) => InArray(field, xs)
    case _ => false
  }

  /** In an array of ints only, loose search is plain membership. */
  lemma InArrayOfInts(n: int, xs: seq<PhpValue>)
    requires forall k :: 0 <= k < |xs| ==> xs[k].IntVal?
    ensures InArray(n, xs) <==> IntVal(n) in xs
  {
    if IntVal(n) in xs {
      var k :| 0 <= k < |xs| && xs[k] == IntVal(n);
      assert LooseEqualsInt(n, xs[k]);
    }
  }

  /** `isYear($year)`. */
  function IsYear(f: Fields, year: PhpValue): (r: bool)
    ensures year.IntVal? ==> (r <==> year.i == f.year)
    ensures year.StrVal? ==> (r <==> HasNumeral(f.year, year.s))
    ensures year.ArrayVal? ==> (r <==> InArray(f.year, year.elems))
    ensures year.BoolVal? || year.NullVal? ==> !r
  {
    MatchesField(f.year, year)
  }

  /** `isWeek($week)`. */
  function IsWeek(f: Fields, week: PhpValue): (r: bool)
    ensures week.IntVal? ==> (r <==> week.i == f.week)
    ensures week.StrVal? ==> (r <==> HasNumeral(f.week, week.s))
    ensures week.ArrayVal? ==> (r <==> InArray(f.week, week.elems))
    ensures week.BoolVal? || week.NullVal? ==> !r
  {
    MatchesField(f.week, week)
  }

  /** `isYearDay($day)`. */
  function IsYearDay(f: Fields, day: PhpValue): (r: bool)
    ensures day.IntVal? ==> (r <==> day.i == f.yearDay)
    ensures day.StrVal? ==> (r <==> HasNumeral(f.yearDay, day.s))
    ensures day.ArrayVal? ==> (r <==> InArray(f.yearDay, day.elems))
    ensures day.BoolVal? || day.NullVal? ==> !r
  {
    MatchesField(f.yearDay, day)
  }

  /** The field's own numeral, as a string argument, matches. */
  lemma NumeralMatches(field: int)
    ensures MatchesField(field, StrVal(IntToDecimal(field)))
  {
    var s := IntToDecimal(field);
    var digits := NatToDecimal(if field < 0 then -field else field);
    assert s == if field < 0 then "-" + digits else digits;
    assert Separator !in digits by {
      assert forall i :: 0 <= i < |digits| ==> IsDigit(digits[i]);
    }
    ExplodeNoSeparator(Separator, s);
    IntToDecimalIsNumeric(field);
    assert IntegerNumericValue(Explode(Separator, s)[0]) == Some(field);
  }

  lemma {:induction false} ExplodeNoSeparator(sep: char, s: string)
    requires sep !in s
    ensures Explode(sep, s) == [s]
  {
    if s != [] {
      ExplodeNoSeparator(sep, s[1..]);
      assert [s[0]] + s[1..] == s;
    }
  }

  /** A lower-case argument without `|` is a single piece: only itself matches. */
  lemma SinglePiece(name: string, arg: string)
    requires Separator !in arg && NoUpper(arg)
    ensures name in Explode(Separator, Lower(arg)) <==> name == arg
  {
    LowerOfNoUpper(arg);
    ExplodeNoSeparator(Separator, arg);
  }

  /** In a list of distinct single-piece names, the name at j matches only index j. */
  lemma NameAtIndex(names: seq<string>, i: int, j: int)
    requires 0 <= i < |names| && 0 <= j < |names|
    requires names[i] == names[j] <==> i == j
    requires Separator !in names[j] && NoUpper(names[j])
    ensures names[i] in Explode(Separator, Lower(names[j])) <==> i == j
  {
    SinglePiece(names[i], names[j]);
  }

  lemma DayNamesWellFormed()
    ensures forall a, b :: 0 <= a < b < |DayNames| ==> DayNames[a] != DayNames[b]
    ensures forall a :: 0 <= a < |DayNames| ==> NoUpper(DayNames[a]) && Separator !in DayNames[a]
  {
  }

  lemma MonthNamesWellFormed()
    ensures forall a :: 0 <= a < |MonthNames| ==> NoUpper(MonthNames[a]) && Separator !in MonthNames[a]
  {
  }

  /** The wrapper `is<Weekday>()` holds exactly on weekday number `w`. */
  lemma NamedDay(f: Fields, w: Weekday)
    ensures IsDay(f, DayNames[w]) <==> f.weekday == w
  {
    DayNamesWellFormed();
    NameAtIndex(DayNames, f.weekday, w);
  }

  lemma MonthNamesDistinct(a: int, b: int)
    requires 0 <= a < |MonthNames| && 0 <= b < |MonthNames|
    ensures MonthNames[a] == MonthNames[b] <==> a == b
  {
  }

  /** The wrapper `is<Month>()` holds exactly in month number `m`. */
  lemma NamedMonth(f: Fields, m: MonthNumber)
    ensures IsMonth(f, MonthNames[m - 1]) <==> f.month == m
  {
    MonthNamesWellFormed();
    MonthNamesDistinct(f.month - 1, m - 1);
    NameAtIndex(MonthNames, f.month - 1, m - 1);
  }

  function IsJanuary(f: Fields): (r: bool) ensures r <==> f.month == 1 { NamedMonth(f, 1); IsMonth(f, "january") }
  function IsFebruary(f: Fields): (r: bool) ensures r <==> f.month == 2 { NamedMonth(f, 2); IsMonth(f, "february") }
  function IsMarch(f: Fields): (r: bool) ensures r <==> f.month == 3 { NamedMonth(f, 3); IsMonth(f, "march") }
  function IsMay(f: Fields): (r: bool) ensures r <==> f.month == 5 { NamedMonth(f, 5); IsMonth(f, "may") }
  function IsJune(f: Fields): (r: bool) ensures r <==> f.month == 6 { NamedMonth(f, 6); IsMonth(f, "june") }
  function IsJuly(f: Fields): (r: bool) ensures r <==> f.month == 7 { NamedMonth(f, 7); IsMonth(f, "july") }
  function IsAugust(f: Fields): (r: bool) ensures r <==> f.month == 8 { NamedMonth(f, 8); IsMonth(f, "august") }
  function IsSeptember(f: Fields): (r: bool) ensures r <==> f.month == 9 { NamedMonth(f, 9); IsMonth(f, "september") }
  function IsOctober(f: Fields): (r: bool) ensures r <==> f.month == 10 { NamedMonth(f, 10); IsMonth(f, "october") }
  function IsNovember(f: Fields): (r: bool) ensures r <==> f.month == 11 { NamedMonth(f, 11); IsMonth(f, "november") }
  function IsDecember(f: Fields): (r: bool) ensures r <==> f.month == 12 { NamedMonth(f, 12); IsMonth(f, "december") }

  function IsMonday(f: Fields): (r: bool) ensures r <==> f.weekday == 1 { NamedDay(f, 1); IsDay(f, "monday") }
  function IsTuesday(f: Fields): (r: bool) ensures r <==> f.weekday == 2 { NamedDay(f, 2); IsDay(f, "tuesday") }
  function IsWednesday(f: Fields): (r: bool) ensures r <==> f.weekday == 3 { NamedDay(f, 3); IsDay(f, "wednesday") }
  function IsThursday(f: Fields): (r: bool) ensures r <==> f.weekday == 4 { NamedDay(f, 4); IsDay(f, "thursday") }
  function IsFriday(f: Fields): (r: bool) ensures r <==> f.weekday == 5 { NamedDay(f, 5); IsDay(f, "friday") }
  function IsSaturday(f: Fields): (r: bool) ensures r <==> f.weekday == 6 { NamedDay(f, 6); IsDay(f, "saturday") }
  function IsSunday(f: Fields): (r: bool) ensures r <==> f.weekday == 0 { NamedDay(f, 0); IsDay(f, "sunday") }

  /** `isCurrentYear()`: the value's year is the clock's year. */
  function IsCurrentYear(f: Fields, clockYear: int): (r: bool)
    ensures r <==> f.year == clockYear
  {
    IsYear(f, IntVal(clockYear))
  }

  function IsNextYear(f: Fields, clockYear: int): (r: bool)
    ensures r <==> f.year == clockYear + 1
  {
    IsYear(f, IntVal(clockYear + 1))
  }

  function IsPrevYear(f: Fields, clockYear: int): (r: bool)
    ensures r <==> f.year == clockYear - 1
  {
    IsYear(f, IntVal(clockYear - 1))
  }

  function IsCurrentWeek(f: Fields, clockWeek: IsoWeek): (r: bool)
    ensures r <==> f.week == clockWeek
  {
    IsWeek(f, IntVal(clockWeek))
  }

  /** The week after `w` on a fixed 52-week cycle. */
  function NextWeek(w: int): int
  {
    if w + 1 > 52 then 1 else w + 1
  }

  /** The week before `w` on a fixed 52-week cycle. */
  function PrevWeek(w: int): int
  {
    if w - 1 < 1 then 52 else w - 1
  }

  /** On weeks 1..52 the two steps undo each other. */
  lemma WeekStepsInverse(a: int, b: int)
    requires 1 <= a <= 52 && 1 <= b <= 52
    ensures NextWeek(a) == b <==> PrevWeek(b) == a
  {
  }

  function IsNextWeek(f: Fields, clockWeek: IsoWeek): (r: bool)
    ensures 1 <= clockWeek <= 51 ==> (r <==> f.week == clockWeek + 1)
    ensures clockWeek >= 52 ==> (r <==> f.week == 1)
    ensures f.week == 53 ==> !r
  {
    IsWeek(f, IntVal(NextWeek(clockWeek)))
  }

  function IsPrevWeek(f: Fields, clockWeek: IsoWeek): (r: bool)
    ensures 2 <= clockWeek ==> (r <==> f.week == clockWeek - 1)
    ensures clockWeek <= 1 ==> (r <==> f.week == 52)
  {
    IsWeek(f, IntVal(PrevWeek(clockWeek)))
  }

  /** The year-day after `z` on a fixed cycle 0..365. */
  function NextYearDay(z: int): int
  {
    if z + 1 > 365 then 0 else z + 1
  }

  /** The year-day before `z` on a fixed cycle 0..365. */
  function PrevYearDay(z: int): int
  {
    if z - 1 < 0 then 365 else z - 1
  }

  /** `isCurrentDay()` as written: it tests the value's year-day against itself. */
  function IsCurrentDay(f: Fields): (r: bool)
    ensures r
  {
    IsYearDay(f, IntVal(f.yearDay))
  }

  /** `isNextDay()` as written: the value's own year-day plus one, never the clock's. */
  function IsNextDay(f: Fields): (r: bool)
    ensures !r
  {
    IsYearDay(f, IntVal(NextYearDay(f.yearDay)))
  }

  /** `isPrevDay()` as written. */
  function IsPrevDay(f: Fields): (r: bool)
    ensures !r
  {
    IsYearDay(f, IntVal(PrevYearDay(f.yearDay)))
  }

  /**
   * The day predicates as evidently intended, on the pattern of the week
   * predicates: compared with the clock's year-day.
   */
  function IsCurrentDayOf(f: Fields, clockDay: YearDay): (r: bool)
    ensures r <==> f.yearDay == clockDay
  {
    IsYearDay(f, IntVal(clockDay))
  }

  function IsNextDayOf(f: Fields, clockDay: YearDay): (r: bool)
    ensures clockDay < 365 ==> (r <==> f.yearDay == clockDay + 1)
    ensures clockDay == 365 ==> (r <==> f.yearDay == 0)
  {
    IsYearDay(f, IntVal(NextYearDay(clockDay)))
  }

  function IsPrevDayOf(f: Fields, clockDay: YearDay): (r: bool)
    ensures clockDay > 0 ==> (r <==> f.yearDay == clockDay - 1)
    ensures clockDay == 0 ==> (r <==> f.yearDay == 365)
  {
    IsYearDay(f, IntVal(PrevYearDay(clockDay)))
  }

  /**
   * The corrected predicates say something about the value: a value is the
   * day after the clock exactly when the clock is the day before the value,
   * and a value is at most one of yesterday, today and tomorrow.
   */
  lemma DayOfClockRelations(f: Fields, g: Fields)
    ensures IsNextDayOf(f, g.yearDay) <==> IsPrevDayOf(g, f.yearDay)
    ensures !(IsCurrentDayOf(f, g.yearDay) && IsNextDayOf(f, g.yearDay))
    ensures !(IsCurrentDayOf(f, g.yearDay) && IsPrevDayOf(f, g.yearDay))
    ensures !(IsNextDayOf(f, g.yearDay) && IsPrevDayOf(f, g.yearDay))
    ensures IsCurrentDayOf(f, g.yearDay) <==> f.yearDay == g.yearDay
  {
  }

  /** The corrected next-day predicate is not constant. */
  lemma NextDayOfDecides(f: Fields)
    ensures IsNextDayOf(f, PrevYearDay(f.yearDay))
    ensures !IsNextDayOf(f, f.yearDay)
  {
  }

  /**
   * The discrepancy: a value lying on the day after the clock's is not
   * reported by `isNextDay()`, one on the day before is not reported by
   * `isPrevDay()`, and `isCurrentDay()` holds on any other day too.
   */
  lemma DayPredicatesIgnoreClock(f: Fields, clockDay: YearDay)
    ensures clockDay == PrevYearDay(f.yearDay) ==> IsNextDayOf(f, clockDay) && !IsNextDay(f)
    ensures clockDay == NextYearDay(f.yearDay) ==> IsPrevDayOf(f, clockDay) && !IsPrevDay(f)
    ensures clockDay != f.yearDay ==> !IsCurrentDayOf(f, clockDay) && IsCurrentDay(f)
  {
  }

  /** A value in ISO week 53 is never "next week" nor "previous week". */
  lemma Week53NeverAdjacent(f: Fields, clockWeek: IsoWeek)
    requires f.week == 53
    ensures !IsNextWeek(f, clockWeek) && !IsPrevWeek(f, clockWeek)
  {
  }
}
