# PHPTimeBender in Dafny

A model of PHPTimeBender, a PHP date-time library built as a subclass of
`\DateTime`. The model covers three parts of its core class
(`src/PHPTimeBender.php`) and its two locale files:

- **Arithmetic.** A value is a timestamp in a timezone. Every operation
  clones the receiver, changes the clone and returns it.
  - Seconds, minutes, hours and days move the timestamp by an exact number
    of seconds.
  - Months and years become relative-interval text such as `-3 month`,
    which the host calendar applies (`Arithmetic.dfy`).
- **Boundary predicates.** These test whether the value falls on a named
  weekday or month, or in a given year, ISO week or day of the year. They
  match case-insensitively against `|`-separated alternatives, and
  `in_array` compares loosely under PHP 8 rules. The relative predicates
  step through years, weeks and days (`Boundary.dfy`).
- **The humanizer** (`Humanizer.dfy`).
  - It picks one unit from the distance between the value and the clock.
  - It rounds the count.
  - It chooses the singular or plural noun from the locale.
  - It wraps the phrase in the locale's `ago` or `later` template.
  - A process-wide language object is set up lazily on first use.
- **The en_EN and tr_TR tables** (`Locales.dfy`). They are kept as
  constant maps, and a lookup falls back to the key text.

`PhpStrings.dfy` holds the PHP built-ins these rely on:
- integer to string conversion;
- `strtolower`;
- `explode` on one character;
- PHP 8 loose comparison of an int with a string.

The following are passed in as parameters:
- the host calendar: the fields `format('w'|'n'|'W'|'z'|'Y')`, `strtotime`,
  and `DateInterval` with `add`;
- the clock: `time()`, `date('Y')`, `date('W')`;
- the language library's `{diff}` substitution (`Humanizer.Render`).

`Humanizer.FillDiff` is a reference substitution, used for the concrete
examples.

## Model

| member | source | states |
|---|---|---|
| PhpStrings.NatToDecimalRoundTrip | src/PHPTimeBender.php:458 | the decimal text PHP writes for a count reads back as that count |
| PhpStrings.IntToDecimal | src/PHPTimeBender.php:458 | `$n . ''` is non-empty, starts with `-` exactly for negative n, and is all digits otherwise |
| PhpStrings.Lower | src/PHPTimeBender.php:105 | `strtolower` keeps the length and maps each character through ASCII lower-casing |
| PhpStrings.Explode | src/PHPTimeBender.php:105 | `explode` with a one-character delimiter gives at least one piece, and no piece holds the delimiter |
| PhpStrings.IntToDecimalIsNumeric | src/PHPTimeBender.php:131-136 | the decimal text of any int (`(string)$n`) is an integer numeric string whose value is that int |
| PhpStrings.LooseEqualsTextIff | src/PHPTimeBender.php:134-135 | PHP 8 `$n == $s` for an int and a string holds exactly when `$s` is an integer numeric string (surrounding whitespace allowed) of value `$n` (float numeric strings such as `"2024.0"` are not modelled) |
| PhpStrings.ImplodeExplode | src/PHPTimeBender.php:105 | `explode('|', $s)` loses nothing: joining the pieces with `|` gives `$s` back |
| PhpStrings.ExplodeLower | src/PHPTimeBender.php:105 | splitting the lower-cased text on `|` gives the pieces of the original text, each lower-cased |
| PhpStrings.LowerIdempotent | src/PHPTimeBender.php:105 | `strtolower` applied twice equals applied once |
| Locales.NounKeysRequested | src/PHPTimeBender.php:459-510 | every singular and plural noun key the humanizer can request is one of the sixteen requested keys, and the two forms differ |
| Locales.EnAgoTemplate | src/Languages/en_EN/Main.php:29 | the en_EN `ago` template holds exactly one `{diff}`, at the start |
| Locales.LeadingTemplate | src/Languages/en_EN/Main.php:29-30 | `{diff}` followed by text without `{` holds exactly one `{diff}`, at its start |
| Locales.EnKeys | src/Languages/en_EN/Main.php:14-31 | the en_EN table defines exactly the sixteen keys the humanizer requests |
| Locales.EnPlurals | src/Languages/en_EN/Main.php:15-28 | every en_EN plural noun is its singular followed by `s` |
| Locales.EnTemplates | src/Languages/en_EN/Main.php:29-30 | both en_EN templates hold exactly one `{diff}`, at the start |
| Locales.EnSingulars | src/Languages/en_EN/Main.php:15-28 | no en_EN singular noun is empty or ends in `s` |
| Locales.TrKeys | src/Languages/tr_TR/Main.php:14-31 | the tr_TR table defines the same keys as en_EN |
| Locales.TrPlurals | src/Languages/tr_TR/Main.php:15-28 | every tr_TR plural noun equals its singular |
| Locales.TrNounsDistinct | src/Languages/tr_TR/Main.php:15-28 | the seven tr_TR unit nouns are pairwise distinct |
| Locales.TrTemplates | src/Languages/tr_TR/Main.php:29-30 | both tr_TR templates hold exactly one `{diff}`, at the start |
| Locales.TableFor | src/PHPTimeBender.php:516-524 | a shipped locale (`en_EN`, `tr_TR`) has a table whose keys are exactly the sixteen requested keys; any other identifier has no table |
| Locales.ShippedTablesCoverRequests | src/PHPTimeBender.php:531 | under en_EN and tr_TR no requested key falls back to itself |
| Locales.UnknownLocaleFallsBack | src/PHPTimeBender.php:531 | under a locale without a table every key renders as the key text |
| Arithmetic.TimeBender.constructor | src/PHPTimeBender.php:31-34 | a value holds the timestamp and timezone it was built with, and no `timestamp` property |
| Arithmetic.TimeBender.Clone | src/PHPTimeBender.php:324 | `clone $this` is a new object with the same timestamp, zone and `timestamp` property |
| Arithmetic.TimeBender.SetTimestamp | src/PHPTimeBender.php:326 | `setTimestamp` changes the timestamp and nothing else |
| Arithmetic.TimeBender.Parse | src/PHPTimeBender.php:56-64 | a fresh clone at the timestamp `strtotime` gives, or the error 'The string could not be parsed.' when it fails; the receiver is unchanged |
| Arithmetic.TimeBender.AddSecond | src/PHPTimeBender.php:322-328 | a fresh value at `ts + n`, same zone, receiver unchanged |
| Arithmetic.TimeBender.SubSecond | src/PHPTimeBender.php:330-336 | a fresh value at `ts - n`, same zone, receiver unchanged |
| Arithmetic.TimeBender.AddMinute | src/PHPTimeBender.php:338-344 | a fresh value at `ts + 60n`, same zone, receiver unchanged |
| Arithmetic.TimeBender.SubMinute | src/PHPTimeBender.php:346-352 | a fresh value at `ts - 60n`, same zone, receiver unchanged |
| Arithmetic.TimeBender.AddHour | src/PHPTimeBender.php:354-360 | a fresh value at `ts + 3600n`, same zone, receiver unchanged |
| Arithmetic.TimeBender.SubHour | src/PHPTimeBender.php:362-368 | a fresh value at `ts - 3600n`, same zone, receiver unchanged |
| Arithmetic.TimeBender.AddDay | src/PHPTimeBender.php:370-376 | a fresh value at `ts + 86400n`, same zone, receiver unchanged |
| Arithmetic.TimeBender.SubDay | src/PHPTimeBender.php:378-384 | a fresh value at `ts - 86400n`, same zone, receiver unchanged |
| Arithmetic.TimeBender.AddInterval | src/PHPTimeBender.php:412-421 | a fresh clone moved by the host calendar, its `timestamp` property set to the new timestamp, or the error naming the text when the host rejects it; the receiver is unchanged |
| Arithmetic.TimeBender.AddMonth | src/PHPTimeBender.php:386-389 | the receiver moved by the interval text `n month` |
| Arithmetic.TimeBender.SubMonth | src/PHPTimeBender.php:391-397 | the receiver moved by the interval text `-|n| month` |
| Arithmetic.TimeBender.AddYear | src/PHPTimeBender.php:399-402 | the receiver moved by the interval text `n year` |
| Arithmetic.TimeBender.SubYear | src/PHPTimeBender.php:404-410 | the receiver moved by the interval text `-|n| year` |
| Arithmetic.AddThenSub | src/PHPTimeBender.php:322-384 | adding n of a fixed unit moves the timestamp by n times the unit's seconds, and subtracting n again gives a new value with the original timestamp and zone |
| Arithmetic.AddMonthText | src/PHPTimeBender.php:388 | the text `addMonth` builds is non-empty and starts with `-` exactly for a negative count |
| Arithmetic.SubMonthText | src/PHPTimeBender.php:393-396 | the text `subMonth` builds always starts with `-` |
| Arithmetic.AddYearText | src/PHPTimeBender.php:401 | the text `addYear` builds is non-empty and starts with `-` exactly for a negative count |
| Arithmetic.SubYearText | src/PHPTimeBender.php:406-409 | the text `subYear` builds always starts with `-` |
| Arithmetic.SubIsMinusAdd | src/PHPTimeBender.php:386-410 | the `subMonth`/`subYear` text is a minus sign before the `addMonth`/`addYear` text of the absolute value |
| Arithmetic.AddMonthReadsBack | src/PHPTimeBender.php:386-389 | the text `addMonth(n)` builds reads back as the interval of n months, sign included |
| Arithmetic.AddYearReadsBack | src/PHPTimeBender.php:399-402 | the text `addYear(n)` builds reads back as the interval of n years, sign included |
| Arithmetic.SubMonthReadsBack | src/PHPTimeBender.php:391-397 | the text `subMonth(n)` builds reads back as minus `|n|` months, so it never moves forward, and n and -n give the same text |
| Arithmetic.SubYearReadsBack | src/PHPTimeBender.php:404-410 | the text `subYear(n)` builds reads back as minus `|n|` years, and n and -n give the same text |
| Arithmetic.SubNegativeIsAdd | src/PHPTimeBender.php:386-410 | for a negative count, `subMonth`/`subYear` build the same text as `addMonth`/`addYear` |
| Boundary.IsDay | src/PHPTimeBender.php:99-110 | the weekday name test; an empty argument never matches |
| Boundary.IsMonth | src/PHPTimeBender.php:112-123 | the month name test; an empty argument never matches |
| Boundary.NameTestsByPiece | src/PHPTimeBender.php:99-123 | `isDay`/`isMonth` hold exactly when some `|`-separated piece, lower-cased and not trimmed, equals the English name at the value's weekday or month index |
| Boundary.NameTestsIgnoreCase | src/PHPTimeBender.php:105 | the name tests give the same answer for the argument and its lower-cased form |
| Boundary.LooseEqualsInt | src/PHPTimeBender.php:135 | PHP 8 `$n == $v`: an int by value, a string when it is an integer numeric string of n, `true` for every n but 0, `false` and null for 0, an array never |
| Boundary.InArray | src/PHPTimeBender.php:135 | `in_array` with loose comparison: a match is an element loosely equal to n; the int itself, its decimal string, `true` for a non-zero n and `false` or `null` for zero each match, and an empty array never does |
| Boundary.TextArgument | src/PHPTimeBender.php:131-136 | a string argument matches exactly when one of its `|`-separated pieces is an integer numeral of the field (float numeric pieces are not modelled) |
| Boundary.MatchesField | src/PHPTimeBender.php:125-138 | an int argument matches by strict equality, a string by a numeral piece, an array by loose membership of its elements, a bool or null never |
| Boundary.InArrayOfInts | src/PHPTimeBender.php:134-135 | in an array of ints, loose membership is plain membership |
| Boundary.IsYear | src/PHPTimeBender.php:125-138 | `isYear`: the year field against an int (strict), a `|`-string (a numeral piece), an array (loose membership); false for bool and null |
| Boundary.IsWeek | src/PHPTimeBender.php:140-153 | `isWeek`: the ISO week field against an int (strict), a `|`-string (a numeral piece), an array (loose membership); false for bool and null |
| Boundary.IsYearDay | src/PHPTimeBender.php:155-168 | `isYearDay`: the year-day field against an int (strict), a `|`-string (a numeral piece), an array (loose membership); false for bool and null |
| Boundary.NumeralMatches | src/PHPTimeBender.php:131-136 | the field's own decimal text, passed as a string, always matches |
| Boundary.NamedDay | src/PHPTimeBender.php:225-258 | the name at weekday index w matches a value exactly when the value's weekday is w |
| Boundary.NamedMonth | src/PHPTimeBender.php:170-223 | the name at month index m - 1 matches a value exactly when the value's month is m |
| Boundary.IsJanuary | src/PHPTimeBender.php:170-173 | holds exactly when the value's month is 1 |
| Boundary.IsFebruary | src/PHPTimeBender.php:175-178 | holds exactly when the value's month is 2 |
| Boundary.IsMarch | src/PHPTimeBender.php:180-183 | holds exactly when the value's month is 3 |
| Boundary.IsMay | src/PHPTimeBender.php:185-188 | holds exactly when the value's month is 5 |
| Boundary.IsJune | src/PHPTimeBender.php:190-193 | holds exactly when the value's month is 6 |
| Boundary.IsJuly | src/PHPTimeBender.php:195-198 | holds exactly when the value's month is 7 |
| Boundary.IsAugust | src/PHPTimeBender.php:200-203 | holds exactly when the value's month is 8 |
| Boundary.IsSeptember | src/PHPTimeBender.php:205-208 | holds exactly when the value's month is 9 |
| Boundary.IsOctober | src/PHPTimeBender.php:210-213 | holds exactly when the value's month is 10 |
| Boundary.IsNovember | src/PHPTimeBender.php:215-218 | holds exactly when the value's month is 11 |
| Boundary.IsDecember | src/PHPTimeBender.php:220-223 | holds exactly when the value's month is 12 |
| Boundary.IsMonday | src/PHPTimeBender.php:225-228 | holds exactly when the value's weekday number (`format('w')`) is 1 |
| Boundary.IsTuesday | src/PHPTimeBender.php:230-233 | holds exactly when the value's weekday number (`format('w')`) is 2 |
| Boundary.IsWednesday | src/PHPTimeBender.php:235-238 | holds exactly when the value's weekday number (`format('w')`) is 3 |
| Boundary.IsThursday | src/PHPTimeBender.php:240-243 | holds exactly when the value's weekday number (`format('w')`) is 4 |
| Boundary.IsFriday | src/PHPTimeBender.php:245-248 | holds exactly when the value's weekday number (`format('w')`) is 5 |
| Boundary.IsSaturday | src/PHPTimeBender.php:250-253 | holds exactly when the value's weekday number (`format('w')`) is 6 |
| Boundary.IsSunday | src/PHPTimeBender.php:255-258 | holds exactly when the value's weekday number (`format('w')`) is 0 |
| Boundary.IsCurrentYear | src/PHPTimeBender.php:260-263 | the value's year equals the clock's year |
| Boundary.IsNextYear | src/PHPTimeBender.php:265-268 | the value's year is the clock's year plus one |
| Boundary.IsPrevYear | src/PHPTimeBender.php:270-273 | the value's year is the clock's year minus one |
| Boundary.IsCurrentWeek | src/PHPTimeBender.php:275-278 | the value's ISO week equals the clock's |
| Boundary.IsNextWeek | src/PHPTimeBender.php:280-287 | the target is the clock's week + 1 on weeks 1..51 and week 1 from week 52 on; a value in week 53 is never next |
| Boundary.IsPrevWeek | src/PHPTimeBender.php:289-296 | the target is the clock's week - 1 from week 2 on and week 52 for week 1 |
| Boundary.WeekStepsInverse | src/PHPTimeBender.php:280-296 | on weeks 1..52 the next-week and previous-week steps undo each other |
| Boundary.Week53NeverAdjacent | src/PHPTimeBender.php:280-296 | with the fixed 52-week cycle, a value in ISO week 53 is neither next nor previous week |
| Boundary.IsCurrentDay | src/PHPTimeBender.php:298-302 | as written, true for every value |
| Boundary.IsNextDay | src/PHPTimeBender.php:304-311 | as written, false for every value |
| Boundary.IsPrevDay | src/PHPTimeBender.php:313-320 | as written, false for every value |
| Boundary.DayPredicatesIgnoreClock | src/PHPTimeBender.php:298-320 | the value on the clock's next day is not reported by `isNextDay`, the one on its previous day not by `isPrevDay`, and `isCurrentDay` holds on other days too |
| Boundary.IsCurrentDayOf | src/PHPTimeBender.php:298-302 | corrected `isCurrentDay`: the value's year-day equals the clock's |
| Boundary.IsNextDayOf | src/PHPTimeBender.php:304-311 | corrected `isNextDay`: the value's year-day is the clock's + 1, or 0 after day 365 |
| Boundary.IsPrevDayOf | src/PHPTimeBender.php:313-320 | corrected `isPrevDay`: the value's year-day is the clock's - 1, or 365 before day 0 |
| Boundary.DayOfClockRelations | src/PHPTimeBender.php:298-320 | the clock-based day predicates: next-of-clock is dual to previous-of-value, the three are mutually exclusive, and current means the same year-day |
| Boundary.NextDayOfDecides | src/PHPTimeBender.php:304-311 | the clock-based next-day predicate is true for some clock day and false for another |
| Humanizer.ThresholdsDecrease | src/PHPTimeBender.php:456-496 | the unit thresholds strictly decrease from year to second |
| Humanizer.RoundDiv | src/PHPTimeBender.php:457 | `round(a / t)` for a >= 0: the count times t lies within half a unit of a, with ties rounded up |
| Humanizer.PhraseParts | src/PHPTimeBender.php:458-463 | a phrase is the count's decimal text, one space, and the plural noun exactly when the count exceeds 1 |
| Humanizer.Calc | src/PHPTimeBender.php:454-513 | `diffHumansCalc` is the phrase of the unit that dominates the magnitude, with that unit's count |
| Humanizer.DominantUnit | src/PHPTimeBender.php:454-511 | the unit picked meets its threshold and falls short of every larger unit's |
| Humanizer.DominantUnique | src/PHPTimeBender.php:454-511 | exactly one unit can be picked for a magnitude |
| Humanizer.CalcReportsDominantUnit | src/PHPTimeBender.php:454-513 | `diffHumansCalc` emits exactly one `<n> <noun>` phrase, in the picked unit, with that unit's count |
| Humanizer.CountRange | src/PHPTimeBender.php:504-505 | below 60 seconds the count is the magnitude itself; from 60 on it is at least 1 |
| Humanizer.CountBounds | src/PHPTimeBender.php:488-503 | the rounded count is at most 60 minutes, 24 hours, 7 days, 4 weeks or 12 months |
| Humanizer.NounKey | src/PHPTimeBender.php:459-510 | the noun key requested is the dominant unit's own singular or plural key, the plural exactly when the count exceeds 1 |
| Humanizer.CalcByNounKey | src/PHPTimeBender.php:454-513 | the phrase is the count's decimal text, a space and the looked-up noun |
| Humanizer.CalcFallsBack | src/PHPTimeBender.php:531 | a table without the noun renders the key itself |
| Humanizer.CalcTurkish | src/Languages/tr_TR/Main.php:15-28 | under tr_TR the noun does not depend on the count |
| Humanizer.CalcEnglishPlural | src/Languages/en_EN/Main.php:15-28 | under en_EN the phrase ends in `s` exactly when the count exceeds 1 |
| Humanizer.CalcExamples | src/PHPTimeBender.php:454-513 | 0 s gives `0 second`, 90061 s `1 day`, 3599 s `60 minutes` under en_EN and 90061 s `1 gün` under tr_TR |
| Humanizer.CalcMinutesExample | src/PHPTimeBender.php:496-503 | 3599 s is 59.98 minutes and rounds up to `60 minutes` |
| Humanizer.Direction | src/PHPTimeBender.php:445-450 | the key is `ago` exactly when the timestamp is not after now, and the magnitude is the distance to now |
| Humanizer.DiffForHumans | src/PHPTimeBender.php:440-452 | the `ago` template filled with the phrase of `now - ts` when ts <= now, otherwise the `later` template with the phrase of `ts - now` |
| Humanizer.DiffForHumansFallsBack | src/PHPTimeBender.php:451 | without a table the template is the key text |
| Humanizer.FillLeadingTemplate | src/PHPTimeBender.php:451 | filling `{diff}<rest>` puts the phrase in front of the rest |
| Humanizer.DiffForHumansEnglish | src/PHPTimeBender.php:440-452 | under en_EN, for every pair of instants, the phrase of the distance followed by ` ago` or ` later` |
| Humanizer.DiffForHumansTurkish | src/PHPTimeBender.php:440-452 | under tr_TR, for every pair of instants, the phrase of the distance followed by ` önce` or ` sonra` |
| Humanizer.DiffForHumansNowExample | src/PHPTimeBender.php:440-452 | a value read at its own timestamp gives `0 second ago` under en_EN |
| Humanizer.DiffForHumansAgoExample | src/PHPTimeBender.php:440-452 | 90061 s in the past gives `1 day ago` under en_EN |
| Humanizer.DiffForHumansLaterExample | src/PHPTimeBender.php:440-452 | 90061 s ahead gives `1 day later` under en_EN |
| Humanizer.DiffForHumansTurkishExample | src/PHPTimeBender.php:440-452 | 90061 s ahead gives `1 gün sonra` under tr_TR |
| Humanizer.Language.constructor | src/PHPTimeBender.php:29 | the process-wide language object starts unset |
| Humanizer.Language.SetLocale | src/PHPTimeBender.php:51-54 | `setLocale` makes the given locale the active one |
| Humanizer.Language.Get | src/PHPTimeBender.php:526-532 | on first use en_EN becomes active; the key is looked up in the active table, falling back to the key |
| Humanizer.Language.DiffForHumansNow | src/PHPTimeBender.php:440-452 | `diffForHumans` under the active locale, en_EN when none was chosen, which then becomes active |

## Left out

- Host calendar primitives are not modelled. This covers Gregorian and
  timezone logic, `format`, `setDate`, `setTime`, `setTimezone`, `strtotime`
  and `DateInterval::createFromDateString` with `add`. They are PHP's own,
  so their results are inputs: `Boundary.Fields`, `Arithmetic.DateParser`
  and `Arithmetic.Calendar`. End-of-month clamping of month and year steps
  is theirs as well.
- The clock (`time()`, `date('Y')`, `date('W')`) is a parameter.
- `period` and `periodFormat` are not modelled. They are thin wrappers over
  `\DatePeriod`, whose iteration rules belong to the host library.
- The `PHPLanguagesSupport\Language` library loads locale files and
  substitutes `{diff}`. That code is not part of this model, so the
  substitution is the `Render` parameter.
  - The model takes a locale without a file to behave as an empty table,
    so every key renders as itself.
  - `src/TimeBender.php` is not part of this model. It is a static facade
    that forwards calls to a lazily created instance.
  - That file declares `isApril`, `timezone`, `timestamp`, `between`,
    `betweenFormat` and `diffForHumansDetail`, which the core class does
    not implement. They are not modelled.
- Trivial constructors and accessors are not modelled: `__toString`,
  `version`, `newInstance`, `now`, `create`, `date` and `time`. Each is a
  single call into the host calendar.
- Boundary.MatchesField: float numeric strings (`"2024.0"`, `"2.024e3"`)
  and float array elements, which PHP 8 compares numerically, are not
  modelled. Only integer numeric strings and ints, strings, bools, nulls and
  arrays are.
- Boundary.PhpValue has no float case, so a float scalar argument such as
  `isYear(2024.0)`, which PHP answers with false, cannot be expressed.
- PhpStrings.LooseEqualsText: only integer numeric strings are read as
  numbers, so `2024 == "2024.0"`, true in PHP 8, is false in the model.
- PhpStrings.LooseEqualsTextIff: states the integer-numeric reading above,
  not PHP's full numeric-string comparison.
- Boundary.TextArgument: a float numeric piece such as `"2024.0"` does not
  match here, though PHP 8 matches it.
- Boundary.LooseEqualsInt: inherits the integer-only reading of numeric
  strings.
- Boundary.IsDay: `strtolower` is taken as ASCII-only (PHP 8.2 and later).
  Older versions follow the current LC_CTYPE locale, which is ASCII-only under
  the default "C" locale.
- Arithmetic.TimeBender.AddSecond: timestamps are unbounded integers, so
  the 64-bit overflow of `getTimestamp() + n * k` is not modelled. The same
  holds for the other fixed-unit methods.
- Humanizer.Direction: `now - ts` is an unbounded integer. In PHP,
  `(int)($now - $timestamp)` overflows to a float when the timestamp is near
  the 64-bit limits, and the cast back to int is then implementation-defined.
  Humanizer.DiffForHumans inherits this.
- Humanizer.RoundDiv: the rounding is exact rational half-up. PHP divides in
  floating point, and `round` first pre-rounds the quotient to 15
  significant digits. The two agree for realistic magnitudes. They can
  differ once the quotient needs more than 15 significant digits, from about
  3·10^14 seconds (ten million years) on. For example,
  10^7·31556926 + 15778462 seconds gives 10000001 years in PHP and 10000000
  here.
- Arithmetic.TimeBender.SubMonth: for `n = PHP_INT_MIN`, `abs` returns a
  float in PHP, so the text becomes `-9.2233720368548E+18 month`. The model
  builds `-9223372036854775808 month`.
- Arithmetic.TimeBender.SubYear: the same `PHP_INT_MIN` case gives
  `-9.2233720368548E+18 year` in PHP.
- Arithmetic.SubMonthText: the `PHP_INT_MIN` float text above is not
  modelled. Counts are unbounded integers.
- Arithmetic.SubYearText: the same.
- Arithmetic.SubMonthReadsBack: `-|n| month` fails in PHP at `n = PHP_INT_MIN`,
  where the text is the float form.
- Arithmetic.SubYearReadsBack: the same.
- Arithmetic.SubNegativeIsAdd: at `n = PHP_INT_MIN` PHP's texts differ: the
  add text is `-9223372036854775808 month`, the sub text is the float form.
- Arithmetic.SubIsMinusAdd: the same exception at `PHP_INT_MIN`.
- Arithmetic.TimeBender.AddInterval: the deprecation notice PHP 8.2 raises
  when it creates the dynamic `timestamp` property is not modelled. The
  property itself is modelled (`timestampProperty`).
- Humanizer.Phrase: the rounded count is written as an integer. PHP prints
  the float result of `round`, which gives the same text for every realistic
  magnitude.

## Findings

| source | as written | input that shows it | evidently intended | confidence | as-written member | corrected member |
|---|---|---|---|---|---|---|
| src/PHPTimeBender.php:304-311 | `isNextDay()` compares the value's own year-day + 1 with that same year-day, so it is false for every value | a value on year-day 10 while the clock is on year-day 9: false | compare with the clock's year-day + 1, as `isNextWeek` does with `date('W')` | high, not executed | Boundary.IsNextDay | Boundary.IsNextDayOf |
| src/PHPTimeBender.php:313-320 | `isPrevDay()` compares the value's own year-day - 1 with that same year-day, so it is false for every value | a value on year-day 10 while the clock is on year-day 11: false | compare with the clock's year-day - 1 | high, not executed | Boundary.IsPrevDay | Boundary.IsPrevDayOf |
| src/PHPTimeBender.php:298-302 | `isCurrentDay()` compares the value's year-day with itself, so it is true for every value | a value on year-day 10 while the clock is on year-day 200: true | compare with the clock's year-day | high, not executed | Boundary.IsCurrentDay | Boundary.IsCurrentDayOf |

`Boundary.DayPredicatesIgnoreClock` exhibits all three discrepancies. The
corrected predicates `Boundary.IsCurrentDayOf`, `Boundary.IsNextDayOf` and
`Boundary.IsPrevDayOf` take the clock's year-day. Two lemmas are proved
about them:
- `Boundary.DayOfClockRelations` shows they are duals of each other,
  mutually exclusive, and that "current" means the same year-day.
- `Boundary.NextDayOfDecides` shows they are not constant.
