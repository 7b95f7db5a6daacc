/**
 * The humanizer: `diffHumansCalc` turns a non-negative number of seconds
 * into "<n> <noun>" for one unit, and `diffForHumans` wraps that phrase in
 * the locale's `ago` or `later` template. The locale is read through a
 * process-wide language object that is set up on first use.
 */
module Humanizer {
  import opened Wrappers
  import opened PhpStrings
  import opened Locales

  /** The threshold in seconds at which each unit is chosen. */
  function Threshold(u: Unit): (t: nat)
    ensures t >= 1
  {
    match u
    case Year => 31556926
    case Month => 2592000
    case Week => 604800
    case Day => 86400
    case Hour => 3600
    case Minute => 60
    case Second => 1
  }

  /** Position in `Units`: 0 for the largest unit. */
  function Rank(u: Unit): (k: nat)
    ensures k < |Units| && Units[k] == u
  {
    match u
    case Year => 0
    case Month => 1
    case Week => 2
    case Day => 3
    case Hour => 4
    case Minute => 5
    case Second => 6
  }

  /** Thresholds strictly decrease down the unit list. */
  lemma ThresholdsDecrease(u: Unit, v: Unit)
    requires Rank(u) < Rank(v)
    ensures Threshold(u) > Threshold(v)
  {
  }

  /**
   * PHP's `round($a / $t)` for a >= 0: the nearest whole number, halves
   * rounded up (r * t lies within t / 2 of a, and a tie lands below r * t).
   */
  function RoundDiv(a: nat, t: nat): (r: nat)
    requires t >= 1
    ensures -(t as int) <= 2 * (a - r * t) < t
  {
    var q := (2 * a + t) / (2 * t);
    assert 2 * t * q <= 2 * a + t < 2 * t * q + 2 * t;
    assert 2 * (a - q * t) == 2 * a - 2 * t * q;
    q
  }

  /** `$n . ' '` followed by the singular noun when n <= 1, the plural otherwise. */
  function Phrase(n: int, u: Unit, t: Table): string
  {
    IntToDecimal(n) + " " + Lookup(t, if n > 1 then PluralKey(u) else SingularKey(u))
  }

  /**
   * A phrase reads as the count's decimal text, one space, and the noun:
   * the plural key's translation exactly when the count exceeds 1.
   */
  lemma PhraseParts(n: int, u: Unit, t: Table)
    ensures var num := IntToDecimal(n); var r := Phrase(n, u, t);
      |r| > |num| && r[..|num|] == num && r[|num|] == ' ' &&
      (n > 1 ==> r[|num| + 1..] == Lookup(t, PluralKey(u))) &&
      (n <= 1 ==> r[|num| + 1..] == Lookup(t, SingularKey(u)))
  {
    var num := IntToDecimal(n);
    var noun := Lookup(t, if n > 1 then PluralKey(u) else SingularKey(u));
    assert Phrase(n, u, t) == num + (" " + noun);
  }

  /**
   * `diffHumansCalc($ago)`: the phrase of the one unit that dominates the
   * magnitude, with that unit's count.
   */
  function Calc(ago: int, t: Table): (r: string)
    ensures r == Phrase(Count(DominantUnit(ago), ago), DominantUnit(ago), t)
  {
    if ago >= 31556926 then Phrase(RoundDiv(ago, 31556926), Year, t)
    else if ago >= 2592000 then Phrase(RoundDiv(ago, 2592000), Month, t)
    else if ago >= 604800 then Phrase(RoundDiv(ago, 604800), Week, t)
    else if ago >= 86400 then Phrase(RoundDiv(ago, 86400), Day, t)
    else if ago >= 3600 then Phrase(RoundDiv(ago, 3600), Hour, t)
    else if ago >= 60 then Phrase(RoundDiv(ago, 60), Minute, t)
    else Phrase(ago, Second, t)
  }

  /**
   * The unit a magnitude is reported in: it meets the unit's threshold (the
   * second needs nothing) and falls short of every larger unit's.
   */
  predicate Dominates(u: Unit, ago: int)
  {
    (u == Second || Threshold(u) <= ago) && forall v: Unit :: Rank(v) < Rank(u) ==> ago < Threshold(v)
  }

  /** The count reported for unit u: the magnitude itself for seconds, rounded otherwise. */
  function Count(u: Unit, ago: int): int
  {
    if u == Second || ago < 0 then ago else RoundDiv(ago, Threshold(u))
  }

  /** Exactly one unit dominates any magnitude. */
  lemma DominantUnique(u: Unit, v: Unit, ago: int)
    requires Dominates(u, ago) && Dominates(v, ago)
    ensures u == v
  {
    assert Units[Rank(u)] == u && Units[Rank(v)] == v;
  }

  /** The unit diffHumansCalc picks, found by walking down the thresholds. */
  function DominantUnit(ago: int): (u: Unit)
    ensures Dominates(u, ago)
  {
    if ago >= 31556926 then Year
    else if ago >= 2592000 then Month
    else if ago >= 604800 then Week
    else if ago >= 86400 then Day
    else if ago >= 3600 then Hour
    else if ago >= 60 then Minute
    else Second
  }

  /**
   * diffHumansCalc emits exactly one "<n> <noun>" phrase, in the unit that
   * dominates the magnitude, with that unit's count.
   */
  lemma CalcReportsDominantUnit(ago: int, t: Table, u: Unit)
    requires Dominates(u, ago)
    ensures Calc(ago, t) == Phrase(Count(u, ago), u, t)
  {
    DominantUnique(u, DominantUnit(ago), ago);
  }

  /** Below a minute the count is the magnitude itself; from a minute on it is at least 1. */
  lemma CountRange(ago: int)
    ensures ago < 60 ==> Count(DominantUnit(ago), ago) == ago
    ensures ago >= 60 ==> Count(DominantUnit(ago), ago) >= 1
  {
  }

  /**
   * The rounded count never exceeds what the next larger unit holds:
   * 60 minutes, 24 hours, 7 days, 4 weeks, 12 months.
   */
  lemma CountBounds(ago: int)
    ensures DominantUnit(ago) == Minute ==> Count(Minute, ago) <= 60
    ensures DominantUnit(ago) == Hour ==> Count(Hour, ago) <= 24
    ensures DominantUnit(ago) == Day ==> Count(Day, ago) <= 7
    ensures DominantUnit(ago) == Week ==> Count(Week, ago) <= 4
    ensures DominantUnit(ago) == Month ==> Count(Month, ago) <= 12
  {
  }

  /** The noun key diffHumansCalc requests: plural exactly when the count exceeds 1. */
  function NounKey(ago: int): (key: string)
    ensures key in RequestedKeys
    ensures key == SingularKey(DominantUnit(ago)) || key == PluralKey(DominantUnit(ago))
    ensures key == PluralKey(DominantUnit(ago)) <==> Count(DominantUnit(ago), ago) > 1
  {
    var u := DominantUnit(ago);
    NounKeysRequested(u);
    if Count(u, ago) > 1 then PluralKey(u) else SingularKey(u)
  }

  lemma CalcByNounKey(ago: int, t: Table)
    ensures Calc(ago, t) == IntToDecimal(Count(DominantUnit(ago), ago)) + " " + Lookup(t, NounKey(ago))
  {
    CalcReportsDominantUnit(ago, t, DominantUnit(ago));
  }

  /** With a table that lacks the noun, the key itself is the noun. */
  lemma CalcFallsBack(ago: int, t: Table)
    requires NounKey(ago) !in t
    ensures Calc(ago, t) == IntToDecimal(Count(DominantUnit(ago), ago)) + " " + NounKey(ago)
  {
    CalcByNounKey(ago, t);
  }

  /** Under tr_TR the noun does not depend on the count. */
  lemma CalcTurkish(ago: int)
    ensures Calc(ago, TrTR) == IntToDecimal(Count(DominantUnit(ago), ago)) + " " + TrTR[SingularKey(DominantUnit(ago))]
  {
    CalcByNounKey(ago, TrTR);
    TrPlurals(DominantUnit(ago));
  }

  /** Under en_EN the noun ends in "s" exactly when the count exceeds 1. */
  lemma CalcEnglishPlural(ago: int)
    ensures var p := Calc(ago, EnEN); (p[|p| - 1] == 's') <==> Count(DominantUnit(ago), ago) > 1
  {
    var u := DominantUnit(ago);
    CalcByNounKey(ago, EnEN);
    EnPlurals(u);
    EnSingulars(u);
  }

  /** The examples: 0 s, 90061 s and 3599 s under en_EN, and 90061 s under tr_TR. */
  lemma CalcExamples()
    ensures Calc(0, EnEN) == "0 second"
    ensures Calc(90061, EnEN) == "1 day"
    ensures Calc(3599, EnEN) == "60 minutes"
    ensures Calc(90061, TrTR) == "1 gün"
  {
    CalcZeroExample();
    CalcDayExample();
    CalcMinutesExample();
    CalcTurkishExample();
  }

  lemma CalcZeroExample()
    ensures Calc(0, EnEN) == "0 second"
  {
    assert Lookup(EnEN, "second") == "second";
  }

  lemma CalcDayExample()
    ensures Calc(90061, EnEN) == "1 day"
  {
    assert RoundDiv(90061, 86400) == 1;
    assert Lookup(EnEN, "day") == "day";
  }

  /** 3599 s is 59.98 minutes, which rounds up to 60. */
  lemma CalcMinutesExample()
    ensures Calc(3599, EnEN) == "60 minutes"
  {
    assert RoundDiv(3599, 60) == 60;
    assert NatToDecimal(60) == "60" by {
      assert NatToDecimal(6) == "6";
    }
    assert Lookup(EnEN, "minutes") == "minutes";
  }

  lemma CalcTurkishExample()
    ensures Calc(90061, TrTR) == "1 gün"
  {
    assert RoundDiv(90061, 86400) == 1;
    assert Lookup(TrTR, "day") == "gün";
  }

  /** Which template applies and the magnitude it reports. */
  datatype Delta = Delta(key: string, magnitude: nat)

  /**
   * `$ago = $now - $timestamp`, and the key `later` with `abs($ago)` when it
   * is negative: the value lies `magnitude` seconds before `now` (ago) or
   * after it (later).
   */
  function Direction(ts: int, now: int): (d: Delta)
    ensures d.key == "ago" || d.key == "later"
    ensures d.key == "ago" <==> ts <= now
    ensures d.key == "ago" ==> ts + d.magnitude == now
    ensures d.key == "later" ==> ts - d.magnitude == now
  {
    var ago := now - ts;
    if ago < 0 then Delta("later", -ago) else Delta("ago", ago)
  }

  /**
   * The `{diff}` substitution the language library performs on a template;
   * it is not visible here, so it is a parameter.
   */
  type Render = (string, string) -> string

  /**
   * `diffForHumans()` with the clock reading `now` and the locale table `t`:
   * the `ago` template filled with the phrase of `now - ts`, or the `later`
   * template with the phrase of `ts - now`.
   */
  function DiffForHumans(ts: int, now: int, t: Table, render: Render): (r: string)
    ensures ts <= now ==> r == render(Lookup(t, "ago"), Calc(now - ts, t))
    ensures now < ts ==> r == render(Lookup(t, "later"), Calc(ts - now, t))
  {
    var d := Direction(ts, now);
    render(Lookup(t, d.key), Calc(d.magnitude, t))
  }

  /** Without the templates in the table, the template is the key itself. */
  lemma DiffForHumansFallsBack(ts: int, now: int, render: Render)
    ensures DiffForHumans(ts, now, map[], render) ==
      render(if ts <= now then "ago" else "later", Calc(Direction(ts, now).magnitude, map[]))
  {
  }

  /**
   * A reference substitution: each `{diff}` in the template replaced by the
   * value, the rest copied.
   */
  function FillDiff(template: string, value: string): string
    decreases |template|
  {
    if template == [] then []
    else if |template| >= |Placeholder| && template[..|Placeholder|] == Placeholder then
      value + FillDiff(template[|Placeholder|..], value)
    else [template[0]] + FillDiff(template[1..], value)
  }

  lemma {:induction false} FillDiffNoPlaceholder(s: string, value: string)
    requires '{' !in s
    ensures FillDiff(s, value) == s
  {
    if s != [] {
      if |s| >= |Placeholder| {
        assert s[..|Placeholder|][0] == s[0];
      }
      FillDiffNoPlaceholder(s[1..], value);
      assert [s[0]] + s[1..] == s;
    }
  }

  /** Filling a leading template puts the phrase in front of the template's tail. */
  lemma FillLeadingTemplate(rest: string, value: string)
    requires '{' !in rest
    ensures FillDiff(Placeholder + rest, value) == value + rest
  {
    var s := Placeholder + rest;
    assert s[..|Placeholder|] == Placeholder;
    assert s[|Placeholder|..] == rest;
    FillDiffNoPlaceholder(rest, value);
  }

  /** Under en_EN the phrase is the one-unit distance followed by " ago" or " later". */
  lemma DiffForHumansEnglish(ts: int, now: int)
    ensures DiffForHumans(ts, now, EnEN, FillDiff)
         == Calc(Direction(ts, now).magnitude, EnEN) + (if ts <= now then " ago" else " later")
  {
    var phrase := Calc(Direction(ts, now).magnitude, EnEN);
    if ts <= now {
      assert Lookup(EnEN, "ago") == Placeholder + " ago";
      FillLeadingTemplate(" ago", phrase);
    } else {
      assert Lookup(EnEN, "later") == Placeholder + " later";
      FillLeadingTemplate(" later", phrase);
    }
  }

  /** Under tr_TR the phrase is the one-unit distance followed by " önce" or " sonra". */
  lemma DiffForHumansTurkish(ts: int, now: int)
    ensures DiffForHumans(ts, now, TrTR, FillDiff)
         == Calc(Direction(ts, now).magnitude, TrTR) + (if ts <= now then " önce" else " sonra")
  {
    var phrase := Calc(Direction(ts, now).magnitude, TrTR);
    if ts <= now {
      assert Lookup(TrTR, "ago") == Placeholder + " önce";
      FillLeadingTemplate(" önce", phrase);
    } else {
      assert Lookup(TrTR, "later") == Placeholder + " sonra";
      FillLeadingTemplate(" sonra", phrase);
    }
  }

  /** "0 second ago": a value read at its own timestamp, under en_EN. */
  lemma DiffForHumansNowExample(ts: int)
    ensures DiffForHumans(ts, ts, EnEN, FillDiff) == "0 second ago"
  {
    DiffForHumansEnglish(ts, ts);
    CalcZeroExample();
  }

  /** "1 day ago": 90061 seconds (1 d 1 h 1 min 1 s) in the past, under en_EN. */
  lemma DiffForHumansAgoExample(ts: int)
    ensures DiffForHumans(ts, ts + 90061, EnEN, FillDiff) == "1 day ago"
  {
    DiffForHumansEnglish(ts, ts + 90061);
    CalcDayExample();
  }

  /** "1 day later": 90061 seconds ahead, under en_EN. */
  lemma DiffForHumansLaterExample(ts: int)
    ensures DiffForHumans(ts + 90061, ts, EnEN, FillDiff) == "1 day later"
  {
    DiffForHumansEnglish(ts + 90061, ts);
    CalcDayExample();
  }

  /** "1 gün sonra": 90061 seconds ahead, under tr_TR. */
  lemma DiffForHumansTurkishExample(ts: int)
    ensures DiffForHumans(ts + 90061, ts, TrTR, FillDiff) == "1 gün sonra"
  {
    DiffForHumansTurkish(ts + 90061, ts);
    CalcTurkishExample();
  }

  /**
   * The process-wide language object: unset until first use, then the
   * default locale unless a locale was chosen.
   */
  class Language {
    var active: Option<string>

    constructor ()
      ensures active == None
    {
      active := None;
    }

    /** `setLocale($lang)`. */
    method SetLocale(lang: string)
      modifies this
      ensures active == Some(lang)
    {
      active := Some(lang);
    }

    /** `getLanguage($key)`: set up en_EN on first use, then look the key up. */
    method Get(key: string) returns (text: string)
      modifies this
      ensures active == if old(active).None? then Some("en_EN") else old(active)
      ensures text == Lookup(TableFor(active.value), key)
    {
      if active.None? {
        active := Some("en_EN");
      }
      text := Lookup(TableFor(active.value), key);
    }

    /**
     * `diffForHumans()` on a value with timestamp `ts`, the clock reading
     * `now`: en_EN unless a locale was chosen, and the language object is
     * set up as a side effect.
     */
    method DiffForHumansNow(ts: int, now: int, render: Render) returns (text: string)
      modifies this
      ensures active == if old(active).None? then Some("en_EN") else old(active)
      ensures text == DiffForHumans(ts, now, TableFor(active.value), render)
    {
      if active.None? {
        active := Some("en_EN");
      }
      text := DiffForHumans(ts, now, TableFor(active.value), render);
    }
  }
}
