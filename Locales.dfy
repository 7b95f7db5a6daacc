/**
 * The locale tables shipped with the library (en_EN and tr_TR), the keys the
 * humanizer asks them for, and lookup with fall-back to the key itself.
 */
module Locales {

  type Table = map<string, string>

  /** The units the humanizer names, largest first. */
  datatype Unit = Year | Month | Week | Day | Hour | Minute | Second

  const Units: seq<Unit> := [Year, Month, Week, Day, Hour, Minute, Second]

  function SingularKey(u: Unit): string
  {
    match u
    case Year => "year"
    case Month => "month"
    case Week => "week"
    case Day => "day"
    case Hour => "hour"
    case Minute => "minute"
    case Second => "second"
  }

  function PluralKey(u: Unit): string
  {
    match u
    case Year => "years"
    case Month => "months"
    case Week => "weeks"
    case Day => "days"
    case Hour => "hours"
    case Minute => "minutes"
    case Second => "seconds"
  }

  /** Every key a humanized phrase can request: fourteen nouns and two templates. */
  const RequestedKeys: set<string> := {
    "day", "days", "week", "weeks", "month", "months", "year", "years",
    "hour", "hours", "minute", "minutes", "second", "seconds", "ago", "later"
  }

  lemma NounKeysRequested(u: Unit)
    ensures SingularKey(u) in RequestedKeys && PluralKey(u) in RequestedKeys
    ensures SingularKey(u) != PluralKey(u)
  {
  }

  /** Number of (possibly overlapping) occurrences of `pat` in `s`. */
  function Occurrences(s: string, pat: string): nat
    requires pat != []
    decreases |s|
  {
    if |s| < |pat| then 0
    else (if s[..|pat|] == pat then 1 else 0) + Occurrences(s[1..], pat)
  }

  const Placeholder: string := "{diff}"

  /** A template with exactly one `{diff}` placeholder, standing at its start. */
  predicate IsLeadingTemplate(s: string)
  {
    Occurrences(s, Placeholder) == 1 && |s| >= |Placeholder| && s[..|Placeholder|] == Placeholder
  }

  lemma {:induction false} NoOccurrenceWithoutHead(s: string, pat: string)
    requires pat != [] && pat[0] !in s
    ensures Occurrences(s, pat) == 0
  {
    if |s| >= |pat| {
      assert s[..|pat|][0] == s[0];
      NoOccurrenceWithoutHead(s[1..], pat);
    }
  }

  /** The placeholder followed by text without a `{` is a leading template. */
  lemma LeadingTemplate(rest: string)
    requires '{' !in rest
    ensures IsLeadingTemplate(Placeholder + rest)
  {
    var s := Placeholder + rest;
    assert s[..|Placeholder|] == Placeholder;
    assert s[1..] == Placeholder[1..] + rest;
    NoOccurrenceWithoutHead(s[1..], Placeholder);
  }

  /** `src/Languages/en_EN/Main.php`. */
  const EnEN: Table := map[
    "day" := "day",
    "days" := "days",
    "week" := "week",
    "weeks" := "weeks",
    "month" := "month",
    "months" := "months",
    "year" := "year",
    "years" := "years",
    "hour" := "hour",
    "hours" := "hours",
    "minute" := "minute",
    "minutes" := "minutes",
    "second" := "second",
    "seconds" := "seconds",
    "ago" := "{diff} ago",
    "later" := "{diff} later"
  ]

  /** `src/Languages/tr_TR/Main.php`. */
  const TrTR: Table := map[
    "day" := "gün",
    "days" := "gün",
    "week" := "hafta",
    "weeks" := "hafta",
    "month" := "ay",
    "months" := "ay",
    "year" := "yıl",
    "years" := "yıl",
    "hour" := "saat",
    "hours" := "saat",
    "minute" := "dakika",
    "minutes" := "dakika",
    "second" := "saniye",
    "seconds" := "saniye",
    "ago" := "{diff} önce",
    "later" := "{diff} sonra"
  ]

  /** en_EN defines exactly the keys the humanizer requests. */
  lemma EnKeys()
    ensures EnEN.Keys == RequestedKeys
  {
  }

  /** Every en_EN plural is its singular followed by "s". */
  lemma EnPlurals(u: Unit)
    ensures EnEN[PluralKey(u)] == EnEN[SingularKey(u)] + "s"
  {
    match u
    case Year => assert EnEN["years"] == "year" + "s";
    case Month => assert EnEN["months"] == "month" + "s";
    case Week => assert EnEN["weeks"] == "week" + "s";
    case Day => assert EnEN["days"] == "day" + "s";
    case Hour => assert EnEN["hours"] == "hour" + "s";
    case Minute => assert EnEN["minutes"] == "minute" + "s";
    case Second => assert EnEN["seconds"] == "second" + "s";
  }

  /** Both en_EN templates hold one `{diff}`, at the start. */
  lemma EnTemplates()
    ensures IsLeadingTemplate(EnEN["ago"]) && IsLeadingTemplate(EnEN["later"])
  {
    EnAgoTemplate();
    EnLaterTemplate();
  }

  lemma EnAgoTemplate()
    ensures IsLeadingTemplate(EnEN["ago"])
  {
    assert EnEN["ago"] == Placeholder + " ago";
    LeadingTemplate(" ago");
  }

  lemma EnLaterTemplate()
    ensures IsLeadingTemplate(EnEN["later"])
  {
    assert EnEN["later"] == Placeholder + " later";
    LeadingTemplate(" later");
  }

  /** Every en_EN singular noun is non-empty and does not end in "s". */
  lemma EnSingulars(u: Unit)
    ensures var w := EnEN[SingularKey(u)]; w != [] && w[|w| - 1] != 's'
  {
    match u
    case Year => assert EnEN["year"] == "year";
    case Month => assert EnEN["month"] == "month";
    case Week => assert EnEN["week"] == "week";
    case Day => assert EnEN["day"] == "day";
    case Hour => assert EnEN["hour"] == "hour";
    case Minute => assert EnEN["minute"] == "minute";
    case Second => assert EnEN["second"] == "second";
  }

  /** tr_TR defines the same keys as en_EN. */
  lemma TrKeys()
    ensures TrTR.Keys == EnEN.Keys
  {
  }

  /** tr_TR uses one form per unit: the plural equals the singular. */
  lemma TrPlurals(u: Unit)
    ensures TrTR[PluralKey(u)] == TrTR[SingularKey(u)]
  {
    match u
    case Year => assert TrTR["years"] == "yıl";
    case Month => assert TrTR["months"] == "ay";
    case Week => assert TrTR["weeks"] == "hafta";
    case Day => assert TrTR["days"] == "gün";
    case Hour => assert TrTR["hours"] == "saat";
    case Minute => assert TrTR["minutes"] == "dakika";
    case Second => assert TrTR["seconds"] == "saniye";
  }

  /** The seven Turkish unit nouns are pairwise distinct. */
  lemma TrNounsDistinct(u: Unit, v: Unit)
    requires u != v
    ensures TrTR[SingularKey(u)] != TrTR[SingularKey(v)]
  {
    assert TrTR["year"] == "yıl" && TrTR["month"] == "ay" && TrTR["week"] == "hafta";
    assert TrTR["day"] == "gün" && TrTR["hour"] == "saat";
    assert TrTR["minute"] == "dakika" && TrTR["second"] == "saniye";
  }

  /** Both tr_TR templates hold one `{diff}`, at the start. */
  lemma TrTemplates()
    ensures IsLeadingTemplate(TrTR["ago"]) && IsLeadingTemplate(TrTR["later"])
  {
    TrAgoTemplate();
    TrLaterTemplate();
  }

  lemma TrAgoTemplate()
    ensures IsLeadingTemplate(TrTR["ago"])
  {
    assert TrTR["ago"] == Placeholder + " önce";
    LeadingTemplate(" önce");
  }

  lemma TrLaterTemplate()
    ensures IsLeadingTemplate(TrTR["later"])
  {
    assert TrTR["later"] == Placeholder + " sonra";
    LeadingTemplate(" sonra");
  }

  /**
   * The locale files the library ships: a shipped locale answers exactly the
   * requested keys, any other identifier has no table.
   */
  function TableFor(lang: string): (t: Table)
    ensures lang == "en_EN" ==> t == EnEN
    ensures lang == "tr_TR" ==> t == TrTR
    ensures t.Keys == RequestedKeys || t == map[]
    ensures t != map[] <==> lang == "en_EN" || lang == "tr_TR"
  {
    EnKeys();
    TrKeys();
    assert "ago" in RequestedKeys;
    if lang == "en_EN" then EnEN else if lang == "tr_TR" then TrTR else map[]
  }

  /** `r($key, $key, ...)`: the translation, or the key itself when the table lacks it. */
  function Lookup(t: Table, key: string): (text: string)
    ensures key in t ==> text == t[key]
    ensures key !in t ==> text == key
  {
    if key in t then t[key] else key
  }

  /** Under en_EN and tr_TR no requested key falls back to itself. */
  lemma ShippedTablesCoverRequests(lang: string, key: string)
    requires lang == "en_EN" || lang == "tr_TR"
    requires key in RequestedKeys
    ensures Lookup(TableFor(lang), key) == TableFor(lang)[key]
  {
  }

  /** Under an unknown locale every key renders as itself. */
  lemma UnknownLocaleFallsBack(lang: string, key: string)
    requires lang != "en_EN" && lang != "tr_TR"
    ensures Lookup(TableFor(lang), key) == key
  {
  }
}
