/** The cleaning step of src/etl/etl_pipeline.py: the numeric price of a
    scraped Price cell, the level of a tier label, the six feature-category
    flags, and the Feature_Count and Pricing_Model columns. A cell of the
    staging table is `Option<string>`, `None` standing for a missing (NaN)
    value; a numeric price is a number of cents, `None` standing for NaN. */
module Etl {
  import opened Text
  import opened Amounts

  // --------------------------------------------------------------------- price

  /** `normalize_price`: a cell that reads "free" once stripped and
      lower-cased is 0; any other that mentions "contact" has no price;
      otherwise the first number written in it, or none. */
  function NormalizePrice(cell: Option<string>): (r: Option<nat>)
    ensures cell.None? ==> r.None?
  {
    if cell.None? then None
    else
      var s := Strip(cell.value);
      if Lower(s) == "free" then Some(0)
      else if Contains(Lower(s), "contact") then None
      else FirstAmount(s)
  }

  /** The three outcomes of `normalize_price`: the free rule comes before
      the contact rule, and a price is missing exactly when the cell is
      missing, mentions "contact" or has no digit at all. */
  lemma NormalizePriceSpec(v: string)
    ensures Lower(Strip(v)) == "free" ==> NormalizePrice(Some(v)) == Some(0)
    ensures NormalizePrice(Some(v)).None? <==>
              Lower(Strip(v)) != "free"
              && (Contains(Lower(Strip(v)), "contact") || forall k :: 0 <= k < |Strip(v)| ==> !IsDigit(Strip(v)[k]))
    ensures Lower(Strip(v)) != "free" && !Contains(Lower(Strip(v)), "contact") ==>
              NormalizePrice(Some(v)) == FirstAmount(Strip(v))
  {
  }

  /** "free" in any case and with any whitespace around it is 0. */
  lemma FreeIsZero(a: string, x: string, b: string)
    requires AllSpace(a) && AllSpace(b) && Lower(x) == "free"
    ensures NormalizePrice(Some(a + x + b)) == Some(0)
  {
    assert Lower(x)[0] == LowerChar(x[0]) && Lower(x)[3] == LowerChar(x[3]);
    StripPadded(a, x, b);
  }

  // --------------------------------------------------------------- tier level

  const EntryWords: seq<string> := ["free", "personal", "starter"]
  const MiddleWords: seq<string> := ["basic", "plus", "pro", "standard", "unlimited", "team"]
  const UpperWords: seq<string> := ["business", "advanced", "premium", "organization", "professional"]

  /** `assign_tier_level`: the first keyword bucket the lower-cased label
      mentions decides the level; "enterprise" is 4; anything else is 2. */
  function TierLevel(tier: string): (r: nat)
    ensures 1 <= r <= 4
  {
    var l := Lower(tier);
    if ContainsAny(l, EntryWords) then 1
    else if ContainsAny(l, MiddleWords) then 2
    else if ContainsAny(l, UpperWords) then 3
    else if Contains(l, "enterprise") then 4
    else 2
  }

  /** Level 1, 3 and 4 each need their own keyword and no keyword of an
      earlier bucket; a label with no keyword at all is put at level 2. */
  lemma TierLevelSpec(tier: string)
    ensures TierLevel(tier) == 1 <==> ContainsAny(Lower(tier), EntryWords)
    ensures TierLevel(tier) == 3 <==>
              !ContainsAny(Lower(tier), EntryWords) && !ContainsAny(Lower(tier), MiddleWords)
              && ContainsAny(Lower(tier), UpperWords)
    ensures TierLevel(tier) == 4 <==>
              !ContainsAny(Lower(tier), EntryWords) && !ContainsAny(Lower(tier), MiddleWords)
              && !ContainsAny(Lower(tier), UpperWords) && Contains(Lower(tier), "enterprise")
    ensures TierLevel(tier) == TierLevel(Lower(tier))
  {
    LowerIdempotent(tier);
  }

  /** The four labels both scrapers look for get the levels 1 to 4 in the
      order the scrapers list them. */
  lemma ScrapedTierLevels()
    ensures TierLevel("Free") == 1
    ensures TierLevel("Plus") == 2
    ensures TierLevel("Business") == 3
    ensures TierLevel("Enterprise") == 4
  {
    FreeLevel();
    PlusLevel();
    BusinessLevel();
    EnterpriseLevel();
  }

  lemma FreeLevel()
    ensures TierLevel("Free") == 1
  {
    LowerIs("Free", "free");
    assert OccursAt("free", EntryWords[0], 0);
    ContainsAt("free", EntryWords[0], 0);
  }

  lemma PlusLevel()
    ensures TierLevel("Plus") == 2
  {
    var l := "plus";
    LowerIs("Plus", l);
    NoneByChars(l, EntryWords, "fet");
    assert OccursAt(l, MiddleWords[1], 0);
    ContainsAt(l, MiddleWords[1], 0);
  }

  lemma BusinessLevel()
    ensures TierLevel("Business") == 3
  {
    var l := "business";
    LowerIs("Business", l);
    NoneByChars(l, EntryWords, "fpt");
    NoneByChars(l, MiddleWords, "apptlt");
    assert OccursAt(l, UpperWords[0], 0);
    ContainsAt(l, UpperWords[0], 0);
  }

  lemma EnterpriseLevel()
    ensures TierLevel("Enterprise") == 4
  {
    var l := "enterprise";
    LowerIs("Enterprise", l);
    NoneByChars(l, EntryWords, "foa");
    NoneByChars(l, MiddleWords, "aloaua");
    NoneByChars(l, UpperWords, "bauoo");
    assert OccursAt(l, "enterprise", 0);
    ContainsAt(l, "enterprise", 0);
  }

  /** "pro" is tested in the middle bucket before "professional" in the
      upper one, so a Professional tier lands at level 2. */
  lemma ProfessionalIsMiddle()
    ensures TierLevel("Professional") == 2
  {
    var l := "professional";
    LowerIs("Professional", l);
    forall k | 0 <= k < |EntryWords|
      ensures !Contains(l, EntryWords[k])
    {
      if k == 0 {
        NotContainsByPair(l, "free");
      } else if k == 1 {
        NotContainsByPair(l, "personal");
      } else {
        NotContainsByChar(l, "starter", 't');
      }
    }
    assert OccursAt(l, MiddleWords[2], 0);
    ContainsAt(l, MiddleWords[2], 0);
  }

  // -------------------------------------------------------- feature categories

  /** The six flags `extract_feature_categories` returns. */
  datatype Categories = Categories(
    ai: bool, sso: bool, api: bool, automation: bool, analytics: bool, integrations: bool)

  const NoCategories := Categories(false, false, false, false, false, false)

  /** `\bw\b` matches at `i`: `w` occurs there with no word character right
      before or right after it. */
  predicate WordAt(s: string, w: string, i: int) {
    && OccursAt(s, w, i)
    && (i == 0 || !IsWordChar(s[i - 1]))
    && (i + |w| == |s| || !IsWordChar(s[i + |w|]))
  }

  predicate ContainsWord(s: string, w: string) {
    exists i :: 0 <= i <= |s| && WordAt(s, w, i)
  }

  const AiPhrases: seq<string> := ["artificial intelligence", "machine learning"]
  const SsoWords: seq<string> := ["sso", "single sign", "saml"]
  const ApiPhrases: seq<string> := ["enterprise api"]
  const AutomationWords: seq<string> := ["automat", "workflow"]
  const AnalyticsWords: seq<string> := ["analytic", "reporting", "dashboard"]
  const IntegrationWords: seq<string> := ["integrat", "connect", "sync"]

  /** The flags of lower-cased feature text. */
  function CategoriesOf(l: string): Categories {
    Categories(
      ContainsWord(l, "ai") || ContainsAny(l, AiPhrases),
      ContainsAny(l, SsoWords),
      ContainsWord(l, "api") || ContainsAny(l, ApiPhrases),
      ContainsAny(l, AutomationWords),
      ContainsAny(l, AnalyticsWords),
      ContainsAny(l, IntegrationWords))
  }

  /** `extract_feature_categories`: no flag for a missing cell or the
      literal "N/A"; otherwise the flags of the lower-cased text. */
  function FeatureCategories(cell: Option<string>): (r: Categories)
    ensures cell.None? ==> r == NoCategories
    ensures cell == Some("N/A") ==> r == NoCategories
  {
    if cell.None? || cell.value == "N/A" then NoCategories else CategoriesOf(Lower(cell.value))
  }

  /** The flags do not depend on case: the literal "N/A" has none, and its
      lower-case form "n/a" mentions no keyword either. */
  lemma CategoriesIgnoreCase(s: string)
    ensures FeatureCategories(Some(s)) == FeatureCategories(Some(Lower(s)))
  {
    LowerIdempotent(s);
    if s == "N/A" {
      LowerIs(s, "n/a");
      NoKeywordInNA();
    } else if |s| > 0 {
      assert Lower(s)[0] == LowerChar(s[0]);
    }
  }

  lemma NoKeywordInNA()
    ensures CategoriesOf("n/a") == NoCategories
  {
    var l := "n/a";
    NoWordByChar(l, "ai", 'i');
    NoneByChars(l, AiPhrases, "ii");
    NoneByChars(l, SsoWords, "sss");
    NoWordByChar(l, "api", 'i');
    NoneByChars(l, ApiPhrases, "i");
    NoneByChars(l, AutomationWords, "tw");
    NoneByChars(l, AnalyticsWords, "lrd");
    NoneByChars(l, IntegrationWords, "ics");
  }

  /** A word with a character `s` lacks is not a word of `s`. */
  lemma NoWordByChar(s: string, w: string, c: char)
    requires c in w && c !in s
    ensures !ContainsWord(s, w)
  {
    NotContainsByChar(s, w, c);
    forall i | WordAt(s, w, i)
      ensures false
    {
      ContainsAt(s, w, i);
    }
  }

  /** A word of at least two characters is not a word of `s` when each place
      its first two characters stand side by side has a word character
      right before it. */
  lemma NoWordByPair(s: string, w: string)
    requires |w| >= 2
    requires forall i :: 0 <= i < |s| - 1 && s[i] == w[0] && s[i + 1] == w[1] ==> i > 0 && IsWordChar(s[i - 1])
    ensures !ContainsWord(s, w)
  {
    forall i | 0 <= i <= |s| && OccursAt(s, w, i)
      ensures !WordAt(s, w, i)
    {
      assert s[i] == s[i..i + |w|][0] && s[i + 1] == s[i..i + |w|][1];
    }
  }

  /** "ai" inside a word does not count: "Email support" mentions no AI. */
  lemma EmailIsNotAi()
    ensures Contains(Lower("Email support"), "ai")
    ensures !FeatureCategories(Some("Email support")).ai
  {
    var l := "email support";
    LowerIs("Email support", l);
    EmailScan();
    ContainsAt(l, "ai", 2);
    NoWordByPair(l, "ai");
    EmailNoAiPhrase();
  }

  lemma EmailNoAiPhrase()
    ensures !ContainsAny("email support", AiPhrases)
  {
    NoneByChars("email support", AiPhrases, "fg");
  }

  lemma EmailScan()
    ensures OccursAt("email support", "ai", 2)
    ensures forall i :: 0 <= i < |"email support"| - 1 && "email support"[i] == 'a' && "email support"[i + 1] == 'i' ==>
              i > 0 && IsWordChar("email support"[i - 1])
  {
    var l := "email support";
    assert l[2..4] == "ai";
  }

  /** The flags are six independent tests: every combination of them is
      the result for some feature text. */
  lemma AnyCombination(c: Categories)
    ensures exists t :: FeatureCategories(Some(t)) == c
  {
    WitnessFlags(c);
  }

  /** `w` when `on`, otherwise nothing. */
  function Part(on: bool, w: string): string {
    if on then w else ""
  }

  /** Feature text with one keyword for each raised flag of `c`, the
      keywords separated by spaces. */
  function Witness(c: Categories): string {
    Part(c.ai, "ai") + " " + (Part(c.api, "api") + " " + (Part(c.sso, "sso") + " " +
      (Part(c.automation, "workflow") + " " + (Part(c.analytics, "dashboard") + " " +
        Part(c.integrations, "sync")))))
  }

  /** The witness text of `c` raises exactly the flags of `c`. */
  lemma WitnessFlags(c: Categories)
    ensures FeatureCategories(Some(Witness(c))) == c
  {
    var t := Witness(c);
    WitnessChars(c);
    LowerOfNoUpper(t);
    WitnessAi(c);
    WitnessSso(c);
    WitnessApi(c);
    WitnessAutomation(c);
    WitnessAnalytics(c);
    WitnessIntegrations(c);
  }

  /** Which letters the witness text holds. */
  lemma WitnessChars(c: Categories)
    ensures var t := Witness(c);
      && |t| >= 5
      && (forall k :: 0 <= k < |t| ==> !IsUpper(t[k]))
      && 'e' !in t && 'g' !in t && 'm' !in t && 't' !in t
      && (!c.api ==> 'p' !in t) && (!c.automation ==> 'w' !in t)
      && (!c.analytics ==> 'd' !in t) && (!c.integrations ==> 'y' !in t)
  {
    var t := Witness(c);
    forall ch | ch in t
      ensures ch == ' ' || 'a' <= ch <= 'z'
      ensures ch != 'e' && ch != 'g' && ch != 'm' && ch != 't'
      ensures ch == 'p' ==> c.api
      ensures ch == 'w' ==> c.automation
      ensures ch == 'd' ==> c.analytics
      ensures ch == 'y' ==> c.integrations
    {
    }
    forall k | 0 <= k < |t|
      ensures !IsUpper(t[k])
    {
      assert t[k] in t;
    }
  }

  /** A pattern without a space occurs in space-separated parts only inside
      one of the parts. */
  lemma ContainsInParts(x1: string, x2: string, x3: string, x4: string, x5: string, x6: string, p: string)
    requires ' ' !in p
    ensures Contains(x1 + " " + (x2 + " " + (x3 + " " + (x4 + " " + (x5 + " " + x6)))), p) <==>
              Contains(x1, p) || Contains(x2, p) || Contains(x3, p) ||
              Contains(x4, p) || Contains(x5, p) || Contains(x6, p)
  {
    assert " " == [' '];
    ContainsAcross(x5, ' ', x6, p);
    ContainsAcross(x4, ' ', x5 + " " + x6, p);
    ContainsAcross(x3, ' ', x4 + " " + (x5 + " " + x6), p);
    ContainsAcross(x2, ' ', x3 + " " + (x4 + " " + (x5 + " " + x6)), p);
    ContainsAcross(x1, ' ', x2 + " " + (x3 + " " + (x4 + " " + (x5 + " " + x6))), p);
  }

  /** A word that is not in `s` is not a word of `s`. */
  lemma NoWordOutside(s: string, w: string)
    requires !Contains(s, w)
    ensures !ContainsWord(s, w)
  {
    forall i | 0 <= i <= |s| && WordAt(s, w, i)
      ensures false
    {
      ContainsAt(s, w, i);
    }
  }

  /** The AI flag of the witness text is the one of `c`. */
  lemma WitnessAi(c: Categories)
    ensures CategoriesOf(Witness(c)).ai == c.ai
  {
    var t := Witness(c);
    WitnessChars(c);
    if c.ai {
      var rest := Part(c.api, "api") + " " + (Part(c.sso, "sso") + " " +
        (Part(c.automation, "workflow") + " " + (Part(c.analytics, "dashboard") + " " +
          Part(c.integrations, "sync"))));
      assert t == "ai" + " " + rest;
      assert t[0..2] == "ai" && t[2] == ' ';
      assert WordAt(t, "ai", 0);
    } else {
      WitnessNoAi(c);
      NoWordOutside(t, "ai");
      NoneByChars(t, AiPhrases, "gg");
    }
  }

  /** Without the AI keyword, "ai" occurs in no part of the witness text:
      "api" holds both letters, but not side by side. */
  lemma WitnessNoAi(c: Categories)
    requires !c.ai
    ensures !Contains(Witness(c), "ai")
  {
    NotContainsByChar("", "ai", 'i');
    ApiNoAi(c.api);
    PartLacks(c.sso, "sso", "ai", 'i');
    PartLacks(c.automation, "workflow", "ai", 'i');
    PartLacks(c.analytics, "dashboard", "ai", 'i');
    PartLacks(c.integrations, "sync", "ai", 'i');
    NotInParts(Part(c.ai, "ai"), Part(c.api, "api"), Part(c.sso, "sso"), Part(c.automation, "workflow"),
               Part(c.analytics, "dashboard"), Part(c.integrations, "sync"), "ai");
  }

  lemma ApiNoAi(on: bool)
    ensures !Contains(Part(on, "api"), "ai")
  {
    if on {
      NotContainsByPair("api", "ai");
    } else {
      NotContainsByChar("", "ai", 'i');
    }
  }

  /** The SSO flag of the witness text is the one of `c`. */
  lemma WitnessSso(c: Categories)
    ensures CategoriesOf(Witness(c)).sso == c.sso
  {
    var t := Witness(c);
    if c.sso {
      ContainsInParts(Part(c.ai, "ai"), Part(c.api, "api"), "sso", Part(c.automation, "workflow"),
                      Part(c.analytics, "dashboard"), Part(c.integrations, "sync"), "sso");
      ContainsAt("sso", "sso", 0);
      assert SsoWords[0] == "sso";
    } else {
      WitnessNoSso(c);
      WitnessChars(c);
      assert "single sign"[3] == 'g' && "saml"[2] == 'm';
      NotContainsByChar(t, "single sign", 'g');
      NotContainsByChar(t, "saml", 'm');
    }
  }

  /** Without the SSO keyword, "sso" occurs in no part of the witness text. */
  lemma WitnessNoSso(c: Categories)
    requires !c.sso
    ensures !Contains(Witness(c), "sso")
  {
    PartLacks(c.ai, "ai", "sso", 's');
    PartLacks(c.api, "api", "sso", 's');
    NotContainsByChar("", "sso", 's');
    PartLacks(c.automation, "workflow", "sso", 's');
    DashboardNoSso(c.analytics);
    PartLacks(c.integrations, "sync", "sso", 'o');
    NotInParts(Part(c.ai, "ai"), Part(c.api, "api"), Part(c.sso, "sso"), Part(c.automation, "workflow"),
               Part(c.analytics, "dashboard"), Part(c.integrations, "sync"), "sso");
  }

  lemma DashboardNoSso(on: bool)
    ensures !Contains(Part(on, "dashboard"), "sso")
  {
    if on {
      NotContainsByPair("dashboard", "sso");
    } else {
      NotContainsByChar("", "sso", 's');
    }
  }

  /** A pattern with a letter that `w` lacks is in no part made of `w`. */
  lemma PartLacks(on: bool, w: string, p: string, ch: char)
    requires ch in p && ch !in w
    ensures !Contains(Part(on, w), p)
  {
    NotContainsByChar(Part(on, w), p, ch);
  }

  /** A pattern without a space that no part holds is not in the parts
      joined by spaces. */
  lemma NotInParts(x1: string, x2: string, x3: string, x4: string, x5: string, x6: string, p: string)
    requires ' ' !in p
    requires !Contains(x1, p) && !Contains(x2, p) && !Contains(x3, p)
    requires !Contains(x4, p) && !Contains(x5, p) && !Contains(x6, p)
    ensures !Contains(x1 + " " + (x2 + " " + (x3 + " " + (x4 + " " + (x5 + " " + x6)))), p)
  {
    ContainsInParts(x1, x2, x3, x4, x5, x6, p);
  }

  /** The API flag of the witness text is the one of `c`. */
  lemma WitnessApi(c: Categories)
    ensures CategoriesOf(Witness(c)).api == c.api
  {
    var t := Witness(c);
    WitnessChars(c);
    if c.api {
      var x1 := Part(c.ai, "ai");
      var rest := Part(c.sso, "sso") + " " +
        (Part(c.automation, "workflow") + " " + (Part(c.analytics, "dashboard") + " " +
          Part(c.integrations, "sync")));
      WordAfterSpace(x1, "api", rest);
    } else {
      NoWordByChar(t, "api", 'p');
      NoneByChars(t, ApiPhrases, "p");
    }
  }

  /** `w` between two spaces is a word. */
  lemma WordAfterSpace(a: string, w: string, b: string)
    requires w != []
    ensures ContainsWord(a + " " + (w + " " + b), w)
  {
    var s := a + " " + (w + " " + b);
    var i := |a| + 1;
    assert s[i..i + |w|] == w;
    assert s[i - 1] == ' ' && s[i + |w|] == ' ';
    assert WordAt(s, w, i);
  }

  /** The automation flag of the witness text is the one of `c`. */
  lemma WitnessAutomation(c: Categories)
    ensures CategoriesOf(Witness(c)).automation == c.automation
  {
    if c.automation {
      ContainsInParts(Part(c.ai, "ai"), Part(c.api, "api"), Part(c.sso, "sso"), "workflow",
                      Part(c.analytics, "dashboard"), Part(c.integrations, "sync"), "workflow");
      ContainsAt("workflow", "workflow", 0);
      assert AutomationWords[1] == "workflow";
    } else {
      WitnessChars(c);
      NoneByChars(Witness(c), AutomationWords, "mw");
    }
  }

  /** The analytics flag of the witness text is the one of `c`. */
  lemma WitnessAnalytics(c: Categories)
    ensures CategoriesOf(Witness(c)).analytics == c.analytics
  {
    if c.analytics {
      ContainsInParts(Part(c.ai, "ai"), Part(c.api, "api"), Part(c.sso, "sso"), Part(c.automation, "workflow"),
                      "dashboard", Part(c.integrations, "sync"), "dashboard");
      ContainsAt("dashboard", "dashboard", 0);
      assert AnalyticsWords[2] == "dashboard";
    } else {
      WitnessChars(c);
      NoneByChars(Witness(c), AnalyticsWords, "tgd");
    }
  }

  /** The integrations flag of the witness text is the one of `c`. */
  lemma WitnessIntegrations(c: Categories)
    ensures CategoriesOf(Witness(c)).integrations == c.integrations
  {
    if c.integrations {
      ContainsInParts(Part(c.ai, "ai"), Part(c.api, "api"), Part(c.sso, "sso"), Part(c.automation, "workflow"),
                      Part(c.analytics, "dashboard"), "sync", "sync");
      ContainsAt("sync", "sync", 0);
      assert IntegrationWords[2] == "sync";
    } else {
      WitnessChars(c);
      NoneByChars(Witness(c), IntegrationWords, "gey");
    }
  }

  // ------------------------------------------------------------ other columns

  /** The Feature_Count rule: the number of '|'-separated pieces, and 0 for
      a missing cell or "N/A". */
  function FeatureCount(cell: Option<string>): (r: nat)
    ensures r == 0 <==> cell.None? || cell.value == "N/A"
    ensures r > 0 ==> r == multiset(cell.value)['|'] + 1
  {
    if cell.None? || cell.value == "N/A" then 0
    else SplitCount(cell.value, '|'); |Split(cell.value, '|')|
  }

  datatype PricingModel = Free | Custom | Listed

  /** The Pricing_Model rule on a numeric price. */
  function PricingModelOf(price: Option<nat>): PricingModel {
    if price == Some(0) then Free else if price.None? then Custom else Listed
  }

  /** The model of a cell's price: Free exactly when the cell reads "free" or
      its first number is zero, Custom exactly when no price could be read,
      Listed otherwise. */
  lemma PricingModelSpec(cell: Option<string>)
    ensures PricingModelOf(NormalizePrice(cell)) == Custom <==> NormalizePrice(cell).None?
    ensures PricingModelOf(NormalizePrice(cell)) == Free <==>
              cell.Some? && (Lower(Strip(cell.value)) == "free"
                             || (!Contains(Lower(Strip(cell.value)), "contact") && FirstAmount(Strip(cell.value)) == Some(0)))
    ensures PricingModelOf(NormalizePrice(cell)) == Listed ==> NormalizePrice(cell).value > 0
  {
  }
}
