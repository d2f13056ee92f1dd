/** The universal pricing-card extractor of src/extract/scraping/scraper.py:
    the price recogniser, the tier table, and the card extraction that
    `scrape_pricing` runs for every tier label (heading filter, ancestor
    scoring, feature filter, record assembly). */
module PricingScraper {
  import opened Text
  import opened Amounts
  import opened Dom

  // ---------------------------------------------------------- price recogniser

  const ContactPhrases: seq<string> :=
    ["contact sales", "contact us", "get in touch", "talk to sales", "custom pricing"]

  /** A price as the recogniser writes a dollar amount: `$` and an amount. */
  predicate IsDollarPrice(r: string) {
    |r| >= 2 && r[0] == '$' && IsAmount(r[1..])
  }

  /** The four kinds of value the recogniser can return. */
  predicate IsPriceLabel(r: string) {
    r == "Contact sales" || r == "Free" || r == "N/A" || IsDollarPrice(r)
  }

  predicate SaysContact(text: string) {
    ContainsAny(Lower(text), ContactPhrases)
  }

  predicate SaysFree(text: string, tier: string) {
    Lower(tier) == "free" || Contains(Lower(text), "free forever") || Strip(Lower(text)) == "free"
  }

  /** Group 0 of `re.search(r'\$\d+(?:\.\d{2})?', text)`: the leftmost `$`
      that a digit follows, with the longest amount after it, copied from the
      text as it stands. */
  function DollarMatch(text: string): (r: Option<string>)
    ensures r.None? <==> FirstDollar(text).None?
    ensures r.Some? ==> IsDollarPrice(r.value) && OccursAt(text, r.value, FirstDollar(text).value)
    ensures r.Some? ==> LongestAmount(text, FirstDollar(text).value + 1, FirstDollar(text).value + |r.value|)
  {
    match FirstDollar(text)
    case None => None
    case Some(i) =>
      AmountMatched(text, i + 1);
      var r := text[i..AmountEnd(text, i + 1)];
      assert r[1..] == text[i + 1..AmountEnd(text, i + 1)];
      Some(r)
  }

  /** `"$" + group(1)` of the billing-number pattern searched in the
      lower-cased text: the whole dollars of the leftmost number that a billing
      period follows. Any cents are dropped; the digits are those of the text. */
  function BillingMatch(text: string): (r: Option<string>)
    ensures r.None? <==> FirstBilling(Lower(text)).None?
    ensures r.Some? ==> && IsDollarPrice(r.value) && AllDigits(r.value[1..])
                        && OccursAt(text, r.value[1..], FirstBilling(Lower(text)).value)
    ensures r.Some? ==> var e := FirstBilling(Lower(text)).value + |r.value| - 1;
                        e == |text| || !IsDigit(text[e])
  {
    var lower := Lower(text);
    match FirstBilling(lower)
    case None => None
    case Some(i) =>
      var j := DigitRun(lower, i);
      LowerKeepsDigits(text, i, j);
      assert j < |text| ==> lower[j] == LowerChar(text[j]);
      var r := "$" + lower[i..j];
      assert r[1..] == lower[i..j];
      Some(r)
  }

  /** `extract_price`: a first-match-wins chain. A contact phrase beats
      everything, the tier name included; then the free rules; then a dollar
      amount copied verbatim; then a bare billing number; then the tier name
      decides between "Contact sales" (enterprise) and "N/A". */
  function ExtractPrice(text: string, tier: string): (r: string)
    ensures IsPriceLabel(r)
    ensures SaysContact(text) ==> r == "Contact sales"
    ensures r == "Free" <==> !SaysContact(text) && SaysFree(text, tier)
    ensures IsDollarPrice(r) <==>
              !SaysContact(text) && !SaysFree(text, tier) && (DollarMatch(text).Some? || BillingMatch(text).Some?)
    ensures IsDollarPrice(r) && DollarMatch(text).Some? ==> r == DollarMatch(text).value
    ensures IsDollarPrice(r) && DollarMatch(text).None? ==> r == BillingMatch(text).value
    ensures r == "N/A" <==>
              && !SaysContact(text) && !SaysFree(text, tier) && DollarMatch(text).None?
              && BillingMatch(text).None? && Lower(tier) != "enterprise"
  {
    if SaysContact(text) then "Contact sales"
    else if SaysFree(text, tier) then "Free"
    else if DollarMatch(text).Some? then DollarMatch(text).value
    else if BillingMatch(text).Some? then BillingMatch(text).value
    else if Lower(tier) == "enterprise" then "Contact sales"
    else "N/A"
  }

  /** Text without the letters c, g and k holds none of the contact phrases. */
  lemma NoContactPhrase(s: string)
    requires 'c' !in s && 'g' !in s && 'k' !in s
    ensures !ContainsAny(s, ContactPhrases)
  {
    forall k | 0 <= k < |ContactPhrases|
      ensures !Contains(s, ContactPhrases[k])
    {
      if k == 0 {
        NotContainsByChar(s, "contact sales", 'c');
      } else if k == 1 {
        NotContainsByChar(s, "contact us", 'c');
      } else if k == 2 {
        NotContainsByChar(s, "get in touch", 'g');
      } else if k == 3 {
        NotContainsByChar(s, "talk to sales", 'k');
      } else {
        NotContainsByChar(s, "custom pricing", 'c');
      }
    }
  }

  /** Neither a contact phrase nor a free rule applies to text without the
      letters c, f, g and k in either case, for a tier other than "free". */
  lemma NeitherContactNorFree(text: string, tier: string)
    requires NoneOf(text, "cCfFgGkK")
    requires Lower(tier) != "free"
    ensures !SaysContact(text) && !SaysFree(text, tier)
  {
    var cs := "cCfFgGkK";
    assert cs[0] == 'c' && cs[1] == 'C' && cs[2] == 'f' && cs[3] == 'F';
    assert cs[4] == 'g' && cs[5] == 'G' && cs[6] == 'k' && cs[7] == 'K';
    LowerKeepsOut(text, 'c', 'C');
    LowerKeepsOut(text, 'f', 'F');
    LowerKeepsOut(text, 'g', 'G');
    LowerKeepsOut(text, 'k', 'K');
    NoContactPhrase(Lower(text));
    NotContainsByChar(Lower(text), "free forever", 'f');
    StripKeepsOut(Lower(text), 'f');
    assert "free"[0] == 'f';
  }

  /** No character of `cs` occurs in `text`. */
  predicate NoneOf(text: string, cs: string) {
    forall i, j :: 0 <= i < |text| && 0 <= j < |cs| ==> text[i] != cs[j]
  }

  lemma NoDollarMatch(text: string)
    requires '$' !in text
    ensures DollarMatch(text).None?
  {
    forall k | 0 <= k < |text|
      ensures !DollarAt(text, k)
    {
      assert text[k] in text;
    }
  }

  lemma DollarExampleFacts()
    ensures DollarMatch("Starts at $17.50/month") == Some("$17.50")
  {
    var text := "Starts at $17.50/month";
    assert DollarAt(text, 10);
    assert text[..10] == "Starts at ";
    forall k | 0 <= k < 10
      ensures !DollarAt(text, k)
    {
      assert text[k] == text[..10][k];
    }
    assert DigitRun(text, 11) == 13;
    assert text[10..16] == "$17.50";
  }

  lemma DollarExampleLetters()
    ensures NoneOf("Starts at $17.50/month", "cCfFgGkK")
  {
  }

  /** A dollar amount is copied with its cents, whatever follows it. */
  lemma DollarExample(tier: string)
    requires Lower(tier) != "free"
    ensures ExtractPrice("Starts at $17.50/month", tier) == "$17.50"
  {
    DollarExampleFacts();
    DollarExampleLetters();
    NeitherContactNorFree("Starts at $17.50/month", tier);
  }

  lemma BillingExampleMatch()
    ensures BillingMatch("49 per month") == Some("$49")
  {
    var text := "49 per month";
    BillingExampleScan();
    assert "$" + text[0..2] == "$49";
  }

  lemma BillingExampleScan()
    ensures Lower("49 per month") == "49 per month"
    ensures FirstBilling("49 per month") == Some(0)
    ensures DigitRun("49 per month", 0) == 2
  {
    var text := "49 per month";
    LowerOfNoUpper(text);
    assert DigitRun(text, 0) == 2;
    assert SkipSpaces(text, 2) == 3;
    assert StartsWith(text[3..], "per");
    assert BillingAt(text, 0);
  }

  lemma BillingExampleLetters()
    ensures DollarMatch("49 per month").None?
    ensures NoneOf("49 per month", "cCfFgGkK")
  {
    NoDollarMatch("49 per month");
  }

  /** A bare number that a billing period follows becomes a dollar price. */
  lemma BillingExample(tier: string)
    requires Lower(tier) != "free"
    ensures ExtractPrice("49 per month", tier) == "$49"
  {
    BillingExampleMatch();
    BillingExampleLetters();
    NeitherContactNorFree("49 per month", tier);
  }

  lemma BillingCentsExampleMatch()
    ensures BillingMatch("17.50/month") == Some("$17")
  {
    var text := "17.50/month";
    BillingCentsExampleScan();
    assert "$" + text[0..2] == "$17";
  }

  lemma BillingCentsExampleScan()
    ensures Lower("17.50/month") == "17.50/month"
    ensures FirstBilling("17.50/month") == Some(0)
    ensures DigitRun("17.50/month", 0) == 2
  {
    var text := "17.50/month";
    LowerOfNoUpper(text);
    assert DigitRun(text, 0) == 2;
    assert CentsAt(text, 2);
    assert SkipSpaces(text, 5) == 5;
    assert BillingAt(text, 0);
  }

  lemma BillingCentsExampleLetters()
    ensures DollarMatch("17.50/month").None?
    ensures NoneOf("17.50/month", "cCfFgGkK")
  {
    NoDollarMatch("17.50/month");
  }

  /** A bare number loses its cents. */
  lemma BillingCentsExample(tier: string)
    requires Lower(tier) != "free"
    ensures ExtractPrice("17.50/month", tier) == "$17"
  {
    BillingCentsExampleMatch();
    BillingCentsExampleLetters();
    NeitherContactNorFree("17.50/month", tier);
  }

  // ---------------------------------------------------------------- tier table

  const TierTable: map<string, seq<string>> := map[
    "notion" := ["Free", "Plus", "Business", "Enterprise"],
    "clickup" := ["Free", "Unlimited", "Business", "Enterprise"],
    "asana" := ["Personal", "Starter", "Advanced", "Enterprise"],
    "airtable" := ["Free", "Team", "Business", "Enterprise"],
    "coda" := ["Free", "Pro", "Team", "Enterprise"],
    "trello" := ["Free", "Standard", "Premium", "Enterprise"],
    "figma" := ["Starter", "Professional", "Organization", "Enterprise"],
    "monday" := ["Free", "Basic", "Standard", "Pro", "Enterprise"],
    "linear" := ["Free", "Standard", "Plus", "Enterprise"],
    "miro" := ["Free", "Starter", "Business", "Enterprise"]
  ]

  const DefaultTiers: seq<string> := ["Free", "Pro", "Business", "Enterprise"]

  /** A usable list of tier labels: four or five distinct labels, cheapest
      first, ending with "Enterprise". */
  predicate TierList(ts: seq<string>) {
    4 <= |ts| <= 5 && ts[|ts| - 1] == "Enterprise" && Distinct(ts)
  }

  /** `get_tier_names`: the company's list, looked up case-insensitively, or
      the default list for an unknown company. */
  function GetTierNames(company: string): (r: seq<string>)
    ensures TierList(r)
    ensures Lower(company) !in TierTable ==> r == DefaultTiers
  {
    var key := Lower(company);
    TierTableWellFormed(key);
    if key in TierTable then TierTable[key] else DefaultTiers
  }

  lemma TierTableWellFormed(key: string)
    ensures key in TierTable ==> TierList(TierTable[key])
    ensures TierList(DefaultTiers)
  {
  }

  /** No label of the table or of the default list holds a quote, so every
      tier query the program builds from them parses. */
  lemma TierLabelsQueryValid(company: string)
    ensures forall k :: 0 <= k < |GetTierNames(company)| ==> QueryValid(GetTierNames(company)[k])
  {
    var key := Lower(company);
    forall k | 0 <= k < |GetTierNames(company)|
      ensures QueryValid(GetTierNames(company)[k])
    {
      if key in TierTable {
        TableLabelsQueryValid(key);
      }
    }
  }

  lemma TableLabelsQueryValid(key: string)
    requires key in TierTable
    ensures forall k :: 0 <= k < |TierTable[key]| ==> QueryValid(TierTable[key][k])
  {
  }

  /** The lookup ignores the case of the company name. */
  lemma TierLookupIgnoresCase(company: string)
    ensures GetTierNames(company) == GetTierNames(Lower(company))
  {
    LowerIdempotent(company);
  }

  lemma FigmaTiers()
    ensures GetTierNames("Figma") == ["Starter", "Professional", "Organization", "Enterprise"]
  {
    assert Lower("Figma") == "figma";
  }

  // ------------------------------------------------------------ heading filter

  const HeadingTags: seq<string> := ["h1", "h2", "h3", "h4", "h5", "h6", "span", "div"]

  /** What the XPath query for a tier selects: an element with a text child
      equal to the tier, or whose first text child contains it. */
  predicate Mentions(e: Element, tier: string) {
    TextIs(e, tier) || FirstTextContains(e, tier)
  }

  /** The element's rendered text, stripped, is shorter than 50 characters
      and names the tier in any case. */
  predicate ShortAndNamed(text: string, tier: string) {
    var t := Strip(text);
    |t| < 50 && Contains(Lower(t), Lower(tier))
  }

  predicate HeadingLike(tag: string) {
    Lower(tag) in HeadingTags
  }

  /** An element the scraper accepts as the tier's heading: selected by the
      query, with short rendered text that names the tier, and a heading-like
      tag. */
  predicate IsTierHeading(e: Element, tier: string) {
    Mentions(e, tier) && ShortAndNamed(e.text, tier) && HeadingLike(e.tag)
  }

  /** The first element in document order that passes the heading filter. */
  function HeadingOf(page: Page, tier: string): (r: Option<nat>)
    ensures r.Some? ==> && r.value < |page| && IsTierHeading(page[r.value], tier)
                        && forall k :: 0 <= k < r.value ==> !IsTierHeading(page[k], tier)
    ensures r.None? ==> forall k :: 0 <= k < |page| ==> !IsTierHeading(page[k], tier)
  {
    var p := (k: nat) => k < |page| && IsTierHeading(page[k], tier);
    assert forall k: nat :: p(k) == (k < |page| && IsTierHeading(page[k], tier));
    Find(|page|, 0, p)
  }

  lemma FirstHeading(page: Page, tier: string, i: nat)
    requires i < |page| && IsTierHeading(page[i], tier)
    requires forall k :: 0 <= k < i ==> !IsTierHeading(page[k], tier)
    ensures HeadingOf(page, tier) == Some(i)
  {
  }

  lemma NotHeadingYet(page: Page, tier: string, i: nat)
    requires i < |page| && forall k :: 0 <= k < i ==> !IsTierHeading(page[k], tier)
    requires !(Mentions(page[i], tier) && ShortAndNamed(page[i].text, tier) && HeadingLike(page[i].tag))
    ensures forall k :: 0 <= k < i + 1 ==> !IsTierHeading(page[k], tier)
  {
  }

  lemma NoHeading(page: Page, tier: string)
    requires forall k :: 0 <= k < |page| ==> !IsTierHeading(page[k], tier)
    ensures HeadingOf(page, tier) == None
  {
  }

  /** The loop of lines 129-136 that stops at the first accepted heading. */
  method LocateHeading(page: Page, tier: string) returns (heading: Option<nat>)
    ensures heading == HeadingOf(page, tier)
  {
    heading := None;
    var i := 0;
    while i < |page|
      invariant 0 <= i <= |page|
      invariant forall k :: 0 <= k < i ==> !IsTierHeading(page[k], tier)
    {
      var elem := page[i];
      if Mentions(elem, tier) && ShortAndNamed(elem.text, tier) {
        if HeadingLike(elem.tag) {
          heading := Some(i);
          FirstHeading(page, tier, i);
          return;
        }
      }
      NotHeadingYet(page, tier, i);
      i := i + 1;
    }
    NoHeading(page, tier);
  }

  // --------------------------------------------------------- container scoring

  /** How many labels of `tiers` other than `tier` (compared without case)
      occur in `text` (compared with case). A label listed twice counts twice. */
  function OtherMentions(text: string, tier: string, tiers: seq<string>): (r: nat)
    ensures r <= |tiers|
    ensures r == 0 <==> forall k :: 0 <= k < |tiers| ==> Lower(tiers[k]) == Lower(tier) || !Contains(text, tiers[k])
    decreases |tiers|
  {
    if tiers == [] then 0
    else
      var rest := OtherMentions(text, tier, tiers[..|tiers| - 1]);
      var t := tiers[|tiers| - 1];
      rest + if Lower(t) != Lower(tier) && Contains(text, t) then 1 else 0
  }

  /** `re.search(r'\$|free|contact', text, re.IGNORECASE)` */
  predicate HasPriceIndicator(text: string) {
    Contains(text, "$") || Contains(Lower(text), "free") || Contains(Lower(text), "contact")
  }

  /** The score of lines 172-178 multiplied by 200, which keeps it an integer:
      50 for a price indicator, minus 40 per other-tier mention, plus 30 for a
      list of 3 to 30 items, minus one two-hundredth of the text length. */
  function ScoreOf(hasPrice: bool, others: nat, items: nat, length: nat): int {
    (if hasPrice then 10000 else 0) - 8000 * others + (if 3 <= items <= 30 then 6000 else 0) - length
  }

  /** `best_score = -999`, multiplied by 200. */
  const NoScore := -199800

  /** The number of ancestor levels the scraper climbs. */
  const Levels := 10

  function LevelScore(chain: seq<Level>, k: nat, tier: string, tiers: seq<string>): int
    requires k < |chain| && chain[k].Node?
  {
    var text := chain[k].text;
    ScoreOf(HasPriceIndicator(text), OtherMentions(text, tier, tiers), |chain[k].items|, |text|)
  }

  /** Level `k` can be chosen: it was read, its text length is within
      [50, 5000], and it beats the initial best score. */
  predicate Eligible(chain: seq<Level>, k: nat, tier: string, tiers: seq<string>) {
    && k < |chain| && chain[k].Node?
    && 50 <= |chain[k].text| <= 5000
    && LevelScore(chain, k, tier, tiers) > NoScore
  }

  /** The best of the first `n` levels: the highest score, the shallowest
      level on ties (the comparison is a strict `>`), or None when no level is
      eligible. */
  function Best(chain: seq<Level>, n: nat, tier: string, tiers: seq<string>): (r: Option<nat>)
    ensures r.Some? ==> r.value < n && Eligible(chain, r.value, tier, tiers)
  {
    if n == 0 then None
    else
      var b := Best(chain, n - 1, tier, tiers);
      if Eligible(chain, n - 1, tier, tiers)
         && (b.None? || LevelScore(chain, n - 1, tier, tiers) > LevelScore(chain, b.value, tier, tiers))
      then Some(n - 1)
      else b
  }

  /** `Best` is the argmax over the eligible levels below `n`: no eligible
      level scores higher, every shallower eligible level scores strictly
      lower, and there is none exactly when no level is eligible. */
  lemma {:induction false} BestIsArgmax(chain: seq<Level>, n: nat, tier: string, tiers: seq<string>)
    ensures var r := Best(chain, n, tier, tiers);
      && (r.Some? ==> forall k :: 0 <= k < n && Eligible(chain, k, tier, tiers) ==>
                        LevelScore(chain, k, tier, tiers) <= LevelScore(chain, r.value, tier, tiers))
      && (r.Some? ==> forall k :: 0 <= k < r.value && Eligible(chain, k, tier, tiers) ==>
                        LevelScore(chain, k, tier, tiers) < LevelScore(chain, r.value, tier, tiers))
      && (r.None? <==> forall k :: 0 <= k < n ==> !Eligible(chain, k, tier, tiers))
  {
    if n > 0 {
      BestIsArgmax(chain, n - 1, tier, tiers);
    }
  }

  /** The outcome of the climb for one tier. */
  datatype Ascent = Aborted | Reached(best: Option<nat>)

  /** The climb of lines 146-189. The root element's parent is null; reading
      null's text fails inside the per-level `try`, but the next step asks the
      driver for null's parent outside it, which abandons the whole tier. So
      a heading with fewer than nine ancestors yields no container. */
  function Ascend(chain: seq<Level>, tier: string, tiers: seq<string>): (r: Ascent)
    ensures r.Reached? && r.best.Some? ==>
              && r.best.value < |chain| && r.best.value < Levels && chain[r.best.value].Node?
              && 50 <= |chain[r.best.value].text| <= 5000
  {
    if |chain| < Levels - 1 then Aborted else Reached(Best(chain, Levels, tier, tiers))
  }

  method ScoreContainer(chain: seq<Level>, tier: string, tiers: seq<string>) returns (outcome: Ascent)
    ensures outcome == Ascend(chain, tier, tiers)
  {
    var best: Option<nat> := None;
    var bestScore := NoScore;
    var level := 0;
    while level < Levels
      invariant 0 <= level <= Levels && level <= |chain| + 1
      invariant best == Best(chain, level, tier, tiers)
      invariant bestScore == if best.None? then NoScore else LevelScore(chain, best.value, tier, tiers)
    {
      if level > |chain| {
        // the driver was asked for the parent of null
        return Aborted;
      }
      ScoreStep(chain, level, tier, tiers, best, bestScore);
      if level < |chain| && chain[level].Node? {
        var containerText := chain[level].text;
        if 50 <= |containerText| <= 5000 {
          var others := OtherMentions(containerText, tier, tiers);
          var score := ScoreOf(HasPriceIndicator(containerText), others, |chain[level].items|, |containerText|);
          assert score == LevelScore(chain, level, tier, tiers);
          if score > bestScore {
            best := Some(level);
            bestScore := score;
          }
        }
      }
      level := level + 1;
    }
    return Reached(best);
  }

  /** One level of the climb: the level replaces the best so far exactly when
      it is eligible and scores strictly higher. */
  lemma ScoreStep(chain: seq<Level>, level: nat, tier: string, tiers: seq<string>, best: Option<nat>, bestScore: int)
    requires best == Best(chain, level, tier, tiers)
    requires bestScore == if best.None? then NoScore else LevelScore(chain, best.value, tier, tiers)
    ensures level < |chain| && chain[level].Node? ==>
      Best(chain, level + 1, tier, tiers) ==
        if 50 <= |chain[level].text| <= 5000 && LevelScore(chain, level, tier, tiers) > bestScore
        then Some(level) else best
    ensures !(level < |chain| && chain[level].Node?) ==> Best(chain, level + 1, tier, tiers) == best
  {
  }

  /** Holding the other signals fixed, one more other-tier mention always
      lowers the score. */
  lemma MentionPenalty(hasPrice: bool, others: nat, items: nat, length: nat)
    ensures ScoreOf(hasPrice, others + 1, items, length) < ScoreOf(hasPrice, others, items, length)
  {
  }

  /** The initial best score rejects almost nothing: any readable ancestor of
      50 to 5000 characters within reach is chosen or beaten, however many of
      up to 24 other tiers it names. So a wrapping container always clears
      the initial score of -999, and is chosen whenever no other level within
      reach scores higher. */
  lemma {:induction false} WrappingContainerChosen(chain: seq<Level>, tier: string, tiers: seq<string>, k: nat)
    requires |tiers| <= 24 && Levels - 1 <= |chain| && k < Levels && k < |chain|
    requires chain[k].Node? && 50 <= |chain[k].text| <= 5000
    ensures Ascend(chain, tier, tiers).Reached? && Ascend(chain, tier, tiers).best.Some?
  {
    assert Eligible(chain, k, tier, tiers);
    BestIsArgmax(chain, Levels, tier, tiers);
  }

  /** A wrapping container that is the only level within reach of 50 to 5000
      characters is chosen, whatever other tiers it names. */
  lemma WrapperChosenAlone(chain: seq<Level>, tier: string, tiers: seq<string>, k: nat)
    requires |tiers| <= 24 && Levels - 1 <= |chain| && k < Levels && k < |chain|
    requires chain[k].Node? && 50 <= |chain[k].text| <= 5000
    requires forall j :: 0 <= j < Levels && j < |chain| && j != k && chain[j].Node? ==>
               |chain[j].text| < 50 || |chain[j].text| > 5000
    ensures Ascend(chain, tier, tiers) == Reached(Some(k))
  {
    WrappingContainerChosen(chain, tier, tiers, k);
  }

  // ------------------------------------------------------------------ features

  const FeatureCap := 30

  /** The quality filters of lines 205-211 on a stripped item, given the
      features kept so far: not empty, 5 to 250 characters, not kept yet. */
  predicate Keeps(ft: string, kept: seq<string>) {
    ft != [] && 5 <= |ft| <= 250 && ft !in kept
  }

  /** The clean-up of line 215: line breaks become spaces, then the ends are
      stripped. */
  function Flatten(ft: string): string {
    Strip(Replace(ft, '\n', ' '))
  }

  /** What every kept feature looks like. */
  predicate IsFeature(f: string) {
    5 <= |f| <= 250 && '\n' !in f && IsStripped(f)
  }

  lemma PrefixOfSnoc<T>(xs: seq<T>, x: T)
    ensures |xs + [x]| == |xs| + 1 && (xs + [x])[..|xs|] == xs && (xs + [x])[|xs|] == x
  {
  }

  /** The features kept after looking at one more stripped item. */
  function Next(ft: string, kept: seq<string>): seq<string> {
    if Keeps(ft, kept) then kept + [Flatten(ft)] else kept
  }

  /** An item adds at most one feature, cleaned, at the end. */
  lemma NextProps(ft: string, kept: seq<string>)
    requires IsStripped(ft)
    ensures var r := Next(ft, kept);
      && |kept| <= |r| <= |kept| + 1 && r[..|kept|] == kept
      && (|r| == |kept| + 1 ==> IsFeature(r[|kept|]) && r[|kept|] == Flatten(ft))
  {
    if Keeps(ft, kept) {
      var f := Flatten(ft);
      FlattenStripped(ft);
      PrefixOfSnoc(kept, f);
    }
  }

  /** The features kept from the stripped items `fts` when `kept` were kept
      before them. The duplicate test runs before the clean-up, against the
      cleaned features kept so far. */
  function Harvest(fts: seq<string>, kept: seq<string>): seq<string>
    decreases |fts|
  {
    if fts == [] then kept else Harvest(fts[1..], Next(fts[0], kept))
  }

  /** The features of a container whose list items read `items`: at most 30,
      each of 5 to 250 characters on one line. */
  function Features(items: seq<string>): (r: seq<string>)
    ensures |r| <= FeatureCap
    ensures forall k :: 0 <= k < |r| ==> IsFeature(r[k])
  {
    var fts := StripAll(Take(items, FeatureCap));
    HarvestBounds(fts, []);
    Harvest(fts, [])
  }

  /** The feature loop of lines 197-216. */
  method HarvestFeatures(items: seq<string>) returns (features: seq<string>)
    ensures features == Features(items)
  {
    var listed := Take(items, FeatureCap);
    ghost var fts := StripAll(listed);
    features := [];
    for i := 0 to |listed|
      invariant Harvest(fts[i..], features) == Harvest(fts, [])
    {
      assert fts[i..][1..] == fts[i + 1..];
      var featureText := Strip(listed[i]);
      assert featureText == fts[i];
      if featureText == [] {
        continue;
      }
      if |featureText| < 5 {
        continue;
      }
      if |featureText| > 250 {
        continue;
      }
      if featureText in features {
        continue;
      }
      featureText := Flatten(featureText);
      features := features + [featureText];
    }
    assert fts[|listed|..] == [];
  }

  /** Cleaning a stripped item only turns its inner line breaks into spaces. */
  lemma FlattenStripped(ft: string)
    requires IsStripped(ft)
    ensures Flatten(ft) == Replace(ft, '\n', ' ')
    ensures |Flatten(ft)| == |ft| && '\n' !in Flatten(ft) && IsStripped(Flatten(ft))
  {
    var r := Replace(ft, '\n', ' ');
    assert IsStripped(r);
    StripOfStripped(r);
    forall k | 0 <= k < |r|
      ensures r[k] != '\n'
    {
    }
  }

  /** A feature is left as it is by the clean-up. */
  lemma FlattenFeature(f: string)
    requires IsStripped(f) && '\n' !in f
    ensures Flatten(f) == f
  {
    assert Replace(f, '\n', ' ') == f;
    StripOfStripped(f);
  }

  lemma {:induction false} HarvestBounds(fts: seq<string>, kept: seq<string>)
    requires AllStripped(fts)
    ensures |kept| <= |Harvest(fts, kept)| <= |kept| + |fts|
    ensures Harvest(fts, kept)[..|kept|] == kept
    ensures forall k :: |kept| <= k < |Harvest(fts, kept)| ==> IsFeature(Harvest(fts, kept)[k])
    decreases |fts|
  {
    if fts != [] {
      var n := Next(fts[0], kept);
      NextProps(fts[0], kept);
      HarvestBounds(fts[1..], n);
      var h := Harvest(fts[1..], n);
      assert h == Harvest(fts, kept);
      PrefixChain(h, n, kept);
      forall k | |kept| <= k < |h|
        ensures IsFeature(h[k])
      {
        if k < |n| {
          PrefixAt(h, n, k);
        }
      }
    }
  }

  /** What every stripped item would become if it were kept. */
  function Cleaned(fts: seq<string>): seq<string>
    decreases |fts|
  {
    if fts == [] then [] else [Flatten(fts[0])] + Cleaned(fts[1..])
  }

  /** The features keep the order of the items they come from. */
  lemma {:induction false} HarvestOrder(fts: seq<string>, kept: seq<string>)
    requires AllStripped(fts)
    ensures |kept| <= |Harvest(fts, kept)| && Subseq(Harvest(fts, kept)[|kept|..], Cleaned(fts))
    decreases |fts|
  {
    HarvestBounds(fts, kept);
    if fts == [] {
      assert Harvest(fts, kept)[|kept|..] == [];
    } else {
      var n := Next(fts[0], kept);
      NextProps(fts[0], kept);
      assert Harvest(fts, kept) == Harvest(fts[1..], n);
      HarvestOrder(fts[1..], n);
      HarvestBounds(fts[1..], n);
      OrderStep(Harvest(fts[1..], n), kept, n, Flatten(fts[0]), Cleaned(fts[1..]));
    }
  }

  /** Every kept feature is stripped and on one line. */
  predicate AllClean(kept: seq<string>) {
    forall k :: 0 <= k < |kept| ==> IsStripped(kept[k]) && '\n' !in kept[k]
  }

  /** Every item of acceptable length ends up among the features, once
      cleaned (an item equal to a kept feature is already there). */
  lemma {:induction false} HarvestComplete(fts: seq<string>, kept: seq<string>)
    requires AllStripped(fts) && AllClean(kept)
    ensures forall k :: 0 <= k < |fts| && 5 <= |fts[k]| <= 250 ==> Flatten(fts[k]) in Harvest(fts, kept)
    decreases |fts|
  {
    if fts != [] {
      var ft := fts[0];
      var n := Next(ft, kept);
      NextProps(ft, kept);
      var h := Harvest(fts[1..], n);
      assert h == Harvest(fts, kept);
      CleanGrows(kept, n);
      HarvestComplete(fts[1..], n);
      HarvestBounds(fts[1..], n);
      if 5 <= |ft| <= 250 {
        if |n| == |kept| + 1 {
          PrefixMember(h, n, |kept|);
        } else {
          var j :| 0 <= j < |kept| && kept[j] == ft;
          FlattenFeature(ft);
          assert n[j] == n[..|kept|][j];
          PrefixMember(h, n, j);
        }
      }
      assert 5 <= |ft| <= 250 ==> Flatten(ft) in h;
      forall k | 0 <= k < |fts| && 5 <= |fts[k]| <= 250
        ensures Flatten(fts[k]) in h
      {
        if k > 0 {
          assert fts[1..][k - 1] == fts[k];
        }
      }
    }
  }

  lemma CleanGrows(kept: seq<string>, n: seq<string>)
    requires AllClean(kept) && |kept| <= |n| <= |kept| + 1 && n[..|kept|] == kept
    requires |n| == |kept| + 1 ==> IsFeature(n[|kept|])
    ensures AllClean(n)
  {
    forall k | 0 <= k < |n|
      ensures IsStripped(n[k]) && '\n' !in n[k]
    {
      if k < |kept| {
        assert n[k] == n[..|kept|][k];
      }
    }
  }

  lemma PrefixMember(h: seq<string>, n: seq<string>, j: nat)
    requires |n| <= |h| && h[..|n|] == n && j < |n|
    ensures n[j] in h
  {
    assert h[j] == h[..|n|][j];
  }

  /** Items without line breaks give features without duplicates. */
  lemma {:induction false} HarvestDistinct(fts: seq<string>, kept: seq<string>)
    requires AllStripped(fts) && Distinct(kept)
    requires forall k :: 0 <= k < |fts| ==> '\n' !in fts[k]
    ensures Distinct(Harvest(fts, kept))
    decreases |fts|
  {
    if fts != [] {
      var ft := fts[0];
      var n := Next(ft, kept);
      assert Harvest(fts[1..], n) == Harvest(fts, kept);
      if Keeps(ft, kept) {
        FlattenFeature(ft);
        assert Distinct(n) by {
          forall i, j | 0 <= i < j < |n|
            ensures n[i] != n[j]
          {
            if j == |kept| {
              assert n[i] == kept[i];
              assert kept[i] in kept;
            }
          }
        }
      }
      HarvestDistinct(fts[1..], n);
    }
  }

  /** Items that are already distinct features pass through unchanged. */
  lemma {:induction false} HarvestKeepsAll(fts: seq<string>, kept: seq<string>)
    requires forall k :: 0 <= k < |fts| ==> IsFeature(fts[k])
    requires Distinct(kept + fts)
    ensures Harvest(fts, kept) == kept + fts
    decreases |fts|
  {
    if fts != [] {
      var ft := fts[0];
      var all := kept + fts;
      forall j | 0 <= j < |kept|
        ensures kept[j] != ft
      {
        assert all[j] == kept[j] && all[|kept|] == ft;
      }
      FlattenFeature(ft);
      var n := Next(ft, kept);
      assert n == kept + [ft];
      assert n + fts[1..] == all;
      assert Harvest(fts[1..], n) == Harvest(fts, kept);
      HarvestKeepsAll(fts[1..], n);
    }
  }

  /** The features come in the order of the items they are cleaned from, at
      most one per item among the first 30. */
  lemma FeaturesOrdered(items: seq<string>)
    ensures Subseq(Features(items), Cleaned(StripAll(Take(items, FeatureCap))))
  {
    HarvestOrder(StripAll(Take(items, FeatureCap)), []);
    assert Features(items)[0..] == Features(items);
  }

  /** Every one of the first 30 items whose stripped text has 5 to 250
      characters contributes its cleaned text. */
  lemma FeaturesComplete(items: seq<string>)
    ensures forall k :: 0 <= k < |items| && k < FeatureCap && 5 <= |Strip(items[k])| <= 250 ==>
              Flatten(Strip(items[k])) in Features(items)
  {
    var fts := StripAll(Take(items, FeatureCap));
    HarvestComplete(fts, []);
    forall k | 0 <= k < |items| && k < FeatureCap && 5 <= |Strip(items[k])| <= 250
      ensures Flatten(Strip(items[k])) in Features(items)
    {
      assert Take(items, FeatureCap)[k] == items[k];
      assert fts[k] == Strip(items[k]);
    }
  }

  /** Items without line breaks give no feature twice. */
  lemma FeaturesDistinct(items: seq<string>)
    requires forall k :: 0 <= k < |items| ==> '\n' !in items[k]
    ensures Distinct(Features(items))
  {
    var listed := Take(items, FeatureCap);
    var fts := StripAll(listed);
    forall k | 0 <= k < |fts|
      ensures '\n' !in fts[k]
    {
      assert listed[k] == items[k];
      StripKeepsOut(listed[k], '\n');
    }
    HarvestDistinct(fts, []);
  }

  /** At most 30 distinct features come back as they are. */
  lemma FeaturesOfFeatures(items: seq<string>)
    requires |items| <= FeatureCap && Distinct(items)
    requires forall k :: 0 <= k < |items| ==> IsFeature(items[k])
    ensures Features(items) == items
  {
    StripAllOfStripped(items);
    assert [] + items == items;
    HarvestKeepsAll(items, []);
  }

  /** The duplicate test looks at the item before its line breaks are
      replaced, so an item that differs from a kept feature only by a line
      break is kept a second time. */
  lemma NewlineDuplicate()
    ensures Features(["Unlimited projects", "Unlimited\nprojects"]) == ["Unlimited projects", "Unlimited projects"]
  {
    var a := "Unlimited projects";
    var b := "Unlimited\nprojects";
    FeaturesOfTwo(a, b);
    NewlineDuplicateSteps();
  }

  lemma FeaturesOfTwo(a: string, b: string)
    requires IsStripped(a) && IsStripped(b)
    ensures Features([a, b]) == Next(b, Next(a, []))
  {
    var items := [a, b];
    assert Take(items, FeatureCap) == items;
    StripAllOfStripped(items);
    assert Features(items) == Harvest(items, []);
    assert items[1..] == [b] && [b][1..] == [];
    var n := Next(a, []);
    assert Harvest(items, []) == Harvest([b], n);
    assert Harvest([b], n) == Harvest([], Next(b, n));
  }

  lemma NewlineDuplicateSteps()
    ensures Next("Unlimited projects", []) == ["Unlimited projects"]
    ensures Next("Unlimited\nprojects", ["Unlimited projects"]) == ["Unlimited projects", "Unlimited projects"]
  {
    var a := "Unlimited projects";
    var b := "Unlimited\nprojects";
    SpaceSpelling();
    NextFresh(a);
    NewlineSpelling();
    NextFlattensToKept(b, a);
  }

  lemma SpaceSpelling()
    ensures IsFeature("Unlimited projects")
  {
    var a := "Unlimited projects";
    assert forall k :: 0 <= k < |a| ==> a[k] != '\n';
  }

  lemma NewlineSpelling()
    ensures IsStripped("Unlimited\nprojects") && |"Unlimited\nprojects"| == 18
    ensures "Unlimited\nprojects" != "Unlimited projects"
    ensures Flatten("Unlimited\nprojects") == "Unlimited projects"
  {
    var a := "Unlimited projects";
    var b := "Unlimited\nprojects";
    assert b[9] != a[9];
    FlattenStripped(b);
    assert Replace(b, '\n', ' ') == a;
  }

  /** A feature seen for the first time is kept as it is. */
  lemma NextFresh(a: string)
    requires IsFeature(a)
    ensures Next(a, []) == [a]
  {
    FlattenFeature(a);
    SnocOfSame([], Flatten(a), a);
  }

  lemma SnocOfSame<T>(xs: seq<T>, x: T, y: T)
    requires x == y
    ensures xs + [x] == xs + [y]
  {
  }

  /** An item that differs from the one feature kept, but cleans to it, is
      kept a second time. */
  lemma NextFlattensToKept(b: string, a: string)
    requires IsStripped(b) && 5 <= |b| <= 250 && b != a && Flatten(b) == a
    ensures Next(b, [a]) == [a, a]
  {
  }

  // ------------------------------------------------------------------- records

  /** The pricing card chosen for `tier`: the best-scoring ancestor of its
      heading, or None when the query fails, there is no heading, the climb
      is abandoned or no ancestor is eligible. A card exists only for a tier
      label the query accepts and that has a heading, and it is a read
      ancestor of 50 to 5000 characters. */
  function Container(page: Page, tier: string, tiers: seq<string>): (r: Option<Level>)
    ensures r.Some? ==> QueryValid(tier) && HeadingOf(page, tier).Some?
    ensures r.Some? ==> r.value.Node? && 50 <= |r.value.text| <= 5000
  {
    if !QueryValid(tier) then None
    else match HeadingOf(page, tier)
      case None => None
      case Some(h) =>
        var outcome := Ascend(page[h].ancestors, tier, tiers);
        if outcome.Aborted? || outcome.best.None? then None
        else Some(page[h].ancestors[outcome.best.value])
  }

  /** The record emitted for `tier`, if any: the tier label, the price read
      from the card's text, and its features. */
  function Card(page: Page, tier: string, tiers: seq<string>): Option<Record> {
    var c := Container(page, tier, tiers);
    if c.None? then None
    else Some(Record(tier, ExtractPrice(c.value.text, tier), FeaturesField(Features(c.value.items))))
  }

  /** A record is emitted exactly when a card is found; it carries the tier
      label and a price label, and its Features cell reads "N/A" exactly when
      no list item of the card passed the filters. */
  lemma CardProps(page: Page, tier: string, tiers: seq<string>)
    ensures var r := Card(page, tier, tiers);
      && (r.Some? <==> Container(page, tier, tiers).Some?)
      && (r.Some? ==> && r.value.tier == tier && IsPriceLabel(r.value.price)
                      && (r.value.features == "N/A" <==> Features(Container(page, tier, tiers).value.items) == []))
  {
    var c := Container(page, tier, tiers);
    if c.Some? {
      FeaturesFieldNA(Features(c.value.items));
    }
  }

  /** What each tier label yields, in the order of the labels. */
  function Outcomes(page: Page, tiers: seq<string>): (r: seq<Option<Record>>)
    ensures |r| == |tiers|
  {
    seq(|tiers|, i requires 0 <= i < |tiers| => Card(page, tiers[i], tiers))
  }

  /** The records of the whole page, one per tier label that yields a card. */
  function Cards(page: Page, tiers: seq<string>): seq<Record> {
    Collect(Outcomes(page, tiers))
  }

  /** The body of the loop of lines 118-232, for one tier label. */
  method ScrapeTier(page: Page, tier: string, tiers: seq<string>) returns (record: Option<Record>)
    ensures record == Card(page, tier, tiers)
  {
    if '\'' in tier {
      return None;
    }
    var heading := LocateHeading(page, tier);
    if heading.None? {
      return None;
    }
    var chain := page[heading.value].ancestors;
    var outcome := ScoreContainer(chain, tier, tiers);
    if outcome.Aborted? || outcome.best.None? {
      return None;
    }
    var container := chain[outcome.best.value];
    assert Container(page, tier, tiers) == Some(container);
    var price := ExtractPrice(container.text, tier);
    var features := HarvestFeatures(container.items);
    record := Some(Record(tier, price, if features == [] then "N/A" else Join(features, " | ")));
  }

  /** The loop of lines 118-232 over the tier labels. */
  method ScrapePricing(page: Page, tiers: seq<string>) returns (data: seq<Record>)
    ensures data == Cards(page, tiers)
  {
    ghost var outcomes := Outcomes(page, tiers);
    data := [];
    for i := 0 to |tiers|
      invariant data == Collect(outcomes[..i])
    {
      var record := ScrapeTier(page, tiers[i], tiers);
      assert outcomes[..i + 1][..i] == outcomes[..i];
      if record.Some? {
        data := data + [record.value];
      }
    }
    assert outcomes[..|tiers|] == outcomes;
  }

  /** At most one record per tier label, in the order of the labels, each
      with a price label. */
  lemma CardsShape(page: Page, tiers: seq<string>)
    ensures |Cards(page, tiers)| <= |tiers|
    ensures Subseq(TierColumn(Cards(page, tiers)), tiers)
    ensures forall k :: 0 <= k < |Cards(page, tiers)| ==> IsPriceLabel(Cards(page, tiers)[k].price)
  {
    var outcomes := Outcomes(page, tiers);
    forall i | 0 <= i < |outcomes| && outcomes[i].Some?
      ensures outcomes[i].value.tier == tiers[i] && IsPriceLabel(outcomes[i].value.price)
    {
      CardProps(page, tiers[i], tiers);
    }
    CollectShape(outcomes, tiers);
    forall k | 0 <= k < |Cards(page, tiers)|
      ensures IsPriceLabel(Cards(page, tiers)[k].price)
    {
      var i :| 0 <= i < |outcomes| && outcomes[i] == Some(Cards(page, tiers)[k]);
    }
  }
}
