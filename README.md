# SaaS pricing extraction, modelled in Dafny

This project models the pricing-card extraction at the heart of the
saas-pricing-analytics repository. It also models the two cleaning steps
that read the scraped cells back. The parts are:

- **The universal scraper** (`src/extract/scraping/scraper.py`), module
  `PricingScraper`:
  - the price recogniser `extract_price`;
  - the tier table `get_tier_names`;
  - per tier label, the card extraction of `scrape_pricing`: the heading
    filter, the scored climb over at most ten ancestors, the feature filter
    and the record written for the tier.
- **The Notion scraper** (`src/scraping/scraper.py`), module
  `NotionScraper`. This second strategy has:
  - an exact-text heading;
  - candidates gathered over eight ancestors;
  - a first-fit selection with a smallest-list fallback;
  - its own price chain and its own feature filter.
- **The ETL cleaning step** (`src/etl/etl_pipeline.py`), module `Etl`:
  - `normalize_price`, `assign_tier_level` and `extract_feature_categories`;
  - the Feature_Count and Pricing_Model columns.
- **The transform step** (`src/transform/transform_pricing.py`), module
  `Transform`: `standardize_price` and `clean_features`.
- **Shared text operations.** `Text` holds ASCII lower-casing, `strip`,
  `in`, `split` and `join`. `Amounts` holds the regular-expression scanners
  for `\$\d+(\.\d{2})?`, `\$?(\d+(\.\d{2})?)` and the billing-number
  pattern.
- **The page abstraction** (`Dom`). A page is its elements in document
  order. Each element has its own text children, its rendered text, its
  tag, and the chain of its ancestors. Each ancestor is either read (its
  text and the texts of its `li` descendants) or unreadable.
- **`Pipeline`**, which connects the steps. The price labels both scrapers
  write are read back by both price readers. The Features cells they write
  are counted by Feature_Count and cleaned by `clean_features`.

Loops in the source are methods with loop invariants, proved equal to a
specification function:

| loop | method | specification function |
|---|---|---|
| heading search | `LocateHeading` | `HeadingOf` |
| ancestor climb | `ScoreContainer` | `Ascend` |
| ancestor climb (Notion) | `GatherCandidates` | `Gather` |
| container selection | `PickContainer` | `Pick` |
| feature loop | `HarvestFeatures` | `Features` |
| feature loop (Notion) | `TakeFeatures` | `NotionFeatures` |
| tier loop | `ScrapePricing` | `Cards` |
| tier loop (Notion) | `ScrapeNotion` | `Cards` |
| dedup loop | `KeepFirst` / `CleanFeatures` | `Dedup` / `CleanedText` |

The properties the source promises are proved about those functions.

How values are represented:

- A price is `Option<nat>`, a number of cents. `None` stands for NaN or
  Python's `None`.
- A table cell is `Option<string>`, with `None` standing for a missing
  value.
- The container score is multiplied by 200, so that `text_len / 200`
  stays an integer. The model compares exact scores. The program compares
  rounded doubles, which can break an exact tie (see `PricingScraper.Best`
  under "## Left out").

Where the prose description of the system and the code disagree, the model
follows the code:

- **The climb stops past the root.** The parent of the root element is
  null. Asking the driver for the parent of null happens outside the
  per-level `try`, so the whole tier is abandoned. The model therefore
  yields no container when the heading has fewer than 9 ancestors (10
  levels) or fewer than 7 ancestors (Notion, 8 levels). It does not merely
  skip the unreadable level. See `PricingScraper.Ascend` and
  `NotionScraper.Gather`.
- **A wrapping container can be chosen.** The initial best score is -999,
  which lets almost any ancestor of 50 to 5000 characters win. So a
  container that wraps every tier's card always clears the initial score,
  and is chosen whenever no other level within reach scores higher; the
  code does not reject it. See `PricingScraper.WrappingContainerChosen`
  and `PricingScraper.WrapperChosenAlone`.
- **The minimum feature length differs.** The universal scraper keeps a
  feature of exactly 5 characters (it rejects only those shorter than 5).
  The Notion scraper keeps only those longer than 5.
- **The duplicate test runs before line breaks are replaced.** In the
  universal scraper, an item that differs from a kept feature only by a
  line break is therefore kept twice. See `PricingScraper.NewlineDuplicate`.
- **The two price readers differ.** `normalize_price` (ETL) treats only
  "contact" as "no price" and only the exact word "free" as 0.
  `standardize_price` (transform) also rejects "custom" and "enterprise",
  and gives 0 for any text that mentions "free". On every label the
  scrapers write, the two agree (`Pipeline.LabelRead`). On a cell such as
  "free forever" they do not (`Pipeline.FreeForeverDisagrees`).
- **`assign_tier_level` puts "Professional" at level 2.** The "pro" test
  of the middle bucket comes first (`Etl.ProfessionalIsMiddle`).
- **`clean_features` is not idempotent on "N/A".** A cell that cleans to
  "N/A" cleans to "" the next time (`Transform.NotIdempotentOnNA`).

## Model

| member | source | states |
|---|---|---|
| PricingScraper.ExtractPrice | src/extract/scraping/scraper.py:34-64 | the first-match-wins chain: a contact phrase gives "Contact sales" whatever else the text holds; "Free" exactly when no contact phrase and a free rule applies; a dollar label exactly when neither applies and a dollar or billing number matches, copied from the dollar match first; "N/A" exactly when nothing matches and the tier is not "enterprise" |
| PricingScraper.DollarMatch | src/extract/scraping/scraper.py:51-53 | the match is a `$` and an amount, found at the leftmost `$` followed by a digit and copied from the text; no longer amount starts at that digit, so the cents are taken whenever they are written |
| PricingScraper.BillingMatch | src/extract/scraping/scraper.py:56-58 | the result is `$` and the digits of the leftmost number that a billing period follows, taken from the text; the character after them is not a digit, so the whole run is taken; none when no such number exists |
| PricingScraper.NoContactPhrase | src/extract/scraping/scraper.py:42-43 | text without c, g and k holds none of the five contact phrases |
| PricingScraper.NeitherContactNorFree | src/extract/scraping/scraper.py:41-48 | for text without c, f, g and k in either case and a tier other than "free", neither the contact rule nor a free rule fires |
| PricingScraper.NoDollarMatch | src/extract/scraping/scraper.py:51-52 | text without `$` has no dollar match |
| PricingScraper.DollarExampleFacts | src/extract/scraping/scraper.py:51 | the dollar pattern finds "$17.50" in "Starts at $17.50/month" |
| PricingScraper.DollarExample | src/extract/scraping/scraper.py:50-53 | "Starts at $17.50/month" is priced "$17.50", its cents kept |
| PricingScraper.BillingExampleMatch | src/extract/scraping/scraper.py:56-58 | the billing pattern turns "49 per month" into "$49" |
| PricingScraper.BillingExample | src/extract/scraping/scraper.py:55-58 | "49 per month" is priced "$49" for any tier other than "free" |
| PricingScraper.BillingCentsExampleMatch | src/extract/scraping/scraper.py:56-58 | the billing pattern turns "17.50/month" into "$17" |
| PricingScraper.BillingCentsExample | src/extract/scraping/scraper.py:55-58 | a bare number loses its cents: "17.50/month" is priced "$17" |
| PricingScraper.GetTierNames | src/extract/scraping/scraper.py:66-84 | the result is four or five distinct labels ending with "Enterprise", and the default list for a company not in the table |
| PricingScraper.TierTableWellFormed | src/extract/scraping/scraper.py:71-84 | every list in the table, and the default list, is four or five distinct labels ending with "Enterprise" |
| PricingScraper.TierLookupIgnoresCase | src/extract/scraping/scraper.py:84 | the company name is looked up without regard to case |
| PricingScraper.FigmaTiers | src/extract/scraping/scraper.py:78-84 | "Figma" gets Starter, Professional, Organization, Enterprise |
| PricingScraper.TierLabelsQueryValid | src/extract/scraping/scraper.py:66-84 | no label `get_tier_names` returns holds a quote, so the tier query built from it is well formed |
| PricingScraper.TableLabelsQueryValid | src/extract/scraping/scraper.py:71-82 | no label of the tier table holds a quote |
| PricingScraper.IsTierHeading | src/extract/scraping/scraper.py:122-134 | (definition) an element the query selects, with stripped text under 50 characters that names the tier in any case, and an `h1`-`h6`, `span` or `div` tag |
| PricingScraper.HeadingOf | src/extract/scraping/scraper.py:127-136 | the heading is the first element in document order that the query selects, whose stripped text is under 50 characters and names the tier in any case, and whose tag is heading-like; none when no element passes |
| PricingScraper.FirstHeading | src/extract/scraping/scraper.py:129-136 | the first element that passes the filter is the heading |
| PricingScraper.NoHeading | src/extract/scraping/scraper.py:138-140 | when no element passes the filter there is no heading |
| PricingScraper.LocateHeading | src/extract/scraping/scraper.py:128-136 | the loop returns the first accepted heading, as `HeadingOf` specifies |
| PricingScraper.OtherMentions | src/extract/scraping/scraper.py:162-163 | the count of other-tier mentions is at most the number of labels, and zero exactly when no label other than the tier (compared without case) occurs in the text (compared with case) |
| PricingScraper.HasPriceIndicator | src/extract/scraping/scraper.py:166 | (definition) the text holds a `$`, or "free" or "contact" in any case |
| PricingScraper.ScoreOf | src/extract/scraping/scraper.py:172-178 | (definition) the score times 200: +50 for a price indicator, -40 per other tier mentioned, +30 for 3 to 30 list items, minus the text length over 200; its effect is stated by `MentionPenalty` and `BestIsArgmax` |
| PricingScraper.Eligible | src/extract/scraping/scraper.py:153-180 | (definition) a level that was read, has 50 to 5000 characters and beats the initial score |
| PricingScraper.Best | src/extract/scraping/scraper.py:153-185 | the chosen level is below the bound, was read, has 50 to 5000 characters and beats the initial score |
| PricingScraper.BestIsArgmax | src/extract/scraping/scraper.py:180-182 | the chosen level scores at least as high as every eligible level, strictly higher than every shallower one, and there is none exactly when no level is eligible |
| PricingScraper.Ascend | src/extract/scraping/scraper.py:146-189 | a chosen container lies within ten levels, was read, and has 50 to 5000 characters |
| PricingScraper.ScoreContainer | src/extract/scraping/scraper.py:146-189 | the climb with its running best and best score returns what `Ascend` specifies |
| PricingScraper.ScoreStep | src/extract/scraping/scraper.py:153-185 | one level replaces the best so far exactly when it is read, within the length band, and scores strictly higher |
| PricingScraper.MentionPenalty | src/extract/scraping/scraper.py:172-178 | with the other signals fixed, one more other-tier mention always lowers the score |
| PricingScraper.WrappingContainerChosen | src/extract/scraping/scraper.py:148-185 | with at most 24 tier labels, any readable ancestor of 50 to 5000 characters within reach makes the climb choose a container, so a wrapping container is never rejected |
| PricingScraper.WrapperChosenAlone | src/extract/scraping/scraper.py:146-185 | a wrapping container that is the only level within reach of 50 to 5000 characters is the chosen card, however many other tiers it names |
| PricingScraper.NextProps | src/extract/scraping/scraper.py:205-216 | one item adds at most one feature, at the end, cleaned of line breaks and of 5 to 250 characters |
| PricingScraper.Keeps | src/extract/scraping/scraper.py:205-212 | (definition) the quality filters: not empty, 5 to 250 characters, not already kept |
| PricingScraper.Next | src/extract/scraping/scraper.py:202-216 | (definition) one item of the feature loop; its properties are `NextProps`, `NextFresh` and `NextFlattensToKept` |
| PricingScraper.Harvest | src/extract/scraping/scraper.py:201-216 | (definition) the feature loop over the items; its properties are the `Harvest*` lemmas |
| PricingScraper.Features | src/extract/scraping/scraper.py:197-216 | at most 30 features, each of 5 to 250 characters, stripped and on one line |
| PricingScraper.HarvestFeatures | src/extract/scraping/scraper.py:197-216 | the feature loop returns what `Features` specifies |
| PricingScraper.FlattenStripped | src/extract/scraping/scraper.py:215 | cleaning a stripped item only turns its line breaks into spaces, keeping its length |
| PricingScraper.FlattenFeature | src/extract/scraping/scraper.py:215 | a feature is left unchanged by the clean-up |
| PricingScraper.HarvestBounds | src/extract/scraping/scraper.py:201-216 | the features kept before are kept as a prefix, and each new one is a feature |
| PricingScraper.HarvestOrder | src/extract/scraping/scraper.py:201-216 | the new features are a subsequence of the cleaned items, in item order |
| PricingScraper.HarvestComplete | src/extract/scraping/scraper.py:201-216 | every item of 5 to 250 characters ends up among the features, cleaned |
| PricingScraper.HarvestDistinct | src/extract/scraping/scraper.py:211-216 | items without line breaks yield no feature twice |
| PricingScraper.HarvestKeepsAll | src/extract/scraping/scraper.py:201-216 | items that are already distinct features pass through unchanged |
| PricingScraper.FeaturesOrdered | src/extract/scraping/scraper.py:201-216 | the features come in item order, at most one per item among the first 30 |
| PricingScraper.FeaturesComplete | src/extract/scraping/scraper.py:201-216 | every one of the first 30 items whose stripped text has 5 to 250 characters contributes its cleaned text |
| PricingScraper.FeaturesDistinct | src/extract/scraping/scraper.py:211-216 | items without line breaks give no duplicate feature |
| PricingScraper.FeaturesOfFeatures | src/extract/scraping/scraper.py:201-216 | up to 30 distinct features come back unchanged |
| PricingScraper.FeaturesOfTwo | src/extract/scraping/scraper.py:201-216 | two stripped items are filtered one after the other |
| PricingScraper.NewlineDuplicate | src/extract/scraping/scraper.py:211-215 | "Unlimited projects" and "Unlimited\nprojects" give the same feature twice, because the duplicate test runs before the clean-up |
| PricingScraper.NewlineDuplicateSteps | src/extract/scraping/scraper.py:211-216 | the first item is kept; the second passes the duplicate test and is kept again once cleaned |
| PricingScraper.NextFresh | src/extract/scraping/scraper.py:205-216 | a feature seen for the first time is kept as it is |
| PricingScraper.NextFlattensToKept | src/extract/scraping/scraper.py:211-216 | an item different from the one kept feature, but cleaning to it, is kept a second time |
| PricingScraper.Container | src/extract/scraping/scraper.py:120-189 | a card exists only for a tier label the query accepts and that has a heading; it was read and has 50 to 5000 characters |
| PricingScraper.Card | src/extract/scraping/scraper.py:187-228 | (definition) the record for a tier, or none; its properties are `CardProps` |
| PricingScraper.Cards | src/extract/scraping/scraper.py:118-232 | (definition) the records of all tier labels, in order; its properties are `CardsShape` |
| PricingScraper.CardProps | src/extract/scraping/scraper.py:191-228 | a record is emitted exactly when a card is found; it carries the tier label and a price label, and its Features cell reads "N/A" exactly when no item passed the filters |
| PricingScraper.Outcomes | src/extract/scraping/scraper.py:118-232 | (definition) one outcome per tier label, each that label's `Card`; its properties are `CardsShape` |
| PricingScraper.ScrapeTier | src/extract/scraping/scraper.py:119-232 | the body of the tier loop yields the record `Card` specifies |
| PricingScraper.ScrapePricing | src/extract/scraping/scraper.py:116-234 | the tier loop returns the records `Cards` specifies |
| PricingScraper.CardsShape | src/extract/scraping/scraper.py:116-234 | at most one record per tier label, in label order, each with a price label |
| NotionScraper.HeadingOf | src/scraping/scraper.py:49-55 | the heading is the first element with an exact text child equal to the tier and stripped text under 30 characters; none when no element qualifies |
| NotionScraper.FirstHeading | src/scraping/scraper.py:51-55 | the first element that qualifies is the heading |
| NotionScraper.NoHeading | src/scraping/scraper.py:57-59 | with no qualifying element there is no heading |
| NotionScraper.LocateHeading | src/scraping/scraper.py:51-55 | the loop returns what `HeadingOf` specifies |
| NotionScraper.OtherCount | src/scraping/scraper.py:78-79 | at most the number of labels, and zero exactly when no other label occurs in the text (both compared with case) |
| NotionScraper.Gather | src/scraping/scraper.py:64-88 | (definition) the candidates of the eight-level climb, or abandoned when the climb passes the root; its properties are `CandidatesShape` |
| NotionScraper.CandidatesShape | src/scraping/scraper.py:67-88 | the candidates are exactly the read levels with an `li`, each once, in ascent order |
| NotionScraper.CandidatesNext | src/scraping/scraper.py:68-86 | each level appends itself as a candidate exactly when it was read and has an `li` |
| NotionScraper.GatherCandidates | src/scraping/scraper.py:64-88 | the climb returns what `Gather` specifies |
| NotionScraper.FirstFit | src/scraping/scraper.py:91-95 | the first candidate with 5 to 35 items and no other tier label, and none when no candidate fits |
| NotionScraper.Smallest | src/scraping/scraper.py:98-99 | an index below the bound, and none only for an empty list |
| NotionScraper.SmallestIsMin | src/scraping/scraper.py:99 | the choice has the fewest items, and strictly fewer than every candidate before it |
| NotionScraper.PickSpec | src/scraping/scraper.py:90-103 | the first fitting candidate wins; failing that, the first with the fewest items; none exactly when there is no candidate |
| NotionScraper.Pick | src/scraping/scraper.py:90-99 | (definition) the first fitting candidate, else the smallest; its properties are `PickSpec` |
| NotionScraper.PickContainer | src/scraping/scraper.py:90-99 | the two selection loops return what `Pick` specifies |
| NotionScraper.DollarMatch | src/scraping/scraper.py:113-115 | the match is `$` and whole dollars, at the leftmost `$` followed by a digit, copied from the text; the character after it is not a digit, so `\d+` takes the whole run |
| NotionScraper.NotionPrice | src/scraping/scraper.py:108-121 | the price is one of four forms; a contact phrase wins; a dollar match is copied exactly when no contact phrase is present; "Free" and "N/A" each exactly under their conditions |
| NotionScraper.KeepNew | src/scraping/scraper.py:129-132 | (definition) the feature loop over stripped items: keep an item longer than five characters not kept yet; its properties are the `KeepNew*` lemmas |
| NotionScraper.NotionFeatures | src/scraping/scraper.py:126-134 | (definition) the feature loop over the first 20 items; its properties are the `NotionFeatures*` lemmas |
| NotionScraper.TakeFeatures | src/scraping/scraper.py:126-134 | the feature loop returns what `NotionFeatures` specifies |
| NotionScraper.KeepNewBounds | src/scraping/scraper.py:128-132 | the features kept before stay a prefix, and each new one is an item longer than five characters |
| NotionScraper.KeepNewDistinct | src/scraping/scraper.py:131-132 | no feature is kept twice |
| NotionScraper.KeepNewGrows | src/scraping/scraper.py:131-132 | keeping more never drops what was kept |
| NotionScraper.KeepNewOrder | src/scraping/scraper.py:128-132 | the new features are a subsequence of the items |
| NotionScraper.KeepNewComplete | src/scraping/scraper.py:128-132 | every item longer than five characters is among the features |
| NotionScraper.NotionFeaturesBounds | src/scraping/scraper.py:128-132 | at most 20 features, each stripped and longer than five characters |
| NotionScraper.NotionFeaturesDistinct | src/scraping/scraper.py:131 | no feature twice |
| NotionScraper.NotionFeaturesOrdered | src/scraping/scraper.py:129-132 | the features come in the order of the stripped items |
| NotionScraper.NotionFeaturesComplete | src/scraping/scraper.py:129-132 | every one of the first 20 items longer than five characters once stripped is a feature |
| NotionScraper.ItemKept | src/scraping/scraper.py:129-132 | one such item is a feature |
| NotionScraper.Container | src/scraping/scraper.py:48-105 | (definition) the card chosen for a tier, or none when the query fails, no heading is found, the climb is abandoned or there is no candidate |
| NotionScraper.Card | src/scraping/scraper.py:105-142 | (definition) the record for a tier, or none; its properties are `CardProps` |
| NotionScraper.Cards | src/scraping/scraper.py:40-146 | (definition) the records of the four Notion tiers, in order; its properties are `CardsShape` |
| NotionScraper.CardProps | src/scraping/scraper.py:105-142 | a record exists exactly when a card is found; it carries the tier label and one of the four price forms, and "N/A" as Features exactly when no item survived |
| NotionScraper.Outcomes | src/scraping/scraper.py:45-146 | (definition) one outcome per Notion tier, each that tier's `Card`; its properties are `CardsShape` |
| NotionScraper.ScrapeTier | src/scraping/scraper.py:46-146 | the body of the tier loop yields the record `Card` specifies |
| NotionScraper.ScrapeNotion | src/scraping/scraper.py:40-146 | the loop over the four labels returns what `Cards` specifies |
| NotionScraper.CardsShape | src/scraping/scraper.py:40-146 | at most four records, in label order, each with one of the four price forms |
| NotionScraper.NotionTiersQueryValid | src/scraping/scraper.py:41-49 | no Notion tier label holds a quote, so every tier query is well formed |
| Etl.NormalizePrice | src/etl/etl_pipeline.py:67-94 | a missing cell has no price |
| Etl.NormalizePriceSpec | src/etl/etl_pipeline.py:79-94 | "free" (stripped, any case) is 0; the price is missing exactly when the cell mentions "contact" or has no digit; otherwise it is the first amount |
| Etl.FreeIsZero | src/etl/etl_pipeline.py:79-83 | "free" in any case with any whitespace around it is 0 |
| Etl.TierLevel | src/etl/etl_pipeline.py:96-115 | the level is between 1 and 4 |
| Etl.TierLevelSpec | src/etl/etl_pipeline.py:104-115 | level 1, 3 and 4 each exactly when their keyword is present and no keyword of an earlier bucket is; the level ignores case |
| Etl.ScrapedTierLevels | src/etl/etl_pipeline.py:104-113 | Free, Plus, Business and Enterprise get levels 1, 2, 3 and 4 |
| Etl.FreeLevel | src/etl/etl_pipeline.py:106-107 | "Free" is level 1 |
| Etl.PlusLevel | src/etl/etl_pipeline.py:108-109 | "Plus" is level 2 |
| Etl.BusinessLevel | src/etl/etl_pipeline.py:110-111 | "Business" is level 3 |
| Etl.EnterpriseLevel | src/etl/etl_pipeline.py:112-113 | "Enterprise" is level 4 |
| Etl.ProfessionalIsMiddle | src/etl/etl_pipeline.py:108-111 | "Professional" is level 2, because the "pro" test comes first |
| Etl.FeatureCategories | src/etl/etl_pipeline.py:117-141 | a missing cell and the literal "N/A" have no flag |
| Etl.CategoriesOf | src/etl/etl_pipeline.py:132-141 | (definition) the six flags of lower-cased text: `\bai\b` or the two AI phrases, the SSO words, `\bapi\b` or "enterprise api", and the automation, analytics and integration stems; their properties are the lemmas below |
| Etl.CategoriesIgnoreCase | src/etl/etl_pipeline.py:132-141 | the flags do not depend on case |
| Etl.NoKeywordInNA | src/etl/etl_pipeline.py:122-130 | "n/a" mentions no keyword, so the "N/A" rule agrees with the flags of its text |
| Etl.EmailIsNotAi | src/etl/etl_pipeline.py:135 | "Email support" contains "ai" but is not flagged as AI, because `\bai\b` needs word boundaries |
| Etl.AnyCombination | src/etl/etl_pipeline.py:132-141 | the six flags are independent: every combination of them is the result for some feature text |
| Etl.WitnessFlags | src/etl/etl_pipeline.py:132-141 | the text made of one keyword per raised flag of a combination ("ai", "api", "sso", "workflow", "dashboard", "sync") gets exactly that combination |
| Etl.WitnessAi | src/etl/etl_pipeline.py:135 | the AI flag is raised exactly when "ai" is among the keywords; "api" holds its letters but not as the word "ai" |
| Etl.WitnessSso | src/etl/etl_pipeline.py:136 | the SSO flag is raised exactly when "sso" is among the keywords |
| Etl.WitnessApi | src/etl/etl_pipeline.py:137 | the API flag is raised exactly when "api" is among the keywords, as a word between spaces |
| Etl.WitnessAutomation | src/etl/etl_pipeline.py:138 | the automation flag is raised exactly when "workflow" is among the keywords |
| Etl.WitnessAnalytics | src/etl/etl_pipeline.py:139 | the analytics flag is raised exactly when "dashboard" is among the keywords |
| Etl.WitnessIntegrations | src/etl/etl_pipeline.py:140 | the integrations flag is raised exactly when "sync" is among the keywords |
| Etl.FeatureCount | src/etl/etl_pipeline.py:171-173 | the count is zero exactly for a missing cell or "N/A", and otherwise one more than the number of '|' |
| Etl.PricingModelOf | src/etl/etl_pipeline.py:177-179 | (definition) Free for a price of 0, Custom for no price, Listed otherwise; its properties are `PricingModelSpec` and `Pipeline.ExtractedPriceRead` |
| Etl.PricingModelSpec | src/etl/etl_pipeline.py:177-179 | Custom exactly when there is no price; Free exactly when the cell reads "free" or its first amount is 0 without "contact"; Listed only for a positive price |
| Transform.StandardizePrice | src/transform/transform_pricing.py:10-38 | a missing cell has no price |
| Transform.StandardizePriceSpec | src/transform/transform_pricing.py:23-38 | an ask word means no price, before anything else; "free" anywhere then gives 0; the price is missing exactly when an ask word is present or, without "free", there is no digit |
| Transform.DollarZeroRuleRedundant | src/transform/transform_pricing.py:30-36 | the "$0" rule changes nothing, since the first number of "$0" is 0 |
| Transform.PieceAt | src/transform/transform_pricing.py:51 | each piece is a stripped stretch between separators, without '|' |
| Transform.Pieces | src/transform/transform_pricing.py:51 | (definition) the cell split on the bar character, each piece stripped; its properties are `PieceAt` |
| Transform.CleanFeatures | src/transform/transform_pricing.py:40-61 | `clean_features` returns what `CleanedText` specifies |
| Transform.CleanedText | src/transform/transform_pricing.py:40-61 | (definition) "" for a missing cell or "N/A", otherwise the deduplicated pieces joined by a spaced bar; its properties are `CleanedItems`, `CleanJoined` and `CleanIdempotent` |
| Transform.Dedup | src/transform/transform_pricing.py:53-59 | (definition) the non-empty pieces, first occurrences only, in order; its properties are `DedupShape`, `DedupOrder` and `DedupOfDistinct` |
| Transform.KeepFirst | src/transform/transform_pricing.py:53-59 | the `seen`/`cleaned` loop returns what `Dedup` specifies |
| Transform.DedupStep | src/transform/transform_pricing.py:56-59 | one more piece is kept exactly when it is non-empty and not kept yet |
| Transform.DedupShape | src/transform/transform_pricing.py:53-59 | the kept pieces are non-empty and distinct, all from the input, and every non-empty piece is kept |
| Transform.DedupOrder | src/transform/transform_pricing.py:53-59 | the kept pieces come in the order of their first occurrence |
| Transform.DedupOfDistinct | src/transform/transform_pricing.py:53-59 | distinct non-empty pieces are kept as they are |
| Transform.CleanedItems | src/transform/transform_pricing.py:47-61 | the cleaned cell is made of the distinct non-empty stripped pieces of the input, in first-occurrence order, without '|' |
| Transform.PiecesOfJoin | src/transform/transform_pricing.py:51 | splitting items joined by " | " on '|' and stripping gives the items back |
| Transform.CleanJoined | src/transform/transform_pricing.py:40-61 | a cell of distinct stripped items joined by " | " is left unchanged |
| Transform.CleanIdempotent | src/transform/transform_pricing.py:40-61 | cleaning twice is cleaning once, unless the result reads "N/A" |
| Transform.EmptyCleansToEmpty | src/transform/transform_pricing.py:47-61 | the empty cell stays empty |
| Transform.NotIdempotentOnNA | src/transform/transform_pricing.py:47-61 | "N/A |" cleans to "N/A", which cleans to "" |
| Transform.TrailingBarDropped | src/transform/transform_pricing.py:51-61 | a trailing separator is dropped: `x + " |"` cleans to `x` |
| Pipeline.DollarLabelChars | src/extract/scraping/scraper.py:51-53 | a dollar label has no whitespace at its ends and holds only '$', '.' and digits |
| Pipeline.DollarLabelRead | src/etl/etl_pipeline.py:79-94 | both price readers give a dollar label its amount in cents |
| Pipeline.FreeLabelRead | src/etl/etl_pipeline.py:81-83 | both readers give "Free" the price 0 |
| Pipeline.ContactLabelRead | src/etl/etl_pipeline.py:85-87 | neither reader finds a price in "Contact sales" |
| Pipeline.MissingLabelRead | src/etl/etl_pipeline.py:89-94 | neither reader finds a price in "N/A" |
| Pipeline.LabelRead | src/etl/etl_pipeline.py:67-94 | every label the recogniser can write is read by both readers as the cents it stands for |
| Pipeline.ExtractedPriceRead | src/etl/etl_pipeline.py:177-179 | for all texts and tiers, the extracted label is read the same by both readers; its pricing model is Custom exactly for "Contact sales" and "N/A", and Free for "Free" |
| Pipeline.WholeDollarCents | src/scraping/scraper.py:113-115 | a whole-dollar label is a dollar label worth its digits times 100 cents |
| Pipeline.NotionPriceRead | src/etl/etl_pipeline.py:67-94 | for all texts and tiers, the Notion label is read the same by both readers: whole dollars, 0 for "Free", and no price exactly for "Contact sales" and "N/A" |
| Pipeline.NoAskWord | src/transform/transform_pricing.py:26 | a cell without 'c' and 'p' mentions no ask word |
| Pipeline.FreeMentionDisagrees | src/transform/transform_pricing.py:29-31 | a lower-case cell that mentions "free" but is not "free", with no digit, 'c' or 'p', is 0 to `standardize_price` and has no price to `normalize_price` |
| Pipeline.FreeForeverDisagrees | src/etl/etl_pipeline.py:81-94 | "free forever" is 0 to `standardize_price` and has no price to `normalize_price` |
| Pipeline.JoinBars | src/extract/scraping/scraper.py:227 | joining n items without '|' by " | " writes n - 1 bars |
| Pipeline.FeatureCountOfField | src/etl/etl_pipeline.py:171-173 | Feature_Count of a scraped Features cell is the number of features, when none holds '|' |
| Pipeline.NotionFeatureFrom | src/scraping/scraper.py:129-132 | each Notion feature is one of the first 20 items, stripped |
| Pipeline.NotionFeaturesCell | src/transform/transform_pricing.py:40-61 | when no item holds '|', a Notion Features cell is counted right by Feature_Count and left as it is by `clean_features` ("N/A" becomes "") |
| Amounts.AmountMatched | src/etl/etl_pipeline.py:90 | what `\d+(?:\.\d{2})?` matches at a digit is an amount, and no longer amount starts at that digit |
| Amounts.FirstDollar | src/extract/scraping/scraper.py:51 | the leftmost `$` followed by a digit, or none when there is no such place |
| Amounts.FirstAmount | src/etl/etl_pipeline.py:90-94 | no amount exactly when the text has no digit; otherwise the amount starting at the first digit |
| Amounts.FirstBilling | src/extract/scraping/scraper.py:56 | the leftmost number that a billing period follows, or none when there is no such number |
| Amounts.DollarFirstAmount | src/etl/etl_pipeline.py:90-92 | the amount of "$" followed by an amount is that amount |
| Text.StripIsInfix | src/extract/scraping/scraper.py:130 | `strip` removes only whitespace, and only at the ends |
| Text.StripOfStripped | src/transform/transform_pricing.py:51 | `strip` leaves a stripped string unchanged |
| Text.SplitCount | src/etl/etl_pipeline.py:172 | `split` gives one more piece than there are separators |
| Text.SplitPieceOut | src/transform/transform_pricing.py:51 | no piece of `split` holds the separator |
| Dom.FeaturesFieldNA | src/extract/scraping/scraper.py:227 | the Features cell reads "N/A" exactly when no feature was kept |
| Dom.CollectShape | src/extract/scraping/scraper.py:224-228 | the records come one per tier label at most, in label order |

## Left out

- Selenium, the browser and the network. The page is an input value: its
  elements in document order, their own text children, rendered text, tag,
  ancestor chain and `li` descendants. Scrolling, sleeps, screenshots and
  the driver's set-up are not modelled.
- Python exceptions. The per-level `try` is modelled as an unreadable
  ancestor level. The per-tier `try` is modelled as a tier that yields no
  record. A tier label with a single quote is treated as a query that
  fails, and so as a tier with no record. XPath accepts some such labels
  with another meaning (`a' or 'b` selects every element); that is not
  modelled. No label the program passes holds a quote
  (`PricingScraper.TierLabelsQueryValid`, `NotionScraper.NotionTiersQueryValid`). The feature loop's own `try` is not modelled,
  because the model's items are always readable.
- Reading and writing CSV files, `main`, the per-company driver loop, the
  console output, and the pandas column plumbing of `clean_and_normalize`
  and `transform_company_data`. The per-cell functions those apply are
  modelled.
- Floating point. Prices are whole cents and the score is multiplied by
  200, so that the model's comparisons are exact; the program's are not
  (next line).
- PricingScraper.Best: exact ties in the scaled score may be broken by
  float rounding in the program. A level with no price indicator and 52
  characters scores -0.26; a deeper one with a `$`, one other tier and
  2052 characters scores -0.2599999999999998 as a double, so the program
  takes the deeper one, while the model sees two equal scores (-52) and
  keeps the shallower. The tie rule `PricingScraper.BestIsArgmax` proves
  holds for the model only.
- Unicode. Lower-casing, whitespace and `\b` word characters are modelled
  for ASCII only.
- Etl.NormalizePrice: its own contract states only the missing-cell case.
  The full behaviour is stated by `Etl.NormalizePriceSpec`.
- Etl.FeatureCategories: its own contract states the missing cell and the
  literal "N/A". The keyword semantics are `Etl.CategoriesOf` as written;
  case independence (`Etl.CategoriesIgnoreCase`) and the independence of
  the six flags (`Etl.AnyCombination`) are lemmas.
- Transform.StandardizePrice: its own contract states only the missing-cell
  case. The full behaviour is stated by `Transform.StandardizePriceSpec`.
- Etl.TierLevel: its own contract states only the range 1 to 4. The bucket
  rules are `Etl.TierLevelSpec`.
- Etl.EmailIsNotAi: states one input only. The general flag rules are
  `Etl.CategoriesOf` as written, and the lemmas about case and "N/A".
