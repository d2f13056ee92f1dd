/** The Notion scraper of src/scraping/scraper.py, a second card-extraction
    strategy: an exact-text heading, candidates collected over eight ancestor
    levels, a first-fit selection with a smallest-list fallback, its own price
    chain and its own feature filter. */
module NotionScraper {
  import opened Text
  import opened Amounts
  import opened Dom

  /** The tier labels looked up on the page, in order (line 41). */
  const NotionTiers: seq<string> := ["Free", "Plus", "Business", "Enterprise"]

  /** No Notion tier label holds a quote, so every tier query parses. */
  lemma NotionTiersQueryValid()
    ensures forall k :: 0 <= k < |NotionTiers| ==> QueryValid(NotionTiers[k])
  {
  }

  // ------------------------------------------------------------------- heading

  /** Selected by the XPath query for an exact text child `tier`, with
      rendered text shorter than 30 characters once stripped. */
  predicate IsHeading(e: Element, tier: string) {
    TextIs(e, tier) && |Strip(e.text)| < 30
  }

  /** The first element in document order that is accepted as the heading. */
  function HeadingOf(page: Page, tier: string): (r: Option<nat>)
    ensures r.Some? ==> r.value < |page| && IsHeading(page[r.value], tier)
    ensures r.Some? ==> forall k :: 0 <= k < r.value ==> !IsHeading(page[k], tier)
    ensures r.None? ==> forall k :: 0 <= k < |page| ==> !IsHeading(page[k], tier)
  {
    var p := (k: nat) => k < |page| && IsHeading(page[k], tier);
    assert forall k: nat :: p(k) == (k < |page| && IsHeading(page[k], tier));
    Find(|page|, 0, p)
  }

  lemma FirstHeading(page: Page, tier: string, i: nat)
    requires i < |page| && IsHeading(page[i], tier)
    requires forall k :: 0 <= k < i ==> !IsHeading(page[k], tier)
    ensures HeadingOf(page, tier) == Some(i)
  {
  }

  lemma NotHeadingYet(page: Page, tier: string, i: nat)
    requires i < |page| && forall k :: 0 <= k < i ==> !IsHeading(page[k], tier)
    requires !(TextIs(page[i], tier) && |Strip(page[i].text)| < 30)
    ensures forall k :: 0 <= k < i + 1 ==> !IsHeading(page[k], tier)
  {
  }

  lemma NoHeading(page: Page, tier: string)
    requires forall k :: 0 <= k < |page| ==> !IsHeading(page[k], tier)
    ensures HeadingOf(page, tier) == None
  {
  }

  /** The loop of lines 51-55 that stops at the first short element. */
  method LocateHeading(page: Page, tier: string) returns (heading: Option<nat>)
    ensures heading == HeadingOf(page, tier)
  {
    var i := 0;
    while i < |page|
      invariant 0 <= i <= |page|
      invariant forall k :: 0 <= k < i ==> !IsHeading(page[k], tier)
    {
      if TextIs(page[i], tier) && |Strip(page[i].text)| < 30 {
        FirstHeading(page, tier, i);
        return Some(i);
      }
      NotHeadingYet(page, tier, i);
      i := i + 1;
    }
    NoHeading(page, tier);
    return None;
  }

  // ---------------------------------------------------------------- candidates

  /** The number of ancestor levels the scraper climbs. */
  const Depth := 8

  /** An ancestor with list items: its level above the heading, its rendered
      text, the texts of its `li` descendants and how many other tier labels
      its text contains. */
  datatype Candidate = Candidate(level: nat, text: string, items: seq<string>, others: nat)

  /** How many labels of `tiers` other than `tier` occur in `text`, both
      compared with case. */
  function OtherCount(text: string, tier: string, tiers: seq<string>): (r: nat)
    ensures r <= |tiers|
    ensures r == 0 <==> forall k :: 0 <= k < |tiers| ==> tiers[k] == tier || !Contains(text, tiers[k])
    decreases |tiers|
  {
    if tiers == [] then 0
    else
      var rest := OtherCount(text, tier, tiers[..|tiers| - 1]);
      var t := tiers[|tiers| - 1];
      rest + if t != tier && Contains(text, t) then 1 else 0
  }

  /** Level `k` is a candidate when it was read and has at least one `li`. */
  function CandidateAt(chain: seq<Level>, k: nat, tier: string, tiers: seq<string>): Option<Candidate> {
    if k < |chain| && chain[k].Node? && |chain[k].items| > 0
    then Some(Candidate(k, chain[k].text, chain[k].items, OtherCount(chain[k].text, tier, tiers)))
    else None
  }

  /** The candidates among the first `n` levels, in ascent order. */
  function CandidatesBelow(chain: seq<Level>, n: nat, tier: string, tiers: seq<string>): seq<Candidate> {
    if n == 0 then []
    else
      var c := CandidateAt(chain, n - 1, tier, tiers);
      CandidatesBelow(chain, n - 1, tier, tiers) + if c.Some? then [c.value] else []
  }

  /** The outcome of the climb for one tier. */
  datatype Gathering = Abandoned | Gathered(candidates: seq<Candidate>)

  /** The climb of lines 68-88. Past the root the parent is null; asking for
      the parent of null fails outside the per-level `try` and abandons the
      tier, so a heading with fewer than seven ancestors yields nothing. */
  function Gather(chain: seq<Level>, tier: string, tiers: seq<string>): Gathering {
    if |chain| < Depth - 1 then Abandoned else Gathered(CandidatesBelow(chain, Depth, tier, tiers))
  }

  /** The candidates are exactly the levels below `n` that were read and have
      an `li`, each once and in ascent order. */
  lemma {:induction false} CandidatesShape(chain: seq<Level>, n: nat, tier: string, tiers: seq<string>)
    ensures var cs := CandidatesBelow(chain, n, tier, tiers);
      && |cs| <= n
      && (forall i, j :: 0 <= i < j < |cs| ==> cs[i].level < cs[j].level)
      && (forall i :: 0 <= i < |cs| ==> cs[i].level < n && CandidateAt(chain, cs[i].level, tier, tiers) == Some(cs[i]))
      && (forall k :: 0 <= k < n && CandidateAt(chain, k, tier, tiers).Some? ==> CandidateAt(chain, k, tier, tiers).value in cs)
  {
    if n > 0 {
      CandidatesShape(chain, n - 1, tier, tiers);
      var before := CandidatesBelow(chain, n - 1, tier, tiers);
      var c := CandidateAt(chain, n - 1, tier, tiers);
      CandidatesStep(before, c, n - 1);
      forall k | 0 <= k < n && CandidateAt(chain, k, tier, tiers).Some?
        ensures CandidateAt(chain, k, tier, tiers).value in CandidatesBelow(chain, n, tier, tiers)
      {
        if k < n - 1 {
          var x := CandidateAt(chain, k, tier, tiers).value;
          var j :| 0 <= j < |before| && before[j] == x;
          assert CandidatesBelow(chain, n, tier, tiers)[j] == x;
        }
      }
    }
  }

  /** One step of the shape proof, on sequences alone. */
  lemma CandidatesStep(before: seq<Candidate>, c: Option<Candidate>, m: nat)
    requires forall i, j :: 0 <= i < j < |before| ==> before[i].level < before[j].level
    requires forall i :: 0 <= i < |before| ==> before[i].level < m
    requires c.Some? ==> c.value.level == m
    ensures var after := before + if c.Some? then [c.value] else [];
      && (forall i, j :: 0 <= i < j < |after| ==> after[i].level < after[j].level)
      && (forall i :: 0 <= i < |after| ==> after[i].level <= m)
      && (c.Some? ==> c.value in after)
  {
    if c.Some? {
      assert (before + [c.value])[|before|] == c.value;
    } else {
      assert before + [] == before;
    }
  }

  /** Folds one more level into the candidates gathered so far. */
  lemma CandidatesNext(chain: seq<Level>, level: nat, tier: string, tiers: seq<string>)
    ensures CandidatesBelow(chain, level + 1, tier, tiers) ==
      CandidatesBelow(chain, level, tier, tiers) +
        if level < |chain| && chain[level].Node? && |chain[level].items| > 0
        then [Candidate(level, chain[level].text, chain[level].items, OtherCount(chain[level].text, tier, tiers))]
        else []
  {
  }

  /** The loop of lines 68-88. */
  method GatherCandidates(chain: seq<Level>, tier: string, tiers: seq<string>) returns (g: Gathering)
    ensures g == Gather(chain, tier, tiers)
  {
    var candidates: seq<Candidate> := [];
    var level := 0;
    while level < Depth
      invariant 0 <= level <= Depth && level <= |chain| + 1
      invariant candidates == CandidatesBelow(chain, level, tier, tiers)
    {
      if level > |chain| {
        // the driver was asked for the parent of null
        return Abandoned;
      }
      CandidatesNext(chain, level, tier, tiers);
      if level < |chain| && chain[level].Node? {
        var items := chain[level].items;
        if |items| > 0 {
          var text := chain[level].text;
          var others := OtherCount(text, tier, tiers);
          candidates := candidates + [Candidate(level, text, items, others)];
        }
      }
      level := level + 1;
    }
    return Gathered(candidates);
  }

  // ----------------------------------------------------------------- selection

  /** The preferred kind of container: 5 to 35 items and no other tier label. */
  predicate Fits(c: Candidate) {
    5 <= |c.items| <= 35 && c.others == 0
  }

  /** The first candidate that fits. */
  function FirstFit(cs: seq<Candidate>): (r: Option<nat>)
    ensures r.Some? ==> r.value < |cs| && Fits(cs[r.value]) && forall j :: 0 <= j < r.value ==> !Fits(cs[j])
    ensures r.None? ==> forall j :: 0 <= j < |cs| ==> !Fits(cs[j])
  {
    var p := (k: nat) => k < |cs| && Fits(cs[k]);
    assert forall k: nat :: p(k) == (k < |cs| && Fits(cs[k]));
    Find(|cs|, 0, p)
  }

  /** `min(cs[:n], key=li_count)`: the first candidate with the fewest items. */
  function Smallest(cs: seq<Candidate>, n: nat): (r: Option<nat>)
    requires n <= |cs|
    ensures r.None? <==> n == 0
    ensures r.Some? ==> r.value < n
  {
    if n == 0 then None
    else
      var b := Smallest(cs, n - 1);
      if b.None? || |cs[n - 1].items| < |cs[b.value].items| then Some(n - 1) else b
  }

  /** `Smallest` has the fewest items of all, and strictly fewer than every
      candidate before it. */
  lemma {:induction false} SmallestIsMin(cs: seq<Candidate>, n: nat)
    requires 0 < n <= |cs|
    ensures var m := Smallest(cs, n).value;
      && (forall j :: 0 <= j < n ==> |cs[m].items| <= |cs[j].items|)
      && (forall j :: 0 <= j < m ==> |cs[j].items| > |cs[m].items|)
  {
    if n > 1 {
      SmallestIsMin(cs, n - 1);
    }
  }

  /** The selection of lines 91-99. */
  function Pick(cs: seq<Candidate>): Option<nat> {
    if FirstFit(cs).Some? then FirstFit(cs) else Smallest(cs, |cs|)
  }

  /** The first fitting candidate wins; failing that, the first one with the
      fewest items; with no candidate the tier is skipped. */
  lemma PickSpec(cs: seq<Candidate>)
    ensures Pick(cs).None? <==> cs == []
    ensures Pick(cs).Some? ==> Pick(cs).value < |cs|
    ensures Pick(cs).Some? && Fits(cs[Pick(cs).value]) ==>
              forall j :: 0 <= j < Pick(cs).value ==> !Fits(cs[j])
    ensures Pick(cs).Some? && !Fits(cs[Pick(cs).value]) ==>
              && (forall j :: 0 <= j < |cs| ==> !Fits(cs[j]))
              && (forall j :: 0 <= j < |cs| ==> |cs[Pick(cs).value].items| <= |cs[j].items|)
              && (forall j :: 0 <= j < Pick(cs).value ==> |cs[j].items| > |cs[Pick(cs).value].items|)
  {
    if FirstFit(cs).None? && cs != [] {
      SmallestIsMin(cs, |cs|);
    }
  }

  lemma FitsBefore(cs: seq<Candidate>, i: nat)
    requires i < |cs| && Fits(cs[i]) && forall j :: 0 <= j < i ==> !Fits(cs[j])
    ensures FirstFit(cs) == Some(i)
  {
  }

  /** The two loops of lines 91-99. */
  method PickContainer(cs: seq<Candidate>) returns (best: Option<nat>)
    ensures best == Pick(cs)
  {
    var i := 0;
    while i < |cs|
      invariant 0 <= i <= |cs|
      invariant forall j :: 0 <= j < i ==> !Fits(cs[j])
    {
      if 5 <= |cs[i].items| <= 35 && cs[i].others == 0 {
        FitsBefore(cs, i);
        return Some(i);
      }
      i := i + 1;
    }
    if |cs| == 0 {
      return None;
    }
    var m := 0;
    for j := 1 to |cs|
      invariant Smallest(cs, j) == Some(m)
    {
      if |cs[j].items| < |cs[m].items| {
        m := j;
      }
    }
    return Some(m);
  }

  // --------------------------------------------------------------------- price

  predicate MentionsContact(text: string) {
    Contains(Lower(text), "contact sales") || Contains(Lower(text), "contact us")
  }

  /** A price as this scraper writes a dollar amount: `$` and whole dollars. */
  predicate IsWholeDollar(r: string) {
    |r| >= 2 && r[0] == '$' && AllDigits(r[1..])
  }

  /** The match of `\$\d+` in the text, or None. */
  function DollarMatch(text: string): (r: Option<string>)
    ensures r.None? <==> FirstDollar(text).None?
    ensures r.Some? ==> IsWholeDollar(r.value) && OccursAt(text, r.value, FirstDollar(text).value)
    ensures r.Some? ==> var e := FirstDollar(text).value + |r.value|;
                        e == |text| || !IsDigit(text[e])
  {
    match FirstDollar(text)
    case None => None
    case Some(i) =>
      var r := text[i..DigitRun(text, i + 1)];
      assert r[1..] == text[i + 1..DigitRun(text, i + 1)];
      Some(r)
  }

  /** The price chain of lines 109-121, first match wins. */
  function NotionPrice(text: string, tier: string): (r: string)
    ensures r == "Contact sales" || r == "Free" || r == "N/A" || IsWholeDollar(r)
    ensures MentionsContact(text) ==> r == "Contact sales"
    ensures IsWholeDollar(r) <==> !MentionsContact(text) && DollarMatch(text).Some?
    ensures IsWholeDollar(r) ==> r == DollarMatch(text).value
    ensures r == "Free" <==>
              !MentionsContact(text) && DollarMatch(text).None? && (tier == "Free" || Contains(Lower(text), "free"))
    ensures r == "N/A" <==>
              && !MentionsContact(text) && DollarMatch(text).None?
              && !(tier == "Free" || Contains(Lower(text), "free")) && tier != "Enterprise"
  {
    if MentionsContact(text) then "Contact sales"
    else if DollarMatch(text).Some? then DollarMatch(text).value
    else if tier == "Free" || Contains(Lower(text), "free") then "Free"
    else if tier == "Enterprise" then "Contact sales"
    else "N/A"
  }

  // ------------------------------------------------------------------ features

  const NotionFeatureCap := 20

  /** The features kept from the stripped items `fts` when `kept` were kept
      before them: longer than five characters and not kept yet. */
  function KeepNew(fts: seq<string>, kept: seq<string>): seq<string>
    decreases |fts|
  {
    if fts == [] then kept
    else KeepNew(fts[1..], if |fts[0]| > 5 && fts[0] !in kept then kept + [fts[0]] else kept)
  }

  /** The features of a card whose list items read `items`. */
  function NotionFeatures(items: seq<string>): seq<string> {
    KeepNew(StripAll(Take(items, NotionFeatureCap)), [])
  }

  /** The loop of lines 128-132. */
  method TakeFeatures(items: seq<string>) returns (features: seq<string>)
    ensures features == NotionFeatures(items)
  {
    var listed := Take(items, NotionFeatureCap);
    ghost var fts := StripAll(listed);
    features := [];
    for i := 0 to |listed|
      invariant KeepNew(fts[i..], features) == KeepNew(fts, [])
    {
      assert fts[i..][1..] == fts[i + 1..];
      var feat := Strip(listed[i]);
      assert feat == fts[i];
      if feat != [] && |feat| > 5 && feat !in features {
        features := features + [feat];
      }
    }
    assert fts[|listed|..] == [];
  }

  /** Each step appends at most one item of `fts`, longer than five
      characters and not kept before. */
  lemma {:induction false} KeepNewBounds(fts: seq<string>, kept: seq<string>)
    ensures var r := KeepNew(fts, kept);
      && |kept| <= |r| <= |kept| + |fts| && r[..|kept|] == kept
      && forall k :: |kept| <= k < |r| ==> |r[k]| > 5 && r[k] in fts
    decreases |fts|
  {
    if fts != [] {
      var n := if |fts[0]| > 5 && fts[0] !in kept then kept + [fts[0]] else kept;
      KeepNewBounds(fts[1..], n);
      var r := KeepNew(fts[1..], n);
      assert r == KeepNew(fts, kept);
      KeepStep(r, kept, n, fts);
    }
  }

  /** One step of the bounds proof, on sequences alone. */
  lemma KeepStep(r: seq<string>, kept: seq<string>, n: seq<string>, fts: seq<string>)
    requires fts != []
    requires n == kept || (n == kept + [fts[0]] && |fts[0]| > 5)
    requires |n| <= |r| <= |n| + |fts| - 1 && r[..|n|] == n
    requires forall k :: |n| <= k < |r| ==> |r[k]| > 5 && r[k] in fts[1..]
    ensures |kept| <= |r| <= |kept| + |fts| && r[..|kept|] == kept
    ensures forall k :: |kept| <= k < |r| ==> |r[k]| > 5 && r[k] in fts
  {
    assert r[..|kept|] == r[..|n|][..|kept|];
    forall k | |kept| <= k < |r|
      ensures |r[k]| > 5 && r[k] in fts
    {
      if k < |n| {
        assert r[k] == r[..|n|][k] == fts[0];
      } else {
        var j :| 0 <= j < |fts[1..]| && fts[1..][j] == r[k];
        assert fts[j + 1] == r[k];
      }
    }
  }

  /** No feature is kept twice. */
  lemma {:induction false} KeepNewDistinct(fts: seq<string>, kept: seq<string>)
    requires Distinct(kept)
    ensures Distinct(KeepNew(fts, kept))
    decreases |fts|
  {
    if fts != [] {
      var n := if |fts[0]| > 5 && fts[0] !in kept then kept + [fts[0]] else kept;
      assert KeepNew(fts[1..], n) == KeepNew(fts, kept);
      if n != kept {
        forall i, j | 0 <= i < j < |n|
          ensures n[i] != n[j]
        {
          if j == |kept| {
            assert n[i] == kept[i] && kept[i] in kept;
          }
        }
      }
      KeepNewDistinct(fts[1..], n);
    }
  }

  /** Keeping more never drops what was kept. */
  lemma {:induction false} KeepNewGrows(fts: seq<string>, kept: seq<string>)
    ensures |kept| <= |KeepNew(fts, kept)| && KeepNew(fts, kept)[..|kept|] == kept
    decreases |fts|
  {
    if fts != [] {
      var n := if |fts[0]| > 5 && fts[0] !in kept then kept + [fts[0]] else kept;
      var h := KeepNew(fts[1..], n);
      assert KeepNew(fts, kept) == h;
      KeepNewGrows(fts[1..], n);
      assert h[..|kept|] == h[..|n|][..|kept|];
    }
  }

  /** The features keep the order of the items. */
  lemma {:induction false} KeepNewOrder(fts: seq<string>, kept: seq<string>)
    ensures |kept| <= |KeepNew(fts, kept)| && Subseq(KeepNew(fts, kept)[|kept|..], fts)
    decreases |fts|
  {
    if fts == [] {
      assert KeepNew(fts, kept)[|kept|..] == [];
    } else {
      var n := if |fts[0]| > 5 && fts[0] !in kept then kept + [fts[0]] else kept;
      var h := KeepNew(fts[1..], n);
      assert KeepNew(fts, kept) == h;
      KeepNewOrder(fts[1..], n);
      KeepNewGrows(fts[1..], n);
      assert n[..|kept|] == kept;
      OrderStepHead(h, kept, n, fts);
    }
  }

  /** Every item longer than five characters is among the features. */
  lemma {:induction false} KeepNewComplete(fts: seq<string>, kept: seq<string>)
    ensures forall k :: 0 <= k < |fts| && |fts[k]| > 5 ==> fts[k] in KeepNew(fts, kept)
    ensures forall x :: x in kept ==> x in KeepNew(fts, kept)
    decreases |fts|
  {
    if fts != [] {
      var n := if |fts[0]| > 5 && fts[0] !in kept then kept + [fts[0]] else kept;
      var r := KeepNew(fts[1..], n);
      assert r == KeepNew(fts, kept);
      KeepNewComplete(fts[1..], n);
      assert forall x :: x in kept ==> x in n;
      assert |fts[0]| > 5 ==> fts[0] in n;
      forall k | 0 <= k < |fts| && |fts[k]| > 5
        ensures fts[k] in r
      {
        if k > 0 {
          assert fts[1..][k - 1] == fts[k];
        }
      }
    }
  }

  lemma KeepNewHas(fts: seq<string>, k: nat)
    requires k < |fts| && |fts[k]| > 5
    ensures fts[k] in KeepNew(fts, [])
  {
    KeepNewComplete(fts, []);
  }

  /** At most 20 features, each stripped and longer than five characters. */
  lemma NotionFeaturesBounds(items: seq<string>)
    ensures |NotionFeatures(items)| <= NotionFeatureCap
    ensures forall k :: 0 <= k < |NotionFeatures(items)| ==>
              IsStripped(NotionFeatures(items)[k]) && |NotionFeatures(items)[k]| > 5
  {
    var fts := StripAll(Take(items, NotionFeatureCap));
    var fs := KeepNew(fts, []);
    assert NotionFeatures(items) == fs;
    KeepNewBounds(fts, []);
    forall k | 0 <= k < |fs|
      ensures IsStripped(fs[k])
    {
      var j :| 0 <= j < |fts| && fts[j] == fs[k];
    }
  }

  /** No feature twice. */
  lemma NotionFeaturesDistinct(items: seq<string>)
    ensures Distinct(NotionFeatures(items))
  {
    KeepNewDistinct(StripAll(Take(items, NotionFeatureCap)), []);
  }

  /** The features come in the order of the items. */
  lemma NotionFeaturesOrdered(items: seq<string>)
    ensures Subseq(NotionFeatures(items), StripAll(Take(items, NotionFeatureCap)))
  {
    KeepNewOrder(StripAll(Take(items, NotionFeatureCap)), []);
    assert NotionFeatures(items)[0..] == NotionFeatures(items);
  }

  /** Every one of the first 20 items longer than five characters once
      stripped is among the features. */
  lemma NotionFeaturesComplete(items: seq<string>)
    ensures forall k :: 0 <= k < |items| && k < NotionFeatureCap && |Strip(items[k])| > 5 ==>
              Strip(items[k]) in NotionFeatures(items)
  {
    forall k | 0 <= k < |items| && k < NotionFeatureCap && |Strip(items[k])| > 5
      ensures Strip(items[k]) in NotionFeatures(items)
    {
      ItemKept(items, k);
    }
  }

  lemma ItemKept(items: seq<string>, k: nat)
    requires k < |items| && k < NotionFeatureCap && |Strip(items[k])| > 5
    ensures Strip(items[k]) in NotionFeatures(items)
  {
    var listed := Take(items, NotionFeatureCap);
    TakeAt(items, NotionFeatureCap, k);
    StripAllAt(listed, k);
    KeepNewHas(StripAll(listed), k);
  }

  // ------------------------------------------------------------------- records

  /** The card chosen for `tier`, or None when the query fails, there is no
      heading, the climb is abandoned or there is no candidate. */
  function Container(page: Page, tier: string, tiers: seq<string>): Option<Candidate> {
    if !QueryValid(tier) then None
    else match HeadingOf(page, tier)
      case None => None
      case Some(h) =>
        match Gather(page[h].ancestors, tier, tiers)
        case Abandoned => None
        case Gathered(cs) =>
          var best := Pick(cs);
          PickSpec(cs);
          if best.None? then None else Some(cs[best.value])
  }

  /** The record emitted for `tier`, if any. */
  function Card(page: Page, tier: string, tiers: seq<string>): Option<Record> {
    var c := Container(page, tier, tiers);
    if c.None? then None
    else Some(Record(tier, NotionPrice(c.value.text, tier), FeaturesField(NotionFeatures(c.value.items))))
  }

  /** A record carries its tier label and one of the four price forms, and
      its Features cell reads "N/A" exactly when no item survived. */
  lemma CardProps(page: Page, tier: string, tiers: seq<string>)
    ensures var r := Card(page, tier, tiers);
      && (r.Some? <==> Container(page, tier, tiers).Some?)
      && (r.Some? ==> r.value.tier == tier)
      && (r.Some? ==> r.value.price in {"Contact sales", "Free", "N/A"} || IsWholeDollar(r.value.price))
      && (r.Some? ==> (r.value.features == "N/A" <==> NotionFeatures(Container(page, tier, tiers).value.items) == []))
  {
    var c := Container(page, tier, tiers);
    if c.Some? {
      NotionFeaturesBounds(c.value.items);
      FeaturesFieldNA(NotionFeatures(c.value.items));
    }
  }

  function Outcomes(page: Page, tiers: seq<string>): (r: seq<Option<Record>>)
    ensures |r| == |tiers|
  {
    seq(|tiers|, i requires 0 <= i < |tiers| => Card(page, tiers[i], tiers))
  }

  /** The records of the page, one per tier label that yields a card. */
  function Cards(page: Page): seq<Record> {
    Collect(Outcomes(page, NotionTiers))
  }

  /** The body of the loop of lines 45-146, for one tier label. */
  method ScrapeTier(page: Page, tier: string, tiers: seq<string>) returns (record: Option<Record>)
    ensures record == Card(page, tier, tiers)
  {
    if '\'' in tier {
      return None;
    }
    var heading := LocateHeading(page, tier);
    if heading.None? {
      return None;
    }
    var g := GatherCandidates(page[heading.value].ancestors, tier, tiers);
    if g.Abandoned? {
      return None;
    }
    var best := PickContainer(g.candidates);
    if best.None? {
      return None;
    }
    PickSpec(g.candidates);
    var container := g.candidates[best.value];
    assert Container(page, tier, tiers) == Some(container);
    var price := NotionPrice(container.text, tier);
    var features := TakeFeatures(container.items);
    record := Some(Record(tier, price, if features == [] then "N/A" else Join(features, " | ")));
  }

  /** The loop of lines 45-146 over the four tier labels. */
  method ScrapeNotion(page: Page) returns (data: seq<Record>)
    ensures data == Cards(page)
  {
    ghost var outcomes := Outcomes(page, NotionTiers);
    data := [];
    for i := 0 to |NotionTiers|
      invariant data == Collect(outcomes[..i])
    {
      var record := ScrapeTier(page, NotionTiers[i], NotionTiers);
      assert outcomes[..i + 1][..i] == outcomes[..i];
      if record.Some? {
        data := data + [record.value];
      }
    }
    assert outcomes[..|NotionTiers|] == outcomes;
  }

  /** At most one record per tier label, in label order, each with one of
      the four price forms. */
  lemma CardsShape(page: Page)
    ensures |Cards(page)| <= |NotionTiers|
    ensures Subseq(TierColumn(Cards(page)), NotionTiers)
    ensures forall k :: 0 <= k < |Cards(page)| ==>
              Cards(page)[k].price in {"Contact sales", "Free", "N/A"} || IsWholeDollar(Cards(page)[k].price)
  {
    var outcomes := Outcomes(page, NotionTiers);
    forall i | 0 <= i < |outcomes| && outcomes[i].Some?
      ensures outcomes[i].value.tier == NotionTiers[i]
      ensures outcomes[i].value.price in {"Contact sales", "Free", "N/A"} || IsWholeDollar(outcomes[i].value.price)
    {
      CardProps(page, NotionTiers[i], NotionTiers);
    }
    CollectShape(outcomes, NotionTiers);
    forall k | 0 <= k < |Cards(page)|
      ensures Cards(page)[k].price in {"Contact sales", "Free", "N/A"} || IsWholeDollar(Cards(page)[k].price)
    {
      var i :| 0 <= i < |outcomes| && outcomes[i] == Some(Cards(page)[k]);
    }
  }
}
