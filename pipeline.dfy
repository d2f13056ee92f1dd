/** How the steps fit together. The price labels written by the two
    scrapers are read back by the ETL step's `normalize_price` and the
    transform step's `standardize_price`. The Features cells the scrapers
    write are counted by the Feature_Count rule and cleaned by
    `clean_features`. */
module Pipeline {
  import opened Text
  import opened Amounts
  import opened Dom
  import PricingScraper
  import NotionScraper
  import Etl
  import Transform

  // -------------------------------------------------------------- price labels

  /** The number of cents a price label stands for: 0 for "Free", the amount
      for a dollar label, and none for "Contact sales" and "N/A". */
  function LabelCents(tag: string): Option<nat>
    requires PricingScraper.IsPriceLabel(tag)
  {
    if tag == "Free" then Some(0)
    else if PricingScraper.IsDollarPrice(tag) then Some(Cents(tag[1..]))
    else None
  }

  /** A dollar label has no whitespace at its ends and is made of '$', '.'
      and digits only. */
  lemma DollarLabelChars(p: string)
    requires PricingScraper.IsDollarPrice(p)
    ensures IsStripped(p)
    ensures forall k :: 0 <= k < |p| ==> p[k] == '$' || p[k] == '.' || IsDigit(p[k])
  {
    var a := p[1..];
    forall k | 1 <= k < |p|
      ensures p[k] == '.' || IsDigit(p[k])
    {
      assert p[k] == a[k - 1];
      if !AllDigits(a) && k - 1 < |a| - 3 {
        assert a[..|a| - 3][k - 1] == a[k - 1];
      }
    }
    assert p[|p| - 1] == a[|a| - 1];
  }

  /** Both readers give a dollar label its amount in cents. */
  lemma DollarLabelRead(p: string)
    requires PricingScraper.IsDollarPrice(p)
    ensures Etl.NormalizePrice(Some(p)) == Some(Cents(p[1..]))
    ensures Transform.StandardizePrice(Some(p)) == Some(Cents(p[1..]))
  {
    DollarLabelChars(p);
    StripOfStripped(p);
    LowerOfNoUpper(p);
    DollarFirstAmount(p);
    assert p[0] != "free"[0];
    assert "free"[0] == 'f';
    NotContainsByChar(p, "free", 'f');
    NoAskWord(p);
    if p == "$0" {
      Transform.DollarZeroRuleRedundant();
    }
  }

  /** Both readers give "Free" the price 0. */
  lemma FreeLabelRead()
    ensures Etl.NormalizePrice(Some("Free")) == Some(0)
    ensures Transform.StandardizePrice(Some("Free")) == Some(0)
  {
    StripOfStripped("Free");
    LowerIs("Free", "free");
    NoAskWord("free");
    assert OccursAt("free", "free", 0);
    ContainsAt("free", "free", 0);
  }

  /** Neither reader finds a price in "Contact sales". */
  lemma ContactLabelRead()
    ensures Etl.NormalizePrice(Some("Contact sales")).None?
    ensures Transform.StandardizePrice(Some("Contact sales")).None?
  {
    StripOfStripped("Contact sales");
    LowerIs("Contact sales", "contact sales");
    assert OccursAt("contact sales", "contact", 0);
    ContainsAt("contact sales", "contact", 0);
    assert Transform.AskWords[0] == "contact";
  }

  /** Neither reader finds a price in "N/A". */
  lemma MissingLabelRead()
    ensures Etl.NormalizePrice(Some("N/A")).None?
    ensures Transform.StandardizePrice(Some("N/A")).None?
  {
    StripOfStripped("N/A");
    LowerIs("N/A", "n/a");
    assert "free"[0] == 'f';
    NotContainsByChar("n/a", "free", 'f');
    NoAskWord("n/a");
  }

  /** Every label the recogniser can write is read by both readers as the
      cents it stands for. */
  lemma LabelRead(tag: string)
    requires PricingScraper.IsPriceLabel(tag)
    ensures Etl.NormalizePrice(Some(tag)) == LabelCents(tag)
    ensures Transform.StandardizePrice(Some(tag)) == LabelCents(tag)
  {
    if tag == "Free" {
      FreeLabelRead();
    } else if tag == "Contact sales" {
      ContactLabelRead();
    } else if tag == "N/A" {
      MissingLabelRead();
    } else {
      DollarLabelRead(tag);
    }
  }

  /** The price the first strategy writes for a tier is read back the same by
      both readers, and the ETL step's pricing model is Custom exactly when
      the label is "Contact sales" or "N/A", and Free for a "Free" label. */
  lemma ExtractedPriceRead(text: string, tier: string)
    ensures var tag := PricingScraper.ExtractPrice(text, tier);
      && Etl.NormalizePrice(Some(tag)) == Transform.StandardizePrice(Some(tag)) == LabelCents(tag)
      && (Etl.PricingModelOf(Etl.NormalizePrice(Some(tag))) == Etl.Custom <==>
            tag == "Contact sales" || tag == "N/A")
      && (tag == "Free" ==> Etl.PricingModelOf(Etl.NormalizePrice(Some(tag))) == Etl.Free)
  {
    LabelRead(PricingScraper.ExtractPrice(text, tier));
  }

  /** A whole-dollar label of the second strategy is a dollar label worth
      its digits times 100 cents. */
  lemma WholeDollarCents(r: string)
    requires NotionScraper.IsWholeDollar(r)
    ensures PricingScraper.IsDollarPrice(r) && Cents(r[1..]) == DigitsValue(r[1..]) * 100
  {
  }

  /** The price the second strategy writes is read back the same by both
      readers: whole dollars for a dollar label, 0 for "Free", and no price
      exactly for "Contact sales" and "N/A". */
  lemma NotionPriceRead(text: string, tier: string)
    ensures var tag := NotionScraper.NotionPrice(text, tier);
      && Etl.NormalizePrice(Some(tag)) == Transform.StandardizePrice(Some(tag))
      && (NotionScraper.IsWholeDollar(tag) ==>
            Etl.NormalizePrice(Some(tag)) == Some(DigitsValue(tag[1..]) * 100))
      && (tag == "Free" ==> Etl.NormalizePrice(Some(tag)) == Some(0))
      && (Etl.NormalizePrice(Some(tag)).None? <==> tag == "Contact sales" || tag == "N/A")
  {
    var tag := NotionScraper.NotionPrice(text, tier);
    if NotionScraper.IsWholeDollar(tag) {
      WholeDollarCents(tag);
    }
    LabelRead(tag);
  }

  /** A cell without 'c' and 'p' mentions no ask word. */
  lemma NoAskWord(v: string)
    requires 'c' !in v && 'p' !in v
    ensures !ContainsAny(v, Transform.AskWords) && !Contains(v, "contact")
  {
    assert "contact"[0] == 'c' && "custom"[0] == 'c' && "enterprise"[5] == 'p';
    NotContainsByChar(v, "contact", 'c');
    NoneByChars(v, Transform.AskWords, "ccp");
  }

  /** Where the readers part: a lower-case cell that mentions "free" but is
      not exactly "free", and has no digit, 'c' or 'p', is 0 to
      `standardize_price` and has no price to `normalize_price`. */
  lemma FreeMentionDisagrees(v: string)
    requires IsStripped(v) && v != "free" && Contains(v, "free")
    requires 'c' !in v && 'p' !in v
    requires forall k :: 0 <= k < |v| ==> !IsUpper(v[k]) && !IsDigit(v[k])
    ensures Transform.StandardizePrice(Some(v)) == Some(0)
    ensures Etl.NormalizePrice(Some(v)).None?
  {
    StripOfStripped(v);
    LowerOfNoUpper(v);
    NoAskWord(v);
  }

  /** "free forever", a phrase the first strategy looks for, is one such
      cell. */
  lemma FreeForeverDisagrees()
    ensures Transform.StandardizePrice(Some("free forever")) == Some(0)
    ensures Etl.NormalizePrice(Some("free forever")).None?
  {
    FreeForeverShape();
    FreeMentionDisagrees("free forever");
  }

  /** The letters of "free forever". */
  lemma FreeForeverShape()
    ensures IsStripped("free forever") && "free forever" != "free" && Contains("free forever", "free")
    ensures 'c' !in "free forever" && 'p' !in "free forever"
    ensures forall k :: 0 <= k < |"free forever"| ==> !IsUpper("free forever"[k]) && !IsDigit("free forever"[k])
  {
    assert OccursAt("free forever", "free", 0);
    ContainsAt("free forever", "free", 0);
  }

  // ----------------------------------------------------------- features cells

  /** Joining items without '|' by " | " writes one '|' between each two. */
  lemma {:induction false} JoinBars(items: seq<string>)
    requires items != []
    requires forall k :: 0 <= k < |items| ==> '|' !in items[k]
    ensures multiset(Join(items, " | "))['|'] == |items| - 1
    decreases |items|
  {
    if |items| > 1 {
      JoinBars(items[1..]);
      assert Join(items, " | ") == items[0] + " | " + Join(items[1..], " | ");
      assert multiset(" | ") == multiset{' ', '|', ' '};
    }
  }

  /** The Feature_Count rule counts the features a scraper joined into a
      Features cell, when no feature holds a '|' (both scrapers keep only
      features longer than three characters). */
  lemma FeatureCountOfField(features: seq<string>)
    requires forall k :: 0 <= k < |features| ==> |features[k]| > 3 && '|' !in features[k]
    ensures Etl.FeatureCount(Some(FeaturesField(features))) == |features|
  {
    FeaturesFieldNA(features);
    if features != [] {
      JoinBars(features);
    }
  }

  /** Each feature of the second strategy is one of its first 20 items,
      stripped. */
  lemma NotionFeatureFrom(items: seq<string>, k: nat)
    requires k < |NotionScraper.NotionFeatures(items)|
    ensures exists j :: 0 <= j < |items| && j < NotionScraper.NotionFeatureCap &&
                        NotionScraper.NotionFeatures(items)[k] == Strip(items[j])
  {
    var fts := StripAll(Take(items, NotionScraper.NotionFeatureCap));
    NotionScraper.KeepNewBounds(fts, []);
    var i :| 0 <= i < |fts| && fts[i] == NotionScraper.NotionFeatures(items)[k];
    StripAllAt(Take(items, NotionScraper.NotionFeatureCap), i);
    TakeAt(items, NotionScraper.NotionFeatureCap, i);
  }

  /** When no list item holds a '|', the Features cell of the second strategy
      is counted right by Feature_Count and left as it is by `clean_features`
      (an empty card's "N/A" is cleaned to the empty cell). */
  lemma NotionFeaturesCell(items: seq<string>)
    requires forall j :: 0 <= j < |items| ==> '|' !in items[j]
    ensures var fs := NotionScraper.NotionFeatures(items);
      && Etl.FeatureCount(Some(FeaturesField(fs))) == |fs|
      && Transform.CleanedText(Some(FeaturesField(fs))) == if fs == [] then "" else FeaturesField(fs)
  {
    var fs := NotionScraper.NotionFeatures(items);
    NotionScraper.NotionFeaturesBounds(items);
    NotionScraper.NotionFeaturesDistinct(items);
    forall k | 0 <= k < |fs|
      ensures '|' !in fs[k]
    {
      NotionFeatureFrom(items, k);
      var j :| 0 <= j < |items| && j < NotionScraper.NotionFeatureCap && fs[k] == Strip(items[j]);
      StripKeepsOut(items[j], '|');
    }
    FeatureCountOfField(fs);
    FeaturesFieldNA(fs);
    if fs == [] {
      Transform.NotIdempotentOnNA();
    } else {
      Transform.CleanJoined(fs);
    }
  }
}
