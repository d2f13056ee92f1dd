/** The rendered page as the browser driver shows it to the scrapers, and the
    pricing-card record the scrapers emit. The page is read-only: the driver
    calls (`find_elements`, `parentElement`, `.text`, `.tag_name`) become
    fields of these values. */
module Dom {
  import opened Text

  /** One ancestor of a heading, as the driver reads it: its rendered text and
      the rendered texts of its `li` descendants in document order.
      `Unreadable` stands for an ancestor whose reading raised. */
  datatype Level = Node(text: string, items: seq<string>) | Unreadable

  /** An element of the page: its own text-node children (what XPath
      `text()` selects), its rendered text, its tag name, and its ancestors
      from the parent up to the root element. The root's `parentElement` is
      null, so a chain shorter than a scraper's ascent ends in null. */
  datatype Element = Element(textNodes: seq<string>, text: string, tag: string, ancestors: seq<Level>)

  /** The page's elements in document order, the order in which an XPath query visits them. */
  type Page = seq<Element>

  /** XPath 1.0 `text()='t'`: some text child of `e` is exactly `t`. */
  predicate TextIs(e: Element, t: string) {
    t in e.textNodes
  }

  /** XPath 1.0 `contains(text(), 't')`: a node-set converts to the string
      value of its first node, or to the empty string when it is empty. */
  predicate FirstTextContains(e: Element, t: string) {
    Contains(if e.textNodes == [] then "" else e.textNodes[0], t)
  }

  /** The tier label fits into an XPath string literal. A label with a
      quote is treated as a query that fails, and the tier is skipped;
      XPath parses some such labels with another meaning, which is not
      modelled. No label the program passes holds a quote
      (`PricingScraper.TierLabelsQueryValid`, `NotionScraper.NotionTiersQueryValid`). */
  predicate QueryValid(tier: string) {
    '\'' !in tier
  }

  /** One row of a company's raw pricing file: `{Tier, Price, Features}`. */
  datatype Record = Record(tier: string, price: string, features: string)

  /** The Features cell: the features joined by " | ", or "N/A" when there
      are none. */
  function FeaturesField(features: seq<string>): string {
    if features == [] then "N/A" else Join(features, " | ")
  }

  /** A Features cell reads "N/A" exactly when no feature was kept, provided
      every kept feature is longer than three characters (both scrapers keep
      only longer ones). */
  lemma {:induction false} FeaturesFieldNA(features: seq<string>)
    requires forall k :: 0 <= k < |features| ==> |features[k]| > 3
    ensures FeaturesField(features) == "N/A" <==> features == []
  {
    if features != [] {
      JoinLength(features, " | ");
    }
  }

  lemma {:induction false} JoinLength(items: seq<string>, sep: string)
    requires items != []
    ensures |Join(items, sep)| >= |items[0]|
    decreases |items|
  {
    if |items| > 1 {
      JoinLength(items[1..], sep);
    }
  }

  /** Python's `xs[:n]` */
  function Take<T>(xs: seq<T>, n: nat): (r: seq<T>)
    ensures |r| <= n && |r| <= |xs|
  {
    if |xs| <= n then xs else xs[..n]
  }

  lemma TakeAt<T>(xs: seq<T>, n: nat, k: nat)
    requires k < |xs| && k < n
    ensures k < |Take(xs, n)| && Take(xs, n)[k] == xs[k]
  {
  }

  /** A prefix of a prefix is a prefix. */
  lemma PrefixChain<T>(h: seq<T>, n: seq<T>, kept: seq<T>)
    requires |kept| <= |n| <= |h| && h[..|n|] == n && n[..|kept|] == kept
    ensures h[..|kept|] == kept
  {
    assert h[..|kept|] == h[..|n|][..|kept|];
  }

  lemma PrefixAt<T>(h: seq<T>, n: seq<T>, k: nat)
    requires k < |n| <= |h| && h[..|n|] == n
    ensures h[k] == n[k]
  {
    assert h[k] == h[..|n|][k];
  }

  /** `xs` is `ys` with some elements left out, the rest in their order. */
  predicate Subseq<T(==)>(xs: seq<T>, ys: seq<T>)
    decreases |ys|
  {
    xs == [] || (ys != [] && ((xs[0] == ys[0] && Subseq(xs[1..], ys[1..])) || Subseq(xs, ys[1..])))
  }

  lemma {:induction false} SubseqSingletonLast<T>(ys: seq<T>, y: T)
    ensures Subseq([y], ys + [y])
    decreases |ys|
  {
    if ys == [] {
      assert [y][1..] == [];
    } else {
      assert (ys + [y])[1..] == ys[1..] + [y];
      SubseqSingletonLast(ys[1..], y);
    }
  }

  /** Appending the same element to both sides, or to the longer side only,
      keeps a subsequence a subsequence. */
  lemma {:induction false} SubseqSnoc<T>(xs: seq<T>, ys: seq<T>, y: T)
    requires Subseq(xs, ys)
    ensures Subseq(xs, ys + [y]) && Subseq(xs + [y], ys + [y])
    decreases |ys|
  {
    if xs == [] {
      SubseqSingletonLast(ys, y);
      assert xs + [y] == [y];
    } else {
      assert (ys + [y])[1..] == ys[1..] + [y];
      assert (xs + [y])[1..] == xs[1..] + [y];
      if xs[0] == ys[0] && Subseq(xs[1..], ys[1..]) {
        SubseqSnoc(xs[1..], ys[1..], y);
      } else {
        SubseqSnoc(xs, ys[1..], y);
      }
    }
  }

  lemma SubseqCons<T>(x: T, xs: seq<T>, ys: seq<T>)
    requires Subseq(xs, ys)
    ensures Subseq([x] + xs, [x] + ys)
  {
    assert ([x] + xs)[1..] == xs && ([x] + ys)[1..] == ys;
  }

  lemma SubseqSkip<T>(xs: seq<T>, y: T, ys: seq<T>)
    requires Subseq(xs, ys)
    ensures Subseq(xs, [y] + ys)
  {
    assert ([y] + ys)[1..] == ys;
  }

  /** `h` extends `n`, which is `kept` with at most `f` appended: what `h`
      adds to `kept` is a subsequence of `f` followed by `tail` when what it
      adds to `n` is one of `tail`. */
  lemma OrderStep<T>(h: seq<T>, kept: seq<T>, n: seq<T>, f: T, tail: seq<T>)
    requires |kept| <= |n| <= |kept| + 1 && |n| <= |h|
    requires h[..|n|] == n && n[..|kept|] == kept
    requires |n| == |kept| + 1 ==> n[|kept|] == f
    requires Subseq(h[|n|..], tail)
    ensures Subseq(h[|kept|..], [f] + tail)
  {
    if |n| == |kept| + 1 {
      assert h[|kept|..] == [f] + h[|n|..] by {
        assert h[|kept|..][0] == h[..|n|][|kept|] == n[|kept|];
      }
      SubseqCons(f, h[|n|..], tail);
    } else {
      assert n == n[..|kept|] == kept;
      SubseqSkip(h[|n|..], f, tail);
    }
  }

  /** `OrderStep` where `f` is the head of `ys` and `tail` its rest. */
  lemma OrderStepHead<T>(h: seq<T>, kept: seq<T>, n: seq<T>, ys: seq<T>)
    requires ys != []
    requires |kept| <= |n| <= |kept| + 1 && |n| <= |h|
    requires h[..|n|] == n && n[..|kept|] == kept
    requires |n| == |kept| + 1 ==> n[|kept|] == ys[0]
    requires Subseq(h[|n|..], ys[1..])
    ensures Subseq(h[|kept|..], ys)
  {
    OrderStep(h, kept, n, ys[0], ys[1..]);
    assert [ys[0]] + ys[1..] == ys;
  }

  // ------------------------------------------------------- collected records

  /** The records among `outcomes`, in order: the `pricing_data` list built
      by appending one record per tier label that yields one. */
  function Collect(outcomes: seq<Option<Record>>): seq<Record>
    decreases |outcomes|
  {
    if outcomes == [] then []
    else
      var last := outcomes[|outcomes| - 1];
      Collect(outcomes[..|outcomes| - 1]) + if last.Some? then [last.value] else []
  }

  /** The Tier column of a list of records. */
  function TierColumn(data: seq<Record>): (r: seq<string>)
    ensures |r| == |data|
  {
    seq(|data|, k requires 0 <= k < |data| => data[k].tier)
  }

  /** Each outcome is nothing or a record for its own label. */
  predicate Labelled(outcomes: seq<Option<Record>>, labels: seq<string>) {
    |outcomes| == |labels|
    && forall i :: 0 <= i < |outcomes| && outcomes[i].Some? ==> outcomes[i].value.tier == labels[i]
  }

  /** The collected records are outcomes of their own labels, at most one
      per label and in the order of the labels. */
  lemma {:induction false} CollectShape(outcomes: seq<Option<Record>>, labels: seq<string>)
    requires Labelled(outcomes, labels)
    ensures |Collect(outcomes)| <= |outcomes|
    ensures Subseq(TierColumn(Collect(outcomes)), labels)
    ensures forall k :: 0 <= k < |Collect(outcomes)| ==>
              exists i :: 0 <= i < |outcomes| && outcomes[i] == Some(Collect(outcomes)[k])
    decreases |outcomes|
  {
    if outcomes != [] {
      var m := |outcomes| - 1;
      var before := Collect(outcomes[..m]);
      var last := outcomes[m];
      CollectShape(outcomes[..m], labels[..m]);
      assert labels == labels[..m] + [labels[m]];
      SubseqSnoc(TierColumn(before), labels[..m], labels[m]);
      if last.Some? {
        assert TierColumn(before + [last.value]) == TierColumn(before) + [labels[m]];
      } else {
        assert before + [] == before;
      }
      var after := Collect(outcomes);
      forall k | 0 <= k < |after|
        ensures exists i :: 0 <= i < |outcomes| && outcomes[i] == Some(after[k])
      {
        if k < |before| {
          var i :| 0 <= i < m && outcomes[..m][i] == Some(before[k]);
          assert outcomes[i] == Some(after[k]);
        } else {
          assert outcomes[m] == Some(after[k]);
        }
      }
    }
  }

  /** No element occurs twice. */
  predicate Distinct<T(==)>(xs: seq<T>) {
    forall i, j :: 0 <= i < j < |xs| ==> xs[i] != xs[j]
  }
}
