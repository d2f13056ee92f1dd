/** The transform step of src/transform/transform_pricing.py: the numeric
    price of a raw Price cell, and the cleaned Features cell. Cells are
    `Option<string>`, `None` standing for a missing (NaN) value; prices are
    numbers of cents. */
module Transform {
  import opened Text
  import opened Amounts
  import opened Dom

  // --------------------------------------------------------------------- price

  /** Words that mark a price that has to be asked for. */
  const AskWords: seq<string> := ["contact", "custom", "enterprise"]

  /** `standardize_price`: the stripped, lower-cased cell has no price when
      it mentions an ask word, is 0 when it mentions "free" or reads "$0",
      and otherwise is the first number written in it, if any. */
  function StandardizePrice(cell: Option<string>): (r: Option<nat>)
    ensures cell.None? ==> r.None?
  {
    if cell.None? then None
    else
      var l := Lower(Strip(cell.value));
      if ContainsAny(l, AskWords) then None
      else if Contains(l, "free") || l == "$0" then Some(0)
      else FirstAmount(l)
  }

  /** The ask words win over "free"; "free" anywhere gives 0; a price is
      missing exactly when an ask word is mentioned or, without "free", no
      digit is written. */
  lemma StandardizePriceSpec(v: string)
    ensures ContainsAny(Lower(Strip(v)), AskWords) ==> StandardizePrice(Some(v)).None?
    ensures !ContainsAny(Lower(Strip(v)), AskWords) && Contains(Lower(Strip(v)), "free") ==>
              StandardizePrice(Some(v)) == Some(0)
    ensures StandardizePrice(Some(v)).None? <==>
              ContainsAny(Lower(Strip(v)), AskWords)
              || (!Contains(Lower(Strip(v)), "free")
                  && forall k :: 0 <= k < |Lower(Strip(v))| ==> !IsDigit(Lower(Strip(v))[k]))
  {
    var l := Lower(Strip(v));
    if ContainsAny(l, AskWords) {
    } else if Contains(l, "free") {
    } else if l == "$0" {
      assert IsDigit(l[1]);
      assert StandardizePrice(Some(v)) == Some(0);
    } else {
      assert StandardizePrice(Some(v)) == FirstAmount(l);
    }
  }

  /** The "$0" rule changes nothing: the first number of "$0" is 0 anyway. */
  lemma DollarZeroRuleRedundant()
    ensures FirstAmount("$0") == Some(0)
  {
    assert FirstDigit("$0") == Some(1) by {
      assert !DigitAt("$0", 0) && DigitAt("$0", 1);
    }
    assert DigitRun("$0", 2) == 2;
    assert "$0"[1..2] == "0";
    assert DigitsValue("0") == DigitsValue("") * 10 + DigitValue('0');
  }

  // ------------------------------------------------------------------ features

  /** The pieces of a Features cell: split on '|', each stripped. */
  function Pieces(v: string): seq<string> {
    StripAll(Split(v, '|'))
  }

  /** Piece `k` is the `k`-th stretch between separators, stripped, so it
      has no whitespace at its ends and no '|'. */
  lemma PieceAt(v: string, k: nat)
    requires k < |Pieces(v)|
    ensures Pieces(v)[k] == Strip(Split(v, '|')[k])
    ensures IsStripped(Pieces(v)[k]) && '|' !in Pieces(v)[k]
  {
    var parts := Split(v, '|');
    StripAllAt(parts, k);
    SplitPieceOut(v, '|', k);
    StripKeepsOut(parts[k], '|');
  }

  /** The non-empty items of `xs`, each at its first occurrence. */
  function Dedup(xs: seq<string>): seq<string>
    decreases |xs|
  {
    if xs == [] then []
    else
      var d := Dedup(xs[..|xs| - 1]);
      var x := xs[|xs| - 1];
      if x != "" && x !in d then d + [x] else d
  }

  /** `clean_features`: "" for a missing cell or the literal "N/A";
      otherwise the distinct non-empty pieces joined by " | ". */
  function CleanedText(cell: Option<string>): string {
    if cell.None? || cell.value == "N/A" then "" else Join(Dedup(Pieces(cell.value)), " | ")
  }

  /** `clean_features`: the pieces of the cell, then the loop that keeps
      each non-empty piece not seen yet. */
  method CleanFeatures(cell: Option<string>) returns (r: string)
    ensures r == CleanedText(cell)
  {
    if cell.None? || cell.value == "N/A" {
      return "";
    }
    var features := Pieces(cell.value);
    var cleaned := KeepFirst(features);
    r := Join(cleaned, " | ");
  }

  /** The loop over the pieces, with its `seen` set and `cleaned` list. */
  method KeepFirst(features: seq<string>) returns (cleaned: seq<string>)
    ensures cleaned == Dedup(features)
  {
    var seen: set<string> := {};
    cleaned := [];
    for i := 0 to |features|
      invariant cleaned == Dedup(features[..i])
      invariant forall x :: x in seen <==> x in cleaned
    {
      var feat := features[i];
      DedupStep(features, i);
      if feat != "" && feat !in seen {
        seen := seen + {feat};
        cleaned := cleaned + [feat];
      }
    }
    assert features[..|features|] == features;
  }

  /** One more item is kept when it is non-empty and not kept yet. */
  lemma DedupStep(xs: seq<string>, i: nat)
    requires i < |xs|
    ensures Dedup(xs[..i + 1]) ==
              if xs[i] != "" && xs[i] !in Dedup(xs[..i]) then Dedup(xs[..i]) + [xs[i]] else Dedup(xs[..i])
  {
    assert xs[..i + 1][..i] == xs[..i];
  }

  /** The items kept are non-empty and distinct, each comes from `xs`, and
      every non-empty item of `xs` is kept. */
  lemma {:induction false} DedupShape(xs: seq<string>)
    ensures forall k :: 0 <= k < |Dedup(xs)| ==> Dedup(xs)[k] != "" && Dedup(xs)[k] in xs
    ensures Distinct(Dedup(xs))
    ensures forall x :: x in xs && x != "" ==> x in Dedup(xs)
    decreases |xs|
  {
    if xs != [] {
      var ys := xs[..|xs| - 1];
      var y := xs[|xs| - 1];
      var d := Dedup(ys);
      DedupShape(ys);
      assert xs == ys + [y];
      if y != "" && y !in d {
        DistinctSnoc(d, y);
      }
    }
  }

  lemma DistinctSnoc(d: seq<string>, y: string)
    requires Distinct(d) && y !in d
    ensures Distinct(d + [y])
  {
    var e := d + [y];
    forall i, j | 0 <= i < j < |e|
      ensures e[i] != e[j]
    {
      if j == |d| {
        assert e[i] == d[i] && d[i] in d;
      }
    }
  }

  /** The position of the first `x` in `xs`, or `|xs|` if there is none. */
  function FirstIndex(xs: seq<string>, x: string): nat
    decreases |xs|
  {
    if xs == [] then 0 else if xs[0] == x then 0 else 1 + FirstIndex(xs[1..], x)
  }

  lemma {:induction false} FirstIndexBounds(xs: seq<string>, x: string)
    ensures FirstIndex(xs, x) <= |xs|
    ensures FirstIndex(xs, x) < |xs| <==> x in xs
    decreases |xs|
  {
    if xs != [] {
      FirstIndexBounds(xs[1..], x);
      assert xs == [xs[0]] + xs[1..];
    }
  }

  lemma {:induction false} FirstIndexSnoc(xs: seq<string>, y: string, x: string)
    requires x in xs
    ensures FirstIndex(xs + [y], x) == FirstIndex(xs, x)
    decreases |xs|
  {
    if xs[0] != x {
      assert (xs + [y])[1..] == xs[1..] + [y];
      assert xs == [xs[0]] + xs[1..];
      FirstIndexSnoc(xs[1..], y, x);
    }
  }

  /** The items come in the order of their first occurrence in `xs`. */
  lemma {:induction false} DedupOrder(xs: seq<string>)
    ensures forall i, j :: 0 <= i < j < |Dedup(xs)| ==>
              FirstIndex(xs, Dedup(xs)[i]) < FirstIndex(xs, Dedup(xs)[j]) < |xs|
    decreases |xs|
  {
    if xs != [] {
      var ys := xs[..|xs| - 1];
      var y := xs[|xs| - 1];
      var d := Dedup(ys);
      DedupOrder(ys);
      DedupShape(ys);
      assert xs == ys + [y];
      forall k | 0 <= k < |d|
        ensures FirstIndex(xs, d[k]) == FirstIndex(ys, d[k]) < |ys|
      {
        FirstIndexSnoc(ys, y, d[k]);
        FirstIndexBounds(ys, d[k]);
      }
      var e := Dedup(xs);
      if y != "" && y !in d {
        assert y !in ys;
        FirstIndexAtEnd(ys, y);
        assert e == d + [y];
        forall i, j | 0 <= i < j < |e|
          ensures FirstIndex(xs, e[i]) < FirstIndex(xs, e[j]) < |xs|
        {
          assert e[i] == d[i];
          if j < |d| {
            assert e[j] == d[j];
          } else {
            assert e[j] == y;
          }
        }
      } else {
        assert e == d;
        forall i, j | 0 <= i < j < |e|
          ensures FirstIndex(xs, e[i]) < FirstIndex(xs, e[j]) < |xs|
        {
          assert FirstIndex(ys, d[i]) < FirstIndex(ys, d[j]);
        }
      }
    }
  }

  lemma {:induction false} FirstIndexAtEnd(ys: seq<string>, y: string)
    requires y !in ys
    ensures FirstIndex(ys + [y], y) == |ys|
    decreases |ys|
  {
    if ys != [] {
      assert (ys + [y])[1..] == ys[1..] + [y];
      FirstIndexAtEnd(ys[1..], y);
    }
  }

  /** Distinct non-empty items are kept as they are. */
  lemma {:induction false} DedupOfDistinct(xs: seq<string>)
    requires Distinct(xs) && forall k :: 0 <= k < |xs| ==> xs[k] != ""
    ensures Dedup(xs) == xs
    decreases |xs|
  {
    if xs != [] {
      var ys := xs[..|xs| - 1];
      DedupOfDistinct(ys);
      assert xs[|xs| - 1] !in ys by {
        forall k | 0 <= k < |ys|
          ensures ys[k] != xs[|xs| - 1]
        {
          assert ys[k] == xs[k];
        }
      }
      assert ys + [xs[|xs| - 1]] == xs;
    }
  }

  /** The cleaned cell holds the distinct non-empty pieces of the input, in
      the order they first appear, each stripped and without '|'. */
  lemma CleanedItems(v: string)
    requires v != "N/A"
    ensures var items := Dedup(Pieces(v));
      && CleanedText(Some(v)) == Join(items, " | ")
      && Distinct(items)
      && (forall k :: 0 <= k < |items| ==> items[k] != "" && IsStripped(items[k]) && '|' !in items[k])
      && (forall x :: x in Pieces(v) && x != "" <==> x in items)
      && (forall i, j :: 0 <= i < j < |items| ==> FirstIndex(Pieces(v), items[i]) < FirstIndex(Pieces(v), items[j]))
  {
    var ps := Pieces(v);
    PiecesShape(v);
    DedupShape(ps);
    DedupOrder(ps);
    DedupKeepsShape(ps);
  }

  lemma PiecesShape(v: string)
    ensures forall k :: 0 <= k < |Pieces(v)| ==> IsStripped(Pieces(v)[k]) && '|' !in Pieces(v)[k]
  {
    forall k | 0 <= k < |Pieces(v)|
      ensures IsStripped(Pieces(v)[k]) && '|' !in Pieces(v)[k]
    {
      PieceAt(v, k);
    }
  }

  lemma DedupKeepsShape(xs: seq<string>)
    requires forall k :: 0 <= k < |xs| ==> IsStripped(xs[k]) && '|' !in xs[k]
    ensures forall k :: 0 <= k < |Dedup(xs)| ==> IsStripped(Dedup(xs)[k]) && '|' !in Dedup(xs)[k]
  {
    DedupShape(xs);
    forall k | 0 <= k < |Dedup(xs)|
      ensures IsStripped(Dedup(xs)[k]) && '|' !in Dedup(xs)[k]
    {
      var j :| 0 <= j < |xs| && xs[j] == Dedup(xs)[k];
    }
  }

  // --------------------------------------------------------------- idempotence

  /** Piece `k` of `lead + Join(items, " | ")` split on '|', before it is
      stripped: the item with the spaces of the separators around it. */
  function Padded(items: seq<string>, lead: string, k: nat): string
    requires k < |items|
  {
    (if k == 0 then lead else " ") + items[k] + (if k == |items| - 1 then "" else " ")
  }

  /** The joined text, with `lead` before the first item. */
  function Joined(items: seq<string>, lead: string): string {
    lead + Join(items, " | ")
  }

  /** The first cut of the joined text: the first item with what stands
      around it, then '|', then the rest. */
  lemma JoinedCut(items: seq<string>, lead: string)
    requires |items| > 1
    ensures Joined(items, lead) == (lead + items[0] + " ") + ['|'] + Joined(items[1..], " ")
  {
  }

  /** Splitting joined items on '|' cuts exactly at the separators. */
  lemma {:induction false} SplitJoinLength(items: seq<string>, lead: string)
    requires items != [] && '|' !in lead
    requires forall k :: 0 <= k < |items| ==> '|' !in items[k]
    ensures |Split(Joined(items, lead), '|')| == |items|
    decreases |items|
  {
    if |items| == 1 {
      assert Joined(items, lead) == lead + items[0];
      SplitWithout(lead + items[0], '|');
    } else {
      JoinedCut(items, lead);
      SplitAfter(lead + items[0] + " ", '|', Joined(items[1..], " "));
      SplitJoinLength(items[1..], " ");
    }
  }

  lemma {:induction false} SplitJoinAt(items: seq<string>, lead: string, k: nat)
    requires items != [] && '|' !in lead && k < |items|
    requires forall k :: 0 <= k < |items| ==> '|' !in items[k]
    ensures k < |Split(Joined(items, lead), '|')|
    ensures Split(Joined(items, lead), '|')[k] == Padded(items, lead, k)
    decreases |items|
  {
    SplitJoinLength(items, lead);
    if |items| == 1 {
      assert Joined(items, lead) == lead + items[0] + "";
      SplitWithout(lead + items[0] + "", '|');
    } else {
      var tail := items[1..];
      JoinedCut(items, lead);
      SplitAfter(lead + items[0] + " ", '|', Joined(tail, " "));
      if k > 0 {
        SplitJoinAt(tail, " ", k - 1);
        assert Padded(tail, " ", k - 1) == Padded(items, lead, k);
      }
    }
  }

  lemma EmptyLead(s: string)
    ensures "" + s == s
  {
  }

  /** Item `k` comes back as piece `k` of the joined text. */
  lemma PieceOfJoin(items: seq<string>, lead: string, k: nat)
    requires items != [] && AllSpace(lead) && '|' !in lead && k < |items|
    requires forall k :: 0 <= k < |items| ==> items[k] != "" && IsStripped(items[k]) && '|' !in items[k]
    ensures k < |Pieces(Joined(items, lead))| && Pieces(Joined(items, lead))[k] == items[k]
  {
    SplitJoinAt(items, lead, k);
    PieceAt(Joined(items, lead), k);
    var pre := if k == 0 then lead else " ";
    var post := if k == |items| - 1 then "" else " ";
    assert Padded(items, lead, k) == pre + items[k] + post;
    StripPadded(pre, items[k], post);
  }

  /** Splitting the joined items on '|' and stripping the pieces gives the
      items back (`lead` is what stands before the first item). */
  lemma PiecesOfJoin(items: seq<string>, lead: string)
    requires items != [] && AllSpace(lead) && '|' !in lead
    requires forall k :: 0 <= k < |items| ==> items[k] != "" && IsStripped(items[k]) && '|' !in items[k]
    ensures Pieces(Joined(items, lead)) == items
  {
    SplitJoinLength(items, lead);
    forall k | 0 <= k < |items|
      ensures Pieces(Joined(items, lead))[k] == items[k]
    {
      PieceOfJoin(items, lead, k);
    }
  }

  /** A cell already made of distinct, stripped, non-empty items joined by
      " | " comes out unchanged, unless it reads "N/A". */
  lemma CleanJoined(items: seq<string>)
    requires items != [] && Distinct(items)
    requires forall k :: 0 <= k < |items| ==> items[k] != "" && IsStripped(items[k]) && '|' !in items[k]
    requires Join(items, " | ") != "N/A"
    ensures CleanedText(Some(Join(items, " | "))) == Join(items, " | ")
  {
    PiecesOfPlainJoin(items);
    DedupOfDistinct(items);
  }

  lemma PiecesOfPlainJoin(items: seq<string>)
    requires items != []
    requires forall k :: 0 <= k < |items| ==> items[k] != "" && IsStripped(items[k]) && '|' !in items[k]
    ensures Pieces(Join(items, " | ")) == items
  {
    EmptyLead(Join(items, " | "));
    PiecesOfJoin(items, "");
  }

  /** Cleaning twice is cleaning once, except for a result that reads "N/A",
      which the second pass empties. */
  lemma CleanIdempotent(cell: Option<string>)
    requires CleanedText(cell) != "N/A"
    ensures CleanedText(Some(CleanedText(cell))) == CleanedText(cell)
  {
    if cell.Some? && cell.value != "N/A" && Dedup(Pieces(cell.value)) != [] {
      CleanedItems(cell.value);
      CleanJoined(Dedup(Pieces(cell.value)));
    } else {
      assert CleanedText(cell) == "";
      EmptyCleansToEmpty();
    }
  }

  lemma EmptyCleansToEmpty()
    ensures CleanedText(Some("")) == ""
  {
    PiecesOfEmpty();
    assert Dedup([""]) == Dedup([]) == [];
  }

  lemma PiecesOfEmpty()
    ensures Pieces("") == [""]
  {
    assert Split("", '|') == [""];
    StripOfStripped("");
    StripAllAt([""], 0);
  }

  /** "N/A |" cleans to "N/A", and "N/A" cleans to "". */
  lemma NotIdempotentOnNA()
    ensures CleanedText(Some("N/A |")) == "N/A"
    ensures CleanedText(Some("N/A")) == ""
  {
    assert "N/A |" == "N/A" + " |";
    TrailingBarDropped("N/A");
  }

  /** A lone item followed by " |" cleans to the item: the empty piece after
      the separator is dropped. */
  lemma TrailingBarDropped(x: string)
    requires x != "" && IsStripped(x) && '|' !in x && x + " |" != "N/A"
    ensures CleanedText(Some(x + " |")) == x
  {
    TrailingBarPieces(x);
    DedupDropsEmpty(x);
  }

  lemma DedupDropsEmpty(x: string)
    requires x != ""
    ensures Dedup([x, ""]) == [x]
  {
    var ps := [x, ""];
    assert ps[..1] == [x] && [x][..0] == [];
    assert Dedup([x]) == [x];
  }

  lemma TrailingBarPieces(x: string)
    requires x != "" && IsStripped(x) && '|' !in x
    ensures Pieces(x + " |") == [x, ""]
  {
    TrailingBarSplit(x);
    StripAllPair(x + " ", "");
    StripTrailingSpace(x);
    StripOfStripped("");
  }

  lemma StripTrailingSpace(x: string)
    requires x != "" && IsStripped(x)
    ensures Strip(x + " ") == x
  {
    StripPadded([], x, " ");
    assert [] + x + " " == x + " ";
  }

  lemma StripAllPair(a: string, b: string)
    ensures StripAll([a, b]) == [Strip(a), Strip(b)]
  {
    var ab := [a, b];
    assert ab[0] == a && ab[1] == b;
    StripAllAt(ab, 0);
    StripAllAt(ab, 1);
    PairIs(StripAll(ab), Strip(a), Strip(b));
  }

  lemma PairIs<T>(l: seq<T>, x: T, y: T)
    requires |l| == 2 && l[0] == x && l[1] == y
    ensures l == [x, y]
  {
  }

  lemma TrailingBarSplit(x: string)
    requires '|' !in x
    ensures Split(x + " |", '|') == [x + " ", ""]
  {
    assert x + " |" == (x + " ") + ['|'] + "";
    assert '|' !in x + " ";
    SplitAfter(x + " ", '|', "");
    assert Split("", '|') == [""];
  }
}
