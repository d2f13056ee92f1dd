/** Hand-written scanners for the regular expressions the scrapers and the
    normalisers apply to price text, and the decimal value of a matched
    amount. `re.search` returns the leftmost match, which is `Find` below; at
    a given start the greedy quantifiers of these patterns never need to give
    characters back, so each match is decided by one forward scan. */
module Amounts {
  import opened Text

  /** The first index in `[i, n)` that satisfies `p`. */
  function Find(n: nat, i: nat, p: nat -> bool): (r: Option<nat>)
    requires i <= n
    ensures r.Some? ==> i <= r.value < n && p(r.value)
    ensures r.Some? ==> forall k :: i <= k < r.value ==> !p(k)
    ensures r.None? ==> forall k :: i <= k < n ==> !p(k)
    decreases n - i
  {
    if i == n then None else if p(i) then Some(i) else Find(n, i + 1, p)
  }

  /** Where a greedy `\d*` that starts at `i` stops. */
  function DigitRun(s: string, i: nat): (j: nat)
    requires i <= |s|
    ensures i <= j <= |s|
    ensures forall k :: i <= k < j ==> IsDigit(s[k])
    ensures j == |s| || !IsDigit(s[j])
    decreases |s| - i
  {
    if i < |s| && IsDigit(s[i]) then DigitRun(s, i + 1) else i
  }

  /** `\.\d{2}` matches at `j`. */
  predicate CentsAt(s: string, j: nat) {
    j + 3 <= |s| && s[j] == '.' && IsDigit(s[j + 1]) && IsDigit(s[j + 2])
  }

  /** Where `\d+(?:\.\d{2})?` ends when it starts at the digit `i`. */
  function AmountEnd(s: string, i: nat): nat
    requires i <= |s|
  {
    var j := DigitRun(s, i);
    if CentsAt(s, j) then j + 3 else j
  }

  predicate AllDigits(s: string) {
    forall k :: 0 <= k < |s| ==> IsDigit(s[k])
  }

  /** The whole of `a` is matched by `\d+(\.\d{2})?`. */
  predicate IsAmount(a: string) {
    && a != []
    && (|| AllDigits(a)
        || (&& |a| >= 4
            && AllDigits(a[..|a| - 3])
            && a[|a| - 3] == '.' && IsDigit(a[|a| - 2]) && IsDigit(a[|a| - 1])))
  }

  /** No amount that starts at `i` runs past `end`. */
  predicate LongestAmount(s: string, i: nat, end: nat) {
    forall e :: i <= end < e <= |s| ==> !IsAmount(s[i..e])
  }

  /** What `\d+(?:\.\d{2})?` matches at a digit is an amount, and it is
      the longest amount that starts there. */
  lemma AmountMatched(s: string, i: nat)
    requires i < |s| && IsDigit(s[i])
    ensures i < AmountEnd(s, i) <= |s|
    ensures IsAmount(s[i..AmountEnd(s, i)])
    ensures LongestAmount(s, i, AmountEnd(s, i))
  {
    var j := DigitRun(s, i);
    assert DigitRun(s, i) == DigitRun(s, i + 1);
    var run := s[i..j];
    assert AllDigits(run) by {
      forall k | 0 <= k < |run| ensures IsDigit(run[k]) {
        assert run[k] == s[i + k];
      }
    }
    var a := s[i..AmountEnd(s, i)];
    if CentsAt(s, j) {
      assert a[..|a| - 3] == run;
      assert a[|a| - 3] == s[j] && a[|a| - 2] == s[j + 1] && a[|a| - 1] == s[j + 2];
    } else {
      assert a == run;
    }
    forall e | AmountEnd(s, i) < e <= |s|
      ensures !IsAmount(s[i..e])
    {
      AmountNotLonger(s, i, e);
    }
  }

  /** No amount that starts at `i` runs past where the greedy match ends. */
  lemma AmountNotLonger(s: string, i: nat, e: nat)
    requires i < |s| && IsDigit(s[i])
    requires AmountEnd(s, i) < e <= |s|
    ensures !IsAmount(s[i..e])
  {
    var j := DigitRun(s, i);
    var b := s[i..e];
    if AllDigits(b) {
      assert s[j] == b[j - i];
    } else if |b| >= 4 && AllDigits(b[..|b| - 3]) && b[|b| - 3] == '.' {
      forall k | i <= k < e - 3 ensures IsDigit(s[k]) {
        assert s[k] == b[..|b| - 3][k - i];
      }
      assert s[e - 3] == b[|b| - 3];
      DigitRunTo(s, i, e - 3);
      assert s[e - 2] == b[|b| - 2] && s[e - 1] == b[|b| - 1];
    }
  }

  function DigitValue(c: char): nat
    requires IsDigit(c)
  {
    c as int - '0' as int
  }

  /** The value of a decimal numeral. */
  function DigitsValue(d: string): nat
    requires AllDigits(d)
    decreases |d|
  {
    if d == [] then 0 else DigitsValue(d[..|d| - 1]) * 10 + DigitValue(d[|d| - 1])
  }

  /** `float(a)` for an amount, counted in cents. */
  function Cents(a: string): nat
    requires IsAmount(a)
  {
    if AllDigits(a) then DigitsValue(a) * 100
    else DigitsValue(a[..|a| - 3]) * 100 + DigitValue(a[|a| - 2]) * 10 + DigitValue(a[|a| - 1])
  }

  // ------------------------------------------------------- `\$\d+(?:\.\d{2})?`

  /** `\$\d` matches at `i`: the start of a dollar amount. */
  predicate DollarAt(s: string, i: nat) {
    i + 1 < |s| && s[i] == '$' && IsDigit(s[i + 1])
  }

  /** Where the leftmost match of `\$\d+` starts. */
  function FirstDollar(s: string): (r: Option<nat>)
    ensures r.Some? ==> DollarAt(s, r.value) && forall k :: 0 <= k < r.value ==> !DollarAt(s, k)
    ensures r.None? ==> forall k :: 0 <= k < |s| ==> !DollarAt(s, k)
  {
    var p := (i: nat) => DollarAt(s, i);
    assert forall k: nat :: p(k) == DollarAt(s, k);
    Find(|s|, 0, p)
  }

  // ------------------------------------------------- `\$?(\d+(?:\.\d{2})?)`

  predicate DigitAt(s: string, i: nat) {
    i < |s| && IsDigit(s[i])
  }

  function FirstDigit(s: string): (r: Option<nat>)
    ensures r.Some? ==> DigitAt(s, r.value) && forall k :: 0 <= k < r.value ==> !DigitAt(s, k)
    ensures r.None? ==> forall k :: 0 <= k < |s| ==> !DigitAt(s, k)
  {
    var p := (i: nat) => DigitAt(s, i);
    assert forall k: nat :: p(k) == DigitAt(s, k);
    Find(|s|, 0, p)
  }

  /** The value, in cents, of group 1 of `re.search(r'\$?(\d+(?:\.\d{2})?)', s)`,
      or None when there is no match. An optional `$` in front does not move the
      group: the group always starts at the first digit of `s`, because a `$`
      only begins a match when a digit follows it. So the result is the value
      of the first number written in `s`, and there is none exactly when `s`
      has no digit. */
  function FirstAmount(s: string): (r: Option<nat>)
    ensures r.None? <==> FirstDigit(s).None?
    ensures r.None? <==> forall k :: 0 <= k < |s| ==> !IsDigit(s[k])
    ensures r.Some? ==> var d := FirstDigit(s).value;
                        && IsAmount(s[d..AmountEnd(s, d)])
                        && r.value == Cents(s[d..AmountEnd(s, d)])
  {
    match FirstDigit(s)
    case None =>
      forall k | 0 <= k < |s| ensures !IsDigit(s[k]) {
        assert !DigitAt(s, k);
      }
      None
    case Some(d) =>
      assert DigitAt(s, d);
      AmountMatched(s, d);
      Some(Cents(s[d..AmountEnd(s, d)]))
  }

  lemma {:induction false} DigitRunTo(s: string, i: nat, j: nat)
    requires i <= j <= |s| && forall k :: i <= k < j ==> IsDigit(s[k])
    requires j == |s| || !IsDigit(s[j])
    ensures DigitRun(s, i) == j
    decreases j - i
  {
    if i < j {
      DigitRunTo(s, i + 1, j);
    }
  }

  /** An amount that runs to the end of `s` is matched whole. */
  lemma AmountEndOfAmount(s: string, i: nat)
    requires i <= |s| && IsAmount(s[i..])
    ensures AmountEnd(s, i) == |s|
  {
    var a := s[i..];
    if AllDigits(a) {
      forall k | i <= k < |s| ensures IsDigit(s[k]) {
        assert s[k] == a[k - i];
      }
      DigitRunTo(s, i, |s|);
    } else {
      var j := |s| - 3;
      forall k | i <= k < j ensures IsDigit(s[k]) {
        assert s[k] == a[..|a| - 3][k - i];
      }
      assert s[j] == a[|a| - 3] && s[j + 1] == a[|a| - 2] && s[j + 2] == a[|a| - 1];
      DigitRunTo(s, i, j);
    }
  }

  /** A `$` followed by an amount reads as that amount. */
  lemma DollarFirstAmount(p: string)
    requires |p| >= 2 && p[0] == '$' && IsAmount(p[1..])
    ensures FirstAmount(p) == Some(Cents(p[1..]))
  {
    assert IsDigit(p[1]) by {
      if !AllDigits(p[1..]) {
        assert p[1..][..|p| - 4][0] == p[1];
      }
    }
    assert !DigitAt(p, 0) && DigitAt(p, 1);
    assert FirstDigit(p) == Some(1);
    AmountEndOfAmount(p, 1);
    assert p[1..AmountEnd(p, 1)] == p[1..];
  }

  // ------------------------------- `(\d+)(?:\.\d{2})?\s*(?:per|/|month|mo)`

  /** Where a greedy `\s*` that starts at `q` stops. */
  function SkipSpaces(s: string, q: nat): (r: nat)
    requires q <= |s|
    ensures q <= r <= |s| && AllSpace(s[q..r])
    ensures r == |s| || !IsSpace(s[r])
    decreases |s| - q
  {
    if q < |s| && IsSpace(s[q]) then
      var r := SkipSpaces(s, q + 1);
      assert s[q..r] == [s[q]] + s[q + 1..r];
      r
    else q
  }

  /** `per|/|month|mo` matches at `q`. */
  predicate PeriodAt(s: string, q: nat)
    requires q <= |s|
  {
    StartsWith(s[q..], "per") || StartsWith(s[q..], "/") || StartsWith(s[q..], "month") || StartsWith(s[q..], "mo")
  }

  /** The billing-number pattern matches at `i`. `\d+` must take the whole run
      of digits (a shorter run leaves a digit where `.`, a space or a period
      word is needed); the optional cents are tried first and dropped if the
      period word does not follow them; `\s*` must take every space (a period
      word does not start with one). */
  predicate BillingAt(s: string, i: nat) {
    && i < |s| && IsDigit(s[i])
    && var j := DigitRun(s, i);
       || (CentsAt(s, j) && PeriodAt(s, SkipSpaces(s, j + 3)))
       || PeriodAt(s, SkipSpaces(s, j))
  }

  function FirstBilling(s: string): (r: Option<nat>)
    ensures r.Some? ==> BillingAt(s, r.value) && forall k :: 0 <= k < r.value ==> !BillingAt(s, k)
    ensures r.None? ==> forall k :: 0 <= k < |s| ==> !BillingAt(s, k)
  {
    var p := (i: nat) => BillingAt(s, i);
    assert forall k: nat :: p(k) == BillingAt(s, k);
    Find(|s|, 0, p)
  }
}
