/** Picking one pool account by weighted sampling, in exact arithmetic
    (src/lingtai/auth/codex_account_source.py). */
module AccountDraw {
  import opened Common

  /** A pool entry; the pool loader only lets positive weights through. */
  datatype Account = Account(rawPath: string, resolvedPath: string, sha8: string, weight: nat)

  datatype Candidate = Candidate(authRef: string, sourceRef: string, index: nat, weight: nat)

  datatype Refusal = NoneEligible | ZeroTotal

  datatype Selection = Picked(candidate: Candidate) | Refused(reason: Refusal)

  /** What a quota snapshot may hold for one account. */
  datatype Quota = Number(value: real) | NotANumber | Truth(b: bool) | Other

  /** Values of `secrets.randbits(53)`. */
  const DRAWS: nat := 0x20_0000_0000_0000

  predicate IsComparable(q: Quota) { q.Number? && 0.0 <= q.value <= 1.0 }

  predicate Excluded(a: Account, exclude: set<string>) { a.sha8 in exclude || a.resolvedPath in exclude }

  /** Positions of the accounts not excluded, in pool order. */
  function Eligible(accounts: seq<Account>, exclude: set<string>): seq<nat> {
    if accounts == [] then []
    else
      var n := |accounts| - 1;
      Eligible(accounts[..n], exclude) + (if Excluded(accounts[n], exclude) then [] else [n])
  }

  /** Exactly the positions not excluded, each once and in order. */
  lemma {:induction false} EligibleIsExact(accounts: seq<Account>, exclude: set<string>)
    ensures var e := Eligible(accounts, exclude);
      && (forall i :: i in e <==> 0 <= i < |accounts| && !Excluded(accounts[i], exclude))
      && (forall j, k :: 0 <= j < k < |e| ==> e[j] < e[k])
  {
    if accounts != [] {
      var n := |accounts| - 1;
      EligibleIsExact(accounts[..n], exclude);
      var before := Eligible(accounts[..n], exclude);
      assert forall j :: 0 <= j < |before| ==> before[j] in before;
    }
  }

  lemma NoneEligibleIff(accounts: seq<Account>, exclude: set<string>)
    ensures Eligible(accounts, exclude) == [] <==>
      forall a <- accounts :: a.sha8 in exclude || a.resolvedPath in exclude
  {
    var eligible := Eligible(accounts, exclude);
    EligibleIsExact(accounts, exclude);
    if eligible == [] {
      forall a | a in accounts ensures Excluded(a, exclude) {
        var i :| 0 <= i < |accounts| && accounts[i] == a;
        assert i !in eligible;
      }
    } else {
      assert eligible[0] in eligible && accounts[eligible[0]] in accounts;
    }
  }

  /** Every eligible account has a usable quota. */
  predicate Complete(eligible: seq<Account>, quotas: map<string, Quota>) {
    forall a <- eligible :: a.sha8 in quotas && IsComparable(quotas[a.sha8])
  }

  /** The weight one account is drawn with. */
  function WeightOf(a: Account, quotas: Option<map<string, Quota>>, dynamic: bool): real
    requires dynamic ==> quotas.Some? && Complete([a], quotas.value)
  {
    assert a in [a];
    if dynamic then a.weight as real * quotas.value[a.sha8].value else a.weight as real
  }

  /** Whether quotas scale this draw: all of them or none. */
  predicate IsDynamic(eligible: seq<Account>, quotas: Option<map<string, Quota>>) {
    quotas.Some? && Complete(eligible, quotas.value)
  }

  ghost predicate AreWeights(ws: seq<real>, eligible: seq<Account>, quotas: Option<map<string, Quota>>) {
    && |ws| == |eligible|
    && var dynamic := IsDynamic(eligible, quotas);
      forall k :: 0 <= k < |ws| ==> eligible[k] in eligible && ws[k] == WeightOf(eligible[k], quotas, dynamic)
  }

  /** One account without a usable quota sends the whole draw back to configured weights. */
  method ComputeRawWeights(eligible: seq<Account>, quotas: Option<map<string, Quota>>) returns (ws: seq<real>)
    ensures AreWeights(ws, eligible, quotas) && forall w <- ws :: w >= 0.0
  {
    var configured := seq(|eligible|, k requires 0 <= k < |eligible| => eligible[k].weight as real);
    if quotas.None? { return configured; }
    var dynamic: seq<real> := [];
    for k := 0 to |eligible|
      invariant |dynamic| == k && Complete(eligible[..k], quotas.value)
      invariant forall j :: 0 <= j < k ==>
        Complete([eligible[j]], quotas.value) && dynamic[j] == WeightOf(eligible[j], quotas, true)
      invariant forall j :: 0 <= j < k ==> dynamic[j] >= 0.0
    {
      var a := eligible[k];
      assert a in eligible && eligible[..k + 1] == eligible[..k] + [a];
      if a.sha8 !in quotas.value || !IsComparable(quotas.value[a.sha8]) {
        return configured;
      }
      assert Complete([a], quotas.value);
      ScaledIsNonNegative(a.weight, quotas.value[a.sha8].value);
      dynamic := dynamic + [a.weight as real * quotas.value[a.sha8].value];
    }
    assert eligible[..|eligible|] == eligible;
    ws := dynamic;
  }

  lemma ScaledIsNonNegative(weight: nat, fraction: real)
    requires fraction >= 0.0
    ensures weight as real * fraction >= 0.0
  {
  }

  /** Every weight is the configured one times its quota if all quotas are numbers between 0 and
      1, and every weight is the configured one otherwise. */
  lemma AllScaledOrNone(ws: seq<real>, eligible: seq<Account>, quotas: Option<map<string, Quota>>, k: nat)
    requires AreWeights(ws, eligible, quotas) && k < |ws|
    ensures |ws| == |eligible|
    ensures ws[k]
      == if quotas.Some?
            && (forall a <- eligible ::
                  && a.sha8 in quotas.value && quotas.value[a.sha8].Number?
                  && 0.0 <= quotas.value[a.sha8].value <= 1.0)
            && eligible[k] in eligible
         then eligible[k].weight as real * quotas.value[eligible[k].sha8].value
         else eligible[k].weight as real
  {
  }

  // ---- products and quotients by name, so that proofs only use the facts below --------

  function Mul(x: real, y: real): real { x * y }

  function Div(x: real, y: real): real
    requires y > 0.0
  {
    x / y
  }

  lemma DivMul(x: real, y: real)
    requires y > 0.0
    ensures Mul(Div(x, y), y) == x
  {
  }

  lemma MulOrder(x: real, y: real, k: real)
    requires k > 0.0
    ensures x < y <==> Mul(x, k) < Mul(y, k)
  {
    if x < y { assert (y - x) * k > 0.0; } else { assert (x - y) * k >= 0.0; }
  }

  lemma MulUnits(k: real)
    ensures Mul(0.0, k) == 0.0 && Mul(1.0, k) == k
  {
  }

  lemma MulSwap(x: real, y: real, z: real)
    ensures Mul(Mul(x, y), z) == Mul(Mul(x, z), y)
  {
  }

  lemma MulCommutes(x: real, y: real)
    ensures Mul(x, y) == Mul(y, x)
  {
  }

  lemma MulPlus(x: real, y: real, k: real)
    ensures Mul(x + y, k) == Mul(x, k) + Mul(y, k)
  {
  }

  // ---- where a draw lands ----------------------------------------------------------

  function Sum(ws: seq<real>, n: nat): real
    requires n <= |ws|
  {
    if n == 0 then 0.0 else Sum(ws, n - 1) + ws[n - 1]
  }

  predicate NonNegative(ws: seq<real>) { forall w <- ws :: w >= 0.0 }

  lemma {:induction false} SumGrows(ws: seq<real>, i: nat, j: nat)
    requires i <= j <= |ws| && NonNegative(ws)
    ensures Sum(ws, i) <= Sum(ws, j)
  {
    if i < j {
      assert ws[j - 1] in ws;
      SumGrows(ws, i, j - 1);
    }
  }

  function Total(ws: seq<real>): real { Sum(ws, |ws|) }

  function Point(ws: seq<real>, draw: nat): real { Mul(Div(draw as real, DRAWS as real), Total(ws)) }

  /** The draw falls into the slice of account `i`. */
  predicate Lands(ws: seq<real>, draw: nat, i: nat) {
    i < |ws| && Sum(ws, i) <= Point(ws, draw) < Sum(ws, i + 1)
  }

  lemma PointBelowTotal(ws: seq<real>, draw: nat)
    requires draw < DRAWS && Total(ws) > 0.0
    ensures 0.0 <= Point(ws, draw) < Total(ws)
  {
    FractionOf(draw as real, DRAWS as real, Total(ws));
  }

  lemma FractionOf(d: real, n: real, total: real)
    requires 0.0 <= d < n && total > 0.0
    ensures 0.0 <= Mul(Div(d, n), total) < total
  {
    var u := Div(d, n);
    assert 0.0 <= u < 1.0 by {
      DivMul(d, n);
      MulUnits(n);
      MulOrder(u, 0.0, n);
      MulOrder(u, 1.0, n);
    }
    MulUnits(total);
    MulOrder(u, 0.0, total);
    MulOrder(u, 1.0, total);
  }

  /** No draw lands in two slices, and none in the slice of a zero weight. */
  lemma LandsOnce(ws: seq<real>, draw: nat, i: nat, j: nat)
    requires NonNegative(ws) && Lands(ws, draw, i)
    ensures ws[i] > 0.0 && (Lands(ws, draw, j) ==> i == j)
  {
    if j < |ws| && i < j { SumGrows(ws, i + 1, j); }
    if j < i { SumGrows(ws, j + 1, i); }
  }

  /** The sampling loop.  Its fall-back to the last account is dead: every draw lands. */
  method Sample(ws: seq<real>, draw: nat) returns (chosen: nat)
    requires NonNegative(ws) && Total(ws) > 0.0 && draw < DRAWS
    ensures Lands(ws, draw, chosen)
  {
    PointBelowTotal(ws, draw);
    var point := Point(ws, draw);
    var cumulative := 0.0;
    chosen := |ws| - 1;
    for k := 0 to |ws|
      invariant chosen == |ws| - 1 && cumulative == Sum(ws, k) && cumulative <= point
    {
      cumulative := cumulative + ws[k];
      if point < cumulative {
        return k;
      }
    }
    assert false;
  }

  /** `_safe_source_ref`: a path that expands to an absolute one is not shown. */
  function SafeRef(raw: string, isAbsolute: string -> bool): string {
    if isAbsolute(raw) then "<absolute-path-redacted>" else raw
  }

  function At(accounts: seq<Account>, positions: seq<nat>): (r: seq<Account>)
    requires forall k :: 0 <= k < |positions| ==> positions[k] < |accounts|
    ensures |r| == |positions| && forall k :: 0 <= k < |r| ==> r[k] == accounts[positions[k]]
  {
    seq(|positions|, k requires 0 <= k < |positions| => accounts[positions[k]])
  }

  /** The weights of the eligible accounts are `ws`. */
  ghost predicate Weighs(
    ws: seq<real>, accounts: seq<Account>, exclude: set<string>, quotas: Option<map<string, Quota>>)
  {
    var e := Eligible(accounts, exclude);
    (forall k :: 0 <= k < |e| ==> e[k] < |accounts|) && AreWeights(ws, At(accounts, e), quotas) && NonNegative(ws)
  }

  /** The candidate is account `a` at position `i`, which is not excluded by digest or path. */
  predicate Names(c: Candidate, a: Account, i: nat, exclude: set<string>, isAbsolute: string -> bool) {
    && a.sha8 !in exclude && a.resolvedPath !in exclude
    && c.authRef == a.resolvedPath && c.index == i && c.weight == a.weight
    && c.sourceRef == if isAbsolute(a.rawPath) then "<absolute-path-redacted>" else a.rawPath
  }

  /** The candidate is the account in whose slice the draw lands, at its position in the pool. */
  ghost predicate Picks(
    c: Candidate, ws: seq<real>, draw: nat, k: nat, accounts: seq<Account>, exclude: set<string>,
    isAbsolute: string -> bool)
  {
    && k < |ws| == |Eligible(accounts, exclude)| && Lands(ws, draw, k)
    && var i := Eligible(accounts, exclude)[k];
       i < |accounts| && Names(c, accounts[i], i, exclude, isAbsolute)
  }

  /** The account a draw selects: the one at the reported position, never an excluded one,
      and its slice is where the draw lands.  Refused exactly when there is nobody to pick
      or no weight left. */
  method Select(accounts: seq<Account>, exclude: set<string>, quotas: Option<map<string, Quota>>,
                isAbsolute: string -> bool, draw: nat)
    returns (r: Selection, ghost ws: seq<real>)
    requires draw < DRAWS
    ensures Weighs(ws, accounts, exclude, quotas)
    ensures r == Refused(NoneEligible) <==>
      forall a <- accounts :: a.sha8 in exclude || a.resolvedPath in exclude
    ensures r.Refused? <==> Total(ws) == 0.0
    ensures r.Picked? ==> exists k: nat :: Picks(r.candidate, ws, draw, k, accounts, exclude, isAbsolute)
  {
    var eligible := Eligible(accounts, exclude);
    EligibleIsExact(accounts, exclude);
    assert forall k :: 0 <= k < |eligible| ==> eligible[k] in eligible;
    var weights := ComputeRawWeights(At(accounts, eligible), quotas);
    ws := weights;
    SumGrows(ws, 0, |ws|);
    NoneEligibleIff(accounts, exclude);
    if eligible == [] { return Refused(NoneEligible), ws; }
    if Total(weights) <= 0.0 {
      return Refused(ZeroTotal), ws;
    }
    var k := Sample(weights, draw);
    var i := eligible[k];
    assert i in eligible;
    var a := accounts[i];
    r := Picked(Candidate(a.resolvedPath, SafeRef(a.rawPath, isAbsolute), i, a.weight));
    assert Picks(r.candidate, ws, draw, k, accounts, exclude, isAbsolute);
  }

  // ---- how many draws land ---------------------------------------------------------

  /** Draws below `limit` that land in slice `i`. */
  function Hits(ws: seq<real>, i: nat, limit: nat): nat {
    if limit == 0 then 0 else Hits(ws, i, limit - 1) + if Lands(ws, limit - 1, i) then 1 else 0
  }

  /** Naturals below both `x` and `limit`. */
  function Below(x: real, limit: nat): nat {
    if limit == 0 then 0 else Below(x, limit - 1) + if (limit - 1) as real < x then 1 else 0
  }

  lemma {:induction false} BelowRoundsUp(x: real, limit: nat)
    requires 0.0 <= x
    ensures x <= limit as real ==> x <= Below(x, limit) as real < x + 1.0
    ensures x > limit as real ==> Below(x, limit) == limit
  {
    if limit > 0 { BelowRoundsUp(x, limit - 1); }
  }

  /** Where slice `i` starts, measured in draws. */
  function Start(ws: seq<real>, i: nat): real
    requires i <= |ws| && Total(ws) > 0.0
  {
    Div(Mul(Sum(ws, i), DRAWS as real), Total(ws))
  }

  lemma PointVersusSum(d: real, n: real, total: real, sum: real)
    requires n > 0.0 && total > 0.0
    ensures Mul(Div(d, n), total) < sum <==> d < Div(Mul(sum, n), total)
  {
    var u, s := Div(d, n), Div(Mul(sum, n), total);
    MulOrder(Mul(u, total), sum, n);
    MulSwap(u, total, n);
    DivMul(d, n);
    DivMul(Mul(sum, n), total);
    MulOrder(d, s, total);
  }

  /** A draw lands in slice `i` exactly when it lies between the starts of `i` and `i + 1`. */
  lemma LandsBetweenStarts(ws: seq<real>, i: nat, draw: nat)
    requires i < |ws| && Total(ws) > 0.0
    ensures Lands(ws, draw, i) <==> Start(ws, i) <= draw as real < Start(ws, i + 1)
  {
    PointVersusSum(draw as real, DRAWS as real, Total(ws), Sum(ws, i));
    PointVersusSum(draw as real, DRAWS as real, Total(ws), Sum(ws, i + 1));
  }

  lemma StartGrows(ws: seq<real>, i: nat)
    requires i < |ws| && NonNegative(ws) && Total(ws) > 0.0
    ensures Start(ws, i) <= Start(ws, i + 1)
  {
    SumGrows(ws, i, i + 1);
    ScaledMonotone(Sum(ws, i), Sum(ws, i + 1), DRAWS as real, Total(ws));
  }

  lemma ScaledMonotone(x: real, y: real, n: real, total: real)
    requires x <= y && n > 0.0 && total > 0.0
    ensures Div(Mul(x, n), total) <= Div(Mul(y, n), total)
  {
    MulOrder(y, x, n);
    DivMul(Mul(x, n), total);
    DivMul(Mul(y, n), total);
    MulOrder(Div(Mul(y, n), total), Div(Mul(x, n), total), total);
  }

  lemma {:induction false} HitsAreADifference(ws: seq<real>, i: nat, limit: nat)
    requires i < |ws| && NonNegative(ws) && Total(ws) > 0.0
    ensures Hits(ws, i, limit) == Below(Start(ws, i + 1), limit) - Below(Start(ws, i), limit)
  {
    if limit > 0 {
      HitsAreADifference(ws, i, limit - 1);
      LandsBetweenStarts(ws, i, limit - 1);
      StartGrows(ws, i);
    }
  }

  lemma StartInRange(ws: seq<real>, i: nat)
    requires i <= |ws| && NonNegative(ws) && Total(ws) > 0.0
    ensures 0.0 <= Start(ws, i) <= DRAWS as real
    ensures Start(ws, 0) == 0.0 && Start(ws, |ws|) == DRAWS as real
  {
    SumGrows(ws, 0, i);
    SumGrows(ws, i, |ws|);
    ScaleIntoRange(Sum(ws, i), DRAWS as real, Total(ws));
  }

  lemma ScaleIntoRange(sum: real, n: real, total: real)
    requires 0.0 <= sum <= total && n > 0.0 && total > 0.0
    ensures 0.0 <= Div(Mul(sum, n), total) <= n && Div(Mul(total, n), total) == n && Div(Mul(0.0, n), total) == 0.0
  {
    ScaledMonotone(0.0, sum, n, total);
    ScaledMonotone(sum, total, n, total);
    MulUnits(n);
    MulUnits(total);
    MulCommutes(total, n);
    SameQuotient(Mul(total, n), total, n);
    SameQuotient(Mul(0.0, n), total, 0.0);
  }

  lemma SameQuotient(x: real, y: real, q: real)
    requires y > 0.0 && x == Mul(q, y)
    ensures Div(x, y) == q
  {
    DivMul(x, y);
    MulOrder(Div(x, y), q, y);
    MulOrder(q, Div(x, y), y);
  }

  /** Of all draws, the number that picks account `i` is its exact share, rounded up or
      down, and none if its weight is zero. */
  lemma SharesAreExact(ws: seq<real>, i: nat)
    requires i < |ws| && NonNegative(ws) && Total(ws) > 0.0
    ensures var share := Div(Mul(ws[i], DRAWS as real), Total(ws));
      share - 1.0 < Hits(ws, i, DRAWS) as real < share + 1.0
    ensures ws[i] == 0.0 ==> Hits(ws, i, DRAWS) == 0
  {
    HitsAreADifference(ws, i, DRAWS);
    StartInRange(ws, i);
    StartInRange(ws, i + 1);
    BelowRoundsUp(Start(ws, i), DRAWS);
    BelowRoundsUp(Start(ws, i + 1), DRAWS);
    ShareIsDifference(Sum(ws, i), ws[i], DRAWS as real, Total(ws));
  }

  lemma ShareIsDifference(sum: real, w: real, n: real, total: real)
    requires total > 0.0
    ensures Div(Mul(sum + w, n), total) - Div(Mul(sum, n), total) == Div(Mul(w, n), total)
  {
    var a, b := Div(Mul(sum, n), total), Div(Mul(w, n), total);
    MulPlus(sum, w, n);
    DivMul(Mul(sum, n), total);
    DivMul(Mul(w, n), total);
    MulPlus(a, b, total);
    SameQuotient(Mul(sum + w, n), total, a + b);
  }

  function AllHits(ws: seq<real>, n: nat): nat
    requires n <= |ws|
  {
    if n == 0 then 0 else AllHits(ws, n - 1) + Hits(ws, n - 1, DRAWS)
  }

  lemma {:induction false} HitsAddUp(ws: seq<real>, n: nat)
    requires n <= |ws| && NonNegative(ws) && Total(ws) > 0.0
    ensures AllHits(ws, n) == Below(Start(ws, n), DRAWS)
  {
    if n == 0 {
      StartInRange(ws, 0);
      BelowRoundsUp(0.0, DRAWS);
    } else {
      HitsAddUp(ws, n - 1);
      HitsAreADifference(ws, n - 1, DRAWS);
    }
  }

  /** The slices share out all draws. */
  lemma NoDrawIsLost(ws: seq<real>)
    requires NonNegative(ws) && Total(ws) > 0.0
    ensures AllHits(ws, |ws|) == DRAWS
  {
    HitsAddUp(ws, |ws|);
    StartInRange(ws, |ws|);
    BelowRoundsUp(DRAWS as real, DRAWS);
  }
}
