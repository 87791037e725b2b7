/**
  Apportioning trip days among cities: services/multi_city_optimizer_simple.py and
  services/multi_city_optimizer.py, `_distribute_days_among_cities` and
  `_distribute_days_among_countries`.  Quotas are exact rationals.
 */
module Apportionment {
  import opened Sequences
  import opened Cities

  /** Python's `round(num / den)`: the nearest integer, and the even one of two nearest. */
  function RoundHalfEven(num: int, den: int): (r: int)
    requires den > 0
    ensures -den <= 2 * (num - r * den) <= den
    ensures 2 * (num - r * den) == den || 2 * (num - r * den) == -den ==> r % 2 == 0
  {
    var q, rem := num / den, num % den;
    assert num == q * den + rem;
    assert (q + 1) * den == q * den + den;
    if 2 * rem < den || (2 * rem == den && q % 2 == 0) then q else q + 1
  }

  lemma MulLe(a: int, b: int, c: int)
    requires a <= b && c >= 0
    ensures a * c <= b * c
  {
  }

  lemma MulRegroup(a: int, b: int, c: int)
    ensures (a * b) * c == a * (b * c) == b * (a * c)
  {
  }

  /** A larger quotient never rounds lower. */
  lemma RoundIsMonotone(a: int, b: int, den: int)
    requires den > 0 && a <= b
    ensures RoundHalfEven(a, den) <= RoundHalfEven(b, den)
  {
    OrderedRounding(a, b, den, RoundHalfEven(a, den), RoundHalfEven(b, den));
  }

  lemma OrderedRounding(a: int, b: int, den: int, r: int, r': int)
    requires den > 0 && a <= b
    requires -den <= 2 * (a - r * den) && (2 * (a - r * den) == -den ==> r % 2 == 0)
    requires 2 * (b - r' * den) <= den && (2 * (b - r' * den) == den ==> r' % 2 == 0)
    ensures r <= r'
  {
    assert (r' + 2) * den == r' * den + 2 * den;
    assert (r' + 1) * den == r' * den + den;
    if r' + 2 <= r {
      MulLe(r' + 2, r, den);
    }
  }

  /** The days a weight earns out of total before the correction. */
  function Share(w: nat, weight: nat, total: int): int
    requires weight > 0
  {
    var r := RoundHalfEven(w * total, weight);
    if r < 1 then 1 else r
  }

  function Shares(ws: seq<nat>, weight: nat, total: int): (shares: seq<int>)
    requires weight > 0
    ensures |shares| == |ws| && forall i | 0 <= i < |ws| :: shares[i] == Share(ws[i], weight, total)
  {
    seq(|ws|, i requires 0 <= i < |ws| => Share(ws[i], weight, total))
  }

  /** Before the correction, a larger weight never gets fewer days. */
  lemma SharesAreMonotone(w: nat, v: nat, weight: nat, total: nat)
    requires weight > 0 && w <= v
    ensures Share(w, weight, total) <= Share(v, weight, total)
  {
    assert w * total <= v * total;
    RoundIsMonotone(w * total, v * total, weight);
  }

  predicate Positive(ws: seq<nat>) {
    forall i | 0 <= i < |ws| :: ws[i] > 0
  }

  lemma {:induction false} PositiveSum(ws: seq<nat>)
    requires Positive(ws)
    ensures Sum(ws) >= |ws|
  {
    if ws != [] {
      var rest := ws[..|ws| - 1];
      PositiveSum(rest);
      assert ws[|rest|] > 0;
    }
  }

  /** The first index of the largest weight: what Python's `max` over the dictionary returns. */
  predicate IsTop(ws: seq<nat>, top: int) {
    && 0 <= top < |ws|
    && (forall i | 0 <= i < |ws| :: ws[i] <= ws[top])
    && (forall i | 0 <= i < top :: ws[i] < ws[top])
  }

  function Top(ws: seq<nat>): (top: nat)
    requires ws != []
    ensures IsTop(ws, top)
  {
    if |ws| == 1 then 0
    else
      var top := Top(ws[..|ws| - 1]);
      if ws[|ws| - 1] > ws[top] then |ws| - 1 else top
  }

  lemma TopIsUnique(ws: seq<nat>, i: int, j: int)
    requires IsTop(ws, i) && IsTop(ws, j)
    ensures i == j
  {
    assert ws[i] <= ws[j] && ws[j] <= ws[i];
  }

  /** The days of every weight: its share, and for the top weight what the others leave of the total. */
  function Apportion(ws: seq<nat>, total: int): (days: seq<int>)
    requires ws != [] && Positive(ws)
    ensures |days| == |ws|
  {
    PositiveSum(ws);
    var shares := Shares(ws, Sum(ws), total);
    shares[Top(ws) := shares[Top(ws)] + (total - Sum(shares))]
  }

  /** What the shares of all weights but the top one add up to. */
  function OthersTotal(ws: seq<nat>, total: int): int
    requires ws != [] && Positive(ws)
  {
    PositiveSum(ws);
    Sum(Without(Shares(ws, Sum(ws), total), Top(ws)))
  }

  /** The apportionment always adds up to the total, and only the top weight is corrected. */
  lemma ApportionSums(ws: seq<nat>, total: int)
    requires ws != [] && Positive(ws)
    ensures Sum(Apportion(ws, total)) == total
    ensures Apportion(ws, total)[Top(ws)] == total - OthersTotal(ws, total)
    ensures forall i | 0 <= i < |ws| && i != Top(ws) ::
      Sum(ws) > 0 && Apportion(ws, total)[i] == Share(ws[i], Sum(ws), total)
  {
    PositiveSum(ws);
    var shares, top := Shares(ws, Sum(ws), total), Top(ws);
    var days := Apportion(ws, total);
    SumSplits(shares, top);
    SumSplits(days, top);
    assert Without(days, top) == Without(shares, top);
  }

  /** Every city gets at least one day exactly when the others leave one for the top city. */
  lemma AllGetADay(ws: seq<nat>, total: int)
    requires ws != [] && Positive(ws)
    ensures (forall i | 0 <= i < |ws| :: Apportion(ws, total)[i] >= 1) <==> OthersTotal(ws, total) < total
  {
    ApportionSums(ws, total);
  }

  // ---------- How many days are enough ----------

  /** The quota of w exceeds one half. */
  predicate IsBig(w: nat, weight: nat, total: nat) {
    2 * (w * total) > weight
  }

  function BigCount(ws: seq<nat>, weight: nat, total: nat): nat {
    if ws == [] then 0
    else BigCount(ws[..|ws| - 1], weight, total) + (if IsBig(ws[|ws| - 1], weight, total) then 1 else 0)
  }

  function BigWeight(ws: seq<nat>, weight: nat, total: nat): nat {
    if ws == [] then 0
    else BigWeight(ws[..|ws| - 1], weight, total) + (if IsBig(ws[|ws| - 1], weight, total) then ws[|ws| - 1] else 0)
  }

  lemma ShareBound(w: nat, weight: nat, total: nat)
    requires weight > 0
    ensures !IsBig(w, weight, total) ==> Share(w, weight, total) == 1
    ensures IsBig(w, weight, total) ==> 2 * (weight * Share(w, weight, total)) <= 2 * (w * total) + weight
  {
    var r := RoundHalfEven(w * total, weight);
    if 2 <= r {
      MulLe(2, r, weight);
    } else if r <= 0 {
      MulLe(r, 0, weight);
    }
  }

  /** The bound on the sum of n shares of which m, with weights adding to b, are big. */
  predicate Bounded(weight: nat, total: nat, sum: int, b: int, m: int, n: int) {
    2 * (weight * sum) <= 2 * (total * b) + weight * m + 2 * (weight * (n - m))
  }

  lemma BigShare(weight: nat, total: nat, w: nat, share: int, sum: int, b: int, m: int, n: int)
    requires Bounded(weight, total, sum, b, m, n)
    requires 2 * (weight * share) <= 2 * (w * total) + weight
    ensures Bounded(weight, total, sum + share, b + w, m + 1, n + 1)
  {
    assert weight * (sum + share) == weight * sum + weight * share;
    assert total * (b + w) == total * b + w * total;
    assert weight * (m + 1) == weight * m + weight;
  }

  lemma SmallShare(weight: nat, total: nat, sum: int, b: int, m: int, n: int)
    requires Bounded(weight, total, sum, b, m, n)
    ensures Bounded(weight, total, sum + 1, b, m, n + 1)
  {
    assert weight * (sum + 1) == weight * sum + weight;
    assert weight * (n + 1 - m) == weight * (n - m) + weight;
  }

  lemma {:induction false} SharesBound(ws: seq<nat>, weight: nat, total: nat)
    requires weight > 0
    ensures Bounded(weight, total, Sum(Shares(ws, weight, total)), BigWeight(ws, weight, total), BigCount(ws, weight, total), |ws|)
  {
    var shares := Shares(ws, weight, total);
    if ws != [] {
      var w, rest := ws[|ws| - 1], ws[..|ws| - 1];
      SharesBound(rest, weight, total);
      ShareBound(w, weight, total);
      var before := Shares(rest, weight, total);
      assert shares[..|rest|] == before;
      var b, m := BigWeight(rest, weight, total), BigCount(rest, weight, total);
      if IsBig(w, weight, total) {
        BigShare(weight, total, w, Share(w, weight, total), Sum(before), b, m, |rest|);
      } else {
        SmallShare(weight, total, Sum(before), b, m, |rest|);
      }
    }
  }

  lemma {:induction false} BigOnes(ws: seq<nat>, weight: nat, total: nat, most: nat)
    requires forall i | 0 <= i < |ws| :: ws[i] <= most
    ensures BigCount(ws, weight, total) <= |ws|
    ensures BigWeight(ws, weight, total) <= BigCount(ws, weight, total) * most
    ensures BigWeight(ws, weight, total) <= Sum(ws)
  {
    if ws != [] {
      var rest := ws[..|ws| - 1];
      BigOnes(rest, weight, total, most);
      assert ws[|rest|] <= most;
      assert (BigCount(rest, weight, total) + 1) * most == BigCount(rest, weight, total) * most + most;
    }
  }

  /**
    More than n(n-1)/2 days are enough for n cities: every city, the corrected one included, keeps at
    least one.
   */
  lemma EnoughDays(ws: seq<nat>, total: int)
    requires ws != [] && Positive(ws)
    requires 2 * total > |ws| * (|ws| - 1)
    ensures forall i | 0 <= i < |ws| :: Apportion(ws, total)[i] >= 1
  {
    MulLe(0, |ws| - 1, |ws|);
    OthersFit(ws, total);
    AllGetADay(ws, total);
  }

  lemma OthersFit(ws: seq<nat>, total: nat)
    requires ws != [] && Positive(ws)
    requires 2 * total > |ws| * (|ws| - 1)
    ensures OthersTotal(ws, total) < total
  {
    PositiveSum(ws);
    var top, weight := Top(ws), Sum(ws);
    var others: seq<nat> := Without(ws, top);
    assert Shares(others, weight, total) == Without(Shares(ws, weight, total), top);
    SumSplits(ws, top);
    SharesBound(others, weight, total);
    BigOnes(others, weight, total, ws[top]);
    OthersLeaveADay(|ws|, total, weight, ws[top], BigWeight(others, weight, total), BigCount(others, weight, total), OthersTotal(ws, total));
  }

  lemma OthersLeaveADay(n: nat, total: nat, weight: nat, most: nat, b: nat, m: nat, others: int)
    requires n > 0 && weight > 0 && m <= n - 1
    requires 2 * total > n * (n - 1)
    requires b <= m * most && b + most <= weight
    requires Bounded(weight, total, others, b, m, n - 1)
    ensures others < total
  {
    var s, rest := n - 1 - m, weight - b;
    FewestDays(n, m, s);
    if total <= others {
      BigPart(weight, most, b, m);
      OthersTakeAll(weight, total, others, b, m, s);
      NeededDays(total, weight, rest, m + 1, m + 2 * s, n * (n - 1));
    }
  }

  /** The top city's weight is at least its part of what the big ones leave. */
  lemma BigPart(weight: nat, most: nat, b: nat, m: nat)
    requires b <= m * most && b + most <= weight
    ensures weight <= (m + 1) * (weight - b)
  {
    MulLe(most, weight - b, m);
    assert (m + 1) * (weight - b) == m * (weight - b) + (weight - b);
  }

  lemma OthersTakeAll(weight: nat, total: nat, others: int, b: nat, m: nat, s: nat)
    requires total <= others && b <= weight
    requires Bounded(weight, total, others, b, m, m + s)
    ensures 2 * (total * (weight - b)) <= weight * (m + 2 * s)
  {
    MulLe(total, others, weight);
    assert weight * total == total * b + total * (weight - b);
    assert weight * (m + 2 * s) == weight * m + 2 * (weight * s);
  }

  lemma FewestDays(n: nat, m: nat, s: nat)
    requires n == m + s + 1
    ensures (m + 1) * (m + 2 * s) <= n * (n - 1)
  {
    assert (m + 1 + s) * (m + s) == (m + 1) * (m + s) + s * (m + s);
    assert (m + 1) * (m + 2 * s) == (m + 1) * (m + s) + (m + 1) * s;
    if s > 0 {
      MulLe(m + 1, m + s, s);
    }
  }

  lemma MulCancel(a: int, b: int, c: int)
    requires c > 0 && a * c <= b * c
    ensures a <= b
  {
    assert (b + 1) * c == b * c + c;
    if a > b {
      MulLe(b + 1, a, c);
    }
  }

  lemma NeededDays(total: int, weight: int, rest: int, part: int, count: int, bound: int)
    requires total >= 0 && weight > 0 && part >= 0
    requires weight <= part * rest
    requires 2 * (total * rest) <= weight * count
    requires part * count <= bound
    ensures 2 * total <= bound
  {
    MulLe(weight, part * rest, total);
    MulRegroup(part, rest, total);
    MulLe(2 * (total * rest), weight * count, part);
    MulRegroup(weight, count, part);
    MulLe(part * count, bound, weight);
    assert 2 * (total * rest) * part == 2 * ((total * rest) * part);
    assert (total * rest) * part == part * (rest * total);
    assert (weight * count) * part == (part * count) * weight;
    assert 2 * total * weight == 2 * (weight * total);
    MulCancel(2 * total, bound, weight);
  }

  // ---------- The bound cannot be lowered ----------

  lemma RoundingIsUnique(num: int, den: int, r: int)
    requires den > 0
    requires -den <= 2 * (num - r * den) <= den
    requires 2 * (num - r * den) == den || 2 * (num - r * den) == -den ==> r % 2 == 0
    ensures RoundHalfEven(num, den) == r
  {
    OrderedRounding(num, num, den, RoundHalfEven(num, den), r);
    OrderedRounding(num, num, den, r, RoundHalfEven(num, den));
  }

  /** Multiplying all weights by a constant changes no share. */
  lemma ScalingKeepsShares(c: nat, w: nat, weight: nat, total: int)
    requires c > 0 && weight > 0
    ensures c * weight > 0 && Share(c * w, c * weight, total) == Share(w, weight, total)
  {
    var num, r := w * total, RoundHalfEven(w * total, weight);
    MulLe(1, c, weight);
    MulRegroup(c, w, total);
    MulRegroup(r, c, weight);
    var gap := num - r * weight;
    assert (c * w) * total - r * (c * weight) == c * gap by {
      assert c * gap == c * num - c * (r * weight);
      assert r * (c * weight) == c * (r * weight);
    }
    Scaled(c, weight, 2 * gap);
    assert 2 * (c * gap) == c * (2 * gap);
    RoundingIsUnique((c * w) * total, c * weight, r);
  }

  lemma Scaled(c: int, bound: int, x: int)
    requires c > 0
    ensures -bound <= x <= bound ==> -(c * bound) <= c * x <= c * bound
    ensures c * x == c * bound <==> x == bound
    ensures c * x == -(c * bound) <==> x == -bound
  {
    if -bound <= x <= bound {
      MulLe(x, bound, c);
      MulLe(-bound, x, c);
    }
  }

  lemma {:induction false} SumConstant(s: seq<int>, c: int)
    requires forall i | 0 <= i < |s| :: s[i] == c
    ensures Sum(s) == |s| * c
  {
    if s != [] {
      SumConstant(s[..|s| - 1], c);
    }
  }

  lemma EqualOthers(ws: seq<nat>, n: nat, total: int, share: int)
    requires n > 0 && |ws| == n && forall i | 0 <= i < n :: ws[i] == 1
    requires Share(1, n, total) == share
    ensures OthersTotal(ws, total) == (n - 1) * share
  {
    SumConstant(ws, 1);
    var others := Without(Shares(ws, n, total), Top(ws));
    assert forall i | 0 <= i < |others| :: others[i] == share;
    SumConstant(others, share);
  }

  /** Equal cities whose shares leave nothing for the corrected one. */
  lemma NothingLeft(ws: seq<nat>, n: nat, total: int, share: int)
    requires n > 0 && |ws| == n && forall i | 0 <= i < n :: ws[i] == 1
    requires Share(1, n, total) == share && total == (n - 1) * share
    ensures Apportion(ws, total)[Top(ws)] == 0
  {
    EqualOthers(ws, n, total, share);
    ApportionSums(ws, total);
  }

  /** n = 4k equal cities and n(n-1)/2 days leave the corrected city without a day (k = 1: 4 and 6). */
  lemma BoundIsSharp(k: nat, ws: seq<nat>)
    requires k > 0 && |ws| == 4 * k && forall i | 0 <= i < |ws| :: ws[i] == 1
    ensures Apportion(ws, (4 * k - 1) * (2 * k))[Top(ws)] == 0
  {
    EqualShare(k);
    NothingLeft(ws, 4 * k, (4 * k - 1) * (2 * k), 2 * k);
  }

  lemma EqualShare(k: nat)
    requires k > 0
    ensures Share(1, 4 * k, (4 * k - 1) * (2 * k)) == 2 * k
  {
    var total := (4 * k - 1) * (2 * k);
    assert total == 8 * (k * k) - 2 * k;
    assert (2 * k) * (4 * k) == 8 * (k * k);
    assert 1 * total == total;
    RoundingIsUnique(total, 4 * k, 2 * k);
  }

  /**
    Uncorrected shares, as days are given to countries, miss the total by less than one day each.
   */
  lemma SharesNearTotal(ws: seq<nat>, total: nat)
    requires ws != [] && Positive(ws) && total > 0
    ensures Sum(ws) > 0 && total - |ws| < Sum(Shares(ws, Sum(ws), total)) < total + |ws|
  {
    PositiveSum(ws);
    QuotaGap(ws, Sum(ws), total);
    NearIsClose(Sum(ws), total, Sum(Shares(ws, Sum(ws), total)), |ws|);
  }

  lemma NearIsClose(weight: int, total: int, sum: int, n: int)
    requires weight > 0 && Near(weight, total, sum, weight, n)
    ensures total - n < sum < total + n
  {
    assert (total + n) * weight == total * weight + weight * n;
    assert (total - n) * weight == total * weight - weight * n;
    if sum >= total + n {
      MulLe(total + n, sum, weight);
    } else if sum <= total - n {
      MulLe(sum, total - n, weight);
    }
  }

  /** Shares adding to `sum`, for n weights adding to `ws`, miss weight/total's quota by less than n. */
  predicate Near(weight: int, total: int, sum: int, ws: int, n: int) {
    -(weight * n) < weight * sum - total * ws < weight * n
  }

  lemma {:induction false} QuotaGap(ws: seq<nat>, weight: nat, total: nat)
    requires weight > 0 && total > 0 && Positive(ws) && ws != []
    ensures Near(weight, total, Sum(Shares(ws, weight, total)), Sum(ws), |ws|)
  {
    var w, rest := ws[|ws| - 1], ws[..|ws| - 1];
    assert w > 0;
    OneQuotaGap(w, weight, total);
    var before := Shares(rest, weight, total);
    assert Shares(ws, weight, total)[..|rest|] == before;
    if rest != [] {
      assert Positive(rest);
      QuotaGap(rest, weight, total);
      NearAdds(weight, total, Sum(before), Sum(rest), |rest|, Share(w, weight, total), w);
    }
  }

  lemma NearAdds(weight: int, total: int, sum: int, ws: int, n: int, share: int, w: int)
    requires Near(weight, total, sum, ws, n) && Near(weight, total, share, w, 1)
    ensures Near(weight, total, sum + share, ws + w, n + 1)
  {
    assert weight * (sum + share) == weight * sum + weight * share;
    assert total * (ws + w) == total * ws + total * w;
    assert weight * (n + 1) == weight * n + weight * 1;
  }

  lemma OneQuotaGap(w: nat, weight: nat, total: nat)
    requires w > 0 && weight > 0 && total > 0
    ensures Near(weight, total, Share(w, weight, total), w, 1)
  {
    MulLe(1, w, total);
    var r, quota := RoundHalfEven(w * total, weight), w * total;
    assert total * w == quota && weight * 1 == weight;
    if r < 1 {
      MulLe(r, 0, weight);
    } else {
      assert weight * r == r * weight;
    }
  }

  // ---------- When uncorrected shares add up ----------

  /** How many weights get more than the whole days of their quota. */
  function RoundedUp(ws: seq<nat>, weight: nat, total: nat): nat
    requires weight > 0
  {
    if ws == [] then 0
    else
      var w := ws[|ws| - 1];
      RoundedUp(ws[..|ws| - 1], weight, total) + if Share(w, weight, total) > w * total / weight then 1 else 0
  }

  /** What is left of the quotas beyond whole days, in parts of a day. */
  function Parts(ws: seq<nat>, weight: nat, total: nat): nat
    requires weight > 0
  {
    if ws == [] then 0 else Parts(ws[..|ws| - 1], weight, total) + ws[|ws| - 1] * total % weight
  }

  lemma ShareAndPart(w: nat, weight: nat, total: nat)
    requires weight > 0 && total > 0 && w > 0
    ensures weight * Share(w, weight, total)
      == total * w - w * total % weight + if Share(w, weight, total) > w * total / weight then weight else 0
  {
    var quota := w * total;
    var down, part := quota / weight, quota % weight;
    MulLe(1, w, total);
    assert quota == total * w && quota == down * weight + part;
    var r := RoundHalfEven(quota, weight);
    if r > down + 1 {
      MulLe(down + 2, r, weight);
    } else if r < down {
      MulLe(r, down - 1, weight);
    }
    assert weight * down == down * weight && weight * (down + 1) == weight * down + weight;
    assert 0 <= down;
  }

  lemma {:induction false} SharesAndParts(ws: seq<nat>, weight: nat, total: nat)
    requires weight > 0 && total > 0 && Positive(ws)
    ensures weight * Sum(Shares(ws, weight, total)) == total * Sum(ws) - Parts(ws, weight, total) + weight * RoundedUp(ws, weight, total)
  {
    if ws != [] {
      var init, w := ws[..|ws| - 1], ws[|ws| - 1];
      assert w > 0;
      SharesAndParts(init, weight, total);
      ShareAndPart(w, weight, total);
      assert Shares(ws, weight, total)[..|init|] == Shares(init, weight, total);
      var share, up := Share(w, weight, total), if Share(w, weight, total) > w * total / weight then 1 else 0;
      Distribute(weight, Sum(Shares(init, weight, total)), share);
      Distribute(weight, RoundedUp(init, weight, total), up);
      Distribute(total, Sum(init), w);
    }
  }

  lemma Distribute(a: int, b: int, c: int)
    ensures a * (b + c) == a * b + a * c
  {
  }

  /** Uncorrected shares add up to the total if and only if as many are rounded up as whole days are left of the quotas. */
  lemma SharesAddUpIff(ws: seq<nat>, total: nat)
    requires ws != [] && Positive(ws) && total > 0
    ensures Sum(ws) > 0
    ensures Sum(Shares(ws, Sum(ws), total)) == total <==> Sum(ws) * RoundedUp(ws, Sum(ws), total) == Parts(ws, Sum(ws), total)
  {
    PositiveSum(ws);
    var weight, sum := Sum(ws), Sum(Shares(ws, Sum(ws), total));
    SharesAndParts(ws, weight, total);
    assert total * weight == weight * total;
    if weight * sum == weight * total {
      MulCancelEq(weight, sum, total);
    }
  }

  lemma MulCancelEq(c: int, a: int, b: int)
    requires c > 0 && c * a == c * b
    ensures a == b
  {
    Distribute(c, a, b - a);
    assert c * (b - a) == 0;
  }

  lemma {:induction false} WholeQuotas(ws: seq<nat>, weight: nat, total: nat)
    requires weight > 0 && total > 0 && Positive(ws) && forall i | 0 <= i < |ws| :: ws[i] * total % weight == 0
    ensures RoundedUp(ws, weight, total) == 0 && Parts(ws, weight, total) == 0
  {
    if ws != [] {
      var w := ws[|ws| - 1];
      assert w > 0 && w * total % weight == 0;
      WholeQuotas(ws[..|ws| - 1], weight, total);
      WholeQuota(w, weight, total);
    }
  }

  lemma WholeQuota(w: nat, weight: nat, total: nat)
    requires weight > 0 && total > 0 && w > 0 && w * total % weight == 0
    ensures Share(w, weight, total) == w * total / weight
  {
    MulLe(1, w, total);
    var down := w * total / weight;
    assert w * total == down * weight;
    RoundingIsUnique(w * total, weight, down);
    if down < 1 {
      MulLe(down, 0, weight);
    }
  }
}
