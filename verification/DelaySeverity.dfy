/** How late overdue items are: counts, rounded averages and maxima in four bands. */
module DelaySeverity {

  datatype Bucket = UnderOneWeek | OneToTwoWeeks | TwoToFourWeeks | OverFourWeeks {
    function Label(): string {
      match this
      case UnderOneWeek => "< 1 week"
      case OneToTwoWeeks => "1\U{2013}2 weeks"
      case TwoToFourWeeks => "2\U{2013}4 weeks"
      case OverFourWeeks => "> 4 weeks"
    }
  }

  const ALL := [UnderOneWeek, OneToTwoWeeks, TwoToFourWeeks, OverFourWeeks]

  function BucketOf(daysLate: int): Bucket {
    if daysLate <= 7 then UnderOneWeek
    else if daysLate <= 14 then OneToTwoWeeks
    else if daysLate <= 28 then TwoToFourWeeks
    else OverFourWeeks
  }

  /** The days each band holds; its top day is in it. */
  predicate InBand(b: Bucket, daysLate: int) {
    match b
    case UnderOneWeek => daysLate <= 7
    case OneToTwoWeeks => 7 < daysLate <= 14
    case TwoToFourWeeks => 14 < daysLate <= 28
    case OverFourWeeks => 28 < daysLate
  }

  lemma BucketIsItsBand(daysLate: int, b: Bucket)
    ensures BucketOf(daysLate) == b <==> InBand(b, daysLate)
  {
  }

  function Index(b: Bucket): (i: nat)
    ensures i < 4 && ALL[i] == b
  {
    match b
    case UnderOneWeek => 0
    case OneToTwoWeeks => 1
    case TwoToFourWeeks => 2
    case OverFourWeeks => 3
  }

  datatype Severity = Severity(caption: string, count: int, avgDays: int, maxDays: int)

  /** Division as the machine does it, towards zero. */
  function TruncDiv(a: int, b: int): int
    requires b > 0
  {
    if a >= 0 then a / b else -(-a / b)
  }

  function RoundDiv(sum: int, count: int): int
    requires count > 0
  {
    TruncDiv(sum * 2 + count, count * 2)
  }

  /** The items of one bucket, in order. */
  function Items(days: seq<int>, b: Bucket): seq<int> {
    if days == [] then []
    else
      var rest, last := Items(days[..|days| - 1], b), days[|days| - 1];
      if BucketOf(last) == b then rest + [last] else rest
  }

  function Sum(s: seq<int>): int {
    if s == [] then 0 else Sum(s[..|s| - 1]) + s[|s| - 1]
  }

  /** The largest item, but never less than zero. */
  function Max(s: seq<int>): (m: int)
    ensures m >= 0 && (forall x :: x in s ==> x <= m) && (m == 0 || m in s)
  {
    if s == [] then 0
    else
      var m, last := Max(s[..|s| - 1]), s[|s| - 1];
      assert s == s[..|s| - 1] + [last];
      if last > m then last else m
  }

  function SeverityOf(days: seq<int>, b: Bucket): Severity {
    var items := Items(days, b);
    Severity(b.Label(), |items|, if |items| > 0 then RoundDiv(Sum(items), |items|) else 0, Max(items))
  }

  lemma Appended(s: seq<int>, x: int)
    ensures Sum(s + [x]) == Sum(s) + x && Max(s + [x]) == if x > Max(s) then x else Max(s)
  {
    assert (s + [x])[..|s|] == s;
  }

  predicate Totals(items: seq<int>, count: int, sum: int, max: int) {
    count == |items| && sum == Sum(items) && max == Max(items)
  }

  /** The running totals of the four buckets after the items in `days`. */
  ghost predicate Tallied(days: seq<int>, counts: seq<int>, sums: seq<int>, maxes: seq<int>) {
    && |counts| == |sums| == |maxes| == 4
    && forall b :: Totals(Items(days, b), counts[Index(b)], sums[Index(b)], maxes[Index(b)])
  }

  lemma TotalsGrow(days: seq<int>, n: nat, b: Bucket, count: int, sum: int, max: int)
    requires n < |days| && Totals(Items(days[..n], b), count, sum, max)
    ensures var x, items := days[n], Items(days[..n + 1], b);
      if BucketOf(x) == b then Totals(items, count + 1, sum + x, if x > max then x else max)
      else Totals(items, count, sum, max)
  {
    assert days[..n + 1][..n] == days[..n];
    Appended(Items(days[..n], b), days[n]);
  }

  /** Adding item `n` to the totals of its bucket, which is the one at `i`. */
  lemma TallyGrows(days: seq<int>, n: nat, i: nat, counts: seq<int>, sums: seq<int>, maxes: seq<int>)
    requires n < |days| && i == Index(BucketOf(days[n])) && Tallied(days[..n], counts, sums, maxes)
    ensures Tallied(days[..n + 1], counts[i := counts[i] + 1], sums[i := sums[i] + days[n]],
      maxes[i := if days[n] > maxes[i] then days[n] else maxes[i]])
  {
    forall b {
      TotalsGrow(days, n, b, counts[Index(b)], sums[Index(b)], maxes[Index(b)]);
    }
    assert forall b :: Index(b) == i <==> b == BucketOf(days[n]) by {
      assert forall b :: ALL[Index(b)] == b;
    }
  }

  method Tally(daysLate: seq<int>) returns (counts: array<int>, sums: array<int>, maxes: array<int>)
    ensures Tallied(daysLate, counts[..], sums[..], maxes[..])
  {
    counts, sums, maxes := new int[4](_ => 0), new int[4](_ => 0), new int[4](_ => 0);
    for n := 0 to |daysLate|
      invariant Tallied(daysLate[..n], counts[..], sums[..], maxes[..])
    {
      var days := daysLate[n];
      var i := Index(BucketOf(days));
      ghost var c, s, m := counts[..], sums[..], maxes[..];
      TallyGrows(daysLate, n, i, c, s, m);
      counts[i] := counts[i] + 1;
      sums[i] := sums[i] + days;
      maxes[i] := if days > maxes[i] then days else maxes[i];
      assert counts[..] == c[i := c[i] + 1] && sums[..] == s[i := s[i] + days];
      assert maxes[..] == m[i := if days > m[i] then days else m[i]];
    }
    assert daysLate[..|daysLate|] == daysLate;
  }

  method Chart(daysLate: seq<int>) returns (chart: seq<Severity>)
    ensures |chart| == 4
    ensures forall b :: chart[Index(b)] == SeverityOf(daysLate, b)
    ensures chart == [SeverityOf(daysLate, UnderOneWeek), SeverityOf(daysLate, OneToTwoWeeks),
      SeverityOf(daysLate, TwoToFourWeeks), SeverityOf(daysLate, OverFourWeeks)]
    ensures chart[0].caption == "< 1 week" && chart[1].caption == "1\U{2013}2 weeks"
    ensures chart[2].caption == "2\U{2013}4 weeks" && chart[3].caption == "> 4 weeks"
  {
    var counts, sums, maxes := Tally(daysLate);
    chart := [];
    for i := 0 to 4
      invariant |chart| == i
      invariant forall b :: Index(b) < i ==> chart[Index(b)] == SeverityOf(daysLate, b)
    {
      assert Index(ALL[i]) == i && forall b :: Index(b) == i ==> b == ALL[i];
      assert Totals(Items(daysLate, ALL[i]), counts[..][i], sums[..][i], maxes[..][i]);
      var avgDays := if counts[i] > 0 then RoundDiv(sums[i], counts[i]) else 0;
      chart := chart + [Severity(ALL[i].Label(), counts[i], avgDays, maxes[i])];
    }
  }

  // ----- Every item is in one bucket -----

  lemma {:induction false} ItemsBelong(days: seq<int>, b: Bucket)
    ensures forall x :: x in Items(days, b) <==> x in days && BucketOf(x) == b
  {
    if days != [] {
      var front, last := days[..|days| - 1], days[|days| - 1];
      assert days == front + [last];
      ItemsBelong(front, b);
    }
  }

  lemma {:induction false} CountsAddUp(days: seq<int>)
    ensures |Items(days, UnderOneWeek)| + |Items(days, OneToTwoWeeks)|
      + |Items(days, TwoToFourWeeks)| + |Items(days, OverFourWeeks)| == |days|
  {
    if days != [] {
      CountsAddUp(days[..|days| - 1]);
    }
  }

  /** A row counts the items, each time one is listed, whose days lie in its band. */
  lemma CountIsHowMany(days: seq<int>, b: Bucket)
    ensures SeverityOf(days, b).count == |set i | 0 <= i < |days| && InBand(b, days[i])|
  {
    ItemsAreThoseInBand(days, b);
  }

  ghost function PlacesInBand(days: seq<int>, b: Bucket): set<int> {
    set i | 0 <= i < |days| && InBand(b, days[i])
  }

  lemma PlacesGrow(front: seq<int>, last: int, b: Bucket)
    ensures PlacesInBand(front + [last], b) ==
      PlacesInBand(front, b) + if InBand(b, last) then {|front|} else {}
    ensures |PlacesInBand(front + [last], b)| == |PlacesInBand(front, b)| + if InBand(b, last) then 1 else 0
  {
    assert forall i :: 0 <= i < |front| ==> (front + [last])[i] == front[i];
  }

  lemma {:induction false} ItemsAreThoseInBand(days: seq<int>, b: Bucket)
    ensures |Items(days, b)| == |PlacesInBand(days, b)|
  {
    if days != [] {
      var front, last := days[..|days| - 1], days[|days| - 1];
      assert days == front + [last];
      ItemsAreThoseInBand(front, b);
      PlacesGrow(front, last, b);
      BucketIsItsBand(last, b);
    }
  }

  // ----- Averages -----

  /** The rounded quotient is within half of the true one exactly when it is not pulled up towards zero. */
  lemma RoundDivIsNearestIff(sum: int, count: int)
    requires count > 0
    ensures -count <= 2 * count * RoundDiv(sum, count) - 2 * sum <= count <==>
      2 * sum + count >= 0 || (2 * sum + count) % (2 * count) == 0
  {
    var v, w, r := 2 * sum + count, 2 * count, RoundDiv(sum, count);
    if v >= 0 {
      assert v == w * (v / w) + v % w;
    } else {
      assert -v == w * ((-v) / w) + (-v) % w;
      assert w * r == v + (-v) % w;
      NegatedRemainder(v, w);
    }
  }

  lemma NegatedRemainder(v: int, w: int)
    requires w > 0
    ensures (-v) % w == 0 <==> v % w == 0
  {
    assert v == w * (v / w) + v % w;
    assert -v == w * ((-v) / w) + (-v) % w;
    var q := v / w + (-v) / w;
    assert v % w + (-v) % w == -(w * q);
    if v % w == 0 || (-v) % w == 0 {
      assert 0 <= -(w * q) < w;
      Multiples(w, q);
    }
  }

  lemma Multiples(w: int, q: int)
    requires w > 0 && 0 <= -(w * q) < w
    ensures w * q == 0
  {
    if q <= -1 {
      assert w * (-q) >= w by {
        MulAtLeast(w, -q);
      }
    } else if q >= 1 {
      MulAtLeast(w, q);
    }
  }

  lemma MulAtLeast(w: int, k: int)
    requires w > 0 && k >= 1
    ensures w * k >= w
  {
  }

  lemma {:induction false} SumWithin(s: seq<int>, lo: int, hi: int)
    requires forall x :: x in s ==> lo <= x <= hi
    ensures lo * |s| <= Sum(s) <= hi * |s|
  {
    if s != [] {
      var front, last := s[..|s| - 1], s[|s| - 1];
      assert last in s && forall x :: x in front ==> x in s;
      SumWithin(front, lo, hi);
      assert lo * |s| == lo * |front| + lo && hi * |s| == hi * |front| + hi;
    }
  }

  lemma MulLe(a: int, b: int, count: int)
    requires a <= b && count > 0
    ensures a * count <= b * count
  {
  }

  /** Rounding does not leave an interval with whole ends. */
  lemma RoundDivWithin(sum: int, count: int, lo: int, hi: int)
    requires count > 0 && 0 <= lo && lo * count <= sum <= hi * count
    ensures lo <= RoundDiv(sum, count) <= hi
  {
    var r := RoundDiv(sum, count);
    MulLe(0, lo, count);
    RoundDivIsNearestIff(sum, count);
    var scaled := r * count;
    assert 2 * count * r == 2 * scaled && (r + 1) * count == scaled + count;
    assert (hi + 1) * count == hi * count + count;
    if r < lo {
      MulLe(r + 1, lo, count);
    }
    if r > hi {
      MulLe(hi + 1, r, count);
    }
  }

  /**
   * For items that are late at all: the average is within half a day of the true mean, lies in its
   * own bucket, and is no more than the maximum, which is one of the items and at least all others.
   */
  lemma SeverityIsSound(days: seq<int>, b: Bucket)
    requires forall x :: x in days ==> x > 0
    ensures var s, items := SeverityOf(days, b), Items(days, b);
      if s.count == 0 then
        s.avgDays == s.maxDays == 0 && forall x :: x in days ==> !InBand(b, x)
      else
        && -s.count <= 2 * s.count * s.avgDays - 2 * Sum(items) <= s.count
        && 0 < s.avgDays <= s.maxDays && InBand(b, s.avgDays)
        && s.maxDays in days && InBand(b, s.maxDays)
        && forall x :: x in days && InBand(b, x) ==> x <= s.maxDays
  {
    var items := Items(days, b);
    ItemsBelong(days, b);
    if |items| == 0 {
      assert forall x :: x in days && BucketOf(x) == b ==> x in items;
    } else {
      var lo := match b
        case UnderOneWeek => 1
        case OneToTwoWeeks => 8
        case TwoToFourWeeks => 15
        case OverFourWeeks => 29;
      assert items[0] in items;
      SumWithin(items, lo, Max(items));
      RoundDivWithin(Sum(items), |items|, lo, Max(items));
      assert Sum(items) >= 0 by {
        assert lo * |items| >= 0;
      }
      RoundDivIsNearestIff(Sum(items), |items|);
    }
  }

  // ----- Order does not matter -----

  function Without(s: seq<int>, i: nat): seq<int>
    requires i < |s|
  {
    s[..i] + s[i + 1..]
  }

  lemma {:induction false} SumWithout(s: seq<int>, i: nat)
    requires i < |s|
    ensures Sum(s) == Sum(Without(s, i)) + s[i]
  {
    var front, last := s[..|s| - 1], s[|s| - 1];
    if i == |s| - 1 {
      assert Without(s, i) == front;
    } else {
      SumWithout(front, i);
      assert Without(s, i) == Without(front, i) + [last];
      Appended(Without(front, i), last);
    }
  }

  lemma WithoutRemovesOne(s: seq<int>, i: nat)
    requires i < |s|
    ensures multiset(s) == multiset(Without(s, i)) + multiset{s[i]}
  {
    assert s == s[..i] + [s[i]] + s[i + 1..];
  }

  lemma {:induction false} SumOfPermutation(s: seq<int>, t: seq<int>)
    requires multiset(s) == multiset(t)
    ensures Sum(s) == Sum(t)
  {
    if s == [] {
      assert |t| == |multiset(t)| == 0;
    } else {
      assert s[0] in multiset(t);
      var i :| 0 <= i < |t| && t[i] == s[0];
      WithoutRemovesOne(s, 0);
      WithoutRemovesOne(t, i);
      assert multiset(Without(s, 0)) == multiset(s) - multiset{s[0]} == multiset(t) - multiset{t[i]};
      SumOfPermutation(Without(s, 0), Without(t, i));
      SumWithout(s, 0);
      SumWithout(t, i);
    }
  }

  lemma {:induction false} ItemsMultiset(days: seq<int>, b: Bucket, x: int)
    ensures multiset(Items(days, b))[x] == if BucketOf(x) == b then multiset(days)[x] else 0
  {
    if days != [] {
      var front, last := days[..|days| - 1], days[|days| - 1];
      assert days == front + [last];
      ItemsMultiset(front, b, x);
    }
  }

  /** The chart depends on the items, not on the order they are listed in. */
  lemma OrderIsIrrelevant(days: seq<int>, other: seq<int>, b: Bucket)
    requires multiset(days) == multiset(other)
    ensures SeverityOf(days, b) == SeverityOf(other, b)
  {
    var s, t := Items(days, b), Items(other, b);
    forall x: int ensures multiset(s)[x] == multiset(t)[x] {
      ItemsMultiset(days, b, x);
      ItemsMultiset(other, b, x);
    }
    assert multiset(s) == multiset(t);
    SumOfPermutation(s, t);
    assert |s| == |multiset(s)| == |multiset(t)| == |t|;
    assert forall x :: x in s <==> x in multiset(s);
    assert forall x :: x in t <==> x in multiset(t);
  }
}
