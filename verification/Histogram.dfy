/** Running statistics and bucket counting of benchmarks/text_histogram/__init__.py, over exact
    arithmetic (`Decimal` is modelled by `real`). */
module Histogram {

  // ----- the running mean and variance

  function Sum(xs: seq<real>): real {
    if xs == [] then 0.0 else Sum(xs[..|xs| - 1]) + xs[|xs| - 1]
  }

  function SumOfSquares(xs: seq<real>): real {
    if xs == [] then 0.0 else SumOfSquares(xs[..|xs| - 1]) + xs[|xs| - 1] * xs[|xs| - 1]
  }

  function Mean(xs: seq<real>): real
    requires xs != []
  {
    Sum(xs) / (|xs| as real)
  }

  /** The second pass of the textbook definition: squared deviations from a given value. */
  function Deviations(xs: seq<real>, m: real): real {
    if xs == [] then 0.0
    else Deviations(xs[..|xs| - 1], m) + (xs[|xs| - 1] - m) * (xs[|xs| - 1] - m)
  }

  datatype Stats = Stats(started: bool, ss: real, m: real, totalW: real)

  /** MVSD.add with weight 1. */
  function Add(s: Stats, x: real): Stats
    requires s.started ==> s.totalW > 0.0
  {
    if !s.started then Stats(true, 0.0, x, 1.0)
    else
      var w := s.totalW + 1.0;
      Stats(true, s.ss + (s.totalW * (x - s.m) * (x - s.m)) / w, s.m + (x - s.m) / w, w)
  }

  /** The one-pass state describes these data as the two-pass definitions do. */
  ghost predicate Describes(s: Stats, xs: seq<real>) {
    if xs == [] then s == Stats(false, 0.0, 0.0, 0.0)
    else s.started && s.totalW == |xs| as real && s.m == Mean(xs) && s.ss == Deviations(xs, Mean(xs))
  }

  /** Squared deviations from m of n values with this sum and these squares. */
  ghost function Expanded(q: real, sum: real, n: real, m: real): real {
    q - 2.0 * m * sum + n * m * m
  }

  lemma OneMoreDeviation(q: real, sum: real, n: real, m: real, x: real)
    ensures Expanded(q, sum, n, m) + (x - m) * (x - m) == Expanded(q + x * x, sum + x, n + 1.0, m)
  {
    assert (x - m) * (x - m) == x * x - 2.0 * m * x + m * m;
    assert 2.0 * m * (sum + x) == 2.0 * m * sum + 2.0 * m * x;
    assert (n + 1.0) * m * m == n * m * m + m * m;
  }

  lemma {:induction false} DeviationsExpand(xs: seq<real>, m: real, n: real)
    requires n == |xs| as real
    ensures Deviations(xs, m) == Expanded(SumOfSquares(xs), Sum(xs), n, m)
    decreases |xs|
  {
    if xs != [] {
      var rest, x := xs[..|xs| - 1], xs[|xs| - 1];
      DeviationsExpand(rest, m, n - 1.0);
      OneMoreDeviation(SumOfSquares(rest), Sum(rest), n - 1.0, m, x);
    }
  }

  /** Around their own mean, n values deviate by their squares less n times the mean's. */
  lemma DeviationsAroundMean(xs: seq<real>, n: real, m: real)
    requires xs != [] && n == |xs| as real && m == Mean(xs)
    ensures Sum(xs) == n * m
    ensures Deviations(xs, m) == SumOfSquares(xs) - n * m * m
  {
    DeviationsExpand(xs, m, n);
  }

  /** The algebra of one update: n values of mean m and squares q, then x. */
  lemma UpdateAlgebra(n: real, m: real, x: real)
    requires n > 0.0
    ensures var m' := m + (x - m) / (n + 1.0);
            && (n + 1.0) * m' == n * m + x
            && n * m * m + x * x - (n + 1.0) * m' * m' == (n * (x - m) * (x - m)) / (n + 1.0)
  {
    var w := n + 1.0;
    var m' := m + (x - m) / w;
    assert w * m' == w * m + (x - m);
    var d := x - m;
    var e := d / w;
    assert e * w == d;
    assert m' == m + e && x == m + e * w && n == w - 1.0;
    SquaresAlgebra(w, m, e);
  }

  lemma SquaresAlgebra(w: real, m: real, e: real)
    requires w > 0.0
    ensures var x := m + e * w;
            (w - 1.0) * m * m + x * x - w * (m + e) * (m + e) == ((w - 1.0) * (e * w) * (e * w)) / w
  {
    var x := m + e * w;
    assert x * x == m * m + 2.0 * m * e * w + e * w * e * w;
    assert w * (m + e) * (m + e) == w * m * m + 2.0 * w * m * e + w * e * e;
    assert (w - 1.0) * (e * w) * (e * w) == ((w - 1.0) * e * e * w) * w;
  }

  /** The update of the sums gives the update of the mean and of the squared deviations. */
  lemma OnePassUpdate(n: real, m: real, q: real, x: real)
    requires n > 0.0
    ensures var m' := (n * m + x) / (n + 1.0);
            && m' == m + (x - m) / (n + 1.0)
            && (q + x * x) - (n + 1.0) * m' * m' == (q - n * m * m) + (n * (x - m) * (x - m)) / (n + 1.0)
  {
    UpdateAlgebra(n, m, x);
    var m' := m + (x - m) / (n + 1.0);
    assert (n + 1.0) * m' == n * m + x;
    assert m' == (n * m + x) / (n + 1.0);
  }

  lemma SumsOfOneMore(xs: seq<real>, x: real)
    ensures Sum(xs + [x]) == Sum(xs) + x && SumOfSquares(xs + [x]) == SumOfSquares(xs) + x * x
    ensures Deviations(xs + [x], x) == Deviations(xs, x)
  {
    assert (xs + [x])[..|xs|] == xs;
  }

  /** The same, for values known only by their sums. */
  lemma OnePassUpdateOf(n: real, m: real, q: real, x: real, m': real, dev: real, dev': real)
    requires n > 0.0 && m' == (n * m + x) / (n + 1.0)
    requires dev == q - n * m * m && dev' == (q + x * x) - (n + 1.0) * m' * m'
    ensures m' == m + (x - m) / (n + 1.0) && dev' == dev + (n * (x - m) * (x - m)) / (n + 1.0)
  {
    OnePassUpdate(n, m, q, x);
  }

  lemma MeanOfOneMore(xs: seq<real>, x: real, n: real, m: real)
    requires xs != [] && n == |xs| as real && m == Mean(xs)
    ensures Mean(xs + [x]) == (n * m + x) / (n + 1.0)
  {
    SumsOfOneMore(xs, x);
    DeviationsAroundMean(xs, n, m);
  }

  lemma DeviationsOfOneMore(xs: seq<real>, x: real, n: real, m': real)
    requires xs != [] && n == |xs| as real && m' == Mean(xs + [x])
    ensures Deviations(xs + [x], m') == (SumOfSquares(xs) + x * x) - (n + 1.0) * m' * m'
  {
    SumsOfOneMore(xs, x);
    DeviationsAroundMean(xs + [x], n + 1.0, m');
  }

  lemma FirstSample(x: real)
    ensures Mean([x]) == x && Deviations([x], x) == 0.0
  {
    assert [x][..0] == [];
    assert Sum([x]) == x;
  }

  lemma LaterSample(xs: seq<real>, x: real, n: real, m: real, m': real)
    requires xs != [] && n == |xs| as real && m == Mean(xs) && m' == Mean(xs + [x])
    ensures m' == m + (x - m) / (n + 1.0)
    ensures Deviations(xs + [x], m') == Deviations(xs, m) + (n * (x - m) * (x - m)) / (n + 1.0)
  {
    MeanOfOneMore(xs, x, n, m);
    DeviationsAroundMean(xs, n, m);
    DeviationsOfOneMore(xs, x, n, m');
    OnePassUpdateOf(n, m, SumOfSquares(xs), x, m', Deviations(xs, m), Deviations(xs + [x], m'));
  }

  /** The same, as a step of the running state. */
  lemma LaterAdd(s: Stats, xs: seq<real>, x: real, t: Stats)
    requires xs != [] && s == Stats(true, Deviations(xs, Mean(xs)), Mean(xs), |xs| as real)
    requires t == Stats(true, Deviations(xs + [x], Mean(xs + [x])), Mean(xs + [x]), |xs| as real + 1.0)
    ensures t == Add(s, x)
  {
    LaterSample(xs, x, s.totalW, s.m, t.m);
    AddIs(s, x, t);
  }

  lemma AddIs(s: Stats, x: real, t: Stats)
    requires s.started && s.totalW > 0.0 && t.started && t.totalW == s.totalW + 1.0
    requires t.m == s.m + (x - s.m) / (s.totalW + 1.0)
    requires t.ss == s.ss + (s.totalW * (x - s.m) * (x - s.m)) / (s.totalW + 1.0)
    ensures t == Add(s, x)
  {
  }

  /** Adding a sample keeps the one-pass state in step with the two-pass definitions. */
  lemma AddDescribes(s: Stats, xs: seq<real>, x: real)
    requires Describes(s, xs)
    ensures Describes(Add(s, x), xs + [x])
  {
    if xs == [] {
      assert xs + [x] == [x];
      FirstSample(x);
    } else {
      var t := Stats(true, Deviations(xs + [x], Mean(xs + [x])), Mean(xs + [x]), |xs| as real + 1.0);
      assert Describes(t, xs + [x]);
      LaterAdd(s, xs, x, t);
    }
  }

  /** The state after a whole input. */
  function Accumulate(xs: seq<real>): (s: Stats)
    ensures s.started ==> s.totalW > 0.0
  {
    if xs == [] then Stats(false, 0.0, 0.0, 0.0) else Add(Accumulate(xs[..|xs| - 1]), xs[|xs| - 1])
  }

  /** After any non-empty input, the running mean and variance are the mean and the mean squared
      deviation from it, computed in two passes. */
  lemma {:induction false} OnePassIsExact(xs: seq<real>)
    ensures Describes(Accumulate(xs), xs)
    decreases |xs|
  {
    if xs != [] {
      var rest, x := xs[..|xs| - 1], xs[|xs| - 1];
      OnePassIsExact(rest);
      AddDescribes(Accumulate(rest), rest, x);
      assert rest + [x] == xs;
    }
  }

  class MVSD {
    var isStarted: bool
    var ss: real
    var m: real
    var totalW: real

    ghost function View(): Stats
      reads this
    {
      Stats(isStarted, ss, m, totalW)
    }

    constructor ()
      ensures Describes(View(), [])
    {
      isStarted, ss, m, totalW := false, 0.0, 0.0, 0.0;
    }

    /** After one more sample the fields are still the count, the mean and the squared deviations
        from the mean of all that was seen. */
    method AddSample(x: real, ghost seen: seq<real>)
      requires Describes(View(), seen)
      modifies this
      ensures Describes(View(), seen + [x])
    {
      AddDescribes(View(), seen, x);
      Update(x);
    }

    method Update(x: real)
      requires isStarted ==> totalW > 0.0
      modifies this
      ensures View() == Add(old(View()), x)
    {
      if !isStarted {
        m, ss, totalW, isStarted := x, 0.0, 1.0, true;
      } else {
        var tempW := totalW + 1.0;
        ss := ss + (totalW * (x - m) * (x - m)) / tempW;
        m := m + (x - m) / tempW;
        totalW := tempW;
      }
    }

    method Variance(ghost seen: seq<real>) returns (v: real)
      requires Describes(View(), seen) && seen != []
      ensures v == Deviations(seen, Mean(seen)) / (|seen| as real)
    {
      v := ss / totalW;
    }
  }

  // ----- buckets

  predicate Ascending(b: seq<real>) {
    forall i, j :: 0 <= i < j < |b| ==> b[i] <= b[j]
  }

  /** A value not above any of the others goes in front of them. */
  lemma InFront(first: real, x: real, s: seq<real>, r: seq<real>)
    requires Ascending([first] + s) && first <= x && Ascending(r) && forall y :: y in r <==> y == x || y in s
    ensures Ascending([first] + r)
  {
    forall k | 0 <= k < |r|
      ensures first <= r[k]
    {
      assert r[k] in r;
      if r[k] != x {
        var i :| 0 <= i < |s| && s[i] == r[k];
        assert ([first] + s)[0] == first && ([first] + s)[i + 1] == s[i];
      }
    }
  }

  /** A value put in its place. */
  function Insert(x: real, s: seq<real>): (r: seq<real>)
    requires Ascending(s)
    ensures Ascending(r) && forall y :: y in r <==> y == x || y in s
  {
    if s == [] || x <= s[0] then [x] + s
    else
      assert s == [s[0]] + s[1..];
      var rest := Insert(x, s[1..]);
      InFront(s[0], x, s[1..], rest);
      [s[0]] + rest
  }

  lemma FirstAndRest(s: seq<real>)
    requires s != []
    ensures multiset(s) == multiset(s[1..]) + multiset{s[0]}
  {
    assert s == [s[0]] + s[1..];
  }

  lemma {:induction false} InsertAddsOne(x: real, s: seq<real>)
    requires Ascending(s)
    ensures multiset(Insert(x, s)) == multiset(s) + multiset{x}
    decreases |s|
  {
    if s != [] && !(x <= s[0]) {
      InsertAddsOne(x, s[1..]);
      FirstAndRest(s);
      FirstAndRest(Insert(x, s));
    }
  }

  /** The user's boundaries in order. */
  function Sorted(s: seq<real>): (r: seq<real>)
    ensures Ascending(r) && (s != [] ==> r != [])
  {
    if s == [] then [] else Insert(s[0], Sorted(s[1..]))
  }

  /** The same values, each as often. */
  lemma {:induction false} SortedPermutes(s: seq<real>)
    ensures multiset(Sorted(s)) == multiset(s)
    decreases |s|
  {
    if s != [] {
      SortedPermutes(s[1..]);
      InsertAddsOne(s[0], Sorted(s[1..]));
      FirstAndRest(s);
    }
  }

  /** The first boundary at or above a value, or the end. */
  function BucketOf(value: real, boundaries: seq<real>): (i: nat)
    ensures i <= |boundaries|
    ensures i < |boundaries| ==> value <= boundaries[i]
    ensures forall k :: 0 <= k < i ==> boundaries[k] < value
  {
    if boundaries == [] || value <= boundaries[0] then 0 else 1 + BucketOf(value, boundaries[1..])
  }

  /** The first n steps up from the minimum. */
  function Steps(min: real, step: real, n: nat): (r: seq<real>)
    ensures |r| == n
  {
    if n == 0 then [] else Steps(min, step, n - 1) + [StepUp(min, step, n)]
  }

  function StepUp(min: real, step: real, n: nat): real {
    min + step * (n as real)
  }

  /** The boundaries for equal widths: the range cut into `buckets` steps. */
  function EqualWidth(min: real, max: real, buckets: nat): seq<real>
    requires buckets > 0
  {
    Steps(min, Width(min, max, buckets), buckets)
  }

  function Width(min: real, max: real, buckets: nat): (step: real)
    requires buckets > 0
    ensures step * (buckets as real) == max - min
    ensures min < max ==> step > 0.0
  {
    (max - min) / (buckets as real)
  }

  lemma {:induction false} StepIs(min: real, step: real, n: nat, i: nat)
    requires i < n
    ensures Steps(min, step, n)[i] == StepUp(min, step, i + 1)
    decreases n
  {
    if i < n - 1 {
      StepIs(min, step, n - 1, i);
    }
  }

  /** The boundaries from a list the user gave, after sorting. */
  function Custom(sorted: seq<real>, min: real, max: real): seq<real> {
    if sorted == [] then []
    else if min <= sorted[0] <= max then [sorted[0]] + Custom(sorted[1..], min, max)
    else if sorted[0] >= max then [max]
    else Custom(sorted[1..], min, max)
  }

  lemma EqualWidthEndsAtMax(min: real, max: real, buckets: nat)
    requires buckets > 0
    ensures EqualWidth(min, max, buckets)[buckets - 1] == max
  {
    StepIs(min, Width(min, max, buckets), buckets, buckets - 1);
  }

  lemma {:induction false} CustomEndsAtMax(sorted: seq<real>, min: real, max: real)
    requires sorted != [] && sorted[|sorted| - 1] >= max && min < max
    ensures var b := Custom(sorted, min, max); b != [] && b[|b| - 1] == max
    decreases |sorted|
  {
    if |sorted| > 1 {
      CustomEndsAtMax(sorted[1..], min, max);
    }
  }

  function Zeros(n: nat): seq<nat> {
    seq(n, i => 0)
  }

  function Total(counts: seq<nat>): nat {
    if counts == [] then 0 else counts[0] + Total(counts[1..])
  }

  lemma {:induction false} TotalOfZeros(n: nat)
    ensures Total(Zeros(n)) == 0
    decreases n
  {
    if n > 0 {
      assert Zeros(n)[1..] == Zeros(n - 1);
      TotalOfZeros(n - 1);
    }
  }

  lemma {:induction false} TotalBumped(counts: seq<nat>, i: nat)
    requires i < |counts|
    ensures Total(counts[i := counts[i] + 1]) == Total(counts) + 1
    decreases |counts|
  {
    var bumped := counts[i := counts[i] + 1];
    if i == 0 {
      assert bumped[1..] == counts[1..];
    } else {
      assert bumped[1..] == counts[1..][i - 1 := counts[1..][i - 1] + 1];
      TotalBumped(counts[1..], i - 1);
    }
  }

  predicate InRange(v: real, min: real, max: real) {
    min <= v <= max
  }

  /** How many of the data fall in this bucket. */
  function CountIn(data: seq<real>, min: real, max: real, boundaries: seq<real>, bucket: nat): nat {
    if data == [] then 0
    else
      var v := data[|data| - 1];
      CountIn(data[..|data| - 1], min, max, boundaries, bucket)
      + if InRange(v, min, max) && BucketOf(v, boundaries) == bucket then 1 else 0
  }

  function CountOutside(data: seq<real>, min: real, max: real): nat {
    if data == [] then 0
    else CountOutside(data[..|data| - 1], min, max) + if InRange(data[|data| - 1], min, max) then 0 else 1
  }

  /** The counting loop: each bucket's count is the number of data whose first boundary at or above
      is that bucket's, and when the boundaries end at the maximum nothing falls through. */
  method CountBuckets(data: seq<real>, min: real, max: real, boundaries: seq<real>)
    returns (counts: seq<nat>, skipped: nat, samples: nat)
    requires boundaries != [] && boundaries[|boundaries| - 1] == max
    ensures |counts| == |boundaries| && samples == |data|
    ensures forall b :: 0 <= b < |counts| ==> counts[b] == CountIn(data, min, max, boundaries, b)
    ensures Total(counts) + skipped == samples && skipped == CountOutside(data, min, max)
  {
    counts, skipped, samples := Zeros(|boundaries|), 0, 0;
    TotalOfZeros(|boundaries|);
    for n := 0 to |data|
      invariant |counts| == |boundaries| && samples == n
      invariant forall b :: 0 <= b < |counts| ==> counts[b] == CountIn(data[..n], min, max, boundaries, b)
      invariant Total(counts) + skipped == samples && skipped == CountOutside(data[..n], min, max)
    {
      assert data[..n + 1][..n] == data[..n];
      var value := data[n];
      samples := samples + 1;
      if value < min || value > max {
        skipped := skipped + 1;
      } else {
        var position := 0;
        while position < |boundaries| && !(value <= boundaries[position])
          invariant 0 <= position <= BucketOf(value, boundaries)
        {
          position := position + 1;
        }
        assert position == BucketOf(value, boundaries) < |boundaries|;
        TotalBumped(counts, position);
        counts := counts[position := counts[position] + 1];
      }
    }
    assert data[..|data|] == data;
  }

  // ----- the whole histogram

  /** The bucket arguments: a number, where none or zero means ten, or the user's boundaries. */
  datatype Buckets = Equal(number: int) | Boundaries(bounds: seq<real>)

  datatype Result = Counted(boundaries: seq<real>, counts: seq<nat>, skipped: nat, samples: nat) | ValueError

  function Number(b: Buckets): int
    requires b.Equal?
  {
    if b.number == 0 then 10 else b.number
  }

  /** The boundaries the code builds, when it does not raise. */
  function Built(b: Buckets, min: real, max: real): seq<real>
    requires if b.Equal? then Number(b) > 0 else b.bounds != []
  {
    if b.Equal? then EqualWidth(min, max, Number(b)) else Custom(Raised(b.bounds, max), min, max)
  }

  /** The user's boundaries sorted, with the last one raised to the maximum if it falls short. */
  function Raised(bounds: seq<real>, max: real): (r: seq<real>)
    requires bounds != []
    ensures Ascending(r) && r != [] && r[|r| - 1] >= max
  {
    var sorted := Sorted(bounds);
    var last := |sorted| - 1;
    if sorted[last] < max then sorted[..last] + [max] else sorted
  }

  lemma RaisedEndsAtMax(bounds: seq<real>, min: real, max: real)
    requires min < max && bounds != []
    ensures var b := Custom(Raised(bounds, max), min, max); b != [] && b[|b| - 1] == max
  {
    CustomEndsAtMax(Raised(bounds, max), min, max);
  }

  lemma BuiltEndsAtMax(b: Buckets, min: real, max: real)
    requires min < max && if b.Equal? then Number(b) > 0 else b.bounds != []
    ensures var bounds := Built(b, min, max); bounds != [] && bounds[|bounds| - 1] == max
  {
    if b.Equal? {
      EqualWidthEndsAtMax(min, max, Number(b));
    } else {
      RaisedEndsAtMax(b.bounds, min, max);
    }
  }

  method BuildEqual(min: real, max: real, buckets: nat) returns (boundaries: seq<real>)
    requires buckets > 0
    ensures boundaries == EqualWidth(min, max, buckets)
  {
    var step := (max - min) / (buckets as real);
    boundaries := BuildSteps(min, step, buckets);
  }

  method BuildSteps(min: real, step: real, buckets: nat) returns (boundaries: seq<real>)
    ensures boundaries == Steps(min, step, buckets)
  {
    boundaries := [];
    for x := 0 to buckets
      invariant boundaries == Steps(min, step, x)
    {
      var boundary := min + step * ((x + 1) as real);
      assert boundary == StepUp(min, step, x + 1);
      boundaries := boundaries + [boundary];
    }
  }

  method BuildCustom(bounds: seq<real>, min: real, max: real) returns (boundaries: seq<real>)
    ensures boundaries == Custom(bounds, min, max)
  {
    boundaries := [];
    for x := 0 to |bounds|
      invariant boundaries + Custom(bounds[x..], min, max) == Custom(bounds, min, max)
    {
      assert bounds[x..][1..] == bounds[x + 1..];
      if min <= bounds[x] <= max {
        boundaries := boundaries + [bounds[x]];
      } else if bounds[x] >= max {
        boundaries := boundaries + [max];
        return;
      }
    }
  }

  // ----- what a bucket holds

  lemma {:induction false} CustomAscends(sorted: seq<real>, min: real, max: real)
    requires Ascending(sorted)
    ensures Ascending(Custom(sorted, min, max))
    ensures forall i :: 0 <= i < |Custom(sorted, min, max)| ==>
              sorted[0] <= Custom(sorted, min, max)[i] || Custom(sorted, min, max)[i] == max
    ensures min < max ==> forall i :: 0 <= i < |Custom(sorted, min, max)| ==> InRange(Custom(sorted, min, max)[i], min, max)
    decreases |sorted|
  {
    if sorted != [] {
      CustomAscends(sorted[1..], min, max);
    }
  }

  lemma StepsAscend(min: real, step: real, n: nat)
    requires step > 0.0
    ensures Ascending(Steps(min, step, n))
    ensures forall i :: 0 <= i < n ==> InRange(Steps(min, step, n)[i], min, StepUp(min, step, n))
  {
    forall i | 0 <= i < n
      ensures InRange(Steps(min, step, n)[i], min, StepUp(min, step, n))
    {
      StepIs(min, step, n, i);
      StepsApart(min, step, i + 1, n);
    }
    forall i, j | 0 <= i < j < n
      ensures Steps(min, step, n)[i] <= Steps(min, step, n)[j]
    {
      StepIs(min, step, n, i);
      StepIs(min, step, n, j);
      StepsApart(min, step, i + 1, j + 1);
    }
  }

  lemma StepsApart(min: real, step: real, i: nat, j: nat)
    requires step > 0.0 && i <= j
    ensures min <= StepUp(min, step, i) <= StepUp(min, step, j)
  {
    assert step * ((j - i) as real) >= 0.0;
    assert step * (j as real) == step * (i as real) + step * ((j - i) as real);
  }

  /** Each boundary below the maximum stays one if it is inside the range. */
  lemma {:induction false} CustomCounts(sorted: seq<real>, min: real, max: real, v: real)
    requires Ascending(sorted) && v != max
    ensures multiset(Custom(sorted, min, max))[v] == if InRange(v, min, max) then multiset(sorted)[v] else 0
    decreases |sorted|
  {
    if sorted != [] {
      CustomCounts(sorted[1..], min, max, v);
      FirstAndRest(sorted);
      if sorted[0] > max {
        assert forall k :: 0 <= k < |sorted| ==> sorted[k] > max;
      }
    }
  }

  predicate IsLargest(v: real, s: seq<real>) {
    v in s && forall u :: u in s ==> u <= v
  }

  lemma {:induction false} SortedHolds(s: seq<real>)
    ensures forall v :: v in Sorted(s) <==> v in s
    decreases |s|
  {
    if s != [] {
      SortedHolds(s[1..]);
      assert forall v :: v in s <==> v == s[0] || v in s[1..];
    }
  }

  lemma LastIsLargest(sorted: seq<real>, v: real)
    requires sorted != [] && Ascending(sorted)
    ensures IsLargest(v, sorted) <==> v == sorted[|sorted| - 1]
  {
    assert sorted[|sorted| - 1] in sorted;
    assert forall u :: u in sorted ==> u <= sorted[|sorted| - 1];
  }

  lemma LastReplaced(sorted: seq<real>, max: real, v: real)
    requires sorted != [] && v != max
    ensures var last := |sorted| - 1;
            multiset(sorted[..last] + [max])[v] == multiset(sorted)[v] - if v == sorted[last] then 1 else 0
  {
    assert sorted == sorted[..|sorted| - 1] + [sorted[|sorted| - 1]];
  }

  /** The largest of the user's boundaries gives way to the maximum if it falls short of it. */
  lemma RaisedCounts(bounds: seq<real>, max: real, v: real)
    requires bounds != [] && v < max
    ensures multiset(Raised(bounds, max))[v] == multiset(bounds)[v] - if IsLargest(v, bounds) then 1 else 0
  {
    var sorted := Sorted(bounds);
    SortedPermutes(bounds);
    SortedHolds(bounds);
    LastIsLargest(sorted, v);
    LastReplaced(sorted, max, v);
    assert IsLargest(v, bounds) <==> IsLargest(v, sorted);
  }

  /** Below the maximum, the boundaries are exactly the user's that lie inside the range, each as often
      as given, except that the largest one, if it falls short of the maximum, is replaced by it. */
  lemma CustomBoundaries(bounds: seq<real>, min: real, max: real, v: real)
    requires bounds != [] && v != max
    ensures multiset(Built(Boundaries(bounds), min, max))[v] ==
            if InRange(v, min, max) then multiset(bounds)[v] - (if IsLargest(v, bounds) then 1 else 0) else 0
  {
    CustomCounts(Raised(bounds, max), min, max, v);
    if v < max {
      RaisedCounts(bounds, max, v);
    }
  }

  /** Without boundaries of the user's there are as many buckets as asked for, ten by default, and all
      have one width, which they fill the range with. */
  lemma EqualBoundaries(number: int, min: real, max: real, i: nat) returns (width: real)
    requires number >= 0 && i < |Built(Equal(number), min, max)|
    ensures var b := Built(Equal(number), min, max);
            && |b| == (if number == 0 then 10 else number)
            && b[i] - (if i == 0 then min else b[i - 1]) == width
            && width * (|b| as real) == max - min
  {
    var n: nat := if number == 0 then 10 else number;
    width := Width(min, max, n);
    StepIs(min, width, n, i);
    if i > 0 {
      StepIs(min, width, n, i - 1);
    }
    assert StepUp(min, width, i + 1) == StepUp(min, width, i) + width;
  }

  lemma BuiltAscends(b: Buckets, min: real, max: real)
    requires min < max && if b.Equal? then Number(b) > 0 else b.bounds != []
    ensures Ascending(Built(b, min, max))
    ensures forall i :: 0 <= i < |Built(b, min, max)| ==> InRange(Built(b, min, max)[i], min, max)
  {
    if b.Equal? {
      StepsAscend(min, Width(min, max, Number(b)), Number(b));
    } else {
      CustomAscends(Raised(b.bounds, max), min, max);
    }
  }

  /** Over ascending boundaries, a bucket holds the values above the boundary before it, up to and
      including its own: what the printed ranges say. */
  lemma BucketIsItsRange(v: real, boundaries: seq<real>, i: nat)
    requires Ascending(boundaries) && i < |boundaries|
    ensures BucketOf(v, boundaries) == i <==> (i == 0 || boundaries[i - 1] < v) && v <= boundaries[i]
  {
    if i > 0 {
      assert forall k :: 0 <= k < i ==> boundaries[k] <= boundaries[i - 1];
    }
  }

  /** The range printed for a bucket: from the boundary before, or the minimum for the first one, to
      its own. */
  predicate InPrintedRange(v: real, min: real, boundaries: seq<real>, i: nat)
    requires i < |boundaries|
  {
    (if i == 0 then min <= v else boundaries[i - 1] < v) && v <= boundaries[i]
  }

  function CountPrinted(data: seq<real>, min: real, boundaries: seq<real>, i: nat): nat
    requires i < |boundaries|
  {
    if data == [] then 0
    else CountPrinted(data[..|data| - 1], min, boundaries, i)
         + if InPrintedRange(data[|data| - 1], min, boundaries, i) then 1 else 0
  }

  lemma {:induction false} CountIsPrinted(data: seq<real>, min: real, max: real, boundaries: seq<real>, i: nat)
    requires Ascending(boundaries) && i < |boundaries|
    requires forall k :: 0 <= k < |boundaries| ==> InRange(boundaries[k], min, max)
    ensures CountIn(data, min, max, boundaries, i) == CountPrinted(data, min, boundaries, i)
    decreases |data|
  {
    if data != [] {
      CountIsPrinted(data[..|data| - 1], min, max, boundaries, i);
      BucketIsItsRange(data[|data| - 1], boundaries, i);
    }
  }

  lemma CountsArePrinted(data: seq<real>, min: real, max: real, boundaries: seq<real>, counts: seq<nat>)
    requires Ascending(boundaries) && forall k :: 0 <= k < |boundaries| ==> InRange(boundaries[k], min, max)
    requires |counts| == |boundaries|
    requires forall i :: 0 <= i < |counts| ==> counts[i] == CountIn(data, min, max, boundaries, i)
    ensures forall i :: 0 <= i < |counts| ==> counts[i] == CountPrinted(data, min, boundaries, i)
  {
    forall i | 0 <= i < |counts|
      ensures counts[i] == CountPrinted(data, min, boundaries, i)
    {
      CountIsPrinted(data, min, max, boundaries, i);
    }
  }

  /** Both kinds of boundaries ascend within the range and end at the maximum. */
  method BuildBoundaries(b: Buckets, min: real, max: real) returns (boundaries: seq<real>)
    requires min < max && if b.Equal? then Number(b) > 0 else b.bounds != []
    ensures boundaries == Built(b, min, max) && Ascending(boundaries)
    ensures forall k :: 0 <= k < |boundaries| ==> InRange(boundaries[k], min, max)
    ensures boundaries != [] && boundaries[|boundaries| - 1] == max
  {
    if b.Equal? {
      boundaries := BuildEqual(min, max, Number(b));
    } else {
      boundaries := BuildCustom(Raised(b.bounds, max), min, max);
    }
    BuiltEndsAtMax(b, min, max);
    BuiltAscends(b, min, max);
  }

  /** histogram, as far as counting goes: each count printed is the number of samples in the range
      printed beside it, and every sample is in one of them or outside the minimum and maximum. */
  method CountAll(data: seq<real>, min: real, max: real, b: Buckets) returns (r: Result)
    requires b.Boundaries? ==> b.bounds != []
    ensures r.ValueError? <==> !(max > min) || (b.Equal? && Number(b) <= 0)
    ensures r.Counted? ==>
              && r.boundaries == Built(b, min, max) && |r.counts| == |r.boundaries|
              && r.samples == |data| && Total(r.counts) + r.skipped == r.samples
              && r.skipped == CountOutside(data, min, max)
              && forall i :: 0 <= i < |r.counts| ==> r.counts[i] == CountPrinted(data, min, r.boundaries, i)
  {
    if !(max > min) || (b.Equal? && Number(b) <= 0) {
      return ValueError;
    }
    var boundaries := BuildBoundaries(b, min, max);
    var counts, skipped, samples := CountBuckets(data, min, max, boundaries);
    CountsArePrinted(data, min, max, boundaries, counts);
    return Counted(boundaries, counts, skipped, samples);
  }
}
