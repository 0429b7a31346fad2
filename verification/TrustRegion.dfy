/** The trust region that keeps a drawn point near its parent. */
module TrustRegion {
  // A point is pulled back until few enough factors differ, giving up first the factors whose posterior tells the
  // two levels apart the least.

  import opened ReplicateSeed
  import Orders

  type Delta = seq<Level>

  /** Successes and failures of a level of a factor, as the session has counted them. */
  type Evidence = (nat, Level) -> (nat, nat)

  /** What this build can express: how many levels a factor has, and which of them it supports. */
  datatype Capabilities = Capabilities(arity: nat -> nat, available: (nat, Level) -> bool)

  datatype SpaceError = LevelOutOfRange(factor: nat, level: Level) | LevelUnavailable(factor: nat, level: Level)

  datatype Result = Ok(delta: Delta) | Err(error: SpaceError)

  predicate Usable(caps: Capabilities, f: nat, l: Level) {
    l < caps.arity(f) && caps.available(f, l)
  }

  predicate Valid(caps: Capabilities, d: Delta) {
    forall f :: 0 <= f < |d| ==> Usable(caps, f, d[f])
  }

  lemma ValidIff(caps: Capabilities, d: Delta)
    ensures Valid(caps, d) <==> forall f :: 0 <= f < |d| ==> d[f] < caps.arity(f) && caps.available(f, d[f])
  {
  }

  /** Validated construction: the first factor whose level cannot be used is the error. */
  method New(levels: Delta, caps: Capabilities) returns (r: Result)
    ensures r.Ok? <==> Valid(caps, levels)
    ensures r.Ok? ==> r.delta == levels
    ensures r.Err? ==>
      var f := r.error.factor;
      && f < |levels| && r.error.level == levels[f] && !Usable(caps, f, levels[f]) && Valid(caps, levels[..f])
      && (r.error.LevelOutOfRange? <==> levels[f] >= caps.arity(f))
  {
    for f := 0 to |levels|
      invariant Valid(caps, levels[..f])
    {
      if levels[f] >= caps.arity(f) {
        return Err(LevelOutOfRange(f, levels[f]));
      }
      if !caps.available(f, levels[f]) {
        return Err(LevelUnavailable(f, levels[f]));
      }
      assert levels[..f + 1] == levels[..f] + [levels[f]];
    }
    assert levels[..|levels|] == levels;
    return Ok(levels);
  }

  // ------------------------------------------------------------------------------------------
  // The factors that differ, and how sure the posterior is about each
  // ------------------------------------------------------------------------------------------

  function DiffSet(a: Delta, b: Delta): set<nat>
    requires |a| == |b|
  {
    set f | 0 <= f < |a| && a[f] != b[f]
  }

  function DifferingFrom(a: Delta, b: Delta, i: nat): (r: seq<nat>)
    requires |a| == |b| && i <= |a|
    ensures forall f: nat :: f in r <==> i <= f < |a| && a[f] != b[f]
    ensures forall j, k :: 0 <= j < k < |r| ==> r[j] < r[k]
    decreases |a| - i
  {
    if i == |a| then []
    else
      var rest := DifferingFrom(a, b, i + 1);
      assert forall f: nat :: f in [i] + rest <==> f == i || f in rest;
      assert forall k :: 0 <= k < |rest| ==> rest[k] in rest;
      if a[i] != b[i] then [i] + rest else rest
  }

  lemma DifferingCounts(a: Delta, b: Delta)
    requires |a| == |b|
    ensures |DifferingFrom(a, b, 0)| == |DiffSet(a, b)|
  {
    var r := DifferingFrom(a, b, 0);
    Orders.DistinctLength(r);
    assert Orders.Elements(r) == DiffSet(a, b);
  }

  /** The posterior mean of a level under a uniform prior. */
  function Mean(evidence: Evidence, f: nat, l: Level): real {
    var (s, t) := evidence(f, l);
    (1 + s) as real / (2 + s + t) as real
  }

  function Gap(evidence: Evidence, drawn: Delta, parent: Delta, f: nat): real {
    if f < |drawn| == |parent| then
      var d := Mean(evidence, f, drawn[f]) - Mean(evidence, f, parent[f]);
      if d < 0.0 then -d else d
    else 0.0
  }

  predicate GapLeq(evidence: Evidence, drawn: Delta, parent: Delta, f: nat, g: nat) {
    Gap(evidence, drawn, parent, f) <= Gap(evidence, drawn, parent, g)
  }

  /** The mean lies strictly between nought and one, is one half without evidence, rises with every success
      and falls with every failure. */
  lemma MeanFacts(evidence: Evidence, more: Evidence, f: nat, l: Level)
    ensures 0.0 < Mean(evidence, f, l) < 1.0 && (evidence(f, l) == (0, 0) ==> Mean(evidence, f, l) == 0.5)
    ensures more(f, l) == (evidence(f, l).0 + 1, evidence(f, l).1) ==> Mean(more, f, l) > Mean(evidence, f, l)
    ensures more(f, l) == (evidence(f, l).0, evidence(f, l).1 + 1) ==> Mean(more, f, l) < Mean(evidence, f, l)
  {
    var (s, t) := evidence(f, l);
    FractionsCompare(0, 1 + s, 1, 2 + s + t);
    FractionsCompare(1 + s, 1, 2 + s + t, 1);
    FractionsCompare(1 + s, 2 + s, 2 + s + t, 3 + s + t);
    FractionsCompare(1 + s, 1 + s, 3 + s + t, 2 + s + t);
  }

  lemma FractionsCompare(a: int, b: int, c: int, d: int)
    requires c > 0 && d > 0
    ensures a as real / c as real < b as real / d as real <==> a * d < b * c
    ensures a as real / c as real == b as real / d as real <==> a * d == b * c
  {
    var x, y, p := a as real / c as real, b as real / d as real, c as real * d as real;
    assert x * c as real == a as real && y * d as real == b as real;
    assert x * p == (x * c as real) * d as real == (a * d) as real;
    assert y * p == (y * d as real) * c as real == (b * c) as real;
    Scaled(x, y, p);
  }

  lemma Scaled(x: real, y: real, p: real)
    requires p > 0.0
    ensures x < y <==> x * p < y * p
    ensures x == y <==> x * p == y * p
  {
    if x < y { assert x * p < y * p; }
    if y < x { assert y * p < x * p; }
  }

  /** The gap of a factor, cross-multiplied: how far apart the two levels' records of successes are. With
      s and t successes and failures of the drawn level, and u and v of the parent's, the two means are
      (1+s)/(2+s+t) and (1+u)/(2+u+v). */
  function Apart(evidence: Evidence, drawn: Delta, parent: Delta, f: nat): nat
    requires f < |drawn| == |parent|
  {
    var ((s, t), (u, v)) := (evidence(f, drawn[f]), evidence(f, parent[f]));
    var x, y := (1 + s) * (2 + u + v), (1 + u) * (2 + s + t);
    if x >= y then x - y else y - x
  }

  function Weight(evidence: Evidence, drawn: Delta, parent: Delta, f: nat): (n: nat)
    requires f < |drawn| == |parent|
    ensures n > 0
  {
    var ((s, t), (u, v)) := (evidence(f, drawn[f]), evidence(f, parent[f]));
    Positive(2 + s + t, 2 + u + v);
    (2 + s + t) * (2 + u + v)
  }

  lemma Positive(a: nat, b: nat)
    requires a > 0 && b > 0
    ensures a * b > 0
  {
  }

  /** The order in which factors are given up, in terms of the counts alone: the smaller gap first, the lower
      index between equals. */
  predicate Sooner(evidence: Evidence, drawn: Delta, parent: Delta, f: nat, g: nat) {
    && f < |drawn| == |parent| && g < |drawn|
    && var x, y := Apart(evidence, drawn, parent, f) * Weight(evidence, drawn, parent, g),
        Apart(evidence, drawn, parent, g) * Weight(evidence, drawn, parent, f);
      x < y || (x == y && f < g)
  }

  lemma DifferenceOfFractions(a: nat, c: nat, b: nat, d: nat)
    requires c > 0 && d > 0 && c * d > 0
    ensures var x, y := a as real / c as real, b as real / d as real;
      (if x - y < 0.0 then -(x - y) else x - y)
      == (if a * d >= b * c then a * d - b * c else b * c - a * d) as real / (c * d) as real
  {
    var x, y, p := a as real / c as real, b as real / d as real, (c * d) as real;
    FractionsCompare(a, b, c, d);
    assert x * c as real == a as real && y * d as real == b as real;
    assert p == c as real * d as real;
    assert x * p == (x * c as real) * d as real == (a * d) as real;
    assert y * p == (y * d as real) * c as real == (b * c) as real;
    assert (x - y) * p == (a * d - b * c) as real;
    var n := if a * d >= b * c then a * d - b * c else b * c - a * d;
    var z := if x - y < 0.0 then -(x - y) else x - y;
    assert z * p == n as real;
  }

  lemma GapIs(evidence: Evidence, drawn: Delta, parent: Delta, f: nat)
    requires f < |drawn| == |parent|
    ensures Gap(evidence, drawn, parent, f)
      == Apart(evidence, drawn, parent, f) as real / Weight(evidence, drawn, parent, f) as real
  {
    var ((s, t), (u, v)) := (evidence(f, drawn[f]), evidence(f, parent[f]));
    Positive(2 + s + t, 2 + u + v);
    DifferenceOfFractions(1 + s, 2 + s + t, 1 + u, 2 + u + v);
  }

  predicate SoonerByGap(evidence: Evidence, drawn: Delta, parent: Delta, f: nat, g: nat) {
    var x, y := Gap(evidence, drawn, parent, f), Gap(evidence, drawn, parent, g);
    x < y || (x == y && f < g)
  }

  /** Comparing the gaps is comparing the counts. */
  lemma SoonerIff(evidence: Evidence, drawn: Delta, parent: Delta, f: nat, g: nat)
    requires f < |drawn| == |parent| && g < |drawn|
    ensures SoonerByGap(evidence, drawn, parent, f, g) <==> Sooner(evidence, drawn, parent, f, g)
  {
    GapIs(evidence, drawn, parent, f);
    GapIs(evidence, drawn, parent, g);
    hide Gap, Apart, Weight;
    FractionsCompare(Apart(evidence, drawn, parent, f), Apart(evidence, drawn, parent, g),
                     Weight(evidence, drawn, parent, f), Weight(evidence, drawn, parent, g));
  }

  ghost predicate InGapOrder(evidence: Evidence, drawn: Delta, parent: Delta, fs: seq<nat>) {
    forall j, k :: 0 <= j < k < |fs| ==> SoonerByGap(evidence, drawn, parent, fs[j], fs[k])
  }

  ghost predicate InOrder(evidence: Evidence, drawn: Delta, parent: Delta, fs: seq<nat>) {
    forall j, k :: 0 <= j < k < |fs| ==> Sooner(evidence, drawn, parent, fs[j], fs[k])
  }

  function ByGap(evidence: Evidence, drawn: Delta, parent: Delta): (nat, nat) -> bool {
    (f: nat, g: nat) => GapLeq(evidence, drawn, parent, f, g)
  }

  function Order(evidence: Evidence, drawn: Delta, parent: Delta, fs: seq<nat>): seq<nat> {
    Orders.SortBy(ByGap(evidence, drawn, parent), fs)
  }

  lemma ConsInOrder(evidence: Evidence, drawn: Delta, parent: Delta, f: nat, fs: seq<nat>)
    requires InGapOrder(evidence, drawn, parent, fs)
    requires forall g :: g in fs ==> SoonerByGap(evidence, drawn, parent, f, g)
    ensures InGapOrder(evidence, drawn, parent, [f] + fs)
  {
    hide SoonerByGap;
  }

  lemma NothingInOrder(evidence: Evidence, drawn: Delta, parent: Delta)
    ensures InGapOrder(evidence, drawn, parent, [])
  {
  }

  lemma SoonerTail(evidence: Evidence, drawn: Delta, parent: Delta, fs: seq<nat>)
    requires fs != [] && InGapOrder(evidence, drawn, parent, fs)
    ensures InGapOrder(evidence, drawn, parent, fs[1..])
        && forall g :: g in fs[1..] ==> SoonerByGap(evidence, drawn, parent, fs[0], g)
  {
    hide SoonerByGap;
    assert forall j :: 0 <= j < |fs[1..]| ==> fs[1..][j] == fs[j + 1];
  }

  lemma {:induction false} InsertStays(evidence: Evidence, drawn: Delta, parent: Delta, f: nat, fs: seq<nat>)
    requires InGapOrder(evidence, drawn, parent, fs) && forall g :: g in fs ==> f < g
    ensures var r := Orders.Insert(ByGap(evidence, drawn, parent), f, fs);
      InGapOrder(evidence, drawn, parent, r) && |r| == |fs| + 1 && forall g :: g in r <==> g == f || g in fs
  {
    hide Gap;
    var leq := ByGap(evidence, drawn, parent);
    if fs != [] {
      assert fs == [fs[0]] + fs[1..];
      SoonerTail(evidence, drawn, parent, fs);
      if leq(f, fs[0]) {
        ConsInOrder(evidence, drawn, parent, f, fs);
      } else {
        forall g | g in fs[1..] ensures f < g { assert g in fs; }
        InsertStays(evidence, drawn, parent, f, fs[1..]);
        ConsInOrder(evidence, drawn, parent, fs[0], Orders.Insert(leq, f, fs[1..]));
      }
      hide InGapOrder;
    }
  }

  /** A stable sort of an ascending list by gap breaks ties by index. */
  lemma {:induction false} OrderIsInGapOrder(evidence: Evidence, drawn: Delta, parent: Delta, fs: seq<nat>)
    requires forall j, k :: 0 <= j < k < |fs| ==> fs[j] < fs[k]
    ensures var r := Order(evidence, drawn, parent, fs);
      InGapOrder(evidence, drawn, parent, r) && |r| == |fs| && forall f :: f in r <==> f in fs
  {
    hide InGapOrder, SoonerByGap, Gap, GapLeq;
    if fs == [] {
      assert InGapOrder(evidence, drawn, parent, []) by { NothingInOrder(evidence, drawn, parent); }
    } else {
      OrderIsInGapOrder(evidence, drawn, parent, fs[1..]);
      forall g | g in fs[1..] ensures fs[0] < g {
        var k :| 0 <= k < |fs[1..]| && fs[1..][k] == g;
        assert g == fs[k + 1];
      }
      InsertStays(evidence, drawn, parent, fs[0], Order(evidence, drawn, parent, fs[1..]));
      assert fs == [fs[0]] + fs[1..];
    }
  }

  lemma OrderIsInOrder(evidence: Evidence, drawn: Delta, parent: Delta, fs: seq<nat>)
    requires forall j, k :: 0 <= j < k < |fs| ==> fs[j] < fs[k]
    requires |drawn| == |parent| && forall f :: f in fs ==> f < |drawn|
    ensures var r := Order(evidence, drawn, parent, fs);
      InOrder(evidence, drawn, parent, r) && |r| == |fs| && forall f :: f in r <==> f in fs
  {
    OrderIsInGapOrder(evidence, drawn, parent, fs);
    hide Sooner, SoonerByGap, Order;
    var r := Order(evidence, drawn, parent, fs);
    forall j, k | 0 <= j < k < |r| ensures Sooner(evidence, drawn, parent, r[j], r[k]) {
      assert r[j] in r && r[k] in r;
      SoonerIff(evidence, drawn, parent, r[j], r[k]);
    }
  }

  // ------------------------------------------------------------------------------------------
  // Reverting
  // ------------------------------------------------------------------------------------------

  function Reverted(drawn: Delta, parent: Delta, fs: seq<nat>): (r: Delta)
    requires |drawn| == |parent|
    ensures |r| == |drawn| && forall f :: 0 <= f < |r| ==> r[f] == if f in fs then parent[f] else drawn[f]
  {
    seq(|drawn|, f requires 0 <= f < |drawn| => if f in fs then parent[f] else drawn[f])
  }

  /** What the trust region promises about its result. */
  ghost predicate InTrustRegion(evidence: Evidence, drawn: Delta, parent: Delta, max: nat, d: Delta) {
    && |drawn| == |parent| == |d|
    && (forall f :: 0 <= f < |d| ==> d[f] == drawn[f] || d[f] == parent[f])
    && |DiffSet(d, parent)| == (if |DiffSet(drawn, parent)| <= max then |DiffSet(drawn, parent)| else max)
    && (forall f, g :: f in DiffSet(drawn, parent) - DiffSet(d, parent) && g in DiffSet(d, parent) ==>
          Sooner(evidence, drawn, parent, f, g))
  }

  lemma RevertingLeavesTheRest(evidence: Evidence, drawn: Delta, parent: Delta, max: nat, order: seq<nat>)
    requires |drawn| == |parent| && |order| == |DiffSet(drawn, parent)| > max
    requires InOrder(evidence, drawn, parent, order) && forall f :: f in order <==> f in DiffSet(drawn, parent)
    ensures InTrustRegion(evidence, drawn, parent, max, Reverted(drawn, parent, order[..|order| - max]))
  {
    var n := |order| - max;
    var d := Reverted(drawn, parent, order[..n]);
    assert Orders.Distinct(order) by {
      forall j, k | 0 <= j < k < |order| ensures order[j] != order[k] {
        assert Sooner(evidence, drawn, parent, order[j], order[k]);
      }
    }
    hide Sooner;
    KeptAreLast(drawn, parent, order, n);
    assert order[n..][..] == order[n..];
    Orders.DistinctLength(order[n..]);
    forall f, g | f in DiffSet(drawn, parent) - DiffSet(d, parent) && g in DiffSet(d, parent)
      ensures Sooner(evidence, drawn, parent, f, g)
    {
      assert f in order[..n] + order[n..] && f !in order[n..] && g in order[n..];
      assert order == order[..n] + order[n..];
      var j :| 0 <= j < |order[..n]| && order[..n][j] == f;
      var k :| 0 <= k < |order[n..]| && order[n..][k] == g;
      assert order[j] == f && order[n + k] == g;
    }
  }

  lemma KeptAreLast(drawn: Delta, parent: Delta, order: seq<nat>, n: nat)
    requires |drawn| == |parent| && n <= |order| && Orders.Distinct(order)
    requires forall f :: f in order <==> f in DiffSet(drawn, parent)
    ensures DiffSet(Reverted(drawn, parent, order[..n]), parent) == Orders.Elements(order[n..])
    ensures Orders.Distinct(order[n..])
  {
    var d := Reverted(drawn, parent, order[..n]);
    forall f ensures f in DiffSet(d, parent) <==> f in order[n..] {
      if f in order {
        var j :| 0 <= j < |order| && order[j] == f;
        if j < n {
          assert order[..n][j] == f;
          forall k | 0 <= k < |order[n..]| ensures order[n..][k] != f { assert order[n + k] != order[j]; }
        } else {
          assert order[n..][j - n] == f;
          forall k | 0 <= k < n ensures order[..n][k] != f { assert order[k] != order[j]; }
        }
      }
    }
  }

  lemma TrustRegionSize(evidence: Evidence, drawn: Delta, parent: Delta, max: nat, d: Delta)
    requires InTrustRegion(evidence, drawn, parent, max, d)
    ensures |drawn| == |parent| == |d|
    ensures |DiffSet(d, parent)| == (if |DiffSet(drawn, parent)| <= max then |DiffSet(drawn, parent)| else max)
    ensures DiffSet(d, parent) <= DiffSet(drawn, parent)
  {
  }

  lemma GivenUpSooner(evidence: Evidence, drawn: Delta, parent: Delta, max: nat, d: Delta, f: nat, g: nat)
    requires InTrustRegion(evidence, drawn, parent, max, d)
    requires f in DiffSet(drawn, parent) && f !in DiffSet(d, parent) && g in DiffSet(d, parent)
    ensures Sooner(evidence, drawn, parent, f, g)
  {
    hide Sooner;
    assert f in DiffSet(drawn, parent) - DiffSet(d, parent);
  }

  lemma NoExchange(evidence: Evidence, drawn: Delta, parent: Delta, max: nat, d: Delta, e: Delta, f: nat)
    requires InTrustRegion(evidence, drawn, parent, max, d) && InTrustRegion(evidence, drawn, parent, max, e)
    requires |drawn| == |parent| == |d| == |e|
    ensures f in DiffSet(d, parent) ==> f in DiffSet(e, parent)
  {
    hide InTrustRegion, DiffSet, Gap;
    TrustRegionSize(evidence, drawn, parent, max, d);
    TrustRegionSize(evidence, drawn, parent, max, e);
    var x, y := DiffSet(d, parent), DiffSet(e, parent);
    if f in x && f !in y {
      SameSizeDiffers(x, y, f);
      var g :| g in y && g !in x;
      GivenUpSooner(evidence, drawn, parent, max, e, f, g);
      GivenUpSooner(evidence, drawn, parent, max, d, g, f);
    }
  }

  /** The promise leaves no choice: there is only one such result. */
  lemma TrustRegionIsUnique(evidence: Evidence, drawn: Delta, parent: Delta, max: nat, d: Delta, e: Delta)
    requires InTrustRegion(evidence, drawn, parent, max, d) && InTrustRegion(evidence, drawn, parent, max, e)
    ensures d == e
  {
    forall f | 0 <= f < |d| ensures d[f] == e[f] {
      NoExchange(evidence, drawn, parent, max, d, e, f);
      NoExchange(evidence, drawn, parent, max, e, d, f);
    }
  }

  lemma SameSizeDiffers<T>(x: set<T>, y: set<T>, f: T)
    requires |x| == |y| && f in x && f !in y
    ensures exists g :: g in y && g !in x
  {
    if y <= x {
      assert y <= x - {f};
      Smaller(y, x - {f});
    }
  }

  lemma {:induction false} Smaller<T>(x: set<T>, y: set<T>)
    requires x <= y
    ensures |x| <= |y|
  {
    if x != {} {
      var e :| e in x;
      Smaller(x - {e}, y - {e});
    }
  }

  /** The point after giving up the first k factors of an order. */
  function After(drawn: Delta, parent: Delta, order: seq<nat>, k: nat): (r: Delta)
    requires |drawn| == |parent|
    ensures |r| == |drawn|
  {
    Reverted(drawn, parent, if k <= |order| then order[..k] else order)
  }

  lemma AfterLeavesTheRest(evidence: Evidence, drawn: Delta, parent: Delta, max: nat, order: seq<nat>)
    requires |drawn| == |parent| && |order| == |DiffSet(drawn, parent)| > max
    requires InOrder(evidence, drawn, parent, order) && forall f :: f in order <==> f in DiffSet(drawn, parent)
    ensures InTrustRegion(evidence, drawn, parent, max, After(drawn, parent, order, |order| - max))
  {
    hide InOrder, DiffSet, InTrustRegion, Reverted;
    RevertingLeavesTheRest(evidence, drawn, parent, max, order);
  }

  lemma AfterNext(drawn: Delta, parent: Delta, order: seq<nat>, k: nat)
    requires |drawn| == |parent| && k < |order| && order[k] < |drawn|
    ensures After(drawn, parent, order, k + 1) == After(drawn, parent, order, k)[order[k] := parent[order[k]]]
  {
    assert order[..k + 1] == order[..k] + [order[k]];
  }

  predicate ParentUsable(caps: Capabilities, parent: Delta, f: nat) {
    f < |parent| && Usable(caps, f, parent[f])
  }

  /** From a point this build can express, reverting stays expressible exactly as long as it gives up
      no factor whose parent level cannot be expressed. */
  lemma {:induction false} AfterIsValidIff(caps: Capabilities, drawn: Delta, parent: Delta, order: seq<nat>, k: nat)
    requires |drawn| == |parent| && Valid(caps, drawn) && k <= |order| && forall f :: f in order ==> f < |drawn|
    ensures Valid(caps, After(drawn, parent, order, k)) <==>
            forall j :: 0 <= j < k ==> ParentUsable(caps, parent, order[j])
  {
    hide Usable;
    var d := After(drawn, parent, order, k);
    if Valid(caps, d) {
      forall j | 0 <= j < k ensures ParentUsable(caps, parent, order[j]) {
        assert order[..k][j] == order[j] && order[j] in order;
        assert Usable(caps, order[j], d[order[j]]);
      }
    }
  }

  function GiveUpOrder(evidence: Evidence, drawn: Delta, parent: Delta): seq<nat>
    requires |drawn| == |parent|
  {
    Order(evidence, drawn, parent, DifferingFrom(drawn, parent, 0))
  }

  lemma GiveUpOrderFacts(evidence: Evidence, drawn: Delta, parent: Delta)
    requires |drawn| == |parent|
    ensures var order := GiveUpOrder(evidence, drawn, parent);
      && |order| == |DiffSet(drawn, parent)| && InOrder(evidence, drawn, parent, order)
      && (forall f :: f in order <==> f in DiffSet(drawn, parent))
  {
    DifferingCounts(drawn, parent);
    OrderIsInOrder(evidence, drawn, parent, DifferingFrom(drawn, parent, 0));
  }

  ghost predicate ValidThrough(caps: Capabilities, drawn: Delta, parent: Delta, order: seq<nat>, k: nat)
    requires |drawn| == |parent|
  {
    forall i :: 1 <= i <= k ==> Valid(caps, After(drawn, parent, order, i))
  }

  /** One of the first n factors to be given up has a parent level this build cannot express. */
  ghost predicate ReachesUnusable(caps: Capabilities, parent: Delta, order: seq<nat>, n: int) {
    exists j :: 0 <= j < n && j < |order| && !ParentUsable(caps, parent, order[j])
  }

  /** Reverting fails exactly when it has to reach a parent level this build cannot express. */
  lemma FailsIffParentUnusable(caps: Capabilities, drawn: Delta, parent: Delta, max: nat, evidence: Evidence)
    requires |drawn| == |parent| && Valid(caps, drawn) && |DiffSet(drawn, parent)| > max
    ensures var order, n := GiveUpOrder(evidence, drawn, parent), |DiffSet(drawn, parent)| - max;
      && n <= |order|
      && (ValidThrough(caps, drawn, parent, order, n) <==>
          forall j :: 0 <= j < n ==> ParentUsable(caps, parent, order[j]))
  {
    hide Order, InOrder, Valid, ParentUsable, GiveUpOrder, After, Usable;
    var order, n := GiveUpOrder(evidence, drawn, parent), |DiffSet(drawn, parent)| - max;
    GiveUpOrderFacts(evidence, drawn, parent);
    hide DiffSet;
    forall f | f in order ensures f < |drawn| { InDiffSet(drawn, parent, f); }
    forall i | 1 <= i <= n
      ensures Valid(caps, After(drawn, parent, order, i)) <==>
          forall j :: 0 <= j < i ==> ParentUsable(caps, parent, order[j])
    {
      AfterIsValidIff(caps, drawn, parent, order, i);
    }
    if ValidThrough(caps, drawn, parent, order, n) {
      assert Valid(caps, After(drawn, parent, order, n));
    }
  }

  /** The first revert that cannot be expressed is that of the first factor with such a parent level. */
  lemma StopsAtUnusable(caps: Capabilities, drawn: Delta, parent: Delta, evidence: Evidence, k: nat)
    requires |drawn| == |parent| && Valid(caps, drawn) && k < |DiffSet(drawn, parent)|
    requires ValidThrough(caps, drawn, parent, GiveUpOrder(evidence, drawn, parent), k)
    requires !Valid(caps, After(drawn, parent, GiveUpOrder(evidence, drawn, parent), k + 1))
    ensures var order := GiveUpOrder(evidence, drawn, parent);
      ReachesUnusable(caps, parent, order, k + 1) && !ReachesUnusable(caps, parent, order, k)
  {
    hide Valid, ParentUsable, GiveUpOrder, InOrder;
    var order := GiveUpOrder(evidence, drawn, parent);
    GiveUpOrderFacts(evidence, drawn, parent);
    forall f | f in order ensures f < |drawn| { InDiffSet(drawn, parent, f); }
    hide DiffSet;
    AfterIsValidIff(caps, drawn, parent, order, k + 1);
    AfterIsValidIff(caps, drawn, parent, order, k);
    assert After(drawn, parent, order, 0) == drawn;
  }

  lemma ReachesMore(caps: Capabilities, parent: Delta, order: seq<nat>, n: int, m: int)
    requires ReachesUnusable(caps, parent, order, n) && n <= m
    ensures ReachesUnusable(caps, parent, order, m)
  {
    hide ParentUsable;
  }

  lemma NothingToReach(caps: Capabilities, parent: Delta, order: seq<nat>, n: int)
    requires n <= 0
    ensures !ReachesUnusable(caps, parent, order, n)
  {
  }

  lemma NeverReaches(caps: Capabilities, drawn: Delta, parent: Delta, max: nat, evidence: Evidence)
    requires |drawn| == |parent| && Valid(caps, drawn) && |DiffSet(drawn, parent)| > max
    requires var order := GiveUpOrder(evidence, drawn, parent);
      ValidThrough(caps, drawn, parent, order, |DiffSet(drawn, parent)| - max)
    ensures !ReachesUnusable(caps, parent, GiveUpOrder(evidence, drawn, parent), |DiffSet(drawn, parent)| - max)
  {
    hide Valid, ParentUsable, GiveUpOrder, DiffSet, ValidThrough;
    FailsIffParentUnusable(caps, drawn, parent, max, evidence);
  }

  lemma OneMoreValid(caps: Capabilities, drawn: Delta, parent: Delta, order: seq<nat>, k: nat)
    requires |drawn| == |parent| && ValidThrough(caps, drawn, parent, order, k)
    requires Valid(caps, After(drawn, parent, order, k + 1))
    ensures ValidThrough(caps, drawn, parent, order, k + 1)
  {
    hide Valid, After;
  }

  /** The one point of the trust region, or the error of the first revert that cannot be expressed: from a
      point this build can express, that of the first factor to be given up whose parent level it cannot.
      Every factor given up is counted, also on the way to an error. */
  method Apply(drawn: Delta, parent: Delta, max: nat, caps: Capabilities, evidence: Evidence)
    returns (r: Result, reverted: nat)
    requires |drawn| == |parent|
    ensures r.Ok? ==>
      && InTrustRegion(evidence, drawn, parent, max, r.delta)
      && reverted == |DiffSet(drawn, parent)| - |DiffSet(r.delta, parent)|
    ensures r.Err? ==>
      && reverted < |DiffSet(drawn, parent)| - max
      && !Valid(caps, After(drawn, parent, GiveUpOrder(evidence, drawn, parent), reverted + 1))
    ensures ValidThrough(caps, drawn, parent, GiveUpOrder(evidence, drawn, parent), reverted)
    ensures var order := GiveUpOrder(evidence, drawn, parent);
      InOrder(evidence, drawn, parent, order) && forall f :: f in order <==> f in DiffSet(drawn, parent)
    ensures Valid(caps, drawn) ==>
      var order, n := GiveUpOrder(evidence, drawn, parent), |DiffSet(drawn, parent)| - max;
      && (r.Err? <==> ReachesUnusable(caps, parent, order, n))
      && (r.Err? ==>
            !ReachesUnusable(caps, parent, order, reverted) && ReachesUnusable(caps, parent, order, reverted + 1))
  {
    hide Order, InOrder, DiffSet, Valid, InTrustRegion, ReachesUnusable, ValidThrough, Reverted, DifferingFrom, Usable;
    hide ParentUsable, After;
    DifferingCounts(drawn, parent);
    GiveUpOrderFacts(evidence, drawn, parent);
    NothingReverted(caps, drawn, parent, GiveUpOrder(evidence, drawn, parent));
    var differing := DifferingFrom(drawn, parent, 0);
    reverted := 0;
    if |differing| <= max {
      NothingToRevert(evidence, drawn, parent, max);
      NothingToReach(caps, parent, GiveUpOrder(evidence, drawn, parent), |differing| - max);
      return Ok(drawn), 0;
    }
    var order := Order(evidence, drawn, parent, differing);
    AfterLeavesTheRest(evidence, drawn, parent, max, order);
    var d := drawn;
    while reverted < |order| - max
      invariant reverted <= |order| - max && d == After(drawn, parent, order, reverted)
      invariant ValidThrough(caps, drawn, parent, order, reverted)
    {
      var f := order[reverted];
      InDiffSet(drawn, parent, f);
      AfterNext(drawn, parent, order, reverted);
      var next := New(d[f := parent[f]], caps);
      if next.Err? {
        if Valid(caps, drawn) {
          StopsAtUnusable(caps, drawn, parent, evidence, reverted);
          ReachesMore(caps, parent, order, reverted + 1, |order| - max);
        }
        return next, reverted;
      }
      OneMoreValid(caps, drawn, parent, order, reverted);
      d := next.delta;
      reverted := reverted + 1;
    }
    Remaining(evidence, drawn, parent, max, d);
    if Valid(caps, drawn) { NeverReaches(caps, drawn, parent, max, evidence); }
    return Ok(d), reverted;
  }

  lemma NothingReverted(caps: Capabilities, drawn: Delta, parent: Delta, order: seq<nat>)
    requires |drawn| == |parent|
    ensures After(drawn, parent, order, 0) == drawn && ValidThrough(caps, drawn, parent, order, 0)
  {
  }

  lemma InDiffSet(a: Delta, b: Delta, f: nat)
    requires |a| == |b| && f in DiffSet(a, b)
    ensures f < |a|
  {
  }

  lemma NothingToRevert(evidence: Evidence, drawn: Delta, parent: Delta, max: nat)
    requires |drawn| == |parent| && |DiffSet(drawn, parent)| <= max
    ensures InTrustRegion(evidence, drawn, parent, max, drawn)
  {
  }

  lemma Remaining(evidence: Evidence, drawn: Delta, parent: Delta, max: nat, d: Delta)
    requires InTrustRegion(evidence, drawn, parent, max, d) && |DiffSet(drawn, parent)| > max
    ensures |DiffSet(d, parent)| == max
  {
  }
}
