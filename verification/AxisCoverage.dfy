/** Whether the objective axis was searched, as held against the variants that the space declares. */
module AxisCoverage {
  import opened Common
  import Orders

  datatype Scenario = Risky | PropFirm

  const SCENARIOS := [Risky, PropFirm]

  /** A declared objective variant: its label, the scenario it belongs to if to one only, whether every
      knob it requires is compiled in, and whether its draws are capped in a session. */
  datatype Variant = Variant(name: string, scenario: Option<Scenario>, expressible: bool, capped: bool)

  /** The sweeps each label was credited in. */
  type Sweeps = string -> nat

  predicate Drawable(v: Variant, k: Scenario) {
    (v.scenario == None || v.scenario == Some(k)) && v.expressible
  }

  /** Declared, not capped, expressible, and of a scenario or of none. */
  predicate Expected(v: Variant, scenario: Option<Scenario>) {
    !v.capped && v.scenario == scenario && v.expressible
  }

  /** The expected variants of a group that are below the bar, with their draws. */
  function Gap(variants: seq<Variant>, scenario: Option<Scenario>, sweeps: Sweeps, min: nat): (r: seq<(string, nat)>)
    ensures r == [] <==> forall v :: v in variants && Expected(v, scenario) ==> sweeps(v.name) >= min
    ensures forall p :: p in r <==>
        exists v :: v in variants && Expected(v, scenario) && p == (v.name, sweeps(v.name)) && p.1 < min
  {
    if variants == [] then []
    else
      var before, last := Gap(variants[..|variants| - 1], scenario, sweeps, min), variants[|variants| - 1];
      assert forall v :: v in variants <==> v in variants[..|variants| - 1] || v == last;
      if Expected(last, scenario) && sweeps(last.name) < min then before + [(last.name, sweeps(last.name))] else before
  }

  predicate HasGroup(variants: seq<Variant>, k: Scenario) {
    exists v :: v in variants && Expected(v, Some(k))
  }

  predicate Ran(variants: seq<Variant>, sweeps: Sweeps) {
    exists v :: v in variants && sweeps(v.name) > 0
  }

  datatype Coverage = Coverage(axisRan: bool, scenario: Option<Scenario>, underDrawn: seq<(string, nat)>)

  predicate Satisfied(c: Coverage) {
    c.axisRan && c.scenario != None && c.underDrawn == []
  }

  predicate PairLeq(a: (string, nat), b: (string, nat)) {
    if a.0 == b.0 then a.1 <= b.1 else Orders.StringLeq(a.0, b.0)
  }

  lemma PairLeqIsTotalOrder()
    ensures Orders.TotalOrder(PairLeq)
  {
    Orders.StringLeqIsTotalOrder();
    hide Orders.StringLeq;
  }

  /** A scenario whose group exists and has the fewest variants below the bar; of two that tie, the first
      declared, which is the risky one. */
  ghost predicate Closest(variants: seq<Variant>, sweeps: Sweeps, min: nat, k: Scenario) {
    && HasGroup(variants, k)
    && forall j :: HasGroup(variants, j) ==>
        && |Gap(variants, Some(k), sweeps, min)| <= |Gap(variants, Some(j), sweeps, min)|
        && (j == Risky && k == PropFirm ==>
              |Gap(variants, Some(k), sweeps, min)| < |Gap(variants, Some(j), sweeps, min)|)
  }

  /** By label, and by draws where labels agree. */
  ghost predicate InLabelOrder(under: seq<(string, nat)>) {
    forall i, j :: 0 <= i < j < |under| ==>
      (under[i].0 == under[j].0 && under[i].1 <= under[j].1)
      || (under[i].0 != under[j].0 && Orders.StringLeq(under[i].0, under[j].0))
  }

  lemma SortedIsInLabelOrder(under: seq<(string, nat)>)
    requires Orders.Sorted(PairLeq, under)
    ensures InLabelOrder(under)
  {
    hide Orders.StringLeq;
    forall i, j | 0 <= i < j < |under|
      ensures (under[i].0 == under[j].0 && under[i].1 <= under[j].1)
          || (under[i].0 != under[j].0 && Orders.StringLeq(under[i].0, under[j].0))
    {
      assert PairLeq(under[i], under[j]);
    }
  }

  /** What the evaluation returns. */
  ghost predicate Evaluates(variants: seq<Variant>, sweeps: Sweeps, min: nat, c: Coverage) {
    && (c.axisRan <==> Ran(variants, sweeps))
    && (c.scenario != None ==> HasGroup(variants, c.scenario.value) && Gap(variants, c.scenario, sweeps, min) == [])
    && (c.scenario == None ==> forall k :: HasGroup(variants, k) ==> Gap(variants, Some(k), sweeps, min) != [])
    && (c.scenario == Some(PropFirm) ==> !HasGroup(variants, Risky) || Gap(variants, Some(Risky), sweeps, min) != [])
    && InLabelOrder(c.underDrawn) && Orders.Distinct(c.underDrawn)
    && ((exists k :: HasGroup(variants, k)) ==>
          exists k :: Closest(variants, sweeps, min, k) && Lists(variants, sweeps, min, c.underDrawn, Some(k)))
    && ((forall k :: !HasGroup(variants, k)) ==> Lists(variants, sweeps, min, c.underDrawn, None))
  }

  /** The members are those below the bar of no scenario, and those of one scenario's group. */
  ghost predicate Lists(variants: seq<Variant>, sweeps: Sweeps, min: nat, under: seq<(string, nat)>,
        group: Option<Scenario>) {
    forall p :: p in under <==>
      p in Gap(variants, None, sweeps, min) || (group != None && p in Gap(variants, group, sweeps, min))
  }

  lemma ListsNothingIff(variants: seq<Variant>, sweeps: Sweeps, min: nat, under: seq<(string, nat)>,
        group: Option<Scenario>)
    requires Lists(variants, sweeps, min, under, group)
    ensures under == [] <==>
        Gap(variants, None, sweeps, min) == [] && (group != None ==> Gap(variants, group, sweeps, min) == [])
  {
    hide Gap;
    EmptyIff(under);
    EmptyIff(Gap(variants, None, sweeps, min));
    EmptyIff(Gap(variants, group, sweeps, min));
  }

  lemma EmptyIff<T>(xs: seq<T>)
    ensures xs == [] <==> forall x :: x !in xs
  {
    if xs != [] {
      assert xs[0] in xs;
    }
  }

  method AxisBCoverage(variants: seq<Variant>, sweeps: Sweeps, min: nat) returns (c: Coverage)
    ensures Evaluates(variants, sweeps, min, c)
  {
    hide Gap, HasGroup, Ran, PairLeq, InLabelOrder, Orders.TotalOrder, Orders.Sorted, Orders.Distinct;
    var under := Gap(variants, None, sweeps, min);
    var scenario: Option<Scenario>, best: Option<Scenario> := None, None;
    for i := 0 to 2
      invariant scenario == None
      invariant forall j :: 0 <= j < i && HasGroup(variants, SCENARIOS[j]) ==>
        && Gap(variants, Some(SCENARIOS[j]), sweeps, min) != [] && best != None
        && |Gap(variants, Some(best.value), sweeps, min)| <= |Gap(variants, Some(SCENARIOS[j]), sweeps, min)|
        && (best == Some(PropFirm) && j == 0 ==>
              |Gap(variants, Some(best.value), sweeps, min)| < |Gap(variants, Some(SCENARIOS[j]), sweeps, min)|)
      invariant best != None ==> HasGroup(variants, best.value)
      invariant (i == 0 ==> best == None) && (i == 1 ==> best != Some(PropFirm))
    {
      var k := SCENARIOS[i];
      var gap := Gap(variants, Some(k), sweeps, min);
      if !HasGroup(variants, k) {
        continue;
      }
      if gap == [] {
        scenario, best := Some(k), Some(k);
        break;
      }
      if best == None || |gap| < |Gap(variants, Some(best.value), sweeps, min)| {
        best := Some(k);
      }
    }
    forall j | HasGroup(variants, j)
      ensures best != None && |Gap(variants, Some(best.value), sweeps, min)| <= |Gap(variants, Some(j), sweeps, min)|
      ensures j == Risky && best == Some(PropFirm) ==>
          |Gap(variants, Some(PropFirm), sweeps, min)| < |Gap(variants, Some(j), sweeps, min)|
      ensures scenario == None ==> Gap(variants, Some(j), sweeps, min) != []
    {
      assert SCENARIOS[if j == Risky then 0 else 1] == j;
    }
    if best != None {
      assert Closest(variants, sweeps, min, best.value);
      under := under + Gap(variants, Some(best.value), sweeps, min);
    }
    PairLeqIsTotalOrder();
    var underDrawn := Orders.SortMembers(PairLeq, Orders.Elements(under));
    SortedIsInLabelOrder(underDrawn);
    assert Lists(variants, sweeps, min, underDrawn, best);
    c := Coverage(Ran(variants, sweeps), scenario, underDrawn);
  }

  lemma OnlyOneClosest(variants: seq<Variant>, sweeps: Sweeps, min: nat, j: Scenario, k: Scenario)
    requires Closest(variants, sweeps, min, j) && Closest(variants, sweeps, min, k)
    ensures j == k
  {
    hide Gap, HasGroup;
  }

  lemma InLabelOrderIsSorted(under: seq<(string, nat)>)
    requires InLabelOrder(under)
    ensures Orders.Sorted(PairLeq, under)
  {
    hide Orders.StringLeq;
  }

  lemma SameList(a: seq<(string, nat)>, b: seq<(string, nat)>)
    requires InLabelOrder(a) && Orders.Distinct(a) && InLabelOrder(b) && Orders.Distinct(b)
    requires forall p :: p in a <==> p in b
    ensures a == b
  {
    InLabelOrderIsSorted(a);
    InLabelOrderIsSorted(b);
    PairLeqIsTotalOrder();
    hide PairLeq, Orders.TotalOrder, Orders.Sorted, InLabelOrder;
    Orders.SameDistinctMembers(a, b);
    Orders.SortedIsUnique(PairLeq, a, b);
  }

  lemma ListedAlike(variants: seq<Variant>, sweeps: Sweeps, min: nat, a: seq<(string, nat)>, b: seq<(string, nat)>,
        group: Option<Scenario>)
    requires Lists(variants, sweeps, min, a, group) && Lists(variants, sweeps, min, b, group)
    ensures forall p :: p in a <==> p in b
  {
    hide Gap;
  }

  /** The table, the draws and the bar decide the evaluation: the scenario, the list and its order. */
  lemma EvaluationIsUnique(variants: seq<Variant>, sweeps: Sweeps, min: nat, c: Coverage, d: Coverage)
    requires Evaluates(variants, sweeps, min, c) && Evaluates(variants, sweeps, min, d)
    ensures c == d
  {
    hide Gap, HasGroup, Ran, PairLeq, InLabelOrder, Lists, Closest, Orders.Distinct;
    if exists k :: HasGroup(variants, k) {
      var j :| Closest(variants, sweeps, min, j) && Lists(variants, sweeps, min, c.underDrawn, Some(j));
      var k :| Closest(variants, sweeps, min, k) && Lists(variants, sweeps, min, d.underDrawn, Some(k));
      OnlyOneClosest(variants, sweeps, min, j, k);
      ListedAlike(variants, sweeps, min, c.underDrawn, d.underDrawn, Some(j));
    } else {
      ListedAlike(variants, sweeps, min, c.underDrawn, d.underDrawn, None);
    }
    SameList(c.underDrawn, d.underDrawn);
    SameScenario(variants, sweeps, min, c, d);
    SameScenario(variants, sweeps, min, d, c);
    assert c.scenario == d.scenario;
  }

  lemma ScenarioIsSearched(variants: seq<Variant>, sweeps: Sweeps, min: nat, c: Coverage, k: Scenario)
    requires Evaluates(variants, sweeps, min, c) && c.scenario == Some(k)
    ensures HasGroup(variants, k) && Gap(variants, Some(k), sweeps, min) == []
  {
    hide Gap, HasGroup;
  }

  lemma SameScenario(variants: seq<Variant>, sweeps: Sweeps, min: nat, c: Coverage, d: Coverage)
    requires Evaluates(variants, sweeps, min, c) && Evaluates(variants, sweeps, min, d)
    ensures c.scenario != None ==> d.scenario == c.scenario
  {
    hide Gap, HasGroup, Ran, PairLeq, InLabelOrder, Lists, Closest, Orders.Distinct;
    if c.scenario != None {
      ScenarioIsSearched(variants, sweeps, min, c, c.scenario.value);
      if d.scenario != None {
        ScenarioIsSearched(variants, sweeps, min, d, d.scenario.value);
        assert c.scenario.value == Risky || c.scenario.value == PropFirm;
        assert d.scenario.value == Risky || d.scenario.value == PropFirm;
      }
    }
  }

  /** The conjunct holds exactly when some variant ran and, for one scenario that has variants of its own,
      everything drawable under it and not capped reached the bar. */
  lemma SatisfiedIff(variants: seq<Variant>, sweeps: Sweeps, min: nat, c: Coverage)
    requires Evaluates(variants, sweeps, min, c)
    ensures Satisfied(c) <==>
      && (exists v :: v in variants && sweeps(v.name) > 0)
      && exists k :: (
        && (exists v :: v in variants && v.scenario == Some(k) && v.expressible && !v.capped)
        && (forall v :: v in variants && (v.scenario == None || v.scenario == Some(k)) && v.expressible && !v.capped ==>
              sweeps(v.name) >= min))
  {
    SatisfiedBySearching(variants, sweeps, min, c);
    forall k
      ensures HasGroup(variants, k) <==>
          exists v :: v in variants && v.scenario == Some(k) && v.expressible && !v.capped
      ensures Searched(variants, sweeps, min, k) <==>
          forall v :: v in variants && (v.scenario == None || v.scenario == Some(k)) && v.expressible && !v.capped ==>
            sweeps(v.name) >= min
    {
      GroupIs(variants, k);
      SearchedIs(variants, sweeps, min, k);
    }
    hide HasGroup, Searched, Evaluates, Gap;
  }

  lemma GroupIs(variants: seq<Variant>, k: Scenario)
    ensures HasGroup(variants, k) <==>
        exists v :: v in variants && v.scenario == Some(k) && v.expressible && !v.capped
  {
    if HasGroup(variants, k) {
      var v :| v in variants && Expected(v, Some(k));
      assert v in variants && v.scenario == Some(k) && v.expressible && !v.capped;
    }
    if v :| v in variants && v.scenario == Some(k) && v.expressible && !v.capped {
      assert Expected(v, Some(k));
    }
  }

  lemma SearchedIs(variants: seq<Variant>, sweeps: Sweeps, min: nat, k: Scenario)
    ensures Searched(variants, sweeps, min, k) <==>
        forall v :: v in variants && (v.scenario == None || v.scenario == Some(k)) && v.expressible && !v.capped ==>
          sweeps(v.name) >= min
  {
    if Searched(variants, sweeps, min, k) {
      forall v | v in variants && (v.scenario == None || v.scenario == Some(k)) && v.expressible && !v.capped
        ensures sweeps(v.name) >= min
      {
        assert Drawable(v, k);
      }
    }
  }

  lemma SatisfiedBySearching(variants: seq<Variant>, sweeps: Sweeps, min: nat, c: Coverage)
    requires Evaluates(variants, sweeps, min, c)
    ensures Satisfied(c) <==>
      && Ran(variants, sweeps)
      && exists k :: HasGroup(variants, k) && Searched(variants, sweeps, min, k)
  {
    hide HasGroup, Ran, PairLeq;
    if Satisfied(c) {
      GapsAreClosed(variants, sweeps, min, c);
      SearchedIff(variants, sweeps, min, c.scenario.value);
    }
    if k :| HasGroup(variants, k) && Searched(variants, sweeps, min, k) {
      SearchedIff(variants, sweeps, min, k);
      NothingUnderDrawn(variants, sweeps, min, c, k);
    }
  }

  ghost predicate Searched(variants: seq<Variant>, sweeps: Sweeps, min: nat, k: Scenario) {
    forall v :: v in variants && Drawable(v, k) && !v.capped ==> sweeps(v.name) >= min
  }

  lemma SearchedIff(variants: seq<Variant>, sweeps: Sweeps, min: nat, k: Scenario)
    ensures Searched(variants, sweeps, min, k) <==>
        Gap(variants, None, sweeps, min) == [] && Gap(variants, Some(k), sweeps, min) == []
  {
    if Gap(variants, None, sweeps, min) == [] && Gap(variants, Some(k), sweeps, min) == [] {
      forall v | v in variants && Drawable(v, k) && !v.capped ensures sweeps(v.name) >= min {
        assert Expected(v, None) || Expected(v, Some(k));
      }
    }
    if Searched(variants, sweeps, min, k) {
      forall v | v in variants && (Expected(v, None) || Expected(v, Some(k))) ensures sweeps(v.name) >= min {
        assert Drawable(v, k);
      }
    }
  }

  lemma GapsAreClosed(variants: seq<Variant>, sweeps: Sweeps, min: nat, c: Coverage)
    requires Evaluates(variants, sweeps, min, c) && Satisfied(c)
    ensures HasGroup(variants, c.scenario.value)
    ensures Gap(variants, None, sweeps, min) == [] && Gap(variants, c.scenario, sweeps, min) == []
  {
    hide Gap, HasGroup, Ran, PairLeq, Lists;
    var k :| Closest(variants, sweeps, min, k) && Lists(variants, sweeps, min, c.underDrawn, Some(k));
    ListsNothingIff(variants, sweeps, min, c.underDrawn, Some(k));
  }

  lemma NothingUnderDrawn(variants: seq<Variant>, sweeps: Sweeps, min: nat, c: Coverage, k: Scenario)
    requires Evaluates(variants, sweeps, min, c) && HasGroup(variants, k)
    requires Gap(variants, None, sweeps, min) == [] && Gap(variants, Some(k), sweeps, min) == []
    ensures c.underDrawn == [] && c.scenario != None
  {
    hide Gap, HasGroup, Ran, PairLeq, Lists;
    var j :| Closest(variants, sweeps, min, j) && Lists(variants, sweeps, min, c.underDrawn, Some(j));
    ListsNothingIff(variants, sweeps, min, c.underDrawn, Some(j));
  }

  lemma GapWhenNothingRan(variants: seq<Variant>, sweeps: Sweeps, min: nat, group: Option<Scenario>)
    requires !Ran(variants, sweeps)
    ensures Gap(variants, group, sweeps, min) != [] <==> min > 0 && exists v :: v in variants && Expected(v, group)
  {
  }

  /** When nothing ran, something is named as under-drawn, exactly if the bar is above nought and some
      variant that is not capped is expressible. */
  lemma NothingRanIsNamedIff(variants: seq<Variant>, sweeps: Sweeps, min: nat, c: Coverage)
    requires Evaluates(variants, sweeps, min, c) && !Ran(variants, sweeps)
    ensures c.underDrawn != [] <==> min > 0 && exists v :: v in variants && v.expressible && !v.capped
  {
    hide Gap, PairLeq, Lists, Ran, Orders.Sorted, Orders.Distinct;
    GapWhenNothingRan(variants, sweeps, min, None);
    if exists k :: HasGroup(variants, k) {
      var k :| Closest(variants, sweeps, min, k) && Lists(variants, sweeps, min, c.underDrawn, Some(k));
      ListsNothingIff(variants, sweeps, min, c.underDrawn, Some(k));
      GapWhenNothingRan(variants, sweeps, min, Some(k));
    } else {
      ListsNothingIff(variants, sweeps, min, c.underDrawn, None);
    }
    SomeExpectedIff(variants);
  }

  lemma SomeExpectedIff(variants: seq<Variant>)
    ensures (exists v :: v in variants && v.expressible && !v.capped)
      <==> (exists v :: v in variants && Expected(v, None)) || exists k :: HasGroup(variants, k)
  {
    if v :| v in variants && v.expressible && !v.capped {
      if v.scenario == None {
        assert Expected(v, None);
      } else {
        assert Expected(v, Some(v.scenario.value)) && HasGroup(variants, v.scenario.value);
      }
    }
  }

  // ------------------------------------------------------------------------------------------
  // The declared table
  // ------------------------------------------------------------------------------------------

  datatype Knob = FitnessTable | ConditioningSet | CostEdgeScoring | LabelHorizon | TStatObjective | PortfolioObjective

  /** The declared variants, for a build in which the given knobs are available. The first requires one and is
      the capped control; the second requires none, and neither do the two of one scenario. */
  function Declared(available: Knob -> bool): seq<Variant> {
    [Variant("B0_scoring_table", None, available(FitnessTable), true),
     Variant("B1_selectivity", None, true, false),
     Variant("B2_conditional", None, available(ConditioningSet), false),
     Variant("B3_cost_elastic", None, available(CostEdgeScoring), false),
     Variant("B4_label_horizon", None, available(LabelHorizon), false),
     Variant("B5_terminal_wealth", Some(Risky), true, false),
     Variant("B6_monthly_consistency", Some(PropFirm), true, false),
     Variant("B7_significance", None, available(TStatObjective), false),
     Variant("B8_portfolio", None, available(PortfolioObjective), false)]
  }

  lemma SelectivityIsDeclared(available: Knob -> bool)
    ensures exists v :: v in Declared(available) && v.expressible && !v.capped
  {
    var v := Declared(available)[1];
    assert v in Declared(available) && v.expressible && !v.capped;
  }

  /** On the declared table, whatever the build has, something is named when nothing ran exactly if the bar
      is above nought. */
  lemma DeclaredTableIsNamedIff(available: Knob -> bool, sweeps: Sweeps, min: nat, c: Coverage)
    requires Evaluates(Declared(available), sweeps, min, c) && !Ran(Declared(available), sweeps)
    ensures c.underDrawn != [] <==> min > 0
  {
    hide *;
    SelectivityIsDeclared(available);
    NothingRanIsNamedIff(Declared(available), sweeps, min, c);
  }

  ghost predicate Met(v: Variant, sweeps: Sweeps, min: nat, k: Scenario) {
    Drawable(v, k) && !v.capped ==> sweeps(v.name) >= min
  }

  lemma RanOfNine(vs: seq<Variant>, sweeps: Sweeps)
    requires |vs| == 9
    ensures Ran(vs, sweeps) <==>
      || sweeps(vs[0].name) > 0 || sweeps(vs[1].name) > 0 || sweeps(vs[2].name) > 0
      || sweeps(vs[3].name) > 0 || sweeps(vs[4].name) > 0 || sweeps(vs[5].name) > 0
      || sweeps(vs[6].name) > 0 || sweeps(vs[7].name) > 0 || sweeps(vs[8].name) > 0
  {
  }

  lemma SearchedOfNine(vs: seq<Variant>, sweeps: Sweeps, min: nat, k: Scenario)
    requires |vs| == 9
    ensures Searched(vs, sweeps, min, k) <==>
      && Met(vs[0], sweeps, min, k) && Met(vs[1], sweeps, min, k) && Met(vs[2], sweeps, min, k)
      && Met(vs[3], sweeps, min, k) && Met(vs[4], sweeps, min, k) && Met(vs[5], sweeps, min, k)
      && Met(vs[6], sweeps, min, k) && Met(vs[7], sweeps, min, k) && Met(vs[8], sweeps, min, k)
  {
    assert Searched(vs, sweeps, min, k) <==> forall v :: v in vs ==> Met(v, sweeps, min, k);
    hide Searched, Met;
  }

  predicate Is(v: Variant, scenario: Option<Scenario>, expressible: bool, capped: bool) {
    v.scenario == scenario && v.expressible == expressible && v.capped == capped
  }

  ghost predicate Shape(vs: seq<Variant>, available: Knob -> bool) {
    && |vs| == 9
    && Is(vs[0], None, available(FitnessTable), true) && Is(vs[1], None, true, false)
    && Is(vs[2], None, available(ConditioningSet), false) && Is(vs[3], None, available(CostEdgeScoring), false)
    && Is(vs[4], None, available(LabelHorizon), false) && Is(vs[5], Some(Risky), true, false)
    && Is(vs[6], Some(PropFirm), true, false) && Is(vs[7], None, available(TStatObjective), false)
    && Is(vs[8], None, available(PortfolioObjective), false)
  }

  lemma DeclaredShape(available: Knob -> bool)
    ensures Shape(Declared(available), available)
  {
  }

  lemma DeclaredNames(available: Knob -> bool)
    ensures var vs := Declared(available);
      && |vs| == 9 && vs[0].name == "B0_scoring_table" && vs[1].name == "B1_selectivity"
      && vs[2].name == "B2_conditional" && vs[3].name == "B3_cost_elastic" && vs[4].name == "B4_label_horizon"
      && vs[5].name == "B5_terminal_wealth" && vs[6].name == "B6_monthly_consistency"
      && vs[7].name == "B7_significance" && vs[8].name == "B8_portfolio"
  {
  }

  lemma ShapeHasGroups(vs: seq<Variant>, available: Knob -> bool)
    requires Shape(vs, available)
    ensures HasGroup(vs, Risky) && HasGroup(vs, PropFirm)
  {
    assert vs[5] in vs && Expected(vs[5], Some(Risky)) && vs[6] in vs && Expected(vs[6], Some(PropFirm));
  }

  lemma ShapeIsSatisfiedIff(vs: seq<Variant>, available: Knob -> bool, sweeps: Sweeps, min: nat, c: Coverage)
    requires Shape(vs, available) && Evaluates(vs, sweeps, min, c)
    ensures |vs| == 9
    ensures Satisfied(c) <==>
      && (sweeps(vs[0].name) > 0 || sweeps(vs[1].name) > 0 || sweeps(vs[2].name) > 0
          || sweeps(vs[3].name) > 0 || sweeps(vs[4].name) > 0 || sweeps(vs[5].name) > 0
          || sweeps(vs[6].name) > 0 || sweeps(vs[7].name) > 0 || sweeps(vs[8].name) > 0)
      && sweeps(vs[1].name) >= min
      && (available(ConditioningSet) ==> sweeps(vs[2].name) >= min)
      && (available(CostEdgeScoring) ==> sweeps(vs[3].name) >= min)
      && (available(LabelHorizon) ==> sweeps(vs[4].name) >= min)
      && (available(TStatObjective) ==> sweeps(vs[7].name) >= min)
      && (available(PortfolioObjective) ==> sweeps(vs[8].name) >= min)
      && (sweeps(vs[5].name) >= min || sweeps(vs[6].name) >= min)
  {
    hide Evaluates, Satisfied, Searched, Ran, HasGroup;
    ShapeHasGroups(vs, available);
    SatisfiedBySearching(vs, sweeps, min, c);
    RanOfNine(vs, sweeps);
    SearchedOfNine(vs, sweeps, min, Risky);
    SearchedOfNine(vs, sweeps, min, PropFirm);
    if k :| HasGroup(vs, k) && Searched(vs, sweeps, min, k) { assert k == Risky || k == PropFirm; }
  }

  /** On the declared table: satisfied exactly if some label was drawn and the bar is met by the selective
      variant, by those whose knob the build has, and by that of one scenario; the control need not meet it. */
  lemma DeclaredTableIsSatisfiedIff(available: Knob -> bool, sweeps: Sweeps, min: nat, c: Coverage)
    requires Evaluates(Declared(available), sweeps, min, c)
    ensures Satisfied(c) <==>
      && (sweeps("B0_scoring_table") > 0 || sweeps("B1_selectivity") > 0 || sweeps("B2_conditional") > 0
          || sweeps("B3_cost_elastic") > 0 || sweeps("B4_label_horizon") > 0 || sweeps("B5_terminal_wealth") > 0
          || sweeps("B6_monthly_consistency") > 0 || sweeps("B7_significance") > 0 || sweeps("B8_portfolio") > 0)
      && sweeps("B1_selectivity") >= min
      && (available(ConditioningSet) ==> sweeps("B2_conditional") >= min)
      && (available(CostEdgeScoring) ==> sweeps("B3_cost_elastic") >= min)
      && (available(LabelHorizon) ==> sweeps("B4_label_horizon") >= min)
      && (available(TStatObjective) ==> sweeps("B7_significance") >= min)
      && (available(PortfolioObjective) ==> sweeps("B8_portfolio") >= min)
      && (sweeps("B5_terminal_wealth") >= min || sweeps("B6_monthly_consistency") >= min)
  {
    hide *;
    DeclaredShape(available);
    DeclaredNames(available);
    ShapeIsSatisfiedIff(Declared(available), available, sweeps, min, c);
  }

  lemma NothingBelowZero(variants: seq<Variant>, sweeps: Sweeps, group: Option<Scenario>)
    ensures Gap(variants, group, sweeps, 0) == []
  {
  }

  /** With a bar of nought: none of the declared variants ran, and nothing is named. */
  lemma ZeroBarNamesNothing(available: Knob -> bool, sweeps: Sweeps)
    requires forall name :: sweeps(name) == 0
    ensures var c := Coverage(false, Some(Risky), []);
      Evaluates(Declared(available), sweeps, 0, c) && !Ran(Declared(available), sweeps)
  {
    var variants := Declared(available);
    assert Expected(variants[5], Some(Risky)) && variants[5] in variants;
    assert HasGroup(variants, Risky);
    hide Gap, HasGroup, Declared;
    forall group ensures Gap(variants, group, sweeps, 0) == [] { NothingBelowZero(variants, sweeps, group); }
    assert Closest(variants, sweeps, 0, Risky) && Lists(variants, sweeps, 0, [], Some(Risky));
  }
}
