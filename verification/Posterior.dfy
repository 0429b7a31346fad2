/** Credits for the drawn levels, and their evidence ledger. */
module Posterior {
  // How one sweep's outcomes become credits for the levels it drew, and how credits and retractions fold into
  // evidence.

  import opened ReplicateSeed
  import Orders

  /** A level of a factor, by the strings the ledger and the coverage counters share. */
  datatype Arm = Arm(factor: string, level: string)

  datatype Credit = Credit(arm: Arm, success: bool)

  datatype Outcome = Outcome(passed: bool, nullUnavailable: bool)

  /** The declared labels; what they are does not matter here. */
  datatype Labels = Labels(
    factor: nat -> string, level: (nat, Level) -> string, dim: nat -> string, dimLevel: (nat, Level) -> string,
    variant: Level -> string, param: (Level, Level) -> string)

  // ------------------------------------------------------------------------------------------
  // Credits of one sweep
  // ------------------------------------------------------------------------------------------

  /** `coverage_levels`: every level of a proposal, its objective, and its objective parameter. */
  function CoverageLevels(labels: Labels, c: Cell): (r: seq<Arm>)
    ensures |r| == |c.axisA| + |c.refusals| + 2
  {
    seq(|c.axisA|, f requires 0 <= f < |c.axisA| => Arm(labels.factor(f), labels.level(f, c.axisA[f])))
    + seq(|c.refusals|, d requires 0 <= d < |c.refusals| => Arm(labels.dim(d), labels.dimLevel(d, c.refusals[d])))
    + [Arm("objective", labels.variant(c.variant)),
       Arm("objective_param", labels.variant(c.variant) + ":" + labels.param(c.variant, c.param))]
  }

  /** The arms of a proposal are one for each factor with its level, one for each refusal dimension with its
      level, its objective, and the objective's parameter; nothing else. */
  lemma ArmsOfProposal(labels: Labels, c: Cell, arm: Arm)
    ensures arm in CoverageLevels(labels, c) <==>
      || (exists f :: 0 <= f < |c.axisA| && arm == Arm(labels.factor(f), labels.level(f, c.axisA[f])))
      || (exists d :: 0 <= d < |c.refusals| && arm == Arm(labels.dim(d), labels.dimLevel(d, c.refusals[d])))
      || arm == Arm("objective", labels.variant(c.variant))
      || arm == Arm("objective_param", labels.variant(c.variant) + ":" + labels.param(c.variant, c.param))
  {
    var r, n := CoverageLevels(labels, c), |c.axisA|;
    assert forall f :: 0 <= f < n ==> r[f] == Arm(labels.factor(f), labels.level(f, c.axisA[f]));
    assert forall d :: 0 <= d < |c.refusals| ==> r[n + d] == Arm(labels.dim(d), labels.dimLevel(d, c.refusals[d]));
    assert r[|r| - 2] == Arm("objective", labels.variant(c.variant));
    assert r[|r| - 1] ==
        Arm("objective_param", labels.variant(c.variant) + ":" + labels.param(c.variant, c.param));
    hide CoverageLevels;
    if arm in r {
      var i :| 0 <= i < |r| && r[i] == arm;
      assert i < n || n <= i < n + |c.refusals| || i == |r| - 2 || i == |r| - 1;
      if n <= i < n + |c.refusals| { assert r[n + (i - n)] == arm; }
    }
  }

  /** The i-th pair of the batch carries the arm. */
  predicate Carries(labels: Labels, cells: seq<Cell>, outcomes: seq<Outcome>, i: nat, arm: Arm) {
    i < |cells| && i < |outcomes| && arm in CoverageLevels(labels, cells[i])
  }

  ghost predicate Carried(labels: Labels, cells: seq<Cell>, outcomes: seq<Outcome>, n: nat, arm: Arm) {
    exists i :: 0 <= i < n && Carries(labels, cells, outcomes, i, arm)
  }

  ghost predicate Passed(labels: Labels, cells: seq<Cell>, outcomes: seq<Outcome>, n: nat, arm: Arm) {
    exists i :: 0 <= i < n && Carries(labels, cells, outcomes, i, arm) && outcomes[i].passed
  }

  /** The order of the credits: by factor, then by level, as strings. */
  predicate ArmLeq(a: Arm, b: Arm) {
    if a.factor == b.factor then Orders.StringLeq(a.level, b.level) else Orders.StringLeq(a.factor, b.factor)
  }

  predicate CreditLeq(a: Credit, b: Credit) { ArmLeq(a.arm, b.arm) }

  lemma ArmLeqIsTotalOrder()
    ensures Orders.TotalOrder(ArmLeq)
  {
    Orders.StringLeqIsTotalOrder();
    hide Orders.StringLeq;
  }

  /** By factor first, then by level, each by the first character that differs. */
  lemma ArmsCompareByFactorThenLevel(a: Arm, b: Arm)
    ensures a.factor != b.factor ==> (ArmLeq(a, b) <==> Orders.StringLeq(a.factor, b.factor))
    ensures a.factor == b.factor ==> (ArmLeq(a, b) <==> Orders.StringLeq(a.level, b.level))
  {
  }

  ghost predicate OneCreditPerArm(credits: seq<Credit>) {
    forall j, k :: 0 <= j < k < |credits| ==> credits[j].arm != credits[k].arm && ArmLeq(credits[j].arm, credits[k].arm)
  }

  /** What the credits of a batch are. */
  ghost predicate CreditsOfBatch(labels: Labels, cells: seq<Cell>, outcomes: seq<Outcome>, credits: seq<Credit>) {
    if exists i :: 0 <= i < |outcomes| && outcomes[i].nullUnavailable then credits == []
    else
      && OneCreditPerArm(credits)
      && (forall c :: c in credits ==> Carried(labels, cells, outcomes, |cells|, c.arm))
      && (forall c :: c in credits ==> (c.success <==> Passed(labels, cells, outcomes, |cells|, c.arm)))
      && (forall arm :: Carried(labels, cells, outcomes, |cells|, arm) ==> exists c :: c in credits && c.arm == arm)
  }

  /** The accumulator after the first n pairs. */
  ghost predicate Accumulated(labels: Labels, cells: seq<Cell>, outcomes: seq<Outcome>, n: nat, drawn: map<Arm, bool>) {
    && (forall arm :: arm in drawn <==> Carried(labels, cells, outcomes, n, arm))
    && (forall arm :: arm in drawn ==> (drawn[arm] <==> Passed(labels, cells, outcomes, n, arm)))
  }

  lemma AccumulatedSnoc(labels: Labels, cells: seq<Cell>, outcomes: seq<Outcome>, n: nat, drawn: map<Arm,
        bool>, more: map<Arm, bool>)
    requires n < |cells| && n < |outcomes| && Accumulated(labels, cells, outcomes, n, drawn)
    requires more == Credited(drawn, CoverageLevels(labels, cells[n]), outcomes[n].passed)
    ensures Accumulated(labels, cells, outcomes, n + 1, more)
  {
    hide CoverageLevels;
    var arms := CoverageLevels(labels, cells[n]);
    forall arm
      ensures Carried(labels, cells, outcomes, n + 1, arm) <==> Carried(labels, cells, outcomes, n, arm) || arm in arms
      ensures Passed(labels, cells, outcomes, n + 1, arm)
        <==> Passed(labels, cells, outcomes, n, arm) || (arm in arms && outcomes[n].passed)
    {
      assert Carries(labels, cells, outcomes, n, arm) <==> arm in arms;
    }
    hide Carried, Passed;
  }

  function Credited(drawn: map<Arm, bool>, arms: seq<Arm>, passed: bool): (r: map<Arm, bool>)
    ensures forall arm :: arm in r <==> arm in drawn || arm in arms
    ensures forall arm :: arm in r ==> (r[arm] <==> (arm in drawn && drawn[arm]) || (arm in arms && passed))
    decreases |arms|
  {
    if arms == [] then drawn
    else
      var e := arms[0] in drawn && drawn[arms[0]];
      var r := Credited(drawn[arms[0] := e || passed], arms[1..], passed);
      assert forall arm :: arm in arms <==> arm == arms[0] || arm in arms[1..];
      r
  }

  /** One credit for every arm of a finite table, in the order of the arms. */
  method SortedCredits(drawn: map<Arm, bool>) returns (credits: seq<Credit>)
    ensures OneCreditPerArm(credits)
    ensures forall c :: c in credits <==> c.arm in drawn && c.success == drawn[c.arm]
  {
    var rest := drawn.Keys;
    credits := [];
    while rest != {}
      invariant rest <= drawn.Keys && DistinctArms(credits)
      invariant forall c :: c in credits <==> c.arm in drawn && c.arm !in rest && c.success == drawn[c.arm]
      decreases |rest|
    {
      var arm :| arm in rest;
      credits := credits + [Credit(arm, drawn[arm])];
      rest := rest - {arm};
    }
    ghost var unsorted := credits;
    ArmLeqIsTotalOrder();
    hide ArmLeq;
    Orders.SortBySorts(CreditLeq, credits);
    credits := Orders.SortBy(CreditLeq, credits);
    Orders.DistinctIsPermutationInvariant(unsorted, credits);
    SortedApart(drawn, credits);
  }

  ghost predicate DistinctArms(credits: seq<Credit>) {
    forall j, k :: 0 <= j < k < |credits| ==> credits[j].arm != credits[k].arm
  }

  lemma SortedApart(drawn: map<Arm, bool>, credits: seq<Credit>)
    requires Orders.Distinct(credits) && Orders.Sorted(CreditLeq, credits)
    requires forall c :: c in credits ==> c.arm in drawn && c.success == drawn[c.arm]
    ensures OneCreditPerArm(credits)
  {
    hide ArmLeq;
    forall j, k | 0 <= j < k < |credits|
      ensures credits[j].arm != credits[k].arm && ArmLeq(credits[j].arm, credits[k].arm)
    {
      assert credits[j] in credits && credits[k] in credits;
      assert CreditLeq(credits[j], credits[k]);
    }
  }

  method CreditsFor(labels: Labels, cells: seq<Cell>, outcomes: seq<Outcome>) returns (credits: seq<Credit>)
    ensures CreditsOfBatch(labels, cells, outcomes, credits)
  {
    hide CoverageLevels, OneCreditPerArm, Carried, Passed;
    for i := 0 to |outcomes|
      invariant forall j :: 0 <= j < i ==> !outcomes[j].nullUnavailable
    {
      if outcomes[i].nullUnavailable {
        return [];
      }
    }
    var drawn: map<Arm, bool> := map[];
    NothingAccumulated(labels, cells, outcomes);
    var i := 0;
    while i < |cells| && i < |outcomes|
      invariant i <= |cells| && i <= |outcomes| && Accumulated(labels, cells, outcomes, i, drawn)
    {
      var arms, k := CoverageLevels(labels, cells[i]), 0;
      ghost var before := drawn;
      while k < |arms|
        invariant k <= |arms|
            && Credited(drawn, arms[k..], outcomes[i].passed) == Credited(before, arms, outcomes[i].passed)
      {
        var e := arms[k] in drawn && drawn[arms[k]];
        drawn := drawn[arms[k] := e || outcomes[i].passed];
        assert arms[k..][1..] == arms[k + 1..];
        k := k + 1;
      }
      AccumulatedSnoc(labels, cells, outcomes, i, before, drawn);
      i := i + 1;
    }
    AccumulatedAll(labels, cells, outcomes, i, drawn);
    credits := SortedCredits(drawn);
    forall arm | arm in drawn ensures exists c :: c in credits && c.arm == arm {
      assert Credit(arm, drawn[arm]) in credits;
    }
  }

  lemma NothingAccumulated(labels: Labels, cells: seq<Cell>, outcomes: seq<Outcome>)
    ensures Accumulated(labels, cells, outcomes, 0, map[])
  {
  }

  lemma AccumulatedAll(labels: Labels, cells: seq<Cell>, outcomes: seq<Outcome>, n: nat, drawn: map<Arm, bool>)
    requires Accumulated(labels, cells, outcomes, n, drawn) && n <= |cells| && (n == |cells| || n >= |outcomes|)
    ensures Accumulated(labels, cells, outcomes, |cells|, drawn)
  {
    hide CoverageLevels;
    forall arm
      ensures Carried(labels, cells, outcomes, |cells|, arm) <==> Carried(labels, cells, outcomes, n, arm)
      ensures Passed(labels, cells, outcomes, |cells|, arm) <==> Passed(labels, cells, outcomes, n, arm)
    {
    }
    hide Carried, Passed;
  }

  /** A batch with at least one pair is credited nothing exactly when some outcome is unavailable. */
  lemma NothingCreditedIff(labels: Labels, cells: seq<Cell>, outcomes: seq<Outcome>, credits: seq<Credit>)
    requires CreditsOfBatch(labels, cells, outcomes, credits) && cells != [] && outcomes != []
    ensures credits == [] <==> exists i :: 0 <= i < |outcomes| && outcomes[i].nullUnavailable
  {
    hide CoverageLevels;
    assert CoverageLevels(labels, cells[0])[0] in CoverageLevels(labels, cells[0]);
    assert Carries(labels, cells, outcomes, 0, CoverageLevels(labels, cells[0])[0]);
    assert Carried(labels, cells, outcomes, |cells|, CoverageLevels(labels, cells[0])[0]);
  }

  /** The batch decides its credits: there is only one such list. */
  lemma CreditsAreUnique(labels: Labels, cells: seq<Cell>, outcomes: seq<Outcome>, a: seq<Credit>, b: seq<Credit>)
    requires CreditsOfBatch(labels, cells, outcomes, a) && CreditsOfBatch(labels, cells, outcomes, b)
    ensures a == b
  {
    if exists i :: 0 <= i < |outcomes| && outcomes[i].nullUnavailable {
    } else {
      hide Carried, Passed, ArmLeq;
      SameMembers(labels, cells, outcomes, a, b);
      SameMembers(labels, cells, outcomes, b, a);
      SortedCreditsAreEqual(a, b);
    }
  }

  lemma SameMembers(labels: Labels, cells: seq<Cell>, outcomes: seq<Outcome>, a: seq<Credit>, b: seq<Credit>)
    requires CreditsOfBatch(labels, cells, outcomes, a) && CreditsOfBatch(labels, cells, outcomes, b)
    requires forall i :: 0 <= i < |outcomes| ==> !outcomes[i].nullUnavailable
    ensures forall c :: c in a ==> c in b
  {
    hide Carried, Passed, OneCreditPerArm;
    forall c | c in a ensures c in b {
      assert Carried(labels, cells, outcomes, |cells|, c.arm);
      var d :| d in b && d.arm == c.arm;
      assert d == c;
    }
  }

  lemma {:induction false} SortedCreditsAreEqual(a: seq<Credit>, b: seq<Credit>)
    requires OneCreditPerArm(a) && OneCreditPerArm(b)
    requires (forall c :: c in a ==> c in b) && (forall c :: c in b ==> c in a)
    ensures a == b
  {
    assert (a != [] ==> a[0] in b) && (b != [] ==> b[0] in a);
    if a != [] {
      FirstIsLeast(a, b[0]);
      FirstIsLeast(b, a[0]);
      ArmLeqIsTotalOrder();
      assert a[0].arm == b[0].arm;
      SameFirst(a, b);
      TailMembers(a);
      TailMembers(b);
      hide OneCreditPerArm;
      SortedCreditsAreEqual(a[1..], b[1..]);
      assert a == [a[0]] + a[1..] && b == [b[0]] + b[1..];
    }
  }

  lemma FirstIsLeast(a: seq<Credit>, c: Credit)
    requires OneCreditPerArm(a) && (c in a || a == [])
    ensures a != [] ==> ArmLeq(a[0].arm, c.arm)
  {
    ArmLeqIsTotalOrder();
    hide ArmLeq;
  }

  lemma SameFirst(a: seq<Credit>, b: seq<Credit>)
    requires OneCreditPerArm(b) && a != [] && b != [] && a[0].arm == b[0].arm && a[0] in b
    ensures a[0] == b[0]
  {
    hide ArmLeq;
  }

  lemma TailMembers(a: seq<Credit>)
    requires OneCreditPerArm(a) && a != []
    ensures OneCreditPerArm(a[1..]) && forall c :: c in a[1..] <==> c in a && c != a[0]
  {
    hide ArmLeq;
    assert forall j :: 0 <= j < |a[1..]| ==> a[1..][j] == a[j + 1];
    assert a == [a[0]] + a[1..];
  }

  // ------------------------------------------------------------------------------------------
  // The ledger
  // ------------------------------------------------------------------------------------------

  type Counts = map<Arm, (nat, nat)>

  datatype Ledger = Ledger(counts: Counts, credited: map<nat, seq<Credit>>, retracted: set<nat>)

  const EmptyLedger := Ledger(map[], map[], {})

  datatype Event = PosteriorUpdated(sweep: nat, credits: seq<Credit>) | PosteriorRetracted(sweeps: seq<nat>)

  /** `evidence`: successes and failures. */
  function Evidence(counts: Counts, arm: Arm): (nat, nat) {
    if arm in counts then counts[arm] else (0, 0)
  }

  function CreditOne(counts: Counts, c: Credit): Counts {
    var (s, f) := Evidence(counts, c.arm);
    counts[c.arm := if c.success then (s + 1, f) else (s, f + 1)]
  }

  /** A success becomes a failure; the subtraction stops at zero. */
  function FlipOne(counts: Counts, c: Credit): Counts {
    if !c.success then counts
    else
      var (s, f) := Evidence(counts, c.arm);
      counts[c.arm := (if s > 0 then s - 1 else 0, f + 1)]
  }

  function CreditEach(counts: Counts, cs: seq<Credit>): Counts
    decreases |cs|
  {
    if cs == [] then counts else CreditEach(CreditOne(counts, cs[0]), cs[1..])
  }

  function FlipEach(counts: Counts, cs: seq<Credit>): Counts
    decreases |cs|
  {
    if cs == [] then counts else FlipEach(FlipOne(counts, cs[0]), cs[1..])
  }

  function CreditsIn(l: Ledger, sweep: nat): seq<Credit> {
    if sweep in l.credited then l.credited[sweep] else []
  }

  function CreditSweep(l: Ledger, sweep: nat, cs: seq<Credit>): Ledger {
    Ledger(CreditEach(l.counts, cs), l.credited[sweep := CreditsIn(l, sweep) + cs], l.retracted)
  }

  /** A sweep is retracted once, by replaying its own credits; again it changes nothing. */
  function RetractOne(l: Ledger, sweep: nat): Ledger {
    if sweep in l.retracted then l
    else Ledger(FlipEach(l.counts, CreditsIn(l, sweep)), l.credited, l.retracted + {sweep})
  }

  function RetractEach(l: Ledger, sweeps: seq<nat>): Ledger
    decreases |sweeps|
  {
    if sweeps == [] then l else RetractEach(RetractOne(l, sweeps[0]), sweeps[1..])
  }

  function Applied(l: Ledger, e: Event): Ledger {
    match e
    case PosteriorUpdated(sweep, credits) => CreditSweep(l, sweep, credits)
    case PosteriorRetracted(sweeps) => RetractEach(l, sweeps)
  }

  /** The ledger of a journal. */
  function LedgerOf(es: seq<Event>): Ledger {
    if es == [] then EmptyLedger else Applied(LedgerOf(es[..|es| - 1]), es[|es| - 1])
  }

  // ------------------------------------------------------------------------------------------
  // What the evidence ought to be
  // ------------------------------------------------------------------------------------------

  function Successes(cs: seq<Credit>, arm: Arm): nat
    decreases |cs|
  {
    if cs == [] then 0 else (if cs[0].arm == arm && cs[0].success then 1 else 0) + Successes(cs[1..], arm)
  }

  function Total(cs: seq<Credit>, arm: Arm): nat
    decreases |cs|
  {
    if cs == [] then 0 else (if cs[0].arm == arm then 1 else 0) + Total(cs[1..], arm)
  }

  function RetractedIn(es: seq<Event>): set<nat> {
    if es == [] then {}
    else
      var before := RetractedIn(es[..|es| - 1]);
      match es[|es| - 1]
      case PosteriorRetracted(sweeps) => before + Orders.Elements(sweeps)
      case PosteriorUpdated(_, _) => before
  }

  function CreditsOf(es: seq<Event>, sweep: nat): seq<Credit> {
    if es == [] then []
    else
      var before := CreditsOf(es[..|es| - 1], sweep);
      match es[|es| - 1]
      case PosteriorUpdated(s, cs) => if s == sweep then before + cs else before
      case PosteriorRetracted(_) => before
  }

  /** Successful credits of an arm whose sweep is outside a set. */
  function Live(es: seq<Event>, arm: Arm, out: set<nat>): nat {
    if es == [] then 0
    else
      var before := Live(es[..|es| - 1], arm, out);
      match es[|es| - 1]
      case PosteriorUpdated(s, cs) => if s in out then before else before + Successes(cs, arm)
      case PosteriorRetracted(_) => before
  }

  /** All credits of an arm. */
  function Given(es: seq<Event>, arm: Arm): nat {
    if es == [] then 0
    else
      var before := Given(es[..|es| - 1], arm);
      match es[|es| - 1]
      case PosteriorUpdated(_, cs) => before + Total(cs, arm)
      case PosteriorRetracted(_) => before
  }

  /** Successful credits that arrived after their sweep was retracted. */
  function Late(es: seq<Event>, arm: Arm): nat {
    if es == [] then 0
    else
      var before := Late(es[..|es| - 1], arm);
      match es[|es| - 1]
      case PosteriorUpdated(s, cs) =>
        if s in RetractedIn(es[..|es| - 1]) then before + Successes(cs, arm) else before
      case PosteriorRetracted(_) => before
  }

  // ------------------------------------------------------------------------------------------
  // What crediting and flipping do to one arm
  // ------------------------------------------------------------------------------------------

  lemma CreditEachCounts(counts: Counts, cs: seq<Credit>, arm: Arm)
    ensures var (s, f), (t, g) := Evidence(counts, arm), Evidence(CreditEach(counts, cs), arm);
      t == s + Successes(cs, arm) && t + g == s + f + Total(cs, arm)
    decreases |cs|
  {
    if cs != [] {
      CreditEachCounts(CreditOne(counts, cs[0]), cs[1..], arm);
    }
  }

  lemma FlipEachCounts(counts: Counts, cs: seq<Credit>, arm: Arm)
    requires Evidence(counts, arm).0 >= Successes(cs, arm)
    ensures var (s, f), (t, g) := Evidence(counts, arm), Evidence(FlipEach(counts, cs), arm);
      t == s - Successes(cs, arm) && t + g == s + f
    decreases |cs|
  {
    if cs != [] {
      FlipEachCounts(FlipOne(counts, cs[0]), cs[1..], arm);
    }
  }

  lemma SuccessesAppend(a: seq<Credit>, b: seq<Credit>, arm: Arm)
    ensures Successes(a + b, arm) == Successes(a, arm) + Successes(b, arm)
    decreases |a|
  {
    if a == [] {
      assert a + b == b;
    } else {
      assert (a + b)[1..] == a[1..] + b;
      SuccessesAppend(a[1..], b, arm);
    }
  }

  /** Retracting one more sweep takes exactly its own successes away. */
  lemma {:induction false} LiveWithout(es: seq<Event>, arm: Arm, out: set<nat>, sweep: nat)
    requires sweep !in out
    ensures Live(es, arm, out) == Live(es, arm, out + {sweep}) + Successes(CreditsOf(es, sweep), arm)
  {
    if es != [] {
      LiveWithout(es[..|es| - 1], arm, out, sweep);
      match es[|es| - 1] {
        case PosteriorUpdated(s, cs) => SuccessesAppend(CreditsOf(es[..|es| - 1], sweep), cs, arm);
        case PosteriorRetracted(_) =>
      }
    }
  }

  ghost predicate ArmCounted(l: Ledger, es: seq<Event>, arm: Arm) {
    && Evidence(l.counts, arm).0 == Live(es, arm, l.retracted) + Late(es, arm)
    && Evidence(l.counts, arm).0 + Evidence(l.counts, arm).1 == Given(es, arm)
  }

  /** The ledger in the middle of applying retractions: the journal so far and the sweeps already out. */
  ghost predicate Accounts(l: Ledger, es: seq<Event>) {
    && (forall arm :: ArmCounted(l, es, arm))
    && (forall sweep :: CreditsIn(l, sweep) == CreditsOf(es, sweep))
  }

  lemma RetractOneAccounts(l: Ledger, es: seq<Event>, sweep: nat)
    requires Accounts(l, es)
    ensures Accounts(RetractOne(l, sweep), es) && RetractOne(l, sweep).retracted == l.retracted + {sweep}
  {
    hide Evidence, Live, Late, Given, CreditsOf, FlipEach, Successes;
    var t := RetractOne(l, sweep);
    if sweep in l.retracted {
      assert l.retracted + {sweep} == l.retracted;
    } else {
      forall arm ensures ArmCounted(t, es, arm) {
        assert ArmCounted(l, es, arm);
        assert CreditsIn(l, sweep) == CreditsOf(es, sweep);
        LiveWithout(es, arm, l.retracted, sweep);
        FlipEachCounts(l.counts, CreditsIn(l, sweep), arm);
      }
    }
  }

  lemma {:induction false} RetractEachAccounts(l: Ledger, es: seq<Event>, sweeps: seq<nat>)
    requires Accounts(l, es)
    ensures Accounts(RetractEach(l, sweeps), es)
        && RetractEach(l, sweeps).retracted == l.retracted + Orders.Elements(sweeps)
    decreases |sweeps|
  {
    if sweeps != [] {
      hide Accounts;
      RetractOneAccounts(l, es, sweeps[0]);
      RetractEachAccounts(RetractOne(l, sweeps[0]), es, sweeps[1..]);
      assert sweeps == [sweeps[0]] + sweeps[1..];
      assert Orders.Elements(sweeps) == {sweeps[0]} + Orders.Elements(sweeps[1..]);
    }
  }

  lemma CreditSweepAccounts(l: Ledger, es: seq<Event>, sweep: nat, cs: seq<Credit>)
    requires Accounts(l, es) && l.retracted == RetractedIn(es)
    ensures Accounts(CreditSweep(l, sweep, cs), es + [PosteriorUpdated(sweep, cs)])
  {
    var fs := es + [PosteriorUpdated(sweep, cs)];
    assert fs[..|fs| - 1] == es;
    var t := CreditSweep(l, sweep, cs);
    forall arm ensures ArmCounted(t, fs, arm) {
      assert ArmCounted(l, es, arm);
      CreditEachCounts(l.counts, cs, arm);
      hide Evidence, CreditEach, CreditsOf, Successes, Total;
    }
    hide ArmCounted, CreditEach;
    forall s ensures CreditsIn(t, s) == CreditsOf(fs, s) {
      assert CreditsIn(l, s) == CreditsOf(es, s);
    }
  }

  lemma AfterRetractionAccounts(l: Ledger, es: seq<Event>, sweeps: seq<nat>)
    requires Accounts(l, es)
    ensures Accounts(l, es + [PosteriorRetracted(sweeps)])
  {
    var fs := es + [PosteriorRetracted(sweeps)];
    assert fs[..|fs| - 1] == es;
    forall arm ensures ArmCounted(l, fs, arm) {
      assert ArmCounted(l, es, arm);
    }
    hide ArmCounted;
    forall s ensures CreditsIn(l, s) == CreditsOf(fs, s) {
      assert CreditsIn(l, s) == CreditsOf(es, s);
    }
  }

  /** For every journal: an arm has as many observations as credits, whatever was retracted, and its
      successes are those of the sweeps never retracted, plus the late ones. No subtraction ever
      stops at zero. */
  lemma {:induction false} LedgerAccounts(es: seq<Event>)
    ensures Accounts(LedgerOf(es), es) && LedgerOf(es).retracted == RetractedIn(es)
  {
    if es == [] {
      assert forall arm :: ArmCounted(EmptyLedger, es, arm);
    } else {
      var before := es[..|es| - 1];
      LedgerAccounts(before);
      hide Accounts;
      assert es == before + [es[|es| - 1]];
      match es[|es| - 1] {
        case PosteriorUpdated(sweep, cs) => CreditSweepAccounts(LedgerOf(before), before, sweep, cs);
        case PosteriorRetracted(sweeps) =>
          RetractEachAccounts(LedgerOf(before), before, sweeps);
          AfterRetractionAccounts(RetractEach(LedgerOf(before), sweeps), before, sweeps);
      }
    }
  }

  /** The evidence retraction is meant to leave: a success counts as one only if its sweep is never
      retracted, and every other credit is a failure. */
  function Meant(es: seq<Event>, arm: Arm): (r: (int, int)) {
    (Live(es, arm, RetractedIn(es)), Given(es, arm) - Live(es, arm, RetractedIn(es)))
  }

  ghost predicate HasSuccess(cs: seq<Credit>) {
    exists c :: c in cs && c.success
  }

  /** No sweep is credited with a success after it was retracted. */
  ghost predicate RetractedLast(es: seq<Event>) {
    forall i :: 0 <= i < |es| && es[i].PosteriorUpdated? && HasSuccess(es[i].credits) ==>
      es[i].sweep !in RetractedIn(es[..i])
  }

  lemma {:induction false} SuccessIsCounted(cs: seq<Credit>)
    ensures HasSuccess(cs) <==> exists arm :: Successes(cs, arm) > 0
  {
    if cs != [] {
      SuccessIsCounted(cs[1..]);
      assert cs == [cs[0]] + cs[1..];
      if HasSuccess(cs) {
        var c :| c in cs && c.success;
        if c != cs[0] {
          assert c in cs[1..];
          var arm :| Successes(cs[1..], arm) > 0;
          assert Successes(cs, arm) > 0;
        } else {
          assert Successes(cs, c.arm) > 0;
        }
      }
      if arm :| Successes(cs, arm) > 0 {
        if cs[0].arm == arm && cs[0].success {
          assert cs[0] in cs;
        } else {
          assert Successes(cs[1..], arm) > 0;
        }
      }
    }
  }

  /** The last event credits a success to a sweep already retracted. */
  ghost predicate LateLast(es: seq<Event>)
    requires es != []
  {
    var n := |es| - 1;
    es[n].PosteriorUpdated? && HasSuccess(es[n].credits) && es[n].sweep in RetractedIn(es[..n])
  }

  lemma RetractedLastSnoc(es: seq<Event>)
    requires es != []
    ensures var n := |es| - 1;
      && (RetractedLast(es) ==> RetractedLast(es[..n]))
      && (RetractedLast(es[..n]) ==> (RetractedLast(es) <==> !LateLast(es)))
  {
    hide HasSuccess, RetractedIn;
    var n := |es| - 1;
    forall i | 0 <= i < n ensures es[..n][i] == es[i] && es[..n][..i] == es[..i] {
    }
    if RetractedLast(es[..n]) && !LateLast(es) {
      forall i | 0 <= i < |es| && es[i].PosteriorUpdated? && HasSuccess(es[i].credits)
        ensures es[i].sweep !in RetractedIn(es[..i]) {
        if i < n { assert es[..n][i] == es[i]; }
      }
    }
    if RetractedLast(es) {
      forall i | 0 <= i < n && es[..n][i].PosteriorUpdated? && HasSuccess(es[..n][i].credits)
        ensures es[..n][i].sweep !in RetractedIn(es[..n][..i])
      {
        assert es[i].sweep !in RetractedIn(es[..i]);
      }
    }
  }

  lemma {:induction false} NothingLateIff(es: seq<Event>)
    ensures RetractedLast(es) <==> forall arm :: Late(es, arm) == 0
  {
    if es != [] {
      var n := |es| - 1;
      NothingLateIff(es[..n]);
      RetractedLastSnoc(es);
      hide RetractedLast, RetractedIn, Successes, HasSuccess;
      if es[n].PosteriorUpdated? {
        SuccessIsCounted(es[n].credits);
      }
      if RetractedLast(es) {
        forall arm ensures Late(es, arm) == 0 {
          assert Late(es[..n], arm) == 0;
          if es[n].PosteriorUpdated? && es[n].sweep in RetractedIn(es[..n]) {
            assert !HasSuccess(es[n].credits);
            assert Successes(es[n].credits, arm) == 0;
          }
        }
      } else if RetractedLast(es[..n]) {
        var arm :| Successes(es[n].credits, arm) > 0;
        assert Late(es, arm) != 0;
      } else {
        var arm :| Late(es[..n], arm) != 0;
        assert Late(es, arm) != 0;
      }
    }
  }

  /** Retraction is exact, for every arm, exactly when no sweep is credited with a success after it was
      retracted. */
  lemma RetractionIsExactIff(es: seq<Event>)
    ensures (forall arm :: Evidence(LedgerOf(es).counts, arm) == Meant(es, arm)) <==> RetractedLast(es)
  {
    LedgerAccounts(es);
    NothingLateIff(es);
    hide RetractedLast, LedgerOf, Live, Late, Given, RetractedIn;
    forall arm ensures Evidence(LedgerOf(es).counts, arm) == Meant(es, arm) <==> Late(es, arm) == 0 {
      assert ArmCounted(LedgerOf(es), es, arm);
    }
    hide Meant, Evidence;
    if !RetractedLast(es) {
      var arm :| Late(es, arm) != 0;
      assert Evidence(LedgerOf(es).counts, arm) != Meant(es, arm);
    } else {
      forall arm ensures Evidence(LedgerOf(es).counts, arm) == Meant(es, arm) {
        assert Late(es, arm) == 0;
      }
    }
  }

  lemma UpdatedLast(before: seq<Event>, sweep: nat, cs: seq<Credit>, arm: Arm, out: set<nat>)
    ensures var es := before + [PosteriorUpdated(sweep, cs)];
      && LedgerOf(es) == CreditSweep(LedgerOf(before), sweep, cs) && RetractedIn(es) == RetractedIn(before)
      && Live(es, arm, out) == Live(before, arm, out) + (if sweep in out then 0 else Successes(cs, arm))
      && Given(es, arm) == Given(before, arm) + Total(cs, arm)
  {
    var es := before + [PosteriorUpdated(sweep, cs)];
    assert es[..|es| - 1] == before;
  }

  lemma OneSuccess(arm: Arm)
    ensures var cs := [Credit(arm, true)];
      && HasSuccess(cs) && Successes(cs, arm) == Total(cs, arm) == 1
      && CreditEach(map[], cs) == CreditOne(map[], cs[0])
  {
    var cs := [Credit(arm, true)];
    assert cs[0] in cs && cs[1..] == [];
  }

  lemma OneRetraction(arm: Arm)
    ensures var es := [PosteriorRetracted([1])];
      LedgerOf(es).counts == map[] && RetractedIn(es) == {1} && Live(es, arm, {1}) == Given(es, arm) == 0
  {
    var es := [PosteriorRetracted([1])];
    assert es[..|es| - 1] == [] && [1][1..] == [];
    assert Orders.Elements([1]) == {1};
  }

  /** Such a journal exists: a success that arrives behind the retraction of its sweep stays a success. */
  lemma LateSuccessIsNotRetracted(arm: Arm)
    ensures var es := [PosteriorRetracted([1])] + [PosteriorUpdated(1, [Credit(arm, true)])];
      && !RetractedLast(es) && Evidence(LedgerOf(es).counts, arm) == (1, 0) && Meant(es, arm) == (0, 1)
  {
    var before, cs := [PosteriorRetracted([1])], [Credit(arm, true)];
    var es := before + [PosteriorUpdated(1, cs)];
    OneRetraction(arm);
    OneSuccess(arm);
    UpdatedLast(before, 1, cs, arm, {1});
    hide LedgerOf, RetractedIn, Live, Given, CreditEach, Successes, Total, HasSuccess;
    assert es[1].PosteriorUpdated? && es[..1] == before;
  }

  /** Retracting a list of sweeps again changes nothing. */
  lemma {:induction false} RetractingAgainChangesNothing(l: Ledger, sweeps: seq<nat>)
    requires Orders.Elements(sweeps) <= l.retracted
    ensures RetractEach(l, sweeps) == l
    decreases |sweeps|
  {
    if sweeps != [] {
      assert sweeps[0] in Orders.Elements(sweeps);
      assert Orders.Elements(sweeps[1..]) <= Orders.Elements(sweeps) by {
        assert sweeps == [sweeps[0]] + sweeps[1..];
      }
      RetractingAgainChangesNothing(l, sweeps[1..]);
    }
  }

  /** The credits of a batch add exactly one observation to every arm it drew and none to any other. */
  lemma BatchAddsOneObservation(labels: Labels, cells: seq<Cell>, outcomes: seq<Outcome>,
        credits: seq<Credit>, arm: Arm)
    requires CreditsOfBatch(labels, cells, outcomes, credits)
    requires forall i :: 0 <= i < |outcomes| ==> !outcomes[i].nullUnavailable
    ensures Total(credits, arm) == if Carried(labels, cells, outcomes, |cells|, arm) then 1 else 0
    ensures Successes(credits, arm) == if Passed(labels, cells, outcomes, |cells|, arm) then 1 else 0
  {
    hide Passed, Carried, OneCreditPerArm;
    if c :| c in credits && c.arm == arm {
      CountedOnce(credits, c);
      assert Carried(labels, cells, outcomes, |cells|, arm);
    } else {
      NotCounted(credits, arm);
      PassedIsCarried(labels, cells, outcomes, |cells|, arm);
    }
  }

  lemma PassedIsCarried(labels: Labels, cells: seq<Cell>, outcomes: seq<Outcome>, n: nat, arm: Arm)
    ensures Passed(labels, cells, outcomes, n, arm) ==> Carried(labels, cells, outcomes, n, arm)
  {
  }

  lemma {:induction false} NotCounted(cs: seq<Credit>, arm: Arm)
    requires forall c :: c in cs ==> c.arm != arm
    ensures Total(cs, arm) == Successes(cs, arm) == 0
    decreases |cs|
  {
    if cs != [] {
      assert cs == [cs[0]] + cs[1..];
      NotCounted(cs[1..], arm);
    }
  }

  lemma {:induction false} CountedOnce(cs: seq<Credit>, c: Credit)
    requires OneCreditPerArm(cs) && c in cs
    ensures Total(cs, c.arm) == 1 && Successes(cs, c.arm) == (if c.success then 1 else 0)
    decreases |cs|
  {
    hide ArmLeq;
    TailMembers(cs);
    if cs[0] == c {
      forall d | d in cs[1..] ensures d.arm != c.arm {
        var j :| 0 <= j < |cs[1..]| && cs[1..][j] == d;
        assert cs[j + 1] == d;
      }
      NotCounted(cs[1..], c.arm);
    } else {
      CountedOnce(cs[1..], c);
    }
  }

  /** The ledger as the session keeps it. */
  class PosteriorLedger {
    var counts: Counts
    var credited: map<nat, seq<Credit>>
    var retracted: set<nat>

    function Now(): Ledger
      reads this
    {
      Ledger(counts, credited, retracted)
    }

    constructor ()
      ensures Now() == EmptyLedger
    {
      counts, credited, retracted := map[], map[], {};
    }

    method CreditAll(sweep: nat, credits: seq<Credit>)
      modifies this
      ensures Now() == CreditSweep(old(Now()), sweep, credits)
    {
      for i := 0 to |credits|
        invariant credited == old(credited) && retracted == old(retracted)
        invariant CreditEach(counts, credits[i..]) == CreditEach(old(counts), credits)
      {
        var c := credits[i];
        var e := if c.arm in counts then counts[c.arm] else (0, 0);
        assert credits[i..][0] == c && credits[i..][1..] == credits[i + 1..];
        counts := counts[c.arm := if c.success then (e.0 + 1, e.1) else (e.0, e.1 + 1)];
      }
      credited := credited[sweep := (if sweep in credited then credited[sweep] else []) + credits];
    }

    method FlipAll(credits: seq<Credit>)
      modifies `counts
      ensures counts == FlipEach(old(counts), credits)
    {
      for i := 0 to |credits|
        invariant FlipEach(counts, credits[i..]) == FlipEach(old(counts), credits)
      {
        var c := credits[i];
        assert credits[i..][0] == c && credits[i..][1..] == credits[i + 1..];
        if c.success {
          var e := if c.arm in counts then counts[c.arm] else (0, 0);
          counts := counts[c.arm := (if e.0 > 0 then e.0 - 1 else 0, e.1 + 1)];
        }
      }
    }

    method Retract(sweeps: seq<nat>)
      modifies this
      ensures Now() == RetractEach(old(Now()), sweeps)
    {
      hide FlipEach;
      for i := 0 to |sweeps|
        invariant credited == old(credited)
        invariant RetractEach(Now(), sweeps[i..]) == RetractEach(old(Now()), sweeps)
      {
        assert sweeps[i..][0] == sweeps[i] && sweeps[i..][1..] == sweeps[i + 1..];
        if sweeps[i] !in retracted {
          retracted := retracted + {sweeps[i]};
          FlipAll(if sweeps[i] in credited then credited[sweeps[i]] else []);
        }
      }
    }
  }
}
