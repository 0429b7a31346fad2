/** Proposals and their two ledgers: identities seen, and draws refused by cause. */
module Proposals {
  import opened Common
  import opened ReplicateSeed

  const FACTOR_COUNT := 11
  const REFUSAL_DIMS := 4
  const CENSUS_EXAMPLES_MAX := 32

  type Sweep = nat

  /** The semantic identity of a proposal: every level it chose, and its replicate seed. */
  datatype Key = Key(cell: Cell, seed: U64)

  predicate WellFormed(k: Key) {
    |k.cell.axisA| == FACTOR_COUNT && |k.cell.refusals| == REFUSAL_DIMS
  }

  // ------------------------------------------------------------------------------------------
  // Which parts of two identities differ
  // ------------------------------------------------------------------------------------------

  datatype Part = Factor(i: nat) | Objective | ObjectiveParam | RefusalDim(i: nat) | Seed

  function DifferingLevels(a: seq<Level>, b: seq<Level>, i: nat, part: nat -> Part): (r: seq<Part>)
    requires |a| == |b| && i <= |a|
    ensures r == [] <==> forall k :: i <= k < |a| ==> a[k] == b[k]
    decreases |a| - i
  {
    if i == |a| then []
    else (if a[i] != b[i] then [part(i)] else []) + DifferingLevels(a, b, i + 1, part)
  }

  /** The census entry of a stamp collision. */
  function Differing(a: Key, b: Key): seq<Part>
    requires WellFormed(a) && WellFormed(b)
  {
    DifferingLevels(a.cell.axisA, b.cell.axisA, 0, (i: nat) => Factor(i))
    + (if a.cell.variant != b.cell.variant then [Objective]
       else if a.cell.param != b.cell.param then [ObjectiveParam] else [])
    + DifferingLevels(a.cell.refusals, b.cell.refusals, 0, (i: nat) => RefusalDim(i))
    + (if a.seed != b.seed then [Seed] else [])
  }

  /** Some level from i on differs, and p is the name of one that does. */
  ghost predicate NamesLevel(a: seq<Level>, b: seq<Level>, i: nat, part: nat -> Part, p: Part)
    requires |a| == |b|
  {
    exists k :: i <= k < |a| && a[k] != b[k] && p == part(k)
  }

  lemma NamesLevelNext(a: seq<Level>, b: seq<Level>, i: nat, part: nat -> Part, p: Part)
    requires |a| == |b| && i < |a|
    ensures NamesLevel(a, b, i, part, p) <==> (a[i] != b[i] && p == part(i)) || NamesLevel(a, b, i + 1, part, p)
  {
  }

  lemma {:induction false} DifferingLevelsNames(a: seq<Level>, b: seq<Level>, i: nat, part: nat -> Part, p: Part)
    requires |a| == |b| && i <= |a|
    ensures p in DifferingLevels(a, b, i, part) <==> NamesLevel(a, b, i, part, p)
    decreases |a| - i
  {
    if i < |a| {
      DifferingLevelsNames(a, b, i + 1, part, p);
      NamesLevelNext(a, b, i, part, p);
      var rest := DifferingLevels(a, b, i + 1, part);
      assert DifferingLevels(a, b, i, part) == (if a[i] != b[i] then [part(i)] else []) + rest;
      hide DifferingLevels, NamesLevel;
    }
  }

  /** Exactly the parts that differ are named; a different objective stands for its parameter too. */
  lemma DifferingNamesTheParts(a: Key, b: Key, p: Part)
    requires WellFormed(a) && WellFormed(b)
    ensures p in Differing(a, b) <==> match p
      case Factor(i) => i < FACTOR_COUNT && a.cell.axisA[i] != b.cell.axisA[i]
      case Objective => a.cell.variant != b.cell.variant
      case ObjectiveParam => a.cell.variant == b.cell.variant && a.cell.param != b.cell.param
      case RefusalDim(i) => i < REFUSAL_DIMS && a.cell.refusals[i] != b.cell.refusals[i]
      case Seed => a.seed != b.seed
  {
    DifferingLevelsNames(a.cell.axisA, b.cell.axisA, 0, (i: nat) => Factor(i), p);
    DifferingLevelsNames(a.cell.refusals, b.cell.refusals, 0, (i: nat) => RefusalDim(i), p);
    hide DifferingLevels;
  }

  /** Two identities with nothing to name between them are one identity. */
  lemma DifferingIsComplete(a: Key, b: Key)
    requires WellFormed(a) && WellFormed(b)
    ensures Differing(a, b) == [] <==> a == b
  {
    if Differing(a, b) == [] {
      assert a.cell.axisA == b.cell.axisA && a.cell.refusals == b.cell.refusals;
    }
  }

  // ------------------------------------------------------------------------------------------
  // The identity ledger
  // ------------------------------------------------------------------------------------------

  datatype Entry = Entry(key: Key, hash: Option<string>, sweep: Sweep)

  datatype Identity = New | DuplicateKey(firstSeen: Sweep) | StampCollision(firstSeen: Sweep, differing: seq<Part>)

  /** The first accepted entry with a key, by linear scan. */
  function FirstWithKey(history: seq<Entry>, key: Key): Option<Entry> {
    if history == [] then None
    else if history[0].key == key then Some(history[0])
    else FirstWithKey(history[1..], key)
  }

  function FirstWithHash(history: seq<Entry>, hash: string): Option<Entry> {
    if history == [] then None
    else if history[0].hash == Some(hash) then Some(history[0])
    else FirstWithHash(history[1..], hash)
  }

  lemma {:induction false} ScanSnoc(history: seq<Entry>, e: Entry, key: Key, hash: string)
    ensures FirstWithKey(history + [e], key) ==
      if FirstWithKey(history, key) != None then FirstWithKey(history, key) else if e.key == key then Some(e) else None
    ensures FirstWithHash(history + [e], hash) ==
      if FirstWithHash(history, hash) != None then FirstWithHash(history, hash)
      else if e.hash == Some(hash) then Some(e) else None
  {
    if history == [] {
      assert history + [e] == [e] && [e][1..] == [];
    } else {
      assert (history + [e])[1..] == history[1..] + [e];
      ScanSnoc(history[1..], e, key, hash);
    }
  }

  lemma ScanSnocAll(history: seq<Entry>, e: Entry)
    ensures forall key :: (
      FirstWithKey(history + [e], key) ==
        if FirstWithKey(history, key) != None then FirstWithKey(history, key)
        else if e.key == key then Some(e) else None)
    ensures forall hash :: (
      FirstWithHash(history + [e], hash) ==
        if FirstWithHash(history, hash) != None then FirstWithHash(history, hash)
        else if e.hash == Some(hash) then Some(e) else None)
  {
    forall key
      ensures FirstWithKey(history + [e], key) ==
        if FirstWithKey(history, key) != None then FirstWithKey(history, key)
        else if e.key == key then Some(e) else None
    {
      ScanSnoc(history, e, key, "");
    }
    forall hash
      ensures FirstWithHash(history + [e], hash) ==
        if FirstWithHash(history, hash) != None then FirstWithHash(history, hash)
        else if e.hash == Some(hash) then Some(e) else None
    {
      ScanSnoc(history, e, e.key, hash);
    }
  }

  lemma {:induction false} ScanFinds(history: seq<Entry>, key: Key, hash: string)
    ensures FirstWithKey(history, key) != None <==> exists i :: 0 <= i < |history| && history[i].key == key
    ensures FirstWithKey(history, key) != None ==>
      FirstWithKey(history, key).value in history && FirstWithKey(history, key).value.key == key
    ensures FirstWithHash(history, hash) != None ==>
      FirstWithHash(history, hash).value in history && FirstWithHash(history, hash).value.hash == Some(hash)
  {
    if history != [] {
      ScanFinds(history[1..], key, hash);
      assert history == [history[0]] + history[1..];
      if FirstWithKey(history, key) != None && history[0].key != key {
        var i :| 0 <= i < |history[1..]| && history[1..][i].key == key;
        assert history[i + 1].key == key;
      }
      if i :| 0 <= i < |history| && history[i].key == key {
        if i > 0 { assert history[1..][i - 1].key == key; }
      }
    }
  }

  /** An entry of the history with the key, and none before it. */
  ghost predicate EarliestWithKey(history: seq<Entry>, e: Entry, key: Key) {
    exists i :: 0 <= i < |history| && history[i] == e && e.key == key &&
      (forall j :: 0 <= j < i ==> history[j].key != key)
  }

  ghost predicate EarliestWithHash(history: seq<Entry>, e: Entry, hash: string) {
    exists i :: (0 <= i < |history| && history[i] == e && e.hash == Some(hash)
                 && forall j :: 0 <= j < i ==> history[j].hash != Some(hash))
  }

  lemma EarliestIsLater(e0: Entry, history: seq<Entry>, e: Entry, key: Key, hash: string)
    ensures e0.key != key && EarliestWithKey(history, e, key) ==> EarliestWithKey([e0] + history, e, key)
    ensures e0.hash != Some(hash) && EarliestWithHash(history, e, hash) ==> EarliestWithHash([e0] + history, e, hash)
  {
    var all := [e0] + history;
    if e0.key != key && EarliestWithKey(history, e, key) {
      var i :| (0 <= i < |history| && history[i] == e && e.key == key
                && forall j :: 0 <= j < i ==> history[j].key != key);
      assert all[i + 1] == e;
    }
    if e0.hash != Some(hash) && EarliestWithHash(history, e, hash) {
      var i :| (0 <= i < |history| && history[i] == e && e.hash == Some(hash)
                && forall j :: 0 <= j < i ==> history[j].hash != Some(hash));
      assert all[i + 1] == e;
    }
  }

  /** What the scan finds is the earliest entry with the key, or with the hash. */
  lemma {:induction false} ScanFindsEarliest(history: seq<Entry>, key: Key, hash: string)
    ensures var e := FirstWithKey(history, key); e != None ==> EarliestWithKey(history, e.value, key)
    ensures var e := FirstWithHash(history, hash); e != None ==> EarliestWithHash(history, e.value, hash)
  {
    if history != [] {
      var rest := history[1..];
      ScanFindsEarliest(rest, key, hash);
      assert history == [history[0]] + rest;
      var k, h := FirstWithKey(history, key), FirstWithHash(history, hash);
      if k != None && history[0].key != key { EarliestIsLater(history[0], rest, k.value, key, hash); }
      if h != None && history[0].hash != Some(hash) { EarliestIsLater(history[0], rest, h.value, key, hash); }
    }
  }

  /** Session-wide identity bookkeeping: two hash tables that answer as a linear scan of the accepted
      history would. */
  class IdentityLedger {
    var byKey: map<Key, Sweep>
    var byHash: map<string, (Key, Sweep)>
    ghost var history: seq<Entry>

    ghost predicate Valid()
      reads this
    {
      && (forall e :: e in history ==> WellFormed(e.key))
      && (forall key :: key in byKey <==> FirstWithKey(history, key) != None)
      && (forall key :: key in byKey ==> byKey[key] == FirstWithKey(history, key).value.sweep)
      && (forall hash :: hash in byHash <==> FirstWithHash(history, hash) != None)
      && (forall hash :: hash in byHash ==>
            byHash[hash] == (FirstWithHash(history, hash).value.key, FirstWithHash(history, hash).value.sweep))
    }

    constructor ()
      ensures Valid() && history == []
    {
      byKey, byHash, history := map[], map[], [];
    }

    /** A key accepted before is a duplicate of its first sweep and changes nothing. A new key is
        accepted; it collides exactly when some accepted entry has its hash, and then names the
        earliest one, from which it necessarily differs. */
    method Observe(key: Key, hash: Option<string>, sweep: Sweep) returns (r: Identity)
      requires Valid() && WellFormed(key)
      modifies this
      ensures Valid()
      ensures r.DuplicateKey? <==> exists i :: 0 <= i < |old(history)| && old(history)[i].key == key
      ensures r.DuplicateKey? ==>
        && history == old(history) && FirstWithKey(old(history), key) != None
        && r.firstSeen == FirstWithKey(old(history), key).value.sweep
      ensures !r.DuplicateKey? ==> history == old(history) + [Entry(key, hash, sweep)]
      ensures r.StampCollision? <==>
        !r.DuplicateKey? && hash != None && FirstWithHash(old(history), hash.value) != None
      ensures r.StampCollision? ==>
        var first := FirstWithHash(old(history), hash.value).value;
        && r.firstSeen == first.sweep && WellFormed(first.key) && first.key != key
        && r.differing == Differing(first.key, key) && r.differing != []
    {
      hide FirstWithKey, FirstWithHash, Differing, WellFormed;
      ScanFinds(history, key, if hash == None then "" else hash.value);
      if key in byKey {
        return DuplicateKey(byKey[key]);
      }
      r := New;
      if hash != None && hash.value in byHash && byHash[hash.value].0 != key {
        var (other, first) := byHash[hash.value];
        DifferingIsComplete(other, key);
        r := StampCollision(first, Differing(other, key));
      }
      ghost var e := Entry(key, hash, sweep);
      ScanSnocAll(history, e);
      byKey := byKey[key := sweep];
      if hash != None && hash.value !in byHash {
        byHash := byHash[hash.value := (key, sweep)];
      }
      history := history + [e];
    }
  }

  // ------------------------------------------------------------------------------------------
  // The census
  // ------------------------------------------------------------------------------------------

  datatype Refusal =
    | Space | SpaceEnumerated(slot: nat, drawn: nat, of: nat, collisions: nat) | AllVariantsCapped | ObjectiveError
    | LaneHorizon | PayoffFloorUnreachable | InvalidPayoffInputs | MoneyPath | AppliedValueMismatch
    | Duplicate(firstSeen: Sweep) | CellReplicatesExhausted(replicates: nat)

  type Example = (Refusal, string)

  datatype Census = Census(
    proposalsDrawn: nat, duplicatesRefused: nat, cellReplicatesExhausted: nat, payoffFloorUnreachable: nat,
    invalidPayoffInputs: nat, laneHorizonRefused: nat, moneyPathRefused: nat, appliedValueMismatch: nat,
    spaceRefused: nat, objectiveRefused: nat, trustRegionReverted: nat, constraintResampled: nat,
    stampCollisions: nat, coverageDebtForced: nat, uniformCollisions: nat, examples: seq<Example>)

  const EmptyCensus := Census(0, 0, 0, 0, 0, 0, 0, 0, 0, 0, 0, 0, 0, 0, 0, [])

  function Bounded(examples: seq<Example>): seq<Example> {
    if |examples| <= CENSUS_EXAMPLES_MAX then examples else examples[..CENSUS_EXAMPLES_MAX]
  }

  function Counted(c: Census, r: Refusal): Census {
    match r
    case Space | SpaceEnumerated(_, _, _, _) => c.(spaceRefused := c.spaceRefused + 1)
    case AllVariantsCapped | ObjectiveError => c.(objectiveRefused := c.objectiveRefused + 1)
    case LaneHorizon => c.(laneHorizonRefused := c.laneHorizonRefused + 1)
    case PayoffFloorUnreachable => c.(payoffFloorUnreachable := c.payoffFloorUnreachable + 1)
    case InvalidPayoffInputs => c.(invalidPayoffInputs := c.invalidPayoffInputs + 1)
    case MoneyPath => c.(moneyPathRefused := c.moneyPathRefused + 1)
    case AppliedValueMismatch => c.(appliedValueMismatch := c.appliedValueMismatch + 1)
    case Duplicate(_) => c.(duplicatesRefused := c.duplicatesRefused + 1)
    case CellReplicatesExhausted(_) => c.(cellReplicatesExhausted := c.cellReplicatesExhausted + 1)
  }

  /** `record_refusal` on a census value. */
  function Recorded(c: Census, r: Refusal, describe: string): Census {
    Counted(c, r).(examples := if |c.examples| < CENSUS_EXAMPLES_MAX then c.examples + [(r, describe)] else c.examples)
  }

  /** `absorb` on census values. */
  function Absorbed(c: Census, d: Census): Census {
    Census(c.proposalsDrawn + d.proposalsDrawn, c.duplicatesRefused + d.duplicatesRefused,
           c.cellReplicatesExhausted + d.cellReplicatesExhausted, c.payoffFloorUnreachable + d.payoffFloorUnreachable,
           c.invalidPayoffInputs + d.invalidPayoffInputs, c.laneHorizonRefused + d.laneHorizonRefused,
           c.moneyPathRefused + d.moneyPathRefused, c.appliedValueMismatch + d.appliedValueMismatch,
           c.spaceRefused + d.spaceRefused, c.objectiveRefused + d.objectiveRefused,
           c.trustRegionReverted + d.trustRegionReverted, c.constraintResampled + d.constraintResampled,
           c.stampCollisions + d.stampCollisions, c.coverageDebtForced + d.coverageDebtForced,
           c.uniformCollisions + d.uniformCollisions,
           if |c.examples| >= CENSUS_EXAMPLES_MAX then c.examples else Bounded(c.examples + d.examples))
  }

  function TotalRefused(c: Census): nat {
    c.duplicatesRefused + c.cellReplicatesExhausted + c.payoffFloorUnreachable + c.invalidPayoffInputs
    + c.laneHorizonRefused + c.moneyPathRefused + c.appliedValueMismatch + c.spaceRefused + c.objectiveRefused
  }

  /** A sweep's census after a stream of refusals. */
  function RecordAll(c: Census, stream: seq<Example>): Census
    decreases |stream|
  {
    if stream == [] then c else RecordAll(Recorded(c, stream[0].0, stream[0].1), stream[1..])
  }

  /** The session's census after absorbing one sweep after another. */
  function AbsorbAll(c: Census, sweeps: seq<seq<Example>>): Census
    decreases |sweeps|
  {
    if sweeps == [] then c else AbsorbAll(Absorbed(c, RecordAll(EmptyCensus, sweeps[0])), sweeps[1..])
  }

  function Joined(sweeps: seq<seq<Example>>): seq<Example> {
    if sweeps == [] then [] else sweeps[0] + Joined(sweeps[1..])
  }

  /** Every refusal counts once, and the kept examples are the first of the stream. */
  lemma {:induction false} RecordAllConserves(c: Census, stream: seq<Example>)
    requires |c.examples| <= CENSUS_EXAMPLES_MAX
    ensures TotalRefused(RecordAll(c, stream)) == TotalRefused(c) + |stream|
    ensures RecordAll(c, stream).examples == Bounded(c.examples + stream)
    decreases |stream|
  {
    if stream == [] {
      assert Bounded(c.examples + stream) == c.examples;
    } else {
      hide Recorded, TotalRefused, Bounded;
      RecordedConserves(c, stream[0]);
      BoundedLength(c.examples + [stream[0]]);
      RecordAllConserves(Recorded(c, stream[0].0, stream[0].1), stream[1..]);
      BoundedPrefix(c.examples + [stream[0]], stream[1..]);
      assert c.examples + [stream[0]] + stream[1..] == c.examples + stream;
    }
  }

  lemma AbsorbedConserves(c: Census, d: Census)
    requires |c.examples| <= CENSUS_EXAMPLES_MAX
    ensures TotalRefused(Absorbed(c, d)) == TotalRefused(c) + TotalRefused(d)
    ensures Absorbed(c, d).examples == Bounded(c.examples + d.examples)
  {
  }

  lemma BoundedIs(a: seq<Example>)
    ensures |Bounded(a)| == (if |a| <= 32 then |a| else 32) && Bounded(a) == a[..|Bounded(a)|]
  {
  }

  lemma BoundedShort(a: seq<Example>)
    requires |a| <= CENSUS_EXAMPLES_MAX
    ensures Bounded(a + []) == a
  {
    assert a + [] == a;
  }

  lemma ThreeParts(a: seq<Example>, b: seq<Example>, c: seq<Example>)
    ensures a + b + c == a + (b + c)
  {
  }

  lemma BoundedLength(a: seq<Example>)
    ensures |Bounded(a)| <= CENSUS_EXAMPLES_MAX
  {
  }

  lemma RecordedConserves(c: Census, e: Example)
    requires |c.examples| <= CENSUS_EXAMPLES_MAX
    ensures TotalRefused(Recorded(c, e.0, e.1)) == TotalRefused(c) + 1
    ensures Recorded(c, e.0, e.1).examples == Bounded(c.examples + [e])
  {
  }

  lemma RefusalIsCounted(c: Census, r: Refusal, describe: string)
    ensures TotalRefused(Recorded(c, r, describe)) == TotalRefused(c) + 1
    ensures Counted(c, r).examples == c.examples
  {
  }

  lemma BoundedTwice(a: seq<Example>, b: seq<Example>)
    ensures Bounded(a + Bounded(b)) == Bounded(a + b)
  {
  }

  lemma FreshSweep(stream: seq<Example>)
    ensures TotalRefused(RecordAll(EmptyCensus, stream)) == |stream|
    ensures RecordAll(EmptyCensus, stream).examples == Bounded(stream)
  {
    RecordAllConserves(EmptyCensus, stream);
    assert EmptyCensus.examples + stream == stream;
  }

  lemma AbsorbSweep(c: Census, one: Census, stream: seq<Example>)
    requires |c.examples| <= CENSUS_EXAMPLES_MAX
    requires TotalRefused(one) == |stream| && one.examples == Bounded(stream)
    ensures var d := Absorbed(c, one);
      && TotalRefused(d) == TotalRefused(c) + |stream|
      && d.examples == Bounded(c.examples + stream) && |d.examples| <= CENSUS_EXAMPLES_MAX
  {
    hide Absorbed, Bounded, TotalRefused;
    AbsorbedConserves(c, one);
    BoundedTwice(c.examples, stream);
    BoundedLength(c.examples + stream);
  }

  /** Over a whole session: the refusals of all sweeps are counted once each, and the examples are the
      first thirty-two of their concatenation, although every sweep bounds its own list too. */
  lemma {:induction false} AbsorbAllConserves(c: Census, sweeps: seq<seq<Example>>)
    requires |c.examples| <= CENSUS_EXAMPLES_MAX
    ensures TotalRefused(AbsorbAll(c, sweeps)) == TotalRefused(c) + |Joined(sweeps)|
    ensures AbsorbAll(c, sweeps).examples == Bounded(c.examples + Joined(sweeps))
    ensures var n := |c.examples| + |Joined(sweeps)|; |AbsorbAll(c, sweeps).examples| == if n <= 32 then n else 32
    decreases |sweeps|
  {
    hide RecordAll, Absorbed, Bounded, TotalRefused, Counted;
    BoundedIs(c.examples + Joined(sweeps));
    if sweeps == [] {
      BoundedShort(c.examples);
    } else {
      FreshSweep(sweeps[0]);
      AbsorbSweep(c, RecordAll(EmptyCensus, sweeps[0]), sweeps[0]);
      AbsorbAllConserves(Absorbed(c, RecordAll(EmptyCensus, sweeps[0])), sweeps[1..]);
      BoundedPrefix(c.examples + sweeps[0], Joined(sweeps[1..]));
      ThreeParts(c.examples, sweeps[0], Joined(sweeps[1..]));
    }
  }

  lemma BoundedPrefix(a: seq<Example>, b: seq<Example>)
    ensures Bounded(Bounded(a) + b) == Bounded(a + b)
  {
  }

  // ------------------------------------------------------------------------------------------
  // Cause by cause
  // ------------------------------------------------------------------------------------------

  datatype Cause =
    | OfDuplicates | OfReplicates | OfPayoffFloor | OfPayoffInputs | OfLaneHorizon | OfMoneyPath | OfAppliedValue
    | OfSpace | OfObjective

  /** The causes the report tells apart. */
  function CauseOf(r: Refusal): Cause {
    match r
    case Duplicate(_) => OfDuplicates
    case CellReplicatesExhausted(_) => OfReplicates
    case PayoffFloorUnreachable => OfPayoffFloor
    case InvalidPayoffInputs => OfPayoffInputs
    case LaneHorizon => OfLaneHorizon
    case MoneyPath => OfMoneyPath
    case AppliedValueMismatch => OfAppliedValue
    case Space => OfSpace
    case SpaceEnumerated(_, _, _, _) => OfSpace
    case AllVariantsCapped => OfObjective
    case ObjectiveError => OfObjective
  }

  /** The counter of a cause. */
  function CountOf(c: Census, cause: Cause): nat {
    match cause
    case OfDuplicates => c.duplicatesRefused
    case OfReplicates => c.cellReplicatesExhausted
    case OfPayoffFloor => c.payoffFloorUnreachable
    case OfPayoffInputs => c.invalidPayoffInputs
    case OfLaneHorizon => c.laneHorizonRefused
    case OfMoneyPath => c.moneyPathRefused
    case OfAppliedValue => c.appliedValueMismatch
    case OfSpace => c.spaceRefused
    case OfObjective => c.objectiveRefused
  }

  /** The refusals of a cause in a stream. */
  function Caused(stream: seq<Example>, cause: Cause): nat {
    if stream == [] then 0 else (if CauseOf(stream[0].0) == cause then 1 else 0) + Caused(stream[1..], cause)
  }

  /** The counters that no refusal touches: acceptances, reverted and resampled factors, stamp collisions, paid
      debts, uniform collisions. */
  function Untouched(c: Census): (nat, nat, nat, nat, nat, nat) {
    (c.proposalsDrawn, c.trustRegionReverted, c.constraintResampled, c.stampCollisions, c.coverageDebtForced,
     c.uniformCollisions)
  }

  lemma RecordedCounts(c: Census, r: Refusal, describe: string, cause: Cause)
    ensures CountOf(Recorded(c, r, describe), cause) == CountOf(c, cause) + (if CauseOf(r) == cause then 1 else 0)
    ensures Untouched(Recorded(c, r, describe)) == Untouched(c)
  {
  }

  lemma AbsorbedCounts(c: Census, d: Census, cause: Cause)
    ensures CountOf(Absorbed(c, d), cause) == CountOf(c, cause) + CountOf(d, cause)
    ensures var (a, b, t) := (Untouched(c), Untouched(d), Untouched(Absorbed(c, d)));
      t == (a.0 + b.0, a.1 + b.1, a.2 + b.2, a.3 + b.3, a.4 + b.4, a.5 + b.5)
  {
  }

  lemma {:induction false} RecordAllCounts(c: Census, stream: seq<Example>, cause: Cause)
    ensures CountOf(RecordAll(c, stream), cause) == CountOf(c, cause) + Caused(stream, cause)
    ensures Untouched(RecordAll(c, stream)) == Untouched(c)
    decreases |stream|
  {
    hide Recorded, CountOf, CauseOf, Untouched;
    if stream != [] {
      RecordedCounts(c, stream[0].0, stream[0].1, cause);
      RecordAllCounts(Recorded(c, stream[0].0, stream[0].1), stream[1..], cause);
    }
  }

  lemma {:induction false} CausedTogether(a: seq<Example>, b: seq<Example>, cause: Cause)
    ensures Caused(a + b, cause) == Caused(a, cause) + Caused(b, cause)
  {
    if a == [] {
      assert a + b == b;
    } else {
      assert (a + b)[1..] == a[1..] + b;
      CausedTogether(a[1..], b, cause);
    }
  }

  /** Over a whole session every cause is counted exactly as often as it occurred in the sweeps, and nothing is
      counted under another. */
  lemma {:induction false} AbsorbAllCounts(c: Census, sweeps: seq<seq<Example>>, cause: Cause)
    ensures CountOf(AbsorbAll(c, sweeps), cause) == CountOf(c, cause) + Caused(Joined(sweeps), cause)
    decreases |sweeps|
  {
    if sweeps != [] {
      RecordAllCounts(EmptyCensus, sweeps[0], cause);
      assert CountOf(EmptyCensus, cause) == 0;
      hide RecordAll, Absorbed, CountOf, Untouched, Caused;
      var d := RecordAll(EmptyCensus, sweeps[0]);
      AbsorbedCounts(c, d, cause);
      AbsorbAllCounts(Absorbed(c, d), sweeps[1..], cause);
      CausedTogether(sweeps[0], Joined(sweeps[1..]), cause);
    }
  }

  /** The census as the proposer keeps it. */
  class ProposerCensus {
    var value: Census

    constructor ()
      ensures value == EmptyCensus
    {
      value := EmptyCensus;
    }

    method RecordRefusal(r: Refusal, describe: string)
      modifies this
      ensures value == Recorded(old(value), r, describe)
      ensures TotalRefused(value) == TotalRefused(old(value)) + 1
    {
      RefusalIsCounted(value, r, describe);
      hide Counted, TotalRefused;
      value := Counted(value, r);
      if |value.examples| < CENSUS_EXAMPLES_MAX {
        value := value.(examples := value.examples + [(r, describe)]);
      }
    }

    method Absorb(other: Census)
      requires |value.examples| <= CENSUS_EXAMPLES_MAX
      modifies this
      ensures value == Absorbed(old(value), other)
      ensures TotalRefused(value) == TotalRefused(old(value)) + TotalRefused(other)
      ensures value.examples == Bounded(old(value.examples) + other.examples)
    {
      var kept := value.examples;
      var k := 0;
      while k < |other.examples| && |kept| < CENSUS_EXAMPLES_MAX
        invariant k <= |other.examples| && |kept| <= CENSUS_EXAMPLES_MAX
        invariant kept == value.examples + other.examples[..k]
      {
        kept := kept + [other.examples[k]];
        k := k + 1;
      }
      value := Absorbed(value, other.(examples := [])).(examples := kept);
    }
  }
}
