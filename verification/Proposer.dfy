/** The proposer: one sweep, and the session. */
module Proposer {
  // The draw of one sweep is a retry loop inside a slot loop, with three ways out, over arbitrary sampling and
  // stamping; the identity state is kept across a session.

  import opened Common
  import opened ReplicateSeed
  import opened Proposals
  import Orders

  /** The declared sizes: retries of a slot, searches of a sweep, and the uniform floor. */
  datatype Config = Config(retries: nat, searches: nat, floor: nat)

  const MAX_REPLICATES_PER_CELL: nat := 3
  const B0: Level := 0

  /** Only the B0 control has a session cap, and it is one. */
  predicate Capped(v: Level) { v == B0 }

  const B0_CAP: nat := 1

  datatype Origin = Posterior | ExplorationFloor | CoverageDebt

  datatype Proposal = Proposal(cell: Cell, seed: U64, origin: Origin, slot: nat, hash: string)

  function KeyOf(p: Proposal): Key { Key(p.cell, p.seed) }

  datatype DuplicateDraw = DuplicateDraw(slot: nat, hash: string, firstSeen: Sweep)

  datatype RefusedDraw = RefusedDraw(slot: nat, hash: string, reason: Refusal)

  /** What the random stream and the posterior make of one attempt: a refusal before the objective is
      chosen, or levels and a pick, and perhaps a refusal after it. */
  datatype Sample = Sample(early: Option<Refusal>, axisA: seq<Level>, pick: nat, param: Level,
                           refusals: seq<Level>, late: Option<Refusal>)

  datatype Stamp = Stamped(hash: string) | Unstampable(reason: Refusal)

  /** Everything a draw reads and cannot influence. `describe` is the name a refusal is recorded under. */
  datatype Env = Env(
    config: Config, sessionSeed: U64, sweep: Sweep, drawable: seq<Level>,
    sample: (nat, nat) -> Sample, stamp: Proposal -> Stamp, seenHash: string -> bool,
    describe: (nat, nat) -> string)

  // ------------------------------------------------------------------------------------------
  // The identity state
  // ------------------------------------------------------------------------------------------

  datatype Identity = Identity(replicates: map<Cell, Level>, keys: map<Key, Sweep>, b0Drawn: nat)

  const NoIdentity := Identity(map[], map[], 0)

  function ReplicatesOf(id: Identity, c: Cell): Level {
    if c in id.replicates then id.replicates[c] else 0
  }

  /** `remember`, with the counter of a cell in eight bits. */
  function Remembered(id: Identity, p: Proposal, sweep: Sweep): Identity {
    Identity(id.replicates[p.cell := (ReplicatesOf(id, p.cell) + 1) % 256],
             if KeyOf(p) in id.keys then id.keys else id.keys[KeyOf(p) := sweep],
             if p.cell.variant == B0 then id.b0Drawn + 1 else id.b0Drawn)
  }

  /** One accepted proposal and its sweep. */
  datatype Accepted = Accepted(sweep: Sweep, proposal: Proposal)

  function RememberAll(id: Identity, history: seq<Accepted>): Identity
    decreases |history|
  {
    if history == [] then id
    else RememberAll(Remembered(id, history[0].proposal, history[0].sweep), history[1..])
  }

  function Tag(sweep: Sweep, ps: seq<Proposal>): (r: seq<Accepted>)
    ensures |r| == |ps| && forall i :: 0 <= i < |ps| ==> r[i] == Accepted(sweep, ps[i])
  {
    seq(|ps|, i requires 0 <= i < |ps| => Accepted(sweep, ps[i]))
  }

  lemma {:induction false} RememberSnoc(id: Identity, history: seq<Accepted>, a: Accepted)
    ensures RememberAll(id, history + [a]) == Remembered(RememberAll(id, history), a.proposal, a.sweep)
    decreases |history|
  {
    if history == [] {
      assert history + [a] == [a] && [a][1..] == [];
    } else {
      assert (history + [a])[1..] == history[1..] + [a];
      RememberSnoc(Remembered(id, history[0].proposal, history[0].sweep), history[1..], a);
    }
  }

  // ------------------------------------------------------------------------------------------
  // One attempt
  // ------------------------------------------------------------------------------------------

  datatype Draw = Refused(reason: Refusal) | Candidate(cell: Cell, origin: Origin)

  function Uncapped(drawable: seq<Level>, b0Drawn: nat): (r: seq<Level>)
    ensures forall v :: v in r <==> v in drawable && (Capped(v) ==> b0Drawn < B0_CAP)
  {
    if drawable == [] then []
    else (if Capped(drawable[0]) && b0Drawn >= B0_CAP then [] else [drawable[0]]) + Uncapped(drawable[1..], b0Drawn)
  }

  /** `draw_one`: the objective is the forced one, or one from the pool that still has draws left; an
      empty pool is a refusal. */
  function DrawOne(env: Env, b0Drawn: nat, slot: nat, attempt: nat, uniform: bool, forced: Option<Level>): Draw {
    var s := env.sample(slot, attempt);
    var pool := Uncapped(env.drawable, b0Drawn);
    if s.early != None then Refused(s.early.value)
    else if forced == None && pool == [] then Refused(AllVariantsCapped)
    else if s.late != None then Refused(s.late.value)
    else
      var variant := if forced != None then forced.value else pool[s.pick % |pool|];
      Candidate(Cell(s.axisA, variant, s.param, s.refusals),
                if uniform then ExplorationFloor else if forced != None then CoverageDebt else Posterior)
  }

  /** The sweep under construction, with the variants still owing coverage (the last is owed most),
      the collisions since the last acceptance, and how many attempts were made. */
  datatype Work = Work(
    id: Identity, proposals: seq<Proposal>, duplicates: seq<DuplicateDraw>, refused: seq<RefusedDraw>,
    census: Census, exhausted: bool, abandoned: nat, debt: seq<Level>, collisions: nat, attempts: nat)

  datatype Outcome =
      Drawn(work: Work) | Retry(work: Work) | Exhausted(work: Work) | Unexpressible(work: Work) | Unstamped(work: Work)

  function Refuse(w: Work, slot: nat, hash: string, reason: Refusal, describe: string): Work {
    w.(census := Recorded(w.census, reason, describe), refused := w.refused + [RefusedDraw(slot, hash, reason)])
  }

  /** The records of the slots a sweep will never draw. */
  function Abandonments(from_: nat, drawn: nat, of: nat, collisions: nat): (r: seq<RefusedDraw>)
    ensures |r| == if from_ < of then of - from_ else 0
    ensures forall k :: 0 <= k < |r| ==>
        r[k] == RefusedDraw(from_ + k, "", SpaceEnumerated(from_ + k, drawn, of, collisions))
    decreases of - from_
  {
    if from_ >= of then []
    else
      [RefusedDraw(from_, "", SpaceEnumerated(from_, drawn, of, collisions))]
      + Abandonments(from_ + 1, drawn, of, collisions)
  }

  function RecordEach(c: Census, rs: seq<RefusedDraw>): Census
    decreases |rs|
  {
    if rs == [] then c
    else RecordEach(Recorded(c, rs[0].reason, "<never drawn: the space is enumerated (U5)>"), rs[1..])
  }

  /** `abandon_remaining_slots`. */
  function Abandon(w: Work, from_: nat, of: nat, collisions: nat): Work {
    var rs := Abandonments(from_, |w.proposals|, of, collisions);
    w.(exhausted := true, abandoned := if from_ <= of then of - from_ else 0,
       census := RecordEach(w.census, rs), refused := w.refused + rs)
  }

  /** `record_identity_refusal`: a key seen before is a duplicate of its first sweep; otherwise the cell
      has no replicates left. */
  function NoteIdentityRefusal(w: Work, slot: nat, p: Proposal, describe: string): Work {
    if KeyOf(p) in w.id.keys then
      w.(census := Recorded(w.census, Duplicate(w.id.keys[KeyOf(p)]), describe),
         duplicates := w.duplicates + [DuplicateDraw(slot, p.hash, w.id.keys[KeyOf(p)])])
    else Refuse(w, slot, p.hash, CellReplicatesExhausted(ReplicatesOf(w.id, p.cell)), describe)
  }

  function CountCollision(w: Work): Work {
    w.(census := w.census.(uniformCollisions := w.census.uniformCollisions + 1), collisions := w.collisions + 1)
  }

  /** The identity guard has refused a stamped candidate. */
  function Collide(env: Env, w: Work, slot: nat, p: Proposal, uniform: bool, describe: string): Outcome
    requires KeyOf(p) in w.id.keys || ReplicatesOf(w.id, p.cell) >= MAX_REPLICATES_PER_CELL
  {
    var w1 := NoteIdentityRefusal(w, slot, p, describe);
    if !uniform then Retry(w1)
    else
      var w2 := CountCollision(w1);
      if w2.collisions >= env.config.retries then Exhausted(Abandon(w2, slot, env.config.searches, w2.collisions))
      else Retry(w2)
  }

  /** A new identity: remember it and take the proposal. */
  function Accept(env: Env, w: Work, p: Proposal): Work {
    var paid := p.origin == CoverageDebt && w.debt != [];
    w.(id := Remembered(w.id, p, env.sweep), proposals := w.proposals + [p], collisions := 0,
       debt := if paid then w.debt[..|w.debt| - 1] else w.debt,
       census := w.census.(
         stampCollisions := w.census.stampCollisions + (if env.seenHash(p.hash) then 1 else 0),
         coverageDebtForced := w.census.coverageDebtForced + (if p.origin == CoverageDebt then 1 else 0),
         proposalsDrawn := w.census.proposalsDrawn + 1))
  }

  predicate Uniform(env: Env, slot: nat, attempt: nat) {
    slot < env.config.floor || attempt >= env.config.retries
  }

  function Forced(env: Env, w: Work, slot: nat, attempt: nat): Option<Level> {
    if Uniform(env, slot, attempt) || attempt > 0 || w.debt == [] then None else Some(w.debt[|w.debt| - 1])
  }

  /** A turn that ended in a refusal before the identity guard. */
  function GiveUpOrRetry(env: Env, w: Work, slot: nat, attempt: nat, reason: Refusal, stamped: bool): Outcome {
    var w1 := Refuse(w, slot, "", reason, env.describe(slot, attempt));
    if attempt + 1 < env.config.retries then Retry(w1) else if stamped then Unstamped(w1) else Unexpressible(w1)
  }

  /** A complete draw: seed it with the next replicate of its cell, stamp it, and ask the identity guard. */
  function Propose(env: Env, w: Work, slot: nat, attempt: nat, cell: Cell, origin: Origin): Outcome {
    var draft := Proposal(cell, SeedOf(env.sessionSeed, cell, ReplicatesOf(w.id, cell)), origin, slot, "");
    match env.stamp(draft)
    case Unstampable(reason) => GiveUpOrRetry(env, w, slot, attempt, reason, true)
    case Stamped(hash) =>
      var p := draft.(hash := hash);
      if KeyOf(p) in w.id.keys || ReplicatesOf(w.id, cell) >= MAX_REPLICATES_PER_CELL
      then Collide(env, w, slot, p, Uniform(env, slot, attempt), env.describe(slot, attempt))
      else Drawn(Accept(env, w, p))
  }

  /** One turn of the retry loop. */
  function TryOnce(env: Env, w0: Work, slot: nat, attempt: nat): Outcome {
    var w := w0.(attempts := w0.attempts + 1);
    match DrawOne(env, w.id.b0Drawn, slot, attempt, Uniform(env, slot, attempt), Forced(env, w, slot, attempt))
    case Refused(reason) => GiveUpOrRetry(env, w, slot, attempt, reason, false)
    case Candidate(cell, origin) => Propose(env, w, slot, attempt, cell, origin)
  }

  /** Why the retry loop ends: from the last retry on every attempt is uniform, so a turn that is
      neither final nor an acceptance adds a collision, and the collisions are bounded. */
  predicate WillEnd(env: Env, w: Work, attempt: nat) {
    w.collisions < env.config.retries && attempt <= w.collisions + env.config.retries
  }

  lemma RetryStillEnds(env: Env, w: Work, slot: nat, attempt: nat)
    requires WillEnd(env, w, attempt) && TryOnce(env, w, slot, attempt).Retry?
    ensures WillEnd(env, TryOnce(env, w, slot, attempt).work, attempt + 1)
  {
  }

  function DrawSlot(env: Env, w: Work, slot: nat, attempt: nat): (o: Outcome)
    requires WillEnd(env, w, attempt)
    ensures !o.Retry?
    decreases 2 * env.config.retries - attempt
  {
    var o := TryOnce(env, w, slot, attempt);
    if !o.Retry? then o
    else
      RetryStillEnds(env, w, slot, attempt);
      DrawSlot(env, o.work, slot, attempt + 1)
  }

  /** How a sweep ends: with its proposals, or refusing to go on at a slot. */
  datatype SweepEnd = Complete(work: Work) | CannotExpress(work: Work, slot: nat) | CannotStamp(work: Work, slot: nat)

  function DrawSlots(env: Env, w: Work, slot: nat): SweepEnd
    requires env.config.retries > 0 && w.collisions == 0
    decreases env.config.searches - slot
  {
    if slot >= env.config.searches then Complete(w)
    else
      var o := DrawSlot(env, w, slot, 0);
      match o
      case Drawn(w1) =>
        DrawnHasNoCollisions(env, w, slot, 0);
        DrawSlots(env, w1, slot + 1)
      case Exhausted(w1) => Complete(w1)
      case Unexpressible(w1) => CannotExpress(w1, slot)
      case Unstamped(w1) => CannotStamp(w1, slot)
      case Retry(w1) => Complete(w1)
  }

  lemma {:induction false} DrawnHasNoCollisions(env: Env, w: Work, slot: nat, attempt: nat)
    requires WillEnd(env, w, attempt)
    ensures DrawSlot(env, w, slot, attempt).Drawn? ==> DrawSlot(env, w, slot, attempt).work.collisions == 0
    decreases 2 * env.config.retries - attempt
  {
    var o := TryOnce(env, w, slot, attempt);
    if o.Retry? {
      RetryStillEnds(env, w, slot, attempt);
      DrawnHasNoCollisions(env, o.work, slot, attempt + 1);
    }
  }

  function Start(id: Identity, debt: seq<Level>): Work {
    Work(id, [], [], [], EmptyCensus, false, 0, debt, 0, 0)
  }

  // ------------------------------------------------------------------------------------------
  // What one slot does to the sweep
  // ------------------------------------------------------------------------------------------

  /** The refusal records of a cause. */
  function RecordsOf(rs: seq<RefusedDraw>, cause: Cause): nat {
    if rs == [] then 0
    else RecordsOf(rs[..|rs| - 1], cause) + (if CauseOf(rs[|rs| - 1].reason) == cause then 1 else 0)
  }

  lemma RecordsOfSnoc(rs: seq<RefusedDraw>, r: RefusedDraw, cause: Cause)
    ensures RecordsOf(rs + [r], cause) == RecordsOf(rs, cause) + (if CauseOf(r.reason) == cause then 1 else 0)
  {
    assert (rs + [r])[..|rs|] == rs;
  }

  /** Cause by cause, the census counts one more for every record that was added: under its own reason for a
      refusal, as a duplicate for a duplicate. */
  ghost predicate CauseGrows(v: Work, w: Work, cause: Cause) {
    CountOf(w.census, cause) - CountOf(v.census, cause)
      == RecordsOf(w.refused, cause) - RecordsOf(v.refused, cause)
         + (if cause == OfDuplicates then |w.duplicates| - |v.duplicates| else 0)
  }

  ghost predicate CausesGrow(v: Work, w: Work) {
    forall cause :: CauseGrows(v, w, cause)
  }

  lemma CausesGrowTransitive(u: Work, v: Work, w: Work)
    requires CausesGrow(u, v) && CausesGrow(v, w)
    ensures CausesGrow(u, w)
  {
    hide CountOf, RecordsOf;
    forall cause ensures CauseGrows(u, w, cause) {
      assert CauseGrows(u, v, cause) && CauseGrows(v, w, cause);
    }
  }

  /** Nothing about refusals changed. */
  lemma CausesStay(v: Work, w: Work)
    requires w.refused == v.refused && w.duplicates == v.duplicates
    requires forall cause :: CountOf(w.census, cause) == CountOf(v.census, cause)
    ensures CausesGrow(v, w)
  {
    hide CountOf;
  }

  lemma RefuseCauses(w: Work, slot: nat, hash: string, reason: Refusal, describe: string)
    ensures CausesGrow(w, Refuse(w, slot, hash, reason, describe))
  {
    hide CountOf, CauseOf, Recorded, RecordsOf;
    var t := Refuse(w, slot, hash, reason, describe);
    forall cause ensures CauseGrows(w, t, cause) {
      RecordedCounts(w.census, reason, describe, cause);
      RecordsOfSnoc(w.refused, RefusedDraw(slot, hash, reason), cause);
    }
  }

  lemma NoteCauses(w: Work, slot: nat, p: Proposal, describe: string)
    ensures CausesGrow(w, NoteIdentityRefusal(w, slot, p, describe))
  {
    if KeyOf(p) in w.id.keys {
      var reason := Duplicate(w.id.keys[KeyOf(p)]);
      var t := NoteIdentityRefusal(w, slot, p, describe);
      forall cause ensures CauseGrows(w, t, cause) {
        RecordedCounts(w.census, reason, describe, cause);
        hide CountOf, Recorded, RecordsOf;
      }
    } else {
      RefuseCauses(w, slot, p.hash, CellReplicatesExhausted(ReplicatesOf(w.id, p.cell)), describe);
    }
    hide CausesGrow;
  }

  lemma {:induction false} RecordEachCauses(c: Census, before: seq<RefusedDraw>, rs: seq<RefusedDraw>, cause: Cause)
    ensures CountOf(RecordEach(c, rs), cause) - CountOf(c, cause)
      == RecordsOf(before + rs, cause) - RecordsOf(before, cause)
    decreases |rs|
  {
    hide CountOf, CauseOf, Recorded, RecordsOf;
    if rs == [] {
      assert before + rs == before;
    } else {
      var describe := "<never drawn: the space is enumerated (U5)>";
      RecordedCounts(c, rs[0].reason, describe, cause);
      RecordsOfSnoc(before, rs[0], cause);
      RecordEachCauses(Recorded(c, rs[0].reason, describe), before + [rs[0]], rs[1..], cause);
      assert before + [rs[0]] + rs[1..] == before + rs;
    }
  }

  lemma AbandonCauses(w: Work, from_: nat, of: nat, collisions: nat)
    ensures CausesGrow(w, Abandon(w, from_, of, collisions))
  {
    hide CountOf, RecordsOf, RecordEach, Abandonments;
    var t := Abandon(w, from_, of, collisions);
    forall cause ensures CauseGrows(w, t, cause) {
      RecordEachCauses(w.census, w.refused, Abandonments(from_, |w.proposals|, of, collisions), cause);
    }
  }

  /** Records were added, one for every refusal the census counts; the proposals are untouched. */
  ghost predicate RecordsGrow(v: Work, w: Work) {
    && v.refused <= w.refused && v.duplicates <= w.duplicates && CausesGrow(v, w)
    && TotalRefused(w.census) ==
        TotalRefused(v.census) + (|w.refused| - |v.refused|) + (|w.duplicates| - |v.duplicates|)
  }

  /** The counters of acceptances: all of them, those that paid a debt, those whose hash was known. */
  function Tally(c: Census): (nat, nat, nat) {
    (c.proposalsDrawn, c.coverageDebtForced, c.stampCollisions)
  }

  function TallyNext(env: Env, t: (nat, nat, nat), p: Proposal): (nat, nat, nat) {
    (t.0 + 1, if p.origin == CoverageDebt then t.1 + 1 else t.1, if env.seenHash(p.hash) then t.2 + 1 else t.2)
  }

  function TallyOf(env: Env, ps: seq<Proposal>): (nat, nat, nat) {
    if ps == [] then (0, 0, 0) else TallyNext(env, TallyOf(env, ps[..|ps| - 1]), ps[|ps| - 1])
  }

  /** A refused or collided turn: nothing but records and counters. */
  ghost predicate OnlyRecords(v: Work, w: Work) {
    && w.id == v.id && w.proposals == v.proposals && w.debt == v.debt && RecordsGrow(v, w)
    && Tally(w.census) == Tally(v.census)
  }

  /** The slots that will never be drawn have one record each, in order, at the end. */
  ghost predicate EndsAbandoned(env: Env, w: Work, slot: nat) {
    && w.exhausted && slot < env.config.searches && w.abandoned == env.config.searches - slot <= |w.refused|
    && w.refused[|w.refused| - w.abandoned..] ==
        Abandonments(slot, |w.proposals|, env.config.searches, env.config.retries)
  }

  /** A fresh identity: a key not seen before, a cell with replicates left, the next seed of the cell,
      and never a capped objective whose draws are spent. */
  ghost predicate Fresh(env: Env, v: Work, p: Proposal) {
    && KeyOf(p) !in v.id.keys && ReplicatesOf(v.id, p.cell) < MAX_REPLICATES_PER_CELL
    && p.seed == SeedOf(env.sessionSeed, p.cell, ReplicatesOf(v.id, p.cell))
    && (p.cell.variant in v.debt ||
        (p.cell.variant in env.drawable && (Capped(p.cell.variant) ==> v.id.b0Drawn < B0_CAP)))
  }

  /** The exploration floor is only ever explored; a proposal drawn for coverage pays the debt owed
      most, and nothing else pays a debt. */
  ghost predicate Settled(env: Env, v: Work, w: Work, p: Proposal) {
    && (p.slot < env.config.floor ==> p.origin == ExplorationFloor)
    && (if p.origin == CoverageDebt then v.debt != [] && v.debt == w.debt + [p.cell.variant] else w.debt == v.debt)
  }

  ghost predicate TookOne(env: Env, v: Work, w: Work, slot: nat) {
    && |w.proposals| == |v.proposals| + 1 && w.proposals[..|v.proposals|] == v.proposals
    && w.proposals[|v.proposals|].slot == slot && Fresh(env, v, w.proposals[|v.proposals|])
    && w.id == Remembered(v.id, w.proposals[|v.proposals|], env.sweep)
    && Settled(env, v, w, w.proposals[|v.proposals|]) && RecordsGrow(v, w)
    && Tally(w.census) == TallyNext(env, Tally(v.census), w.proposals[|v.proposals|])
  }

  lemma RecordedTotal(c: Census, r: Refusal, describe: string)
    ensures TotalRefused(Recorded(c, r, describe)) == TotalRefused(c) + 1
    ensures Tally(Recorded(c, r, describe)) == Tally(c)
  {
  }

  lemma {:induction false} RecordEachTotal(c: Census, rs: seq<RefusedDraw>)
    ensures TotalRefused(RecordEach(c, rs)) == TotalRefused(c) + |rs|
    ensures Tally(RecordEach(c, rs)) == Tally(c)
    decreases |rs|
  {
    if rs != [] {
      RecordedTotal(c, rs[0].reason, "<never drawn: the space is enumerated (U5)>");
      hide TotalRefused, Recorded, Tally;
      RecordEachTotal(Recorded(c, rs[0].reason, "<never drawn: the space is enumerated (U5)>"), rs[1..]);
    }
  }

  lemma RefuseRecords(w: Work, slot: nat, hash: string, reason: Refusal, describe: string)
    ensures OnlyRecords(w, Refuse(w, slot, hash, reason, describe))
  {
    RecordedTotal(w.census, reason, describe);
    RefuseCauses(w, slot, hash, reason, describe);
    hide TotalRefused, Recorded, CausesGrow;
  }

  lemma AbandonRecords(env: Env, w: Work, slot: nat)
    requires slot < env.config.searches && w.collisions == env.config.retries
    ensures var t := Abandon(w, slot, env.config.searches, w.collisions);
      OnlyRecords(w, t) && EndsAbandoned(env, t, slot) && t.attempts == w.attempts
  {
    var rs := Abandonments(slot, |w.proposals|, env.config.searches, w.collisions);
    RecordEachTotal(w.census, rs);
    AbandonCauses(w, slot, env.config.searches, w.collisions);
    hide TotalRefused, RecordEach, Abandonments, CausesGrow;
    assert (w.refused + rs)[|w.refused|..] == rs;
  }

  lemma NoteRecords(w: Work, slot: nat, p: Proposal, describe: string)
    ensures var t := NoteIdentityRefusal(w, slot, p, describe);
      && OnlyRecords(w, t) && t == w.(census := t.census, duplicates := t.duplicates, refused := t.refused)
      && TotalRefused(t.census) == TotalRefused(w.census) + 1
      && (KeyOf(p) !in w.id.keys ==> t.duplicates == w.duplicates)
  {
    if KeyOf(p) in w.id.keys {
      RecordedTotal(w.census, Duplicate(w.id.keys[KeyOf(p)]), describe);
    } else {
      RecordedTotal(w.census, CellReplicatesExhausted(ReplicatesOf(w.id, p.cell)), describe);
    }
    NoteCauses(w, slot, p, describe);
    hide TotalRefused, Recorded, CausesGrow;
  }

  lemma CountCollisionRecords(w: Work)
    ensures OnlyRecords(w, CountCollision(w))
  {
    CausesStay(w, CountCollision(w));
    hide CausesGrow;
  }

  lemma OnlyRecordsTransitive(u: Work, v: Work, w: Work)
    requires OnlyRecords(u, v) && OnlyRecords(v, w)
    ensures OnlyRecords(u, w)
  {
    hide TotalRefused, CausesGrow;
    CausesGrowTransitive(u, v, w);
  }

  lemma CollideRecords(env: Env, w: Work, slot: nat, p: Proposal, uniform: bool, describe: string)
    requires slot < env.config.searches && w.collisions < env.config.retries
    requires KeyOf(p) in w.id.keys || ReplicatesOf(w.id, p.cell) >= MAX_REPLICATES_PER_CELL
    ensures var o := Collide(env, w, slot, p, uniform, describe);
      && (o.Retry? || o.Exhausted?) && OnlyRecords(w, o.work) && o.work.attempts == w.attempts
      && (o.Retry? ==> o.work.exhausted == w.exhausted && o.work.abandoned == w.abandoned)
      && (o.Exhausted? ==> EndsAbandoned(env, o.work, slot))
      && (KeyOf(p) !in w.id.keys ==> o.work.duplicates == w.duplicates)
  {
    hide OnlyRecords, NoteIdentityRefusal, EndsAbandoned, Abandonments, RecordEach;
    var w1 := NoteIdentityRefusal(w, slot, p, describe);
    NoteRecords(w, slot, p, describe);
    if uniform {
      var w2 := CountCollision(w1);
      CountCollisionRecords(w1);
      OnlyRecordsTransitive(w, w1, w2);
      if w2.collisions >= env.config.retries {
        AbandonRecords(env, w2, slot);
        OnlyRecordsTransitive(w, w2, Abandon(w2, slot, env.config.searches, w2.collisions));
      }
    }
  }

  lemma AcceptTakesOne(env: Env, w: Work, p: Proposal, slot: nat)
    requires Fresh(env, w, p) && p.slot == slot
    requires p.slot < env.config.floor ==> p.origin == ExplorationFloor
    requires p.origin == CoverageDebt ==> w.debt != [] && p.cell.variant == w.debt[|w.debt| - 1]
    ensures TookOne(env, w, Accept(env, w, p), slot)
  {
    AcceptTallies(env, w, p);
    AcceptSettles(env, w, p);
    hide SeedOf, Remembered, Fresh, TotalRefused, Tally, TallyNext, Settled, CausesGrow;
  }

  lemma AcceptTallies(env: Env, w: Work, p: Proposal)
    ensures var t := Accept(env, w, p);
      && Tally(t.census) == TallyNext(env, Tally(w.census), p) && RecordsGrow(w, t)
  {
    CausesStay(w, Accept(env, w, p));
    hide SeedOf, Remembered, CausesGrow;
  }

  lemma AcceptSettles(env: Env, w: Work, p: Proposal)
    requires p.slot < env.config.floor ==> p.origin == ExplorationFloor
    requires p.origin == CoverageDebt ==> w.debt != [] && p.cell.variant == w.debt[|w.debt| - 1]
    ensures Settled(env, w, Accept(env, w, p), p)
  {
    hide Remembered;
    if w.debt != [] { assert w.debt == w.debt[..|w.debt| - 1] + [w.debt[|w.debt| - 1]]; }
  }

  lemma CandidateSettles(env: Env, w: Work, slot: nat, attempt: nat)
    ensures var d := DrawOne(env, w.id.b0Drawn, slot, attempt, Uniform(env, slot, attempt),
        Forced(env, w, slot, attempt));
      && (d.Candidate? && slot < env.config.floor ==> d.origin == ExplorationFloor)
      && (d.Candidate? && d.origin == CoverageDebt ==> w.debt != [] && d.cell.variant == w.debt[|w.debt| - 1])
  {
  }

  lemma DrawOneVariant(env: Env, b0Drawn: nat, slot: nat, attempt: nat, uniform: bool, forced: Option<Level>)
    ensures var d := DrawOne(env, b0Drawn, slot, attempt, uniform, forced);
      d.Candidate? ==> d.cell.variant in (if forced == None then Uncapped(env.drawable, b0Drawn) else [forced.value])
  {
  }

  /** The candidate of an attempt, once it is stamped. */
  lemma CandidateFacts(env: Env, v: Work, p: Proposal, slot: nat, attempt: nat)
    requires var uniform := Uniform(env, slot, attempt);
      var d := DrawOne(env, v.id.b0Drawn, slot, attempt, uniform, Forced(env, v, slot, attempt));
      d.Candidate? && p.cell == d.cell
    requires p.seed == SeedOf(env.sessionSeed, p.cell, ReplicatesOf(v.id, p.cell))
    requires KeyOf(p) !in v.id.keys && ReplicatesOf(v.id, p.cell) < MAX_REPLICATES_PER_CELL
    ensures Fresh(env, v, p)
  {
    hide SeedOf;
    DrawOneVariant(env, v.id.b0Drawn, slot, attempt, Uniform(env, slot, attempt), Forced(env, v, slot, attempt));
    hide DrawOne;
  }

  /** What the turns of a slot leave behind, by how they end. */
  ghost predicate Effect(env: Env, w: Work, o: Outcome, slot: nat) {
    && (o.Drawn? ==> TookOne(env, w, o.work, slot))
    && (!o.Drawn? ==> OnlyRecords(w, o.work))
    && (o.Exhausted? ==> EndsAbandoned(env, o.work, slot))
    && (!o.Exhausted? ==> o.work.exhausted == w.exhausted && o.work.abandoned == w.abandoned)
  }

  lemma ProposeFacts(env: Env, w: Work, slot: nat, attempt: nat, cell: Cell, origin: Origin)
    requires slot < env.config.searches && w.collisions < env.config.retries
    requires DrawOne(env, w.id.b0Drawn, slot, attempt, Uniform(env, slot, attempt), Forced(env, w, slot, attempt))
      == Candidate(cell, origin)
    ensures Effect(env, w, Propose(env, w, slot, attempt, cell, origin), slot)
    ensures Propose(env, w, slot, attempt, cell, origin).work.attempts == w.attempts
  {
    hide TotalRefused, Recorded, EndsAbandoned, Collide, Accept, SeedOf, DrawOne, OnlyRecords, TookOne, Fresh;
    var draft := Proposal(cell, SeedOf(env.sessionSeed, cell, ReplicatesOf(w.id, cell)), origin, slot, "");
    match env.stamp(draft)
    case Unstampable(reason) => RefuseRecords(w, slot, "", reason, env.describe(slot, attempt));
    case Stamped(hash) =>
      var p := draft.(hash := hash);
      if KeyOf(p) in w.id.keys || ReplicatesOf(w.id, cell) >= MAX_REPLICATES_PER_CELL {
        CollideRecords(env, w, slot, p, Uniform(env, slot, attempt), env.describe(slot, attempt));
      } else {
        CandidateFacts(env, w, p, slot, attempt);
        CandidateSettles(env, w, slot, attempt);
        AcceptTakesOne(env, w, p, slot);
        AcceptKeepsCounters(env, w, p);
      }
  }

  lemma TryOnceFacts(env: Env, w: Work, slot: nat, attempt: nat)
    requires slot < env.config.searches && w.collisions < env.config.retries
    ensures var o := TryOnce(env, w, slot, attempt);
      o.work.attempts == w.attempts + 1 && Effect(env, w, o, slot)
  {
    hide Effect, Propose, GiveUpOrRetry, DrawOne, Uniform, Forced;
    var v := w.(attempts := w.attempts + 1);
    match DrawOne(env, v.id.b0Drawn, slot, attempt, Uniform(env, slot, attempt), Forced(env, v, slot, attempt)) {
      case Refused(reason) => GiveUpFacts(env, v, slot, attempt, reason, false);
      case Candidate(cell, origin) => ProposeFacts(env, v, slot, attempt, cell, origin);
    }
    CountingAttempts(env, w, v, TryOnce(env, w, slot, attempt), slot);
  }

  lemma GiveUpFacts(env: Env, w: Work, slot: nat, attempt: nat, reason: Refusal, stamped: bool)
    ensures Effect(env, w, GiveUpOrRetry(env, w, slot, attempt, reason, stamped), slot)
    ensures GiveUpOrRetry(env, w, slot, attempt, reason, stamped).work.attempts == w.attempts
    ensures GiveUpOrRetry(env, w, slot, attempt, reason, stamped).work.duplicates == w.duplicates
  {
    RefuseRecords(w, slot, "", reason, env.describe(slot, attempt));
    hide TotalRefused, Recorded, EndsAbandoned, OnlyRecords, TookOne;
  }

  lemma CountingAttempts(env: Env, w: Work, v: Work, o: Outcome, slot: nat)
    requires v == w.(attempts := w.attempts + 1) && Effect(env, v, o, slot)
    ensures Effect(env, w, o, slot)
  {
    hide TotalRefused, SeedOf, EndsAbandoned, CausesGrow;
    CausesFrame(v, w, o.work);
  }

  lemma CausesFrame(v: Work, w: Work, t: Work)
    requires CausesGrow(v, t) && w.census == v.census && w.refused == v.refused && w.duplicates == v.duplicates
    ensures CausesGrow(w, t)
  {
    forall cause ensures CauseGrows(w, t, cause) {
      assert CauseGrows(v, t, cause);
    }
  }

  lemma AcceptKeepsCounters(env: Env, w: Work, p: Proposal)
    ensures var t := Accept(env, w, p);
      t.attempts == w.attempts && t.exhausted == w.exhausted && t.abandoned == w.abandoned
  {
  }

  /** From the first turn of a slot to its end: at most twice the retries, whatever is drawn. */
  lemma {:induction false} DrawSlotFacts(env: Env, w: Work, slot: nat, attempt: nat)
    requires slot < env.config.searches && WillEnd(env, w, attempt)
    ensures var o := DrawSlot(env, w, slot, attempt);
      && w.attempts < o.work.attempts <= w.attempts + 2 * env.config.retries - attempt
      && Effect(env, w, o, slot)
    decreases 2 * env.config.retries - attempt
  {
    var o := TryOnce(env, w, slot, attempt);
    TryOnceFacts(env, w, slot, attempt);
    if o.Retry? {
      RetryStillEnds(env, w, slot, attempt);
      RetryRecords(env, w, o, slot);
      hide TryOnce, Effect;
      DrawSlotFacts(env, o.work, slot, attempt + 1);
      EffectAfterRecords(env, w, o.work, DrawSlot(env, o.work, slot, attempt + 1), slot);
    }
  }

  lemma RetryRecords(env: Env, w: Work, o: Outcome, slot: nat)
    requires Effect(env, w, o, slot) && o.Retry?
    ensures OnlyRecords(w, o.work) && o.work.exhausted == w.exhausted && o.work.abandoned == w.abandoned
  {
  }

  lemma EffectAfterRecords(env: Env, u: Work, v: Work, o: Outcome, slot: nat)
    requires OnlyRecords(u, v) && v.exhausted == u.exhausted && v.abandoned == u.abandoned
    requires Effect(env, v, o, slot)
    ensures Effect(env, u, o, slot)
  {
    hide TotalRefused, EndsAbandoned, SeedOf, CausesGrow;
    CausesGrowTransitive(u, v, o.work);
  }

  // ------------------------------------------------------------------------------------------
  // How a turn ends, and which collisions count
  // ------------------------------------------------------------------------------------------

  /** What a turn draws. */
  function DrawAt(env: Env, w: Work, slot: nat, attempt: nat): Draw {
    DrawOne(env, w.id.b0Drawn, slot, attempt, Uniform(env, slot, attempt), Forced(env, w, slot, attempt))
  }

  /** A drawn cell with the next seed of the cell, before it is stamped. */
  function DraftAt(env: Env, w: Work, slot: nat, cell: Cell, origin: Origin): Proposal {
    Proposal(cell, SeedOf(env.sessionSeed, cell, ReplicatesOf(w.id, cell)), origin, slot, "")
  }

  datatype Verdict = DrawRefused | StampRefused | IdentityRefused | NewIdentity

  /** What becomes of the draw of a turn: no complete proposal is drawn, or it cannot be stamped, or its identity
      is refused since its key was accepted before or its cell has three acceptances, or it is new. */
  function VerdictOf(env: Env, w: Work, slot: nat, attempt: nat): Verdict {
    match DrawAt(env, w, slot, attempt)
    case Refused(_) => DrawRefused
    case Candidate(cell, origin) =>
      var p := DraftAt(env, w, slot, cell, origin);
      if env.stamp(p).Unstampable? then StampRefused
      else if KeyOf(p) in w.id.keys || ReplicatesOf(w.id, cell) >= 3 then IdentityRefused
      else NewIdentity
  }

  lemma TurnByVerdict(env: Env, w: Work, slot: nat, attempt: nat) returns (reason: Refusal, p: Proposal)
    ensures var o, v := TryOnce(env, w, slot, attempt), w.(attempts := w.attempts + 1);
      match VerdictOf(env, w, slot, attempt)
      case DrawRefused => o == GiveUpOrRetry(env, v, slot, attempt, reason, false)
      case StampRefused => o == GiveUpOrRetry(env, v, slot, attempt, reason, true)
      case IdentityRefused =>
        && (KeyOf(p) in v.id.keys || ReplicatesOf(v.id, p.cell) >= MAX_REPLICATES_PER_CELL)
        && o == Collide(env, v, slot, p, Uniform(env, slot, attempt), env.describe(slot, attempt))
      case NewIdentity => o == Drawn(Accept(env, v, p))
    ensures var d := DrawAt(env, w, slot, attempt);
      && (d.Refused? ==> reason == d.reason)
      && (d.Candidate? ==>
            var draft := DraftAt(env, w, slot, d.cell, d.origin);
            && (env.stamp(draft).Unstampable? ==> reason == env.stamp(draft).reason)
            && (env.stamp(draft).Stamped? ==> p == draft.(hash := env.stamp(draft).hash)))
  {
    TurnIs(env, w, slot, attempt);
    var d := DrawAt(env, w, slot, attempt);
    hide DrawOne, SeedOf, TryOnce, GiveUpOrRetry, Accept, Collide;
    reason, p := if d.Refused? then d.reason else Space, Proposal(Cell([], 0, 0, []), 0, Posterior, 0, "");
    if d.Candidate? {
      p := DraftAt(env, w, slot, d.cell, d.origin);
      var stamp := env.stamp(p);
      if stamp.Stamped? {
        p := p.(hash := stamp.hash);
      } else {
        reason := stamp.reason;
      }
    }
  }

  /** Every way a turn can end. It ends in an acceptance exactly when the identity is new. A refusal before the
      identity guard is the last one exactly at the last retry. A refused identity is a collision exactly in a
      uniform turn, and only a collision, the one that makes them as many as the retries, abandons the sweep. */
  lemma TurnEnds(env: Env, w: Work, slot: nat, attempt: nat)
    requires w.collisions < env.config.retries
    ensures var o, v := TryOnce(env, w, slot, attempt), VerdictOf(env, w, slot, attempt);
      var uniform, last := slot < env.config.floor || attempt >= env.config.retries, attempt + 1 >= env.config.retries;
      var n := if v == IdentityRefused && uniform then 1 else 0;
      && (o.Drawn? <==> v == NewIdentity)
      && (o.Unexpressible? <==> v == DrawRefused && last)
      && (o.Unstamped? <==> v == StampRefused && last)
      && (o.Exhausted? <==> n == 1 && w.collisions + 1 == env.config.retries)
      && o.work.census.uniformCollisions == w.census.uniformCollisions + n
      && o.work.collisions == if o.Drawn? then 0 else w.collisions + n
  {
    hide TryOnce, VerdictOf, GiveUpOrRetry, Accept, Collide, Uniform, ReplicatesOf, KeyOf;
    var v := w.(attempts := w.attempts + 1);
    var reason, p := TurnByVerdict(env, w, slot, attempt);
    UniformIs(env, slot, attempt);
    match VerdictOf(env, w, slot, attempt)
    case DrawRefused => GiveUpCounts(env, v, slot, attempt, reason, false);
    case StampRefused => GiveUpCounts(env, v, slot, attempt, reason, true);
    case IdentityRefused =>
      CollideCounts(env, v, slot, p, Uniform(env, slot, attempt), env.describe(slot, attempt));
    case NewIdentity => AcceptCounts(env, v, p);
  }

  /** What a turn files. A refusal of the draw or of the stamp is recorded without a hash and with its own
      reason. A refused identity is recorded under its hash: a known key as a duplicate, any other as a spent
      cell. An acceptance files nothing, and takes the stamped proposal. */
  lemma TurnFiles(env: Env, w: Work, slot: nat, attempt: nat)
    requires w.collisions < env.config.retries && !TryOnce(env, w, slot, attempt).Exhausted?
    ensures var o, d := TryOnce(env, w, slot, attempt), DrawAt(env, w, slot, attempt);
      if d.Refused? then o.work.refused == w.refused + [RefusedDraw(slot, "", d.reason)]
      else
        var draft := DraftAt(env, w, slot, d.cell, d.origin);
        match env.stamp(draft)
        case Unstampable(reason) => o.work.refused == w.refused + [RefusedDraw(slot, "", reason)]
        case Stamped(hash) =>
          if KeyOf(draft) in w.id.keys then
            && o.work.refused == w.refused
            && o.work.duplicates == w.duplicates + [DuplicateDraw(slot, hash, w.id.keys[KeyOf(draft)])]
          else if ReplicatesOf(w.id, d.cell) >= 3 then
            o.work.refused
              == w.refused + [RefusedDraw(slot, hash, CellReplicatesExhausted(ReplicatesOf(w.id, d.cell)))]
          else
            && o.work.proposals == w.proposals + [draft.(hash := hash)]
            && o.work.refused == w.refused && o.work.duplicates == w.duplicates
  {
    hide TryOnce, Recorded, Remembered, SeedOf, DrawOne;
    var reason, p := TurnByVerdict(env, w, slot, attempt);
  }

  lemma UniformIs(env: Env, slot: nat, attempt: nat)
    ensures Uniform(env, slot, attempt) <==> slot < env.config.floor || attempt >= env.config.retries
  {
  }

  lemma GiveUpCounts(env: Env, w: Work, slot: nat, attempt: nat, reason: Refusal, stamped: bool)
    ensures var o := GiveUpOrRetry(env, w, slot, attempt, reason, stamped);
      && !o.Drawn? && !o.Exhausted? && o.work.collisions == w.collisions
      && o.work.census.uniformCollisions == w.census.uniformCollisions
      && (o.Unexpressible? <==> !stamped && attempt + 1 >= env.config.retries)
      && (o.Unstamped? <==> stamped && attempt + 1 >= env.config.retries)
  {
  }

  lemma AcceptCounts(env: Env, w: Work, p: Proposal)
    ensures var t := Accept(env, w, p);
      t.collisions == 0 && t.census.uniformCollisions == w.census.uniformCollisions
  {
    hide Remembered;
  }

  lemma {:induction false} RecordEachCollisions(c: Census, rs: seq<RefusedDraw>)
    ensures RecordEach(c, rs).uniformCollisions == c.uniformCollisions
    decreases |rs|
  {
    if rs != [] {
      RecordEachCollisions(Recorded(c, rs[0].reason, "<never drawn: the space is enumerated (U5)>"), rs[1..]);
    }
  }

  lemma CollideCounts(env: Env, w: Work, slot: nat, p: Proposal, uniform: bool, describe: string)
    requires KeyOf(p) in w.id.keys || ReplicatesOf(w.id, p.cell) >= MAX_REPLICATES_PER_CELL
    requires w.collisions < env.config.retries
    ensures var o, n := Collide(env, w, slot, p, uniform, describe), if uniform then 1 else 0;
      && (o.Retry? || o.Exhausted?) && (o.Exhausted? <==> uniform && w.collisions + 1 == env.config.retries)
      && o.work.collisions == w.collisions + n && o.work.census.uniformCollisions == w.census.uniformCollisions + n
  {
    var w2 := CountCollision(NoteIdentityRefusal(w, slot, p, describe));
    RecordEachCollisions(w2.census, Abandonments(slot, |w2.proposals|, env.config.searches, w2.collisions));
    hide RecordEach, Abandonments;
  }

  /** What is drawn: uniformly in the floor and from the last retry on, the objective owed most at the first
      attempt of any other slot while coverage is owed, and otherwise from the posterior; the objective that is
      not owed is one that has draws left. It is refused exactly when the sampling refuses it, or when an
      objective that is not owed is wanted and none has draws left. */
  lemma DrawIs(env: Env, w: Work, slot: nat, attempt: nat)
    ensures var d, s := DrawAt(env, w, slot, attempt), env.sample(slot, attempt);
      var uniform := slot < env.config.floor || attempt >= env.config.retries;
      var owed := !uniform && attempt == 0 && w.debt != [];
      var spent := !owed && forall v :: v in env.drawable ==> v == 0 && w.id.b0Drawn >= 1;
      && (d.Refused? <==> s.early != None || spent || s.late != None)
      && (d.Refused? ==> d.reason == if s.early != None then s.early.value
                                     else if spent then AllVariantsCapped else s.late.value)
      && (d.Candidate? ==>
            && d.origin == (if uniform then ExplorationFloor else if owed then CoverageDebt else Posterior)
            && d.cell.axisA == s.axisA && d.cell.param == s.param && d.cell.refusals == s.refusals
            && (owed ==> d.cell.variant == w.debt[|w.debt| - 1])
            && (!owed ==> d.cell.variant in env.drawable && (d.cell.variant == 0 ==> w.id.b0Drawn < 1)))
  {
    var pool := Uncapped(env.drawable, w.id.b0Drawn);
    assert pool != [] ==> pool[0] in pool;
    hide Uncapped;
  }

  /** A turn beyond the floor that has not used up its retries never abandons the sweep, and counts no
      collision, whatever it draws. */
  lemma PosteriorTurnCountsNothing(env: Env, w: Work, slot: nat, attempt: nat)
    requires w.collisions < env.config.retries && env.config.floor <= slot && attempt < env.config.retries
    ensures var o := TryOnce(env, w, slot, attempt);
      && !o.Exhausted? && o.work.census.uniformCollisions == w.census.uniformCollisions
      && (!o.Drawn? ==> o.work.collisions == w.collisions)
  {
    hide TryOnce, VerdictOf;
    TurnEnds(env, w, slot, attempt);
  }

  /** The collisions counted while a slot is drawn are those it ends with, unless it ends in an acceptance. */
  lemma {:induction false} SlotCollisions(env: Env, w: Work, slot: nat, attempt: nat)
    requires WillEnd(env, w, attempt)
    ensures var o := DrawSlot(env, w, slot, attempt);
      && o.work.census.uniformCollisions >= w.census.uniformCollisions
      && (!o.Drawn? ==>
            o.work.collisions - w.collisions == o.work.census.uniformCollisions - w.census.uniformCollisions)
      && (o.Exhausted? ==> o.work.collisions == env.config.retries)
    decreases 2 * env.config.retries - attempt
  {
    hide TryOnce, VerdictOf;
    var o := TryOnce(env, w, slot, attempt);
    TurnEnds(env, w, slot, attempt);
    if o.Retry? {
      RetryStillEnds(env, w, slot, attempt);
      SlotCollisions(env, o.work, slot, attempt + 1);
    }
  }

  /** The sweep as it stands before the k-th attempt at a slot, if every earlier one was retried. */
  function WorkBefore(env: Env, w: Work, slot: nat, attempt: nat, k: nat): Work
    decreases k - attempt
  {
    if k <= attempt then w else WorkBefore(env, TryOnce(env, w, slot, attempt).work, slot, attempt + 1, k)
  }

  /** Beyond the floor a slot that starts without collisions abandons the sweep only after twice the retries,
      and every attempt of the second half was a uniform draw whose identity was refused. */
  lemma {:induction false} AbandoningTakesTwiceTheRetries(env: Env, w: Work, slot: nat, attempt: nat)
    requires WillEnd(env, w, attempt) && env.config.floor <= slot < env.config.searches
    requires w.collisions == if attempt <= env.config.retries then 0 else attempt - env.config.retries
    requires DrawSlot(env, w, slot, attempt).Exhausted?
    ensures DrawSlot(env, w, slot, attempt).work.attempts == w.attempts + 2 * env.config.retries - attempt
    ensures forall k :: attempt <= k < 2 * env.config.retries && env.config.retries <= k ==>
        VerdictOf(env, WorkBefore(env, w, slot, attempt, k), slot, k) == IdentityRefused
    decreases 2 * env.config.retries - attempt
  {
    hide TryOnce, VerdictOf, Effect;
    var o := TryOnce(env, w, slot, attempt);
    TurnEnds(env, w, slot, attempt);
    TryOnceFacts(env, w, slot, attempt);
    if o.Retry? {
      RetryStillEnds(env, w, slot, attempt);
      AbandoningTakesTwiceTheRetries(env, o.work, slot, attempt + 1);
    }
  }

  /** An abandoned sweep has counted at least as many uniform collisions as there are retries. */
  lemma {:induction false} AbandonedSweepHasCollided(env: Env, w: Work, slot: nat)
    requires env.config.retries > 0 && w.collisions == 0 && slot <= env.config.searches && !w.exhausted
    ensures var e := DrawSlots(env, w, slot);
      && e.work.census.uniformCollisions >= w.census.uniformCollisions
      && (e.Complete? && e.work.exhausted ==>
            e.work.census.uniformCollisions >= w.census.uniformCollisions + env.config.retries)
    decreases env.config.searches - slot
  {
    hide DrawSlot, EndsAbandoned, OnlyRecords, TookOne;
    if slot < env.config.searches {
      var o := DrawSlot(env, w, slot, 0);
      SlotCollisions(env, w, slot, 0);
      DrawSlotFacts(env, w, slot, 0);
      if o.Drawn? {
        DrawnHasNoCollisions(env, w, slot, 0);
        AbandonedSweepHasCollided(env, o.work, slot + 1);
      }
    }
  }

  // ------------------------------------------------------------------------------------------
  // A whole sweep
  // ------------------------------------------------------------------------------------------

  /** The sweep so far: one proposal for every slot already drawn, in slot order, all of them
      remembered, and a record for every refusal counted. */
  ghost predicate Dense(env: Env, start: Work, w: Work) {
    && start.proposals == [] && (forall i :: 0 <= i < |w.proposals| ==> w.proposals[i].slot == i)
    && w.id == RememberAll(start.id, Tag(env.sweep, w.proposals))
    && (forall i :: 0 <= i < |w.proposals| && i < env.config.floor ==> w.proposals[i].origin == ExplorationFloor)
    && start.debt == w.debt + PaidBy(w.proposals)
    && Tally(w.census) == TallyOf(env, w.proposals)
    && RecordsGrow(start, w)
  }

  /** The objectives drawn to pay a coverage debt, the last one first. */
  function PaidBy(ps: seq<Proposal>): seq<Level> {
    if ps == [] then []
    else (if ps[|ps| - 1].origin == CoverageDebt then [ps[|ps| - 1].cell.variant] else []) + PaidBy(ps[..|ps| - 1])
  }

  lemma PaidSnoc(env: Env, v: Work, w: Work, ps: seq<Proposal>, p: Proposal)
    requires Settled(env, v, w, p)
    ensures v.debt + PaidBy(ps) == w.debt + PaidBy(ps + [p])
  {
    assert (ps + [p])[..|ps|] == ps;
    assert w.debt + [p.cell.variant] + PaidBy(ps) == w.debt + ([p.cell.variant] + PaidBy(ps));
    hide PaidBy;
    assert [] + PaidBy(ps) == PaidBy(ps);
  }

  lemma TallySnoc(env: Env, ps: seq<Proposal>, p: Proposal)
    ensures TallyOf(env, ps + [p]) == TallyNext(env, TallyOf(env, ps), p)
  {
    assert (ps + [p])[..|ps|] == ps;
    hide TallyNext;
  }

  lemma TakingOneKeepsDense(env: Env, start: Work, v: Work, w: Work, slot: nat)
    requires Dense(env, start, v) && |v.proposals| == slot && TookOne(env, v, w, slot)
    ensures Dense(env, start, w) && |w.proposals| == slot + 1
  {
    hide TotalRefused, SeedOf, RememberAll, Remembered, Fresh, PaidBy, Tally, TallyOf, TallyNext, Settled;
    var p := w.proposals[slot];
    assert w.proposals == v.proposals + [p];
    PaidSnoc(env, v, w, v.proposals, p);
    TallySnoc(env, v.proposals, p);
    RememberSnoc(start.id, Tag(env.sweep, v.proposals), Accepted(env.sweep, p));
    TagSnoc(env.sweep, v.proposals, w.proposals);
    SettledInFloor(env, v, w, p);
    hide CausesGrow;
    CausesGrowTransitive(start, v, w);
  }

  lemma SettledInFloor(env: Env, v: Work, w: Work, p: Proposal)
    requires Settled(env, v, w, p)
    ensures p.slot < env.config.floor ==> p.origin == ExplorationFloor
  {
  }

  lemma RecordingKeepsDense(env: Env, start: Work, v: Work, w: Work)
    requires Dense(env, start, v) && OnlyRecords(v, w)
    ensures Dense(env, start, w) && w.proposals == v.proposals
  {
    hide TotalRefused, CausesGrow;
    CausesGrowTransitive(start, v, w);
  }

  /** However a sweep ends: the proposals stand at their slots and are remembered; the abandoned slots
      are the undrawn ones, with one record each at the end; every refusal counted has a record; and
      no slot took more than twice the retries. */
  ghost predicate SweepFacts(env: Env, start: Work, e: SweepEnd) {
    && Dense(env, start, e.work)
    && e.work.attempts <= start.attempts + 2 * env.config.retries * env.config.searches
    && (e.Complete? ==>
          && |e.work.proposals| + e.work.abandoned == env.config.searches
          && (e.work.exhausted <==> e.work.abandoned > 0)
          && (e.work.exhausted ==> EndsAbandoned(env, e.work, |e.work.proposals|)))
    && (!e.Complete? ==> |e.work.proposals| == e.slot < env.config.searches)
  }

  lemma {:induction false} DrawSlotsFacts(env: Env, start: Work, w: Work, slot: nat)
    requires env.config.retries > 0 && w.collisions == 0 && slot <= env.config.searches
    requires Dense(env, start, w) && |w.proposals| == slot && !w.exhausted && w.abandoned == 0
    requires w.attempts <= start.attempts + 2 * env.config.retries * slot
    ensures SweepFacts(env, start, DrawSlots(env, w, slot))
    decreases env.config.searches - slot
  {
    hide Dense, EndsAbandoned, OnlyRecords, TookOne, DrawSlot;
    if slot < env.config.searches {
      var o := DrawSlot(env, w, slot, 0);
      DrawSlotFacts(env, w, slot, 0);
      Distribute(env.config.retries, slot, env.config.searches);
      if o.Drawn? {
        DrawnHasNoCollisions(env, w, slot, 0);
        TakingOneKeepsDense(env, start, w, o.work, slot);
        DrawSlotsFacts(env, start, o.work, slot + 1);
      } else {
        RecordingKeepsDense(env, start, w, o.work);
        if o.Exhausted? { EndsAbandonedCounts(env, o.work, slot); }
      }
    }
  }

  lemma EndsAbandonedCounts(env: Env, w: Work, slot: nat)
    requires EndsAbandoned(env, w, slot)
    ensures w.exhausted && w.abandoned == env.config.searches - slot > 0
  {
  }

  lemma Distribute(r: nat, slot: nat, n: nat)
    requires slot < n
    ensures 2 * r * slot + 2 * r == 2 * r * (slot + 1) <= 2 * r * n
  {
  }

  // ------------------------------------------------------------------------------------------
  // The history of a session
  // ------------------------------------------------------------------------------------------

  function CountCell(h: seq<Accepted>, c: Cell): nat {
    if h == [] then 0 else CountCell(h[..|h| - 1], c) + (if h[|h| - 1].proposal.cell == c then 1 else 0)
  }

  function CountB0(h: seq<Accepted>): nat {
    if h == [] then 0 else CountB0(h[..|h| - 1]) + (if h[|h| - 1].proposal.cell.variant == B0 then 1 else 0)
  }

  /** The k-th acceptance of a cell, counted from 0, carries the cell's k-th seed. */
  ghost predicate SeededInOrder(seed: U64, h: seq<Accepted>) {
    forall i :: 0 <= i < |h| ==>
      CountCell(h[..i], h[i].proposal.cell) < MAX_REPLICATES_PER_CELL
      && h[i].proposal.seed == SeedOf(seed, h[i].proposal.cell, CountCell(h[..i], h[i].proposal.cell))
  }

  ghost predicate Good(seed: U64, h: seq<Accepted>) {
    SeededInOrder(seed, h) && CountB0(h) <= B0_CAP
  }

  ghost predicate DistinctKeys(h: seq<Accepted>) {
    forall i, j :: 0 <= i < j < |h| ==> KeyOf(h[i].proposal) != KeyOf(h[j].proposal)
  }

  lemma {:induction false} CountGrows(h: seq<Accepted>, i: nat, j: nat, c: Cell)
    requires i <= j <= |h|
    ensures CountCell(h[..i], c) <= CountCell(h[..j], c)
    ensures i < j && h[i].proposal.cell == c ==> CountCell(h[..i], c) < CountCell(h[..j], c)
    decreases j - i
  {
    if i < j {
      CountGrows(h, i, j - 1, c);
      assert h[..j][..j - 1] == h[..j - 1];
      if i == j - 1 {
        assert h[..j][j - 1] == h[i];
      }
    }
  }

  lemma SeededPrefix(seed: U64, h: seq<Accepted>, n: nat)
    requires SeededInOrder(seed, h) && n <= |h|
    ensures SeededInOrder(seed, h[..n])
  {
    hide SeedOf, CountCell;
    forall i | 0 <= i < n
      ensures CountCell(h[..n][..i], h[..n][i].proposal.cell) < MAX_REPLICATES_PER_CELL
      ensures h[..n][i].proposal.seed ==
          SeedOf(seed, h[..n][i].proposal.cell, CountCell(h[..n][..i], h[..n][i].proposal.cell))
    {
      assert h[..n][..i] == h[..i];
    }
  }

  /** A cell never has more acceptances than it has replicates. */
  lemma {:induction false} CellsAreBounded(seed: U64, h: seq<Accepted>, c: Cell)
    requires SeededInOrder(seed, h)
    ensures CountCell(h, c) <= MAX_REPLICATES_PER_CELL
  {
    hide SeedOf;
    if h != [] {
      var n := |h| - 1;
      assert CountCell(h[..n], h[n].proposal.cell) < MAX_REPLICATES_PER_CELL;
      hide SeededInOrder;
      SeededPrefix(seed, h, n);
      CellsAreBounded(seed, h[..n], c);
    }
  }

  /** Since the seeds of a cell's replicates differ, no identity repeats. */
  lemma SeededKeysAreDistinct(seed: U64, h: seq<Accepted>)
    requires SeededInOrder(seed, h)
    ensures DistinctKeys(h)
  {
    hide SeedOf;
    forall i, j | 0 <= i < j < |h| ensures KeyOf(h[i].proposal) != KeyOf(h[j].proposal) {
      var c := h[i].proposal.cell;
      if h[j].proposal.cell == c {
        CountGrows(h, i, j, c);
        if h[i].proposal.seed == h[j].proposal.seed {
          SeedsOfReplicatesDiffer(seed, c, CountCell(h[..i], c), CountCell(h[..j], c));
        }
      }
    }
  }

  /** What the identity state is, in terms of the accepted history. */
  ghost predicate Mirrors(id: Identity, h: seq<Accepted>) {
    && (forall c :: ReplicatesOf(id, c) == CountCell(h, c) % 256)
    && (forall k :: k in id.keys <==> HasKey(h, k))
    && id.b0Drawn == CountB0(h)
  }

  lemma CountSnoc(h: seq<Accepted>, a: Accepted)
    ensures forall c :: CountCell(h + [a], c) == CountCell(h, c) + (if a.proposal.cell == c then 1 else 0)
    ensures CountB0(h + [a]) == CountB0(h) + (if a.proposal.cell.variant == B0 then 1 else 0)
  {
    assert (h + [a])[..|h|] == h;
  }

  ghost predicate HasKey(h: seq<Accepted>, k: Key) {
    exists i :: 0 <= i < |h| && KeyOf(h[i].proposal) == k
  }

  lemma HasKeySnoc(h: seq<Accepted>, a: Accepted, k: Key)
    ensures HasKey(h + [a], k) <==> HasKey(h, k) || KeyOf(a.proposal) == k
  {
    hide KeyOf;
    var g := h + [a];
    if HasKey(h, k) {
      var i :| 0 <= i < |h| && KeyOf(h[i].proposal) == k;
      assert g[i] == h[i];
    }
    assert g[|h|] == a;
    if HasKey(g, k) {
      var i :| 0 <= i < |g| && KeyOf(g[i].proposal) == k;
      if i < |h| { assert g[i] == h[i]; }
    }
  }

  lemma RememberMirrors(id: Identity, h: seq<Accepted>, a: Accepted)
    requires Mirrors(id, h)
    ensures Mirrors(Remembered(id, a.proposal, a.sweep), h + [a])
  {
    CountSnoc(h, a);
    hide CountCell, CountB0, KeyOf, HasKey;
    forall k ensures HasKey(h + [a], k) <==> HasKey(h, k) || KeyOf(a.proposal) == k { HasKeySnoc(h, a, k); }
  }

  lemma {:induction false} HistoryMirrors(h: seq<Accepted>)
    ensures Mirrors(RememberAll(NoIdentity, h), h)
    decreases |h|
  {
    if h != [] {
      var n := |h| - 1;
      HistoryMirrors(h[..n]);
      assert h == h[..n] + [h[n]];
      RememberSnoc(NoIdentity, h[..n], h[n]);
      RememberMirrors(RememberAll(NoIdentity, h[..n]), h[..n], h[n]);
    }
  }

  /** The earliest acceptance of a key. */
  ghost predicate FirstAt(h: seq<Accepted>, k: Key, i: nat) {
    i < |h| && KeyOf(h[i].proposal) == k && forall j :: 0 <= j < i ==> KeyOf(h[j].proposal) != k
  }

  lemma FirstAtSnoc(h: seq<Accepted>, a: Accepted, k: Key, i: nat)
    requires FirstAt(h, k, i)
    ensures FirstAt(h + [a], k, i)
  {
    hide KeyOf;
  }

  /** The sweep kept for a key is that of its earliest acceptance. */
  lemma {:induction false} EarliestIsKept(h: seq<Accepted>, k: Key) returns (i: nat)
    requires k in RememberAll(NoIdentity, h).keys
    ensures FirstAt(h, k, i) && RememberAll(NoIdentity, h).keys[k] == h[i].sweep
    decreases |h|
  {
    i := |h| - (if h == [] then 0 else 1);
    if h != [] {
      var before := RememberAll(NoIdentity, h[..i]);
      assert h == h[..i] + [h[i]];
      RememberSnoc(NoIdentity, h[..i], h[i]);
      HistoryMirrors(h[..i]);
      hide RememberAll, CountCell, CountB0, ReplicatesOf;
      if k in before.keys {
        var n := i;
        i := EarliestIsKept(h[..n], k);
        FirstAtSnoc(h[..n], h[n], k, i);
      } else {
        NotAmong(h, k, i);
      }
    }
  }

  lemma NotAmong(h: seq<Accepted>, k: Key, n: nat)
    requires n <= |h| && !HasKey(h[..n], k)
    ensures forall j :: 0 <= j < n ==> KeyOf(h[j].proposal) != k
  {
    hide KeyOf;
    forall j | 0 <= j < n ensures KeyOf(h[j].proposal) != k {
      assert h[..n][j] == h[j];
    }
  }

  /** What an identity refusal files, in terms of what the session has accepted: a duplicate of the sweep that
      first accepted the key, or, when none did, a refusal with the number of acceptances of the cell. */
  lemma IdentityRefusalIsFiled(h: seq<Accepted>, w: Work, slot: nat, p: Proposal, describe: string)
    requires w.id == RememberAll(NoIdentity, h)
    ensures var t := NoteIdentityRefusal(w, slot, p, describe);
      && OnlyRecords(w, t) && TotalRefused(t.census) == TotalRefused(w.census) + 1
      && (HasKey(h, KeyOf(p)) ==>
            && t.refused == w.refused
            && exists i: nat :: FirstAt(h, KeyOf(p), i)
                && t.duplicates == w.duplicates + [DuplicateDraw(slot, p.hash, h[i].sweep)])
      && (!HasKey(h, KeyOf(p)) ==>
            && t.duplicates == w.duplicates
            && t.refused == w.refused
                + [RefusedDraw(slot, p.hash, CellReplicatesExhausted(CountCell(h, p.cell) % 256))])
  {
    NoteRecords(w, slot, p, describe);
    HistoryMirrors(h);
    hide RememberAll, CountCell, CountB0, TotalRefused, Recorded, OnlyRecords, HasKey;
    if KeyOf(p) in w.id.keys {
      var i := EarliestIsKept(h, KeyOf(p));
    }
  }

  ghost predicate DebtUncapped(debt: seq<Level>) {
    forall v :: v in debt ==> !Capped(v)
  }

  lemma SeededSnoc(seed: U64, h: seq<Accepted>, a: Accepted)
    requires SeededInOrder(seed, h) && CountCell(h, a.proposal.cell) < MAX_REPLICATES_PER_CELL
    requires a.proposal.seed == SeedOf(seed, a.proposal.cell, CountCell(h, a.proposal.cell))
    ensures SeededInOrder(seed, h + [a])
  {
    var g := h + [a];
    hide SeedOf, CountCell;
    forall i | 0 <= i < |g|
      ensures CountCell(g[..i], g[i].proposal.cell) < MAX_REPLICATES_PER_CELL
      ensures g[i].proposal.seed == SeedOf(seed, g[i].proposal.cell, CountCell(g[..i], g[i].proposal.cell))
    {
      if i < |h| {
        assert g[..i] == h[..i] && g[i] == h[i];
      } else {
        assert g[..i] == h;
      }
    }
  }

  lemma ReplicatesAreCounted(seed: U64, h: seq<Accepted>, c: Cell)
    requires SeededInOrder(seed, h)
    ensures ReplicatesOf(RememberAll(NoIdentity, h), c) == CountCell(h, c) <= MAX_REPLICATES_PER_CELL
    ensures RememberAll(NoIdentity, h).b0Drawn == CountB0(h)
  {
    hide *;
    HistoryMirrors(h);
    CellsAreBounded(seed, h, c);
    MirrorsCounts(RememberAll(NoIdentity, h), h, c);
  }

  lemma MirrorsCounts(id: Identity, h: seq<Accepted>, c: Cell)
    requires Mirrors(id, h) && CountCell(h, c) <= MAX_REPLICATES_PER_CELL
    ensures ReplicatesOf(id, c) == CountCell(h, c) && id.b0Drawn == CountB0(h)
  {
  }

  lemma FreshKeepsGood(env: Env, h: seq<Accepted>, v: Work, p: Proposal)
    requires Good(env.sessionSeed, h) && v.id == RememberAll(NoIdentity, h) && DebtUncapped(v.debt) && Fresh(env, v, p)
    ensures Good(env.sessionSeed, h + [Accepted(env.sweep, p)])
  {
    hide SeedOf, CountCell, CountB0, RememberAll, SeededInOrder, ReplicatesOf;
    ReplicatesAreCounted(env.sessionSeed, h, p.cell);
    CountSnoc(h, Accepted(env.sweep, p));
    SeededSnoc(env.sessionSeed, h, Accepted(env.sweep, p));
  }

  /** The key of a candidate is never in the session's own history: the duplicate branch is dead. */
  lemma KeyIsNew(seed: U64, h: seq<Accepted>, cell: Cell)
    requires SeededInOrder(seed, h)
    ensures var id := RememberAll(NoIdentity, h);
      Key(cell, SeedOf(seed, cell, ReplicatesOf(id, cell))) !in id.keys
  {
    hide SeedOf;
    var id := RememberAll(NoIdentity, h);
    HistoryMirrors(h);
    ReplicatesAreCounted(seed, h, cell);
    hide RememberAll, ReplicatesOf;
    forall i | 0 <= i < |h| ensures KeyOf(h[i].proposal) != Key(cell, SeedOf(seed, cell, ReplicatesOf(id, cell))) {
      if h[i].proposal.cell == cell {
        CountGrows(h, i, |h|, cell);
        assert h[..|h|] == h;
        if h[i].proposal.seed == SeedOf(seed, cell, ReplicatesOf(id, cell)) {
          SeedsOfReplicatesDiffer(seed, cell, CountCell(h[..i], cell), ReplicatesOf(id, cell));
        }
      }
    }
  }

  /** In terms of what the session accepted: a proposal that can be stamped is accepted exactly when its cell
      has fewer than three acceptances. */
  lemma AcceptedIffReplicatesLeft(env: Env, h: seq<Accepted>, w: Work, slot: nat, attempt: nat)
    requires w.collisions < env.config.retries
    requires SeededInOrder(env.sessionSeed, h) && w.id == RememberAll(NoIdentity, h)
    requires var d := DrawAt(env, w, slot, attempt);
      d.Candidate? && env.stamp(DraftAt(env, w, slot, d.cell, d.origin)).Stamped?
    ensures TryOnce(env, w, slot, attempt).Drawn? <==> CountCell(h, DrawAt(env, w, slot, attempt).cell) < 3
  {
    var cell := DrawAt(env, w, slot, attempt).cell;
    hide RememberAll, SeededInOrder, CountCell, ReplicatesOf, SeedOf, DrawOne, TryOnce;
    TurnEnds(env, w, slot, attempt);
    KeyIsNew(env.sessionSeed, h, cell);
    ReplicatesAreCounted(env.sessionSeed, h, cell);
  }

  lemma ProposeNeverDuplicates(env: Env, w: Work, slot: nat, attempt: nat, cell: Cell, origin: Origin)
    requires slot < env.config.searches && w.collisions < env.config.retries
    requires Key(cell, SeedOf(env.sessionSeed, cell, ReplicatesOf(w.id, cell))) !in w.id.keys
    ensures Propose(env, w, slot, attempt, cell, origin).work.duplicates == w.duplicates
  {
    hide SeedOf, Recorded, Collide, TotalRefused;
    var draft := Proposal(cell, SeedOf(env.sessionSeed, cell, ReplicatesOf(w.id, cell)), origin, slot, "");
    match env.stamp(draft)
    case Unstampable(reason) =>
    case Stamped(hash) =>
      var p := draft.(hash := hash);
      if ReplicatesOf(w.id, cell) >= MAX_REPLICATES_PER_CELL {
        CollideRecords(env, w, slot, p, Uniform(env, slot, attempt), env.describe(slot, attempt));
      }
  }

  lemma TryNeverDuplicates(env: Env, h: seq<Accepted>, w: Work, slot: nat, attempt: nat)
    requires slot < env.config.searches && w.collisions < env.config.retries
    requires SeededInOrder(env.sessionSeed, h) && w.id == RememberAll(NoIdentity, h)
    ensures TryOnce(env, w, slot, attempt).work.duplicates == w.duplicates
  {
    hide Propose, DrawOne, RememberAll, SeededInOrder, ReplicatesOf, Uniform, Forced, GiveUpOrRetry, SeedOf, Effect;
    var v := w.(attempts := w.attempts + 1);
    match DrawOne(env, v.id.b0Drawn, slot, attempt, Uniform(env, slot, attempt), Forced(env, v, slot, attempt)) {
      case Refused(reason) => GiveUpFacts(env, v, slot, attempt, reason, false);
      case Candidate(cell, origin) =>
        KeyIsNew(env.sessionSeed, h, cell);
        ProposeNeverDuplicates(env, v, slot, attempt, cell, origin);
    }
  }

  lemma {:induction false} SlotNeverDuplicates(env: Env, h: seq<Accepted>, w: Work, slot: nat, attempt: nat)
    requires slot < env.config.searches && WillEnd(env, w, attempt)
    requires SeededInOrder(env.sessionSeed, h) && w.id == RememberAll(NoIdentity, h)
    ensures DrawSlot(env, w, slot, attempt).work.duplicates == w.duplicates
    decreases 2 * env.config.retries - attempt
  {
    var o := TryOnce(env, w, slot, attempt);
    TryNeverDuplicates(env, h, w, slot, attempt);
    if o.Retry? {
      hide Effect, SeededInOrder, RememberAll, RecordsGrow;
      TryOnceFacts(env, w, slot, attempt);
      RetryRecords(env, w, o, slot);
      RetryStillEnds(env, w, slot, attempt);
      hide TryOnce;
      SlotNeverDuplicates(env, h, o.work, slot, attempt + 1);
    }
  }

  /** Whatever is drawn, a sweep keeps the history of the session good, and never refuses a duplicate. */
  lemma {:induction false} SweepKeepsGood(env: Env, h: seq<Accepted>, w: Work, slot: nat)
    requires env.config.retries > 0 && w.collisions == 0 && slot <= env.config.searches
    requires Good(env.sessionSeed, h + Tag(env.sweep, w.proposals)) && DebtUncapped(w.debt)
    requires w.id == RememberAll(NoIdentity, h + Tag(env.sweep, w.proposals))
    ensures var t := DrawSlots(env, w, slot).work;
      && Good(env.sessionSeed, h + Tag(env.sweep, t.proposals))
      && t.id == RememberAll(NoIdentity, h + Tag(env.sweep, t.proposals))
      && t.duplicates == w.duplicates
    decreases env.config.searches - slot
  {
    hide Good, RememberAll, DrawSlot;
    if slot < env.config.searches {
      var o := DrawSlot(env, w, slot, 0);
      var g := h + Tag(env.sweep, w.proposals);
      DrawSlotFacts(env, w, slot, 0);
      assert SeededInOrder(env.sessionSeed, g) by { GoodIsSeeded(env.sessionSeed, g); }
      SlotNeverDuplicates(env, g, w, slot, 0);
      hide TotalRefused, SeedOf, SeededInOrder, EndsAbandoned;
      if o.Drawn? {
        var p := o.work.proposals[|w.proposals|];
        FreshKeepsGood(env, g, w, p);
        RememberSnoc(NoIdentity, g, Accepted(env.sweep, p));
        assert h + Tag(env.sweep, o.work.proposals) == g + [Accepted(env.sweep, p)] by {
          TagSnoc(env.sweep, w.proposals, o.work.proposals);
        }
        DrawnHasNoCollisions(env, w, slot, 0);
        SweepKeepsGood(env, h, o.work, slot + 1);
      }
    }
  }

  lemma GoodIsSeeded(seed: U64, h: seq<Accepted>)
    requires Good(seed, h)
    ensures SeededInOrder(seed, h)
  {
  }

  lemma TagSnoc(sweep: Sweep, ps: seq<Proposal>, qs: seq<Proposal>)
    requires |qs| == |ps| + 1 && qs[..|ps|] == ps
    ensures Tag(sweep, qs) == Tag(sweep, ps) + [Accepted(sweep, qs[|ps|])]
  {
    forall i | 0 <= i < |ps| ensures Tag(sweep, qs)[i] == Tag(sweep, ps)[i] {
      assert qs[i] == qs[..|ps|][i];
    }
  }

  // ------------------------------------------------------------------------------------------
  // A session of sweeps
  // ------------------------------------------------------------------------------------------

  /** The proposals of one journalled sweep. */
  datatype SweepProposals = SweepProposals(sweep: Sweep, proposals: seq<Proposal>)

  function Flatten(sweeps: seq<SweepProposals>): seq<Accepted> {
    if sweeps == [] then []
    else
      var last := sweeps[|sweeps| - 1];
      Flatten(sweeps[..|sweeps| - 1]) + Tag(last.sweep, last.proposals)
  }

  /** `reload` and `restore`: the identity state of the journalled sweeps. */
  function Reloaded(sweeps: seq<SweepProposals>): Identity {
    RememberAll(NoIdentity, Flatten(sweeps))
  }

  datatype Plan = Plan(env: Env, debt: seq<Level>)

  datatype Session = Session(id: Identity, census: Census, journal: seq<SweepProposals>)

  function EndOf(s: Session, p: Plan): SweepEnd
    requires p.env.config.retries > 0
  {
    DrawSlots(p.env, Start(s.id, p.debt), 0)
  }

  /** `draw_sweep` and the journalling of what it returned. A sweep that cannot express a proposal
      leaves without adding its census to the session's; one that cannot stamp adds it first. */
  function AfterSweep(s: Session, p: Plan): Session
    requires p.env.config.retries > 0
  {
    match EndOf(s, p)
    case Complete(w) =>
        Session(w.id, Absorbed(s.census, w.census), s.journal + [SweepProposals(p.env.sweep, w.proposals)])
    case CannotExpress(w, _) => s.(id := w.id)
    case CannotStamp(w, _) => s.(id := w.id, census := Absorbed(s.census, w.census))
  }

  ghost predicate Admissible(p: Plan, seed: U64) {
    p.env.config.retries > 0 && p.env.sessionSeed == seed && DebtUncapped(p.debt)
  }

  function RunSession(s: Session, plans: seq<Plan>): Session
    requires forall k :: 0 <= k < |plans| ==> plans[k].env.config.retries > 0
    decreases |plans|
  {
    if plans == [] then s else RunSession(AfterSweep(s, plans[0]), plans[1..])
  }

  ghost predicate AllComplete(s: Session, plans: seq<Plan>)
    requires forall k :: 0 <= k < |plans| ==> plans[k].env.config.retries > 0
    decreases |plans|
  {
    plans == [] || (EndOf(s, plans[0]).Complete? && AllComplete(AfterSweep(s, plans[0]), plans[1..]))
  }

  lemma FlattenSnoc(journal: seq<SweepProposals>, x: SweepProposals)
    ensures Flatten(journal + [x]) == Flatten(journal) + Tag(x.sweep, x.proposals)
  {
    assert (journal + [x])[..|journal|] == journal;
  }

  /** One sweep, however it ends: the live identity state is the reloaded one plus the proposals taken
      by this sweep, and no duplicate was refused. */
  lemma SweepFromJournal(s: Session, p: Plan)
    requires Admissible(p, p.env.sessionSeed) && s.id == Reloaded(s.journal)
    requires Good(p.env.sessionSeed, Flatten(s.journal))
    ensures var w := EndOf(s, p).work;
      && w.id == RememberAll(NoIdentity, Flatten(s.journal) + Tag(p.env.sweep, w.proposals))
      && Good(p.env.sessionSeed, Flatten(s.journal) + Tag(p.env.sweep, w.proposals))
      && w.duplicates == []
  {
    hide Good, RememberAll, DrawSlots, Flatten;
    assert Flatten(s.journal) + Tag(p.env.sweep, []) == Flatten(s.journal);
    SweepKeepsGood(p.env, Flatten(s.journal), Start(s.id, p.debt), 0);
  }

  lemma CompleteSweepIsJournalled(s: Session, p: Plan)
    requires Admissible(p, p.env.sessionSeed) && s.id == Reloaded(s.journal)
    requires Good(p.env.sessionSeed, Flatten(s.journal)) && EndOf(s, p).Complete?
    ensures var t := AfterSweep(s, p);
      t.id == Reloaded(t.journal) && Good(p.env.sessionSeed, Flatten(t.journal))
  {
    hide Good, RememberAll, DrawSlots, Flatten, Absorbed;
    SweepFromJournal(s, p);
    FlattenSnoc(s.journal, SweepProposals(p.env.sweep, EndOf(s, p).work.proposals));
  }

  /** Over any session of completed sweeps under one session seed: reloading the journal rebuilds
      exactly the live identity state; every cell was accepted at most MAX_REPLICATES_PER_CELL times,
      its k-th acceptance carrying its k-th seed; no identity was accepted twice; and the capped
      control was drawn at most once. */
  lemma {:induction false} SessionIdentity(s: Session, plans: seq<Plan>, seed: U64)
    requires forall k :: 0 <= k < |plans| ==> plans[k].env.config.retries > 0
    requires forall k :: 0 <= k < |plans| ==> Admissible(plans[k], seed)
    requires s.id == Reloaded(s.journal) && Good(seed, Flatten(s.journal)) && AllComplete(s, plans)
    ensures var t := RunSession(s, plans);
      && t.id == Reloaded(t.journal) && Good(seed, Flatten(t.journal)) && DistinctKeys(Flatten(t.journal))
      && CountB0(Flatten(t.journal)) <= 1 && forall c :: CountCell(Flatten(t.journal), c) <= MAX_REPLICATES_PER_CELL
    decreases |plans|
  {
    hide RememberAll, DrawSlots, AfterSweep, SeedOf, CountCell;
    if plans == [] {
      SeededKeysAreDistinct(seed, Flatten(s.journal));
      forall c ensures CountCell(Flatten(s.journal), c) <= MAX_REPLICATES_PER_CELL {
        CellsAreBounded(seed, Flatten(s.journal), c);
      }
    } else {
      hide Good, Flatten;
      CompleteSweepIsJournalled(s, plans[0]);
      SessionIdentity(AfterSweep(s, plans[0]), plans[1..], seed);
    }
  }

  lemma MirrorsKey(id: Identity, h: seq<Accepted>, i: nat)
    requires Mirrors(id, h) && i < |h|
    ensures KeyOf(h[i].proposal) in id.keys
  {
    hide CountCell, CountB0, ReplicatesOf;
  }

  lemma MirrorsNoKey(id: Identity, h: seq<Accepted>, k: Key)
    requires Mirrors(id, h) && forall i :: 0 <= i < |h| ==> KeyOf(h[i].proposal) != k
    ensures k !in id.keys
  {
    hide CountCell, CountB0, ReplicatesOf;
  }

  /** The first new acceptance changes the identity state for good. */
  lemma LastKeyIsNew(h: seq<Accepted>, g: seq<Accepted>)
    requires DistinctKeys(g) && |h| < |g| && g[..|h|] == h
    ensures RememberAll(NoIdentity, h) != RememberAll(NoIdentity, g)
  {
    hide RememberAll, Mirrors, KeyOf;
    var k := KeyOf(g[|h|].proposal);
    forall i | 0 <= i < |h| ensures KeyOf(h[i].proposal) != k {
      assert g[..|h|][i] == g[i];
    }
    HistoryMirrors(h);
    HistoryMirrors(g);
    MirrorsKey(RememberAll(NoIdentity, g), g, |h|);
    MirrorsNoKey(RememberAll(NoIdentity, h), h, k);
  }

  lemma StartIsDense(env: Env, start: Work)
    requires start.proposals == [] && start.census == EmptyCensus
    ensures Dense(env, start, start)
  {
    assert Tag(env.sweep, []) == [];
    hide TotalRefused;
  }

  lemma SweepFromStart(p: Plan, id: Identity)
    requires p.env.config.retries > 0
    ensures SweepFacts(p.env, Start(id, p.debt), DrawSlots(p.env, Start(id, p.debt), 0))
  {
    hide DrawSlots, Dense, SweepFacts;
    StartIsDense(p.env, Start(id, p.debt));
    DrawSlotsFacts(p.env, Start(id, p.debt), Start(id, p.debt), 0);
  }

  lemma RefusalsHaveRecords(env: Env, id: Identity, debt: seq<Level>, e: SweepEnd)
    requires SweepFacts(env, Start(id, debt), e)
    ensures TotalRefused(e.work.census) == |e.work.refused| + |e.work.duplicates|
  {
    hide RememberAll, EndsAbandoned, CausesGrow;
  }

  /** However a sweep ends, every counter of its census is the number of its records of that cause. */
  lemma RefusalsHaveRecordsByCause(p: Plan, id: Identity, cause: Cause)
    requires p.env.config.retries > 0
    ensures var w := DrawSlots(p.env, Start(id, p.debt), 0).work;
      CountOf(w.census, cause) == RecordsOf(w.refused, cause) + (if cause == OfDuplicates then |w.duplicates| else 0)
  {
    hide EndsAbandoned, SweepFacts, RecordsGrow, CountOf, RecordsOf, DrawSlots;
    SweepFromStart(p, id);
    SweepGrows(p.env, Start(id, p.debt), DrawSlots(p.env, Start(id, p.debt), 0));
    CausesFromStart(id, p.debt, DrawSlots(p.env, Start(id, p.debt), 0).work, cause);
  }

  lemma CausesFromStart(id: Identity, debt: seq<Level>, w: Work, cause: Cause)
    requires RecordsGrow(Start(id, debt), w)
    ensures CountOf(w.census, cause) ==
      RecordsOf(w.refused, cause) + (if cause == OfDuplicates then |w.duplicates| else 0)
  {
    assert CauseGrows(Start(id, debt), w, cause);
  }

  lemma SweepGrows(env: Env, start: Work, e: SweepEnd)
    requires SweepFacts(env, start, e)
    ensures RecordsGrow(start, e.work)
  {
    hide RecordsGrow;
  }

  lemma RefusedAtItsSlot(env: Env, start: Work, e: SweepEnd)
    requires SweepFacts(env, start, e) && !e.Complete?
    ensures |e.work.proposals| == e.slot
  {
    hide Dense;
  }

  /** A sweep that refuses to go on has already remembered what it took, and nothing journals that: the
      live identity state is the reloaded one exactly when it refused at its first slot, which its error
      names. */
  lemma FailedSweepMatchesJournalIff(s: Session, p: Plan)
    requires Admissible(p, p.env.sessionSeed) && s.id == Reloaded(s.journal)
    requires Good(p.env.sessionSeed, Flatten(s.journal)) && !EndOf(s, p).Complete?
    ensures var t := AfterSweep(s, p);
      t.journal == s.journal && (t.id == Reloaded(t.journal) <==> EndOf(s, p).slot == 0)
  {
    hide RememberAll, DrawSlots, Absorbed, SeededInOrder, Flatten, CountB0, SweepFacts;
    var w, h := EndOf(s, p).work, Flatten(s.journal);
    SweepFromStart(p, s.id);
    RefusedAtItsSlot(p.env, Start(s.id, p.debt), EndOf(s, p));
    SweepFromJournal(s, p);
    var g := h + Tag(p.env.sweep, w.proposals);
    if w.proposals == [] {
      assert g == h;
    } else {
      SeededKeysAreDistinct(p.env.sessionSeed, g);
      hide DistinctKeys;
      assert g[..|h|] == h;
      LastKeyIsNew(h, g);
    }
  }

  /** The session's census rises by one for every refusal record of the sweep, unless the sweep could
      not express a proposal: then those refusals are in no session total. */
  lemma CensusAfterSweep(s: Session, p: Plan)
    requires p.env.config.retries > 0 && |s.census.examples| <= CENSUS_EXAMPLES_MAX
    ensures var e, t := EndOf(s, p), AfterSweep(s, p);
      TotalRefused(t.census) - TotalRefused(s.census)
        == if e.CannotExpress? then 0 else |e.work.refused| + |e.work.duplicates|
  {
    hide DrawSlots, TotalRefused, Absorbed, SweepFacts;
    SweepFromStart(p, s.id);
    RefusalsHaveRecords(p.env, s.id, p.debt, EndOf(s, p));
    AbsorbedConserves(s.census, EndOf(s, p).work.census);
  }

  /** Every draw for the slot is refused, before the objective is chosen or after it. */
  ghost predicate RefusesSlot(env: Env, slot: nat) {
    forall attempt: nat :: env.sample(slot, attempt).early != None || env.sample(slot, attempt).late != None
  }

  /** Such a slot uses up the retries, with one record and one count for each, and then ends the sweep. */
  lemma {:induction false} RefusedSlotFails(env: Env, w: Work, slot: nat, attempt: nat)
    requires RefusesSlot(env, slot) && WillEnd(env, w, attempt) && attempt < env.config.retries
    ensures var o, n := DrawSlot(env, w, slot, attempt), env.config.retries - attempt;
      && o.Unexpressible? && o.work.proposals == w.proposals && o.work.duplicates == w.duplicates
      && |o.work.refused| == |w.refused| + n && TotalRefused(o.work.census) == TotalRefused(w.census) + n
    decreases env.config.retries - attempt
  {
    var v, sample := w.(attempts := w.attempts + 1), env.sample(slot, attempt);
    var d := DrawOne(env, v.id.b0Drawn, slot, attempt, Uniform(env, slot, attempt), Forced(env, v, slot, attempt));
    assert d.Refused?;
    RecordedTotal(v.census, d.reason, env.describe(slot, attempt));
    hide TotalRefused, Recorded, DrawOne;
    var o := TryOnce(env, w, slot, attempt);
    if attempt + 1 < env.config.retries {
      RetryStillEnds(env, w, slot, attempt);
      RefusedSlotFails(env, o.work, slot, attempt + 1);
    }
  }

  // A sweep that takes its first slot and whose draws for the second are all refused after the objective.

  function SecondSlotFails(slot: nat, attempt: nat): Sample {
    Sample(None, [], 0, 0, [], if slot == 0 then None else Some(LaneHorizon))
  }

  function SameStamp(p: Proposal): Stamp { Stamped("stamp") }

  predicate NothingSeen(hash: string) { false }

  function Unnamed(slot: nat, attempt: nat): string { "" }

  function FailingPlan(config: Config, seed: U64, sweep: Sweep): Plan {
    Plan(Env(config, seed, sweep, [1], SecondSlotFails, SameStamp, NothingSeen, Unnamed), [])
  }

  const NewSession := Session(NoIdentity, EmptyCensus, [])

  lemma FailingFirstSlot(config: Config, seed: U64, sweep: Sweep)
    requires config.retries > 0
    ensures var o := DrawSlot(FailingPlan(config, seed, sweep).env, Start(NoIdentity, []), 0, 0);
      && o.Drawn? && |o.work.proposals| == 1 && o.work.refused == []
      && TotalRefused(o.work.census) == 0
  {
    hide SeedOf;
    var env, w := FailingPlan(config, seed, sweep).env, Start(NoIdentity, []);
    assert Uncapped([1], 0) == [1];
    assert DrawOne(env, 0, 0, 0, Uniform(env, 0, 0), None).Candidate?;
    assert TryOnce(env, w, 0, 0).Drawn?;
  }

  lemma FailingEnd(config: Config, seed: U64, sweep: Sweep)
    requires config.retries > 0 && config.searches > 1
    ensures var e := EndOf(NewSession, FailingPlan(config, seed, sweep));
      && e.CannotExpress? && e.slot == 1 && |e.work.proposals| == 1 && |e.work.refused| == config.retries
      && TotalRefused(e.work.census) == config.retries
  {
    var env, w := FailingPlan(config, seed, sweep).env, Start(NoIdentity, []);
    assert RefusesSlot(env, 1);
    hide DrawSlot, TotalRefused, RefusesSlot;
    FailingFirstSlot(config, seed, sweep);
    DrawnHasNoCollisions(env, w, 0, 0);
    RefusedSlotFails(env, DrawSlot(env, w, 0, 0).work, 1, 0);
    assert DrawSlots(env, w, 0) == DrawSlots(env, DrawSlot(env, w, 0, 0).work, 1);
  }

  lemma CannotExpressKeepsCensus(s: Session, p: Plan)
    requires p.env.config.retries > 0 && EndOf(s, p).CannotExpress?
    ensures AfterSweep(s, p).census == s.census
  {
    hide EndOf;
  }

  /** Such a sweep exists for every size of a sweep beyond one search: the live state keeps a proposal no
      journal has, and the refusals it counted, as many as there are retries, are in no session total. */
  lemma FailedSweepLosesItsRecords(config: Config, seed: U64, sweep: Sweep)
    requires config.retries > 0 && config.searches > 1
    ensures var p := FailingPlan(config, seed, sweep);
      var e, t := EndOf(NewSession, p), AfterSweep(NewSession, p);
      && e.CannotExpress? && e.slot == 1 && |e.work.proposals| == 1
      && |e.work.refused| == TotalRefused(e.work.census) == config.retries
      && t.journal == NewSession.journal && t.id != Reloaded(t.journal) && t.census == NewSession.census
  {
    hide EndOf, AfterSweep, TotalRefused, Good, Flatten, Reloaded;
    var p := FailingPlan(config, seed, sweep);
    FailingEnd(config, seed, sweep);
    NewSessionIsGood(seed);
    CannotExpressKeepsCensus(NewSession, p);
    FailedSweepMatchesJournalIff(NewSession, p);
  }

  lemma NewSessionIsGood(seed: U64)
    ensures Good(seed, Flatten(NewSession.journal)) && NewSession.id == Reloaded(NewSession.journal)
  {
  }

  /** A completed sweep, in the terms the runner relies on. */
  lemma CompletedSweep(s: Session, p: Plan)
    requires p.env.config.retries > 0 && EndOf(s, p).Complete?
    ensures var w, n := EndOf(s, p).work, p.env.config.searches;
      && (forall i :: 0 <= i < |w.proposals| ==> w.proposals[i].slot == i)
      && (forall i :: 0 <= i < |w.proposals| && i < p.env.config.floor ==> w.proposals[i].origin == ExplorationFloor)
      && p.debt == w.debt + PaidBy(w.proposals)
      && Tally(w.census) == TallyOf(p.env, w.proposals)
      && |w.proposals| + w.abandoned == n
      && (w.abandoned > 0 ==> EndsAbandoned(p.env, w, |w.proposals|))
      && w.attempts <= 2 * p.env.config.retries * n
  {
    hide DrawSlots, EndsAbandoned, TotalRefused, RememberAll;
    SweepFromStart(p, s.id);
  }

  // ------------------------------------------------------------------------------------------
  // The slots of a sweep, read back from the journal
  // ------------------------------------------------------------------------------------------

  /** How the session files a drawn proposal: missing places before its slot are filled with copies. */
  function Filed(slots: seq<Proposal>, p: Proposal): (r: seq<Proposal>)
    ensures |r| == if |slots| <= p.slot then p.slot + 1 else |slots|
    ensures forall k :: 0 <= k < |r| ==> r[k] == if k == p.slot || k >= |slots| then p else slots[k]
  {
    (slots + seq(if |slots| <= p.slot then p.slot + 1 - |slots| else 0, _ => p))[p.slot := p]
  }

  function FiledAll(drawn: seq<Proposal>): seq<Proposal> {
    if drawn == [] then [] else Filed(FiledAll(drawn[..|drawn| - 1]), drawn[|drawn| - 1])
  }

  ghost predicate HasSlot(drawn: seq<Proposal>, k: nat) {
    exists i :: 0 <= i < |drawn| && drawn[i].slot == k
  }

  lemma HasSlotSnoc(drawn: seq<Proposal>, k: nat)
    requires drawn != []
    ensures HasSlot(drawn, k) <==> HasSlot(drawn[..|drawn| - 1], k) || drawn[|drawn| - 1].slot == k
  {
    var before := drawn[..|drawn| - 1];
    if HasSlot(drawn, k) {
      var i :| 0 <= i < |drawn| && drawn[i].slot == k;
      if i < |before| { assert before[i].slot == k; }
    }
    if HasSlot(before, k) {
      var i :| 0 <= i < |before| && before[i].slot == k;
      assert drawn[i].slot == k;
    }
  }

  /** A position holds the proposal of that slot exactly when one was drawn for it; a gap holds another. */
  lemma {:induction false} PositionIsSlotIffDrawn(drawn: seq<Proposal>, k: nat)
    ensures HasSlot(drawn, k) ==> k < |FiledAll(drawn)|
    ensures k < |FiledAll(drawn)| ==>
        FiledAll(drawn)[k] in drawn && (FiledAll(drawn)[k].slot == k <==> HasSlot(drawn, k))
  {
    if drawn != [] {
      var before, p := drawn[..|drawn| - 1], drawn[|drawn| - 1];
      PositionIsSlotIffDrawn(before, k);
      HasSlotSnoc(drawn, k);
    }
  }

  /** The vector of a sweep whose proposals stand at their slots survives the journal unchanged, so a
      best-ever sweep and slot name the proposal they name. */
  lemma {:induction false} DenseSweepIsFiledInPlace(drawn: seq<Proposal>)
    requires forall i :: 0 <= i < |drawn| ==> drawn[i].slot == i
    ensures FiledAll(drawn) == drawn
  {
    if drawn != [] {
      DenseSweepIsFiledInPlace(drawn[..|drawn| - 1]);
    }
  }

  // ------------------------------------------------------------------------------------------
  // Coverage debt
  // ------------------------------------------------------------------------------------------

  /** The sweeps each objective took part in so far. */
  type Coverage = Level -> nat

  function Owing(drawable: seq<Level>, coverage: Coverage, minDraws: nat): (r: seq<Level>)
    ensures forall v :: v in r <==> v in drawable && !Capped(v) && coverage(v) < minDraws
  {
    if drawable == [] then []
    else (if !Capped(drawable[0]) && coverage(drawable[0]) < minDraws then [drawable[0]] else [])
         + Owing(drawable[1..], coverage, minDraws)
  }

  predicate LessCovered(coverage: Coverage, a: Level, b: Level) {
    coverage(a) < coverage(b) || (coverage(a) == coverage(b) && a <= b)
  }

  function Reversed<T>(s: seq<T>): (r: seq<T>)
    ensures |r| == |s| && forall k :: 0 <= k < |s| ==> r[k] == s[|s| - 1 - k]
  {
    if s == [] then [] else Reversed(s[1..]) + [s[0]]
  }

  /** `coverage_debt`, already reversed so that the objective owed most is taken from the end. */
  function Debt(drawable: seq<Level>, coverage: Coverage, minDraws: nat): seq<Level> {
    Reversed(Orders.SortBy((a, b) => LessCovered(coverage, a, b), Owing(drawable, coverage, minDraws)))
  }

  lemma ReversedMembers<T>(s: seq<T>, x: T)
    ensures x in Reversed(s) <==> x in s
  {
    if x in s {
      var k :| 0 <= k < |s| && s[k] == x;
      assert Reversed(s)[|s| - 1 - k] == x;
    }
  }

  lemma ReversedSorted<T>(leq: (T, T) -> bool, s: seq<T>)
    requires Orders.Sorted(leq, s)
    ensures forall i, j :: 0 <= i < j < |s| ==> leq(Reversed(s)[j], Reversed(s)[i])
  {
  }

  /** The debt lists exactly the uncapped objectives below the minimum, and the last of it is owed most. */
  lemma DebtIsOwed(drawable: seq<Level>, coverage: Coverage, minDraws: nat)
    ensures var d := Debt(drawable, coverage, minDraws);
      && (forall v :: v in d <==> v in drawable && !Capped(v) && coverage(v) < minDraws)
      && DebtUncapped(d)
      && (forall i, j :: 0 <= i < j < |d| ==>
            coverage(d[j]) < coverage(d[i]) || (coverage(d[j]) == coverage(d[i]) && d[j] <= d[i]))
  {
    var leq := (a, b) => LessCovered(coverage, a, b);
    var owing := Owing(drawable, coverage, minDraws);
    Orders.SortBySorts(leq, owing);
    var sorted := Orders.SortBy(leq, owing);
    hide Orders.SortBy, Orders.Sorted, Owing, Reversed;
    ReversedSorted(leq, sorted);
    forall v ensures v in Debt(drawable, coverage, minDraws) <==> v in owing {
      ReversedMembers(sorted, v);
    }
  }

  // ------------------------------------------------------------------------------------------
  // The proposer
  // ------------------------------------------------------------------------------------------

  /** `abandon_remaining_slots`, one record at a time. */
  method AbandonRemainingSlots(w: Work, from_: nat, of: nat, collisions: nat) returns (t: Work)
    ensures t == Abandon(w, from_, of, collisions) && t.id == w.id
  {
    hide Abandonments, RecordEach, Recorded;
    t := w.(exhausted := true, abandoned := if from_ <= of then of - from_ else 0);
    ghost var drawn, first := |w.proposals|, t;
    var k := from_;
    while k < of
      invariant t.refused + Abandonments(k, drawn, of, collisions) ==
          w.refused + Abandonments(from_, drawn, of, collisions)
      invariant RecordEach(t.census, Abandonments(k, drawn, of, collisions))
        == RecordEach(w.census, Abandonments(from_, drawn, of, collisions))
      invariant t == first.(census := t.census, refused := t.refused)
    {
      AbandonmentsUnfold(t, k, drawn, of, collisions);
      t := AbandonOne(t, k, of, collisions);
      k := k + 1;
    }
    AbandonmentsEnd(t, k, drawn, of, collisions);
  }

  function AbandonOne(t: Work, k: nat, of: nat, collisions: nat): Work {
    var reason := SpaceEnumerated(k, |t.proposals|, of, collisions);
    t.(census := Recorded(t.census, reason, "<never drawn: the space is enumerated (U5)>"),
       refused := t.refused + [RefusedDraw(k, "", reason)])
  }

  lemma AbandonmentsUnfold(t: Work, k: nat, drawn: nat, of: nat, collisions: nat)
    requires k < of && drawn == |t.proposals|
    ensures var u, rest := AbandonOne(t, k, of, collisions), Abandonments(k + 1, drawn, of, collisions);
      && t.refused + Abandonments(k, drawn, of, collisions) == u.refused + rest
      && RecordEach(t.census, Abandonments(k, drawn, of, collisions)) == RecordEach(u.census, rest)
  {
    hide Recorded;
    var r, rest := RefusedDraw(k, "", SpaceEnumerated(k, drawn, of, collisions)),
        Abandonments(k + 1, drawn, of, collisions);
    assert ([r] + rest)[1..] == rest;
    assert t.refused + [r] + rest == t.refused + ([r] + rest);
  }

  lemma AbandonmentsEnd(t: Work, k: nat, drawn: nat, of: nat, collisions: nat)
    requires k >= of
    ensures t.refused + Abandonments(k, drawn, of, collisions) == t.refused
    ensures RecordEach(t.census, Abandonments(k, drawn, of, collisions)) == t.census
  {
  }

  /** A turn, by what is drawn and by what the stamp says. */
  lemma TurnIs(env: Env, before: Work, slot: nat, attempt: nat)
    ensures var uniform := slot < env.config.floor || attempt >= env.config.retries;
      var w := before.(attempts := before.attempts + 1);
      var forced := if uniform || attempt > 0 || w.debt == [] then None else Some(w.debt[|w.debt| - 1]);
      var d, o := DrawOne(env, w.id.b0Drawn, slot, attempt, uniform, forced), TryOnce(env, before, slot, attempt);
      && (d.Refused? ==> o == GiveUpOrRetry(env, w, slot, attempt, d.reason, false))
      && (d.Candidate? ==>
            var seed := SeedOf(env.sessionSeed, d.cell, ReplicatesOf(w.id, d.cell));
            var draft := Proposal(d.cell, seed, d.origin, slot, "");
            var stamp := env.stamp(draft);
            && (stamp.Unstampable? ==> o == GiveUpOrRetry(env, w, slot, attempt, stamp.reason, true))
            && (stamp.Stamped? ==>
                  var p := draft.(hash := stamp.hash);
                  o == if KeyOf(p) in w.id.keys || ReplicatesOf(w.id, d.cell) >= MAX_REPLICATES_PER_CELL
                       then Collide(env, w, slot, p, uniform, env.describe(slot, attempt))
                       else Drawn(Accept(env, w, p))))
  {
    hide DrawOne, SeedOf, GiveUpOrRetry, Collide, Accept;
  }

  /** Count a refusal and file its record. */
  method RecordRefusal(w: Work, slot: nat, hash: string, reason: Refusal, describe: string) returns (t: Work)
    ensures t == Refuse(w, slot, hash, reason, describe) && t.id == w.id
  {
    hide Recorded;
    t := w.(census := Recorded(w.census, reason, describe));
    t := t.(refused := t.refused + [RefusedDraw(slot, hash, reason)]);
  }

  /** `record_identity_refusal`: one more refusal is counted and one record filed. A key seen before is filed
      as a duplicate of its first sweep and refuses nothing else; a key never seen has no first sweep, and is
      filed as a refusal with the replicates its cell has spent. */
  method RecordIdentityRefusal(w: Work, slot: nat, p: Proposal, describe: string) returns (t: Work)
    ensures OnlyRecords(w, t) && TotalRefused(t.census) == TotalRefused(w.census) + 1
    ensures KeyOf(p) in w.id.keys ==>
      && t.refused == w.refused
      && t.duplicates == w.duplicates + [DuplicateDraw(slot, p.hash, w.id.keys[KeyOf(p)])]
    ensures KeyOf(p) !in w.id.keys ==>
      && t.duplicates == w.duplicates
      && t.refused == w.refused + [RefusedDraw(slot, p.hash, CellReplicatesExhausted(ReplicatesOf(w.id, p.cell)))]
    ensures t == NoteIdentityRefusal(w, slot, p, describe) && t.id == w.id
  {
    NoteRecords(w, slot, p, describe);
    hide Recorded, TotalRefused, RecordsGrow;
    if KeyOf(p) in w.id.keys {
      var first := w.id.keys[KeyOf(p)];
      t := w.(census := Recorded(w.census, Duplicate(first), describe));
      t := t.(duplicates := t.duplicates + [DuplicateDraw(slot, p.hash, first)]);
    } else {
      t := RecordRefusal(w, slot, p.hash, CellReplicatesExhausted(ReplicatesOf(w.id, p.cell)), describe);
    }
  }

  method CountOneCollision(w: Work) returns (t: Work)
    ensures t == CountCollision(w) && t.id == w.id
  {
    t := w.(census := w.census.(uniformCollisions := w.census.uniformCollisions + 1));
    t := t.(collisions := t.collisions + 1);
  }

  /** The proposer and what it keeps across sweeps. */
  class ProposerState {
    var replicates: map<Cell, Level>
    var keys: map<Key, Sweep>
    var b0Drawn: nat
    var census: Census

    function Id(): Identity
      reads this
    {
      Identity(replicates, keys, b0Drawn)
    }

    constructor ()
      ensures Id() == NoIdentity && census == EmptyCensus
    {
      replicates, keys, b0Drawn, census := map[], map[], 0, EmptyCensus;
    }

    method Remember(p: Proposal, sweep: Sweep)
      modifies `replicates, `keys, `b0Drawn
      ensures Id() == Remembered(old(Id()), p, sweep)
    {
      var count: int := if p.cell in replicates then replicates[p.cell] else 0;
      replicates := replicates[p.cell := (count + 1) % 256];
      if KeyOf(p) !in keys {
        keys := keys[KeyOf(p) := sweep];
      }
      if p.cell.variant == B0 {
        b0Drawn := b0Drawn + 1;
      }
    }

    /** Forget everything and replay the journal. */
    method Reload(journal: seq<SweepProposals>)
      modifies `replicates, `keys, `b0Drawn
      ensures Id() == Reloaded(journal)
    {
      hide RememberAll, Remembered, Flatten, Tag;
      replicates, keys, b0Drawn := map[], map[], 0;
      ReloadedNothing();
      assert journal[..0] == [];
      for i := 0 to |journal|
        invariant Id() == Reloaded(journal[..i])
      {
        ghost var done := Flatten(journal[..i]);
        ghost var tag := Tag(journal[i].sweep, journal[i].proposals);
        assert done + tag[..0] == done;
        for j := 0 to |journal[i].proposals|
          invariant Id() == RememberAll(NoIdentity, done + tag[..j])
        {
          RememberSnoc(NoIdentity, done + tag[..j], tag[j]);
          assert done + tag[..j] + [tag[j]] == done + tag[..j + 1];
          Remember(journal[i].proposals[j], journal[i].sweep);
        }
        assert tag[..|journal[i].proposals|] == tag;
        FlattenSnoc(journal[..i], journal[i]);
        assert journal[..i] + [journal[i]] == journal[..i + 1];
      }
      assert journal[..|journal|] == journal;
    }

    /** A new identity is taken: known hashes, paid debts and acceptances are counted, the collisions start
        over, and the proposal is remembered. */
    method Take(env: Env, out: Work, p: Proposal) returns (w: Work)
      requires out.id == Id()
      modifies `replicates, `keys, `b0Drawn
      ensures w == Accept(env, out, p) && Id() == w.id
    {
      hide Recorded, Remembered;
      var c := out.census;
      if env.seenHash(p.hash) {
        c := c.(stampCollisions := c.stampCollisions + 1);
      }
      var debt := out.debt;
      if p.origin == CoverageDebt {
        if debt != [] {
          debt := debt[..|debt| - 1];
        }
        c := c.(coverageDebtForced := c.coverageDebtForced + 1);
      }
      Remember(p, env.sweep);
      c := c.(proposalsDrawn := c.proposalsDrawn + 1);
      w := out.(id := Id(), proposals := out.proposals + [p], debt := debt, collisions := 0, census := c);
    }

    /** One turn of the retry loop: draw, seed, stamp, identity guard, acceptance. */
    method Turn(env: Env, before: Work, slot: nat, attempt: nat) returns (o: Outcome)
      requires before.id == Id()
      modifies `replicates, `keys, `b0Drawn
      ensures o == TryOnce(env, before, slot, attempt) && Id() == o.work.id
    {
      hide DrawOne, SeedOf, Abandon, NoteIdentityRefusal, CountCollision, Accept, Refuse, OnlyRecords, TotalRefused;
      TurnIs(env, before, slot, attempt);
      hide TryOnce, Propose, Uniform, Forced;
      var out := before.(attempts := before.attempts + 1);
      var uniform := slot < env.config.floor || attempt >= env.config.retries;
      var forced := if uniform || attempt > 0 || out.debt == [] then None else Some(out.debt[|out.debt| - 1]);
      var draw := DrawOne(env, b0Drawn, slot, attempt, uniform, forced);
      if draw.Refused? {
        out := RecordRefusal(out, slot, "", draw.reason, env.describe(slot, attempt));
        return if attempt + 1 >= env.config.retries then Unexpressible(out) else Retry(out);
      }
      var replicate := if draw.cell in replicates then replicates[draw.cell] else 0;
      var p := Proposal(draw.cell, SeedOf(env.sessionSeed, draw.cell, replicate), draw.origin, slot, "");
      var stamp := env.stamp(p);
      if stamp.Unstampable? {
        out := RecordRefusal(out, slot, "", stamp.reason, env.describe(slot, attempt));
        return if attempt + 1 >= env.config.retries then Unstamped(out) else Retry(out);
      }
      p := p.(hash := stamp.hash);
      if KeyOf(p) in keys || replicate >= MAX_REPLICATES_PER_CELL {
        out := RecordIdentityRefusal(out, slot, p, env.describe(slot, attempt));
        if uniform {
          out := CountOneCollision(out);
          if out.collisions >= env.config.retries {
            out := AbandonRemainingSlots(out, slot, env.config.searches, out.collisions);
            return Exhausted(out);
          }
        }
        return Retry(out);
      }
      out := Take(env, out, p);
      return Drawn(out);
    }

    /** The whole sweep. What it returns is the sweep of the reference definition; what it leaves behind
        is that sweep's identity state, and its census unless no proposal could be expressed. */
    method DrawSweep(env: Env, debt: seq<Level>) returns (r: SweepEnd)
      requires env.config.retries > 0
      modifies this
      ensures r == DrawSlots(env, Start(old(Id()), debt), 0)
      ensures Id() == r.work.id
      ensures census == if r.CannotExpress? then old(census) else Absorbed(old(census), r.work.census)
    {
      hide TryOnce, Absorbed, Accept;
      var out := Start(Id(), debt);
      ghost var start := out;
      var slot := 0;
      while slot < env.config.searches
        invariant slot <= env.config.searches && out.id == Id() && out.collisions == 0 && census == old(census)
        invariant DrawSlots(env, out, slot) == DrawSlots(env, start, 0)
      {
        ghost var before := out;
        var attempt := 0;
        var o := Turn(env, out, slot, attempt);
        while o.Retry?
          invariant WillEnd(env, out, attempt) && census == old(census)
          invariant o == TryOnce(env, out, slot, attempt) && Id() == o.work.id
          invariant DrawSlot(env, out, slot, attempt) == DrawSlot(env, before, slot, 0)
          decreases 2 * env.config.retries - attempt
        {
          RetryStillEnds(env, out, slot, attempt);
          out, attempt := o.work, attempt + 1;
          o := Turn(env, out, slot, attempt);
        }
        out := o.work;
        if o.Unexpressible? {
          return CannotExpress(out, slot);
        }
        if o.Unstamped? {
          census := Absorbed(census, out.census);
          return CannotStamp(out, slot);
        }
        if o.Exhausted? {
          census := Absorbed(census, out.census);
          return Complete(out);
        }
        DrawnHasNoCollisions(env, before, slot, 0);
        slot := slot + 1;
      }
      census := Absorbed(census, out.census);
      return Complete(out);
    }
  }

  lemma ReloadedNothing()
    ensures Reloaded([]) == NoIdentity
  {
  }
}
