/** The polling hook `usePoll` and its lifetime gate. */
module PollHook {
  // A state machine over commits, reloads, timer ticks and promise continuations.

  import opened Common

  type Key(==, !new)
  type Fetcher(==, !new)
  type Data(==, !new)

  // ------------------------------------------------------------------------------------------
  // States
  // ------------------------------------------------------------------------------------------

  /** Queued: the first continuation has not run. Fetching: awaiting the fetcher. Rejected: the error
      handler is due. Settling: only the final decrement is due. */
  datatype Phase = Queued | Fetching | Rejected | Settling | Done

  /** One call that got past the guards, with what it captured. `auto` marks a request that the effect
      or its timer issued, as against a manual reload; `result` records what its fetcher resolved to,
      whether or not it was shown. */
  datatype Request =
      Request(group: nat, id: nat, key: Key, fetcher: Fetcher, auto: bool, phase: Phase, result: Option<Data>)

  datatype Group = Group(latest: nat, pending: int)

  datatype Snapshot = Snapshot(key: Key, data: Option<Data>, failed: bool, loading: bool)

  datatype Props = Props(fetcher: Fetcher, interval: nat, key: Key, enabled: bool)

  /** A write of the snapshot by a request. */
  datatype Write = Write(group: nat, id: nat)

  /** `groups` lists every request group ever installed; the installed one is `groups[current]`.
      `captured`, `writes`, `source` and `fetched` are history. */
  datatype State = State(
    active: bool, current: nat, groups: seq<Group>, requests: seq<Request>, snapshot: Snapshot,
    fetcherRef: Fetcher, keyRef: Key, enabledRef: bool, mounted: Option<Props>, timer: bool,
    captured: set<(Fetcher, Key)>, writes: seq<Write>, source: Option<nat>, fetched: seq<nat>)

  /** The state after the first render, before any effect ran. */
  function Init(p: Props): State {
    State(false, 0, [Group(0, 0)], [], Snapshot(p.key, None, false, true),
          p.fetcher, p.key, p.enabled, None, false, {(p.fetcher, p.key)}, [], None, [])
  }

  datatype Event =
    | Commit(props: Props)
    | Unmount
    | Reload
    | Tick
    | Begin(request: nat)
    | Resolve(request: nat, data: Data)
    | Reject(request: nat)
    | Catch(request: nat)
    | Finally(request: nat)

  ghost predicate Shape(s: State) {
    && s.current + 1 == |s.groups|
    && forall i :: 0 <= i < |s.requests| ==> s.requests[i].group < |s.groups|
  }

  /** The guard every continuation repeats before it touches the snapshot. */
  predicate IsCurrent(s: State, i: nat)
    requires i < |s.requests| && s.current < |s.groups|
  {
    s.active && s.enabledRef && s.requests[i].group == s.current && s.requests[i].id == s.groups[s.current].latest
  }

  function InstallGroup(s: State): State {
    s.(groups := s.groups + [Group(0, 0)], current := |s.groups|)
  }

  /** `reload`, behind the lifetime gate and the enabled guard. */
  function Started(s: State, auto: bool): State
    requires s.current < |s.groups|
  {
    if !s.active || !s.enabledRef then s
    else
      var g := s.groups[s.current];
      s.(groups := s.groups[s.current := Group(g.latest + 1, g.pending + 1)],
         requests := s.requests + [Request(s.current, g.latest + 1, s.keyRef, s.fetcherRef, auto, Queued, None)])
  }

  /** The cleanup of the polling effect. */
  function CleanedUp(s: State): State {
    InstallGroup(s.(active := false)).(timer := false)
  }

  predicate SameDeps(a: Props, b: Props) {
    a.interval == b.interval && a.key == b.key && a.enabled == b.enabled
  }

  predicate Changed(s: State, p: Props) {
    s.mounted == None || !SameDeps(s.mounted.value, p)
  }

  function WithRefs(s: State, p: Props): State {
    s.(fetcherRef := p.fetcher, keyRef := p.key, enabledRef := p.enabled, mounted := Some(p),
       captured := s.captured + {(p.fetcher, p.key)})
  }

  /** The body of the polling effect. */
  function Effect(s: State, p: Props): State {
    Started(InstallGroup(s.(active := true)), true).(timer := p.enabled && p.interval > 0)
  }

  /** A React commit: the cleanup when a dependency changed, the refs, then the effect again. */
  function Committed(s: State, p: Props): State
    requires s.current < |s.groups|
  {
    var cleaned := if Changed(s, p) && s.mounted != None then CleanedUp(s) else s;
    if Changed(s, p) then Effect(WithRefs(cleaned, p), p) else WithRefs(cleaned, p)
  }

  function SetPhase(s: State, i: nat, phase: Phase): State
    requires i < |s.requests|
  {
    s.(requests := s.requests[i := s.requests[i].(phase := phase)])
  }

  function Wrote(s: State, i: nat, snapshot: Snapshot): State
    requires i < |s.requests|
  {
    s.(snapshot := snapshot, writes := s.writes + [Write(s.requests[i].group, s.requests[i].id)])
  }

  /** What survives of the shown data when a request for `key` begins or fails. */
  function Kept(s: State, key: Key): Option<Data> {
    if s.snapshot.key == key then s.snapshot.data else None
  }

  function Begun(s: State, i: nat): State
    requires i < |s.requests| && s.current < |s.groups|
  {
    if !IsCurrent(s, i) then SetPhase(s, i, Settling)
    else
      var key := s.requests[i].key;
      var shown := Snapshot(key, Kept(s, key), if s.snapshot.key == key then s.snapshot.failed else false, true);
      SetPhase(Wrote(s, i, shown), i, Fetching).(
        source := if s.snapshot.key == key then s.source else None, fetched := s.fetched + [i])
  }

  function Resolved(s: State, i: nat, data: Data): State
    requires i < |s.requests| && s.current < |s.groups|
  {
    var t := if !IsCurrent(s, i) then s
             else Wrote(s, i, Snapshot(s.requests[i].key, Some(data), false, false)).(source := Some(i));
    t.(requests := s.requests[i := s.requests[i].(phase := Settling, result := Some(data))])
  }

  function Caught(s: State, i: nat): State
    requires i < |s.requests| && s.current < |s.groups|
  {
    var key := s.requests[i].key;
    var t := if !IsCurrent(s, i) then s
             else Wrote(s, i, Snapshot(key, Kept(s, key), true, false)).(
               source := if s.snapshot.key == key then s.source else None);
    SetPhase(t, i, Settling)
  }

  function Finished(s: State, i: nat): State
    requires i < |s.requests| && s.requests[i].group < |s.groups|
  {
    var g := s.requests[i].group;
    SetPhase(s, i, Done).(groups := s.groups[g := s.groups[g].(pending := s.groups[g].pending - 1)])
  }

  /** An event that cannot occur in a state leaves it alone. */
  predicate Enabled(s: State, e: Event) {
    match e
    case Commit(_) => true
    case Unmount => s.mounted != None
    case Reload => true
    case Tick => s.timer
    case Begin(i) => i < |s.requests| && s.requests[i].phase == Queued
    case Resolve(i, _) => i < |s.requests| && s.requests[i].phase == Fetching
    case Reject(i) => i < |s.requests| && s.requests[i].phase == Fetching
    case Catch(i) => i < |s.requests| && s.requests[i].phase == Rejected
    case Finally(i) => i < |s.requests| && s.requests[i].phase == Settling
  }

  function Step(s: State, e: Event): (t: State)
    requires Shape(s)
    ensures Shape(t)
  {
    if !Enabled(s, e) then s
    else match e
      case Commit(p) => Committed(s, p)
      case Unmount => CleanedUp(s).(mounted := None)
      case Reload => Started(s, false)
      case Tick => if s.groups[s.current].pending == 0 then Started(s, true) else s
      case Begin(i) => Begun(s, i)
      case Resolve(i, data) => Resolved(s, i, data)
      case Reject(i) => SetPhase(s, i, Rejected)
      case Catch(i) => Caught(s, i)
      case Finally(i) => Finished(s, i)
  }

  // ------------------------------------------------------------------------------------------
  // Invariants
  // ------------------------------------------------------------------------------------------

  function Weight(r: Request, g: nat): nat {
    if r.group == g && r.phase != Done then 1 else 0
  }

  /** How many requests of a group have not run their final continuation. */
  function Outstanding(rs: seq<Request>, g: nat): nat {
    if rs == [] then 0 else Outstanding(rs[..|rs| - 1], g) + Weight(rs[|rs| - 1], g)
  }

  lemma OutstandingSnoc(rs: seq<Request>, r: Request, g: nat)
    ensures Outstanding(rs + [r], g) == Outstanding(rs, g) + Weight(r, g)
  {
    assert (rs + [r])[..|rs|] == rs;
  }

  lemma {:induction false} OutstandingUpdate(rs: seq<Request>, i: nat, r: Request, g: nat)
    requires i < |rs|
    ensures Outstanding(rs[i := r], g) == Outstanding(rs, g) - Weight(rs[i], g) + Weight(r, g)
  {
    var n := |rs| - 1;
    if i < n {
      assert rs[i := r][..n] == rs[..n][i := r];
      OutstandingUpdate(rs[..n], i, r, g);
    } else {
      assert rs[i := r][..n] == rs[..n];
    }
  }

  lemma {:induction false} OutstandingZero(rs: seq<Request>, g: nat)
    ensures Outstanding(rs, g) == 0 <==> forall i :: 0 <= i < |rs| && rs[i].group == g ==> rs[i].phase == Done
  {
    if rs != [] {
      var n := |rs| - 1;
      OutstandingZero(rs[..n], g);
      assert forall i :: 0 <= i < n ==> rs[..n][i] == rs[i];
    }
  }

  /** The counter of every group is the number of its outstanding requests. */
  ghost predicate Counted(s: State) {
    forall g :: 0 <= g < |s.groups| ==> s.groups[g].pending == Outstanding(s.requests, g)
  }

  /** Request numbers grow within a group and never pass its counter. */
  ghost predicate Numbered(s: State)
    requires Shape(s)
  {
    && (forall i :: 0 <= i < |s.requests| ==> 1 <= s.requests[i].id <= s.groups[s.requests[i].group].latest)
    && (forall i, j :: 0 <= i < j < |s.requests| && s.requests[i].group == s.requests[j].group
          ==> s.requests[i].id < s.requests[j].id)
  }

  /** Keys and fetchers travel in pairs that were rendered together. */
  ghost predicate Paired(s: State) {
    && (s.fetcherRef, s.keyRef) in s.captured
    && forall i :: 0 <= i < |s.requests| ==> (s.requests[i].fetcher, s.requests[i].key) in s.captured
  }

  /** Shown data is what the fetcher of one settled request for the shown key resolved to. */
  ghost predicate Sourced(s: State) {
    s.snapshot.data != None ==>
      && s.source != None && s.source.value < |s.requests|
      && var r := s.requests[s.source.value];
         r.key == s.snapshot.key && r.result == s.snapshot.data && (r.phase == Settling || r.phase == Done)
  }

  /** The refs, the gate, the timer and the installed group belong to the committed effect. */
  ghost predicate Attached(s: State)
    requires Shape(s)
  {
    && (s.mounted == None ==> !s.active && !s.timer)
    && (s.mounted != None ==>
          && s.active && s.mounted.value.key == s.keyRef && s.mounted.value.enabled == s.enabledRef
          && s.mounted.value.fetcher == s.fetcherRef
          && s.timer == (s.enabledRef && s.mounted.value.interval > 0))
    && (s.groups[s.current].latest > 0 <==> s.active && s.enabledRef)
    && forall i :: 0 <= i < |s.requests| && s.requests[i].group == s.current ==> s.requests[i].key == s.keyRef
  }

  predicate Before(a: Write, b: Write) {
    a.group < b.group || (a.group == b.group && a.id <= b.id)
  }

  /** The snapshot was written in the order of the requests. */
  ghost predicate Ordered(s: State)
    requires Shape(s)
  {
    && (forall i, j :: 0 <= i < j < |s.writes| ==> Before(s.writes[i], s.writes[j]))
    && forall i :: 0 <= i < |s.writes| ==> Before(s.writes[i], Write(s.current, s.groups[s.current].latest))
  }

  predicate Overlap(a: Request, b: Request) {
    a.group == b.group && a.phase != Done && b.phase != Done
  }

  /** An automatic request never overlaps an older request of its group. */
  ghost predicate Serial(s: State) {
    forall i, j :: 0 <= i < j < |s.requests| && Overlap(s.requests[i], s.requests[j]) ==> !s.requests[j].auto
  }

  ghost predicate IsLatest(s: State, i: nat)
    requires Shape(s) && i < |s.requests|
  {
    s.requests[i].group == s.current && s.requests[i].id == s.groups[s.current].latest
  }

  /** What the latest request of the live group makes of the snapshot: nothing before it began, a spinner until
      it settled, and then what it resolved to, or its failure. */
  ghost predicate Told(s: State, r: Request) {
    match r.phase
    case Queued => true
    case Fetching => s.snapshot.key == s.keyRef && s.snapshot.loading
    case Rejected => s.snapshot.key == s.keyRef && s.snapshot.loading
    case Settling => Outcome(s, r)
    case Done => Outcome(s, r)
  }

  ghost predicate Outcome(s: State, r: Request) {
    && s.snapshot.key == s.keyRef && !s.snapshot.loading && (s.snapshot.failed <==> r.result == None)
    && (r.result != None ==> s.snapshot.data == r.result)
  }

  /** Once the latest request of the live group settled, its outcome is shown and nothing spins. */
  ghost predicate Quiet(s: State)
    requires Shape(s)
  {
    s.active && s.enabledRef ==>
      forall i :: 0 <= i < |s.requests| && IsLatest(s, i) ==> Told(s, s.requests[i])
  }

  /** A request that has not settled has no result. */
  ghost predicate Waiting(s: State) {
    forall i :: 0 <= i < |s.requests| && s.requests[i].phase != Settling && s.requests[i].phase != Done ==>
      s.requests[i].result == None
  }

  /** A live, enabled hook has a latest request. */
  ghost predicate HasLatest(s: State)
    requires Shape(s)
  {
    s.groups[s.current].latest > 0 ==> exists i :: 0 <= i < |s.requests| && IsLatest(s, i)
  }

  ghost predicate Inv(s: State) {
    && Shape(s) && Counted(s) && Numbered(s) && Paired(s) && Sourced(s) && Attached(s)
    && Ordered(s) && Serial(s) && Quiet(s) && HasLatest(s) && Waiting(s)
  }

  lemma InitInv(p: Props)
    ensures Inv(Init(p))
  {
  }

  // ------------------------------------------------------------------------------------------
  // Each step keeps them
  // ------------------------------------------------------------------------------------------

  /** The continuations of a request change that request's phase and result only. */
  ghost predicate Continues(s: State, t: State, i: nat) {
    && i < |s.requests| && t.current == s.current
    && |t.requests| == |s.requests|
    && t.requests == s.requests[i := s.requests[i].(phase := t.requests[i].phase, result := t.requests[i].result)]
    && |t.groups| == |s.groups|
    && (forall g :: 0 <= g < |s.groups| ==> t.groups[g].latest == s.groups[g].latest)
    && s.requests[i].phase != Done
    && t.captured == s.captured && t.fetcherRef == s.fetcherRef && t.keyRef == s.keyRef && t.enabledRef == s.enabledRef
    && t.active == s.active && t.mounted == s.mounted && t.timer == s.timer
  }

  lemma ContinuationStep(s: State, e: Event)
    requires Shape(s) && Enabled(s, e) && !e.Commit? && !e.Unmount? && !e.Reload? && !e.Tick?
    ensures Continues(s, Step(s, e), e.request)
    ensures (Step(s, e).requests[e.request].phase == Done) == e.Finally?
    ensures !e.Finally? ==> Step(s, e).groups == s.groups
    ensures e.Finally? ==> var g := s.requests[e.request].group;
      Step(s, e).groups == s.groups[g := s.groups[g].(pending := s.groups[g].pending - 1)]
  {
    StepBy(s, e);
    hide Step;
    match e
    case Begin(i) => BegunContinues(s, i); hide Begun;
    case Resolve(i, data) => ResolvedContinues(s, i, data); hide Resolved;
    case Reject(i) => RejectedContinues(s, i);
    case Catch(i) => CaughtContinues(s, i); hide Caught;
    case Finally(i) => FinishedContinues(s, i);
  }

  lemma BegunContinues(s: State, i: nat)
    requires Shape(s) && i < |s.requests| && s.requests[i].phase == Queued
    ensures Continues(s, Begun(s, i), i) && Begun(s, i).requests[i].phase != Done && Begun(s, i).groups == s.groups
  {
  }

  lemma ResolvedContinues(s: State, i: nat, data: Data)
    requires Shape(s) && i < |s.requests| && s.requests[i].phase == Fetching
    ensures var t := Resolved(s, i, data); Continues(s, t, i) && t.requests[i].phase != Done && t.groups == s.groups
  {
  }

  lemma RejectedContinues(s: State, i: nat)
    requires Shape(s) && i < |s.requests| && s.requests[i].phase == Fetching
    ensures var t := SetPhase(s, i, Rejected);
      Continues(s, t, i) && t.requests[i].phase != Done && t.groups == s.groups
  {
  }

  lemma CaughtContinues(s: State, i: nat)
    requires Shape(s) && i < |s.requests| && s.requests[i].phase == Rejected
    ensures Continues(s, Caught(s, i), i) && Caught(s, i).requests[i].phase != Done && Caught(s, i).groups == s.groups
  {
  }

  lemma FinishedContinues(s: State, i: nat)
    requires Shape(s) && i < |s.requests| && s.requests[i].phase == Settling
    ensures Continues(s, Finished(s, i), i) && Finished(s, i).requests[i].phase == Done
  {
  }

  /** A step, by its event. */
  lemma StepBy(s: State, e: Event)
    requires Shape(s) && Enabled(s, e)
    ensures e.Commit? ==> Step(s, e) == Committed(s, e.props)
    ensures e.Unmount? ==> Step(s, e) == CleanedUp(s).(mounted := None)
    ensures e.Reload? ==> Step(s, e) == Started(s, false)
    ensures e.Tick? ==> Step(s, e) == if s.groups[s.current].pending == 0 then Started(s, true) else s
    ensures e.Begin? ==> Step(s, e) == Begun(s, e.request)
    ensures e.Resolve? ==> Step(s, e) == Resolved(s, e.request, e.data)
    ensures e.Reject? ==> Step(s, e) == SetPhase(s, e.request, Rejected)
    ensures e.Catch? ==> Step(s, e) == Caught(s, e.request)
    ensures e.Finally? ==> Step(s, e) == Finished(s, e.request)
  {
    hide Committed, CleanedUp, Started, Begun, Resolved, SetPhase, Caught, Finished;
  }

  /** What a commit with changed dependencies adds. */
  function NewGroups(s: State, p: Props): seq<Group> {
    (if s.mounted != None then [Group(0, 0)] else []) + [if p.enabled then Group(1, 1) else Group(0, 0)]
  }

  function NewRequests(s: State, p: Props): seq<Request> {
    if p.enabled then [Request(|s.groups| + |NewGroups(s, p)| - 1, 1, p.key, p.fetcher, true, Queued, None)] else []
  }

  lemma CommitDelta(s: State, p: Props)
    requires Shape(s) && Changed(s, p)
    ensures var t := Committed(s, p);
      && t.groups == s.groups + NewGroups(s, p) && t.current == |t.groups| - 1
      && t.requests == s.requests + NewRequests(s, p)
      && t.writes == s.writes && t.snapshot == s.snapshot && t.source == s.source
      && t.keyRef == p.key && t.fetcherRef == p.fetcher && t.enabledRef == p.enabled && t.mounted == Some(p) && t.active
      && t.timer == (p.enabled && p.interval > 0)
  {
    var cleaned := if s.mounted != None then CleanedUp(s) else s;
    var installed := InstallGroup(WithRefs(cleaned, p).(active := true));
    assert installed.groups[installed.current] == Group(0, 0);
    if p.enabled {
      assert installed.groups[installed.current := Group(1, 1)] == s.groups + NewGroups(s, p);
    }
  }

  lemma InstallKeepsCounted(s: State)
    requires Shape(s) && Counted(s)
    ensures Counted(InstallGroup(s))
  {
    forall g | 0 <= g < |s.groups| + 1
      ensures InstallGroup(s).groups[g].pending == Outstanding(s.requests, g)
    {
      OutstandingZero(s.requests, g);
    }
  }

  lemma StartedKeepsCounted(s: State, auto: bool)
    requires Shape(s) && Counted(s)
    ensures Counted(Started(s, auto))
  {
    var t := Started(s, auto);
    forall g | 0 <= g < |t.groups| ensures t.groups[g].pending == Outstanding(t.requests, g) {
      if |t.requests| > |s.requests| {
        OutstandingSnoc(s.requests, t.requests[|s.requests|], g);
      }
    }
  }

  lemma CommitKeepsCounted(s: State, p: Props)
    requires Shape(s) && Counted(s) && Changed(s, p)
    ensures Counted(Committed(s, p))
  {
    var t := Committed(s, p);
    CommitDelta(s, p);
    hide Committed, Changed;
    forall g | 0 <= g < |t.groups| ensures t.groups[g].pending == Outstanding(t.requests, g) {
      NewRequestsAreCounted(s, p, g);
    }
  }

  lemma NewRequestsAreCounted(s: State, p: Props, g: nat)
    requires Shape(s) && Counted(s) && g < |s.groups| + |NewGroups(s, p)|
    ensures (s.groups + NewGroups(s, p))[g].pending == Outstanding(s.requests + NewRequests(s, p), g)
  {
    OutstandingZero(s.requests, g);
    if p.enabled {
      OutstandingSnoc(s.requests, NewRequests(s, p)[0], g);
    } else {
      assert s.requests + [] == s.requests;
    }
    hide Outstanding;
  }

  lemma ContinuationKeepsCounted(s: State, t: State, i: nat)
    requires Shape(s) && Counted(s) && Continues(s, t, i)
    requires if t.requests[i].phase != Done then t.groups == s.groups else
        var g := s.requests[i].group; t.groups == s.groups[g := s.groups[g].(pending := s.groups[g].pending - 1)]
    ensures Counted(t)
  {
    forall g | 0 <= g < |t.groups| ensures t.groups[g].pending == Outstanding(t.requests, g) {
      OutstandingUpdate(s.requests, i, t.requests[i], g);
    }
  }

  lemma UnchangedKeepsCounted(s: State, t: State)
    requires Counted(s) && t.groups == s.groups && t.requests == s.requests
    ensures Counted(t)
  {
  }

  lemma StepKeepsCounted(s: State, e: Event)
    requires Shape(s) && Counted(s)
    ensures Counted(Step(s, e))
  {
    if Enabled(s, e) {
      StepBy(s, e);
      hide Step, Counted;
      match e
      case Commit(p) =>
        if Changed(s, p) { CommitKeepsCounted(s, p); } else { UnchangedKeepsCounted(s, Committed(s, p)); }
      case Unmount =>
        InstallKeepsCounted(s.(active := false));
        UnchangedKeepsCounted(InstallGroup(s.(active := false)), Step(s, e));
      case Reload => StartedKeepsCounted(s, false);
      case Tick => StartedKeepsCounted(s, true);
      case _ =>
        ContinuationStep(s, e);
        ContinuationKeepsCounted(s, Step(s, e), e.request);
    }
  }

  lemma StartedKeepsNumbered(s: State, auto: bool)
    requires Shape(s) && Numbered(s)
    ensures Numbered(Started(s, auto))
  {
  }

  lemma CommitKeepsNumbered(s: State, p: Props)
    requires Shape(s) && Numbered(s) && Changed(s, p)
    ensures Shape(Committed(s, p)) && Numbered(Committed(s, p))
  {
    CommitDelta(s, p);
    hide Committed, Changed;
  }

  lemma ContinuationKeepsNumbered(s: State, t: State, i: nat)
    requires Shape(s) && Numbered(s) && Continues(s, t, i)
    ensures Shape(t) && Numbered(t)
  {
  }

  lemma StepKeepsNumbered(s: State, e: Event)
    requires Shape(s) && Numbered(s)
    ensures Numbered(Step(s, e))
  {
    if Enabled(s, e) {
      match e
      case Commit(p) => if Changed(s, p) { CommitKeepsNumbered(s, p); }
      case Unmount =>
      case Reload => StartedKeepsNumbered(s, false);
      case Tick => StartedKeepsNumbered(s, true);
      case _ =>
        hide Numbered;
        ContinuationStep(s, e);
        ContinuationKeepsNumbered(s, Step(s, e), e.request);
    }
  }

  lemma ContinuationKeepsPaired(s: State, t: State, i: nat)
    requires Shape(s) && Paired(s) && Continues(s, t, i)
    ensures Paired(t)
  {
  }

  lemma CommitKeepsPaired(s: State, p: Props)
    requires Shape(s) && Paired(s)
    ensures Paired(Committed(s, p))
  {
    if Changed(s, p) {
      CommitDelta(s, p);
      assert Committed(s, p).captured == s.captured + {(p.fetcher, p.key)};
      hide Committed;
    }
  }

  lemma StartedKeepsPaired(s: State, auto: bool)
    requires Shape(s) && Paired(s)
    ensures Paired(Started(s, auto))
  {
  }

  lemma StepKeepsPaired(s: State, e: Event)
    requires Shape(s) && Paired(s)
    ensures Paired(Step(s, e))
  {
    if Enabled(s, e) {
      StepBy(s, e);
      hide Step;
      match e
      case Commit(p) => hide Paired; CommitKeepsPaired(s, p);
      case Unmount =>
      case Reload => hide Paired; StartedKeepsPaired(s, false);
      case Tick => hide Paired; StartedKeepsPaired(s, true);
      case _ =>
        hide Paired;
        ContinuationStep(s, e);
        ContinuationKeepsPaired(s, Step(s, e), e.request);
    }
  }

  lemma CommitKeepsSourced(s: State, p: Props)
    requires Shape(s) && Sourced(s) && Changed(s, p)
    ensures Sourced(Committed(s, p))
  {
    CommitDelta(s, p);
    hide Committed, Changed;
  }

  /** A write takes its data from its own request or keeps what the same key was showing. */
  lemma WriteKeepsSourced(s: State, e: Event)
    requires Shape(s) && Sourced(s) && Enabled(s, e) && (e.Begin? || e.Resolve? || e.Catch?)
    ensures Sourced(Step(s, e))
  {
  }

  lemma StepKeepsSourced(s: State, e: Event)
    requires Shape(s) && Sourced(s)
    ensures Sourced(Step(s, e))
  {
    if Enabled(s, e) {
      if e.Commit? {
        if Changed(s, e.props) { CommitKeepsSourced(s, e.props); }
      } else if e.Begin? || e.Resolve? || e.Catch? {
        WriteKeepsSourced(s, e);
      }
    }
  }

  lemma ContinuationKeepsAttached(s: State, t: State, i: nat)
    requires Shape(s) && Attached(s) && Continues(s, t, i)
    ensures Shape(t) && Attached(t)
  {
  }

  lemma CommitKeepsAttached(s: State, p: Props)
    requires Shape(s) && Changed(s, p)
    ensures Shape(Committed(s, p)) && Attached(Committed(s, p))
  {
    CommitDelta(s, p);
    hide Committed, Changed;
  }

  lemma StepKeepsAttached(s: State, e: Event)
    requires Shape(s) && Numbered(s) && Attached(s)
    ensures Attached(Step(s, e))
  {
    if Enabled(s, e) {
      match e
      case Commit(p) => if Changed(s, p) { CommitKeepsAttached(s, p); }
      case Unmount =>
      case Reload =>
      case Tick =>
      case _ =>
        ContinuationStep(s, e);
        hide Attached, Numbered;
        ContinuationKeepsAttached(s, Step(s, e), e.request);
    }
  }

  /** A counter only grows, and a group installed later is larger than every group written so far. */
  lemma AdvanceKeepsOrdered(s: State, t: State)
    requires Shape(s) && Ordered(s) && Shape(t) && t.writes == s.writes
    requires Before(Write(s.current, s.groups[s.current].latest), Write(t.current, t.groups[t.current].latest))
    ensures Ordered(t)
  {
  }

  lemma CommitKeepsOrdered(s: State, p: Props)
    requires Shape(s) && Ordered(s)
    ensures Shape(Committed(s, p)) && Ordered(Committed(s, p))
  {
    hide Ordered;
    var t := Committed(s, p);
    if Changed(s, p) {
      CommitDelta(s, p);
      hide Committed, Changed;
      AdvanceKeepsOrdered(s, t);
    } else {
      OrderedFrame(s, t);
    }
  }

  lemma StartedKeepsOrdered(s: State, auto: bool)
    requires Shape(s) && Ordered(s)
    ensures Ordered(Started(s, auto))
  {
    hide Ordered;
    AdvanceKeepsOrdered(s, Started(s, auto));
  }

  /** A continuation writes nothing, or is of the current request and writes its number. */
  lemma ContinuationWrites(s: State, e: Event)
    requires Shape(s) && Enabled(s, e) && !e.Commit? && !e.Unmount? && !e.Reload? && !e.Tick?
    ensures var t, i := Step(s, e), e.request;
      t.writes == s.writes || (IsCurrent(s, i) && t.writes == s.writes + [Write(s.requests[i].group, s.requests[i].id)])
  {
    StepBy(s, e);
    hide Step;
  }

  lemma ContinuationKeepsOrdered(s: State, t: State, i: nat)
    requires Shape(s) && Ordered(s) && Shape(t) && Continues(s, t, i)
    requires t.writes == s.writes
        || (IsCurrent(s, i) && t.writes == s.writes + [Write(s.requests[i].group, s.requests[i].id)])
    ensures Ordered(t)
  {
  }

  lemma StepKeepsOrdered(s: State, e: Event)
    requires Shape(s) && Ordered(s)
    ensures Ordered(Step(s, e))
  {
    if Enabled(s, e) {
      StepBy(s, e);
      hide Step, Ordered;
      match e
      case Commit(p) => CommitKeepsOrdered(s, p);
      case Unmount => AdvanceKeepsOrdered(s, Step(s, e));
      case Reload => StartedKeepsOrdered(s, false);
      case Tick => StartedKeepsOrdered(s, true);
      case _ =>
        ContinuationStep(s, e);
        ContinuationWrites(s, e);
        ContinuationKeepsOrdered(s, Step(s, e), e.request);
    }
  }

  lemma OrderedFrame(s: State, t: State)
    requires Shape(s) && Shape(t) && Ordered(s)
        && t.writes == s.writes && t.groups == s.groups && t.current == s.current
    ensures Ordered(t)
  {
  }

  lemma StartedKeepsSerial(s: State, auto: bool)
    requires Shape(s) && Counted(s) && Serial(s)
    requires auto ==> s.groups[s.current].pending == 0
    ensures Serial(Started(s, auto))
  {
    OutstandingZero(s.requests, s.current);
  }

  lemma CommitKeepsSerial(s: State, p: Props)
    requires Shape(s) && Serial(s) && Changed(s, p)
    ensures Serial(Committed(s, p))
  {
    CommitDelta(s, p);
    hide Committed, Changed;
  }

  lemma StepKeepsSerial(s: State, e: Event)
    requires Shape(s) && Counted(s) && Serial(s)
    ensures Serial(Step(s, e))
  {
    if Enabled(s, e) {
      match e
      case Commit(p) => if Changed(s, p) { CommitKeepsSerial(s, p); }
      case Unmount =>
      case Reload => StartedKeepsSerial(s, false);
      case Tick => if s.groups[s.current].pending == 0 { StartedKeepsSerial(s, true); }
      case _ =>
        ContinuationStep(s, e);
        hide Step, Enabled, Counted;
    }
  }

  lemma CommitKeepsQuiet(s: State, p: Props)
    requires Shape(s) && Numbered(s) && Changed(s, p)
    ensures Shape(Committed(s, p)) && Quiet(Committed(s, p)) && HasLatest(Committed(s, p))
  {
    var t := Committed(s, p);
    CommitDelta(s, p);
    hide Committed, Changed;
    if p.enabled {
      assert t.requests[|s.requests|] == NewRequests(s, p)[0];
      assert IsLatest(t, |s.requests|);
    }
  }

  lemma StartedKeepsQuiet(s: State, auto: bool)
    requires Shape(s) && Numbered(s) && Quiet(s) && HasLatest(s)
    ensures Quiet(Started(s, auto)) && HasLatest(Started(s, auto))
  {
    var t := Started(s, auto);
    if s.active && s.enabledRef {
      assert IsLatest(t, |s.requests|);
    }
  }

  /** A continuation of another request changes nothing that is shown. */
  lemma NotCurrentShowsNothing(s: State, e: Event)
    requires Shape(s) && Enabled(s, e) && !e.Commit? && !e.Unmount? && !e.Reload? && !e.Tick?
    requires !IsCurrent(s, e.request)
    ensures Step(s, e).snapshot == s.snapshot
  {
    StepBy(s, e);
    hide Step;
  }

  /** What a continuation of the current request shows. */
  lemma CurrentShows(s: State, e: Event)
    requires Shape(s) && Enabled(s, e) && !e.Commit? && !e.Unmount? && !e.Reload? && !e.Tick?
    requires IsCurrent(s, e.request) && s.requests[e.request].key == s.keyRef
    ensures var (v, w) := (s.snapshot, Step(s, e).snapshot);
      var data, failed := if v.key == s.keyRef then v.data else None, v.key == s.keyRef && v.failed;
      w == match e
        case Begin(_) => Snapshot(s.keyRef, data, failed, true)
        case Resolve(_, d) => Snapshot(s.keyRef, Some(d), false, false)
        case Catch(_) => Snapshot(s.keyRef, data, true, false)
        case _ => v
  {
    StepBy(s, e);
    hide Step;
  }

  lemma LatestTold(s: State, e: Event)
    requires Shape(s) && Attached(s) && Quiet(s) && Waiting(s) && s.active && s.enabledRef
    requires Enabled(s, e) && !e.Commit? && !e.Unmount? && !e.Reload? && !e.Tick? && IsLatest(s, e.request)
    ensures Told(Step(s, e), Step(s, e).requests[e.request])
  {
    assert IsCurrent(s, e.request) && Told(s, s.requests[e.request]);
    ContinuationStep(s, e);
    ResultsAreRecorded(s, e);
    CurrentShows(s, e);
    hide Step, Quiet;
  }

  /** The latest request of a live group is current whenever it acts, so what it does is shown. */
  lemma ContinuationKeepsQuiet(s: State, e: Event)
    requires Shape(s) && Numbered(s) && Attached(s) && Quiet(s) && HasLatest(s) && Waiting(s)
    requires Enabled(s, e) && !e.Commit? && !e.Unmount? && !e.Reload? && !e.Tick?
    ensures Quiet(Step(s, e)) && HasLatest(Step(s, e))
  {
    var t, i := Step(s, e), e.request;
    ContinuationStep(s, e);
    ResultsAreRecorded(s, e);
    hide Step, Attached, Waiting, Told;
    forall k | 0 <= k < |s.requests| ensures IsLatest(t, k) <==> IsLatest(s, k) {
    }
    if t.groups[t.current].latest > 0 {
      var k :| 0 <= k < |s.requests| && IsLatest(s, k);
      assert IsLatest(t, k);
    }
    if t.active && t.enabledRef {
      forall k | 0 <= k < |t.requests| && IsLatest(t, k) ensures Told(t, t.requests[k]) {
        if k == i {
          LatestTold(s, e);
        } else {
          OnlyOneLatest(s, i, k);
          NotCurrentShowsNothing(s, e);
          assert Told(s, s.requests[k]);
          ToldFrame(s, t, s.requests[k]);
        }
      }
    }
  }

  lemma OnlyOneLatest(s: State, i: nat, k: nat)
    requires Shape(s) && Numbered(s) && i < |s.requests| && k < |s.requests| && i != k && IsLatest(s, k)
    ensures !IsLatest(s, i) && !IsCurrent(s, i)
  {
  }

  lemma ToldFrame(s: State, t: State, r: Request)
    requires Told(s, r) && t.snapshot == s.snapshot && t.keyRef == s.keyRef
    ensures Told(t, r)
  {
  }

  lemma StepKeepsQuiet(s: State, e: Event)
    requires Shape(s) && Numbered(s) && Attached(s) && Quiet(s) && HasLatest(s) && Waiting(s)
    ensures Quiet(Step(s, e)) && HasLatest(Step(s, e))
  {
    if Enabled(s, e) {
      match e
      case Commit(p) =>
        if Changed(s, p) {
          hide Quiet, HasLatest, Waiting;
          CommitKeepsQuiet(s, p);
        } else {
          RefsKeepQuiet(s, p);
        }
      case Unmount =>
      case Reload => StartedKeepsQuiet(s, false);
      case Tick => StartedKeepsQuiet(s, true);
      case _ =>
        hide Quiet, HasLatest, Numbered;
        ContinuationKeepsQuiet(s, e);
    }
  }

  lemma RefsKeepQuiet(s: State, p: Props)
    requires Shape(s) && Attached(s) && Quiet(s) && HasLatest(s) && !Changed(s, p)
    ensures Quiet(WithRefs(s, p)) && HasLatest(WithRefs(s, p))
  {
    var t := WithRefs(s, p);
    forall k | 0 <= k < |s.requests| ensures IsLatest(t, k) <==> IsLatest(s, k) {
    }
  }

  lemma StartedKeepsWaiting(s: State, auto: bool)
    requires Shape(s) && Waiting(s)
    ensures Waiting(Started(s, auto))
  {
  }

  lemma CommitKeepsWaiting(s: State, p: Props)
    requires Shape(s) && Waiting(s)
    ensures Waiting(Committed(s, p))
  {
    if Changed(s, p) {
      CommitDelta(s, p);
      hide Committed;
    }
  }

  /** A continuation records a result exactly when its fetcher resolved. */
  lemma ResultsAreRecorded(s: State, e: Event)
    requires Shape(s) && Enabled(s, e) && !e.Commit? && !e.Unmount? && !e.Reload? && !e.Tick?
    ensures var t, i := Step(s, e), e.request;
      && |t.requests| == |s.requests|
      && (forall k :: 0 <= k < |s.requests| && k != i ==> t.requests[k] == s.requests[k])
      && t.requests[i].result == (if e.Resolve? then Some(e.data) else s.requests[i].result)
      && t.requests[i].phase == match e
        case Begin(_) => if IsCurrent(s, i) then Fetching else Settling
        case Resolve(_, _) => Settling
        case Reject(_) => Rejected
        case Catch(_) => Settling
        case _ => Done
  {
    StepBy(s, e);
    hide Step;
  }

  lemma StepKeepsWaiting(s: State, e: Event)
    requires Shape(s) && Waiting(s)
    ensures Waiting(Step(s, e))
  {
    if Enabled(s, e) {
      StepBy(s, e);
      hide Step;
      match e
      case Commit(p) => hide Waiting; CommitKeepsWaiting(s, p);
      case Unmount =>
      case Reload => hide Waiting; StartedKeepsWaiting(s, false);
      case Tick => hide Waiting; StartedKeepsWaiting(s, true);
      case _ => ResultsAreRecorded(s, e);
    }
  }

  lemma StepKeepsInv(s: State, e: Event)
    requires Inv(s)
    ensures Inv(Step(s, e))
  {
    hide Step, Counted, Numbered, Paired, Sourced, Attached, Ordered, Serial, Quiet, HasLatest, Waiting;
    StepKeepsCounted(s, e);
    StepKeepsNumbered(s, e);
    StepKeepsPaired(s, e);
    StepKeepsSourced(s, e);
    StepKeepsAttached(s, e);
    StepKeepsOrdered(s, e);
    StepKeepsSerial(s, e);
    StepKeepsQuiet(s, e);
    StepKeepsWaiting(s, e);
  }

  // ------------------------------------------------------------------------------------------
  // Every interleaving
  // ------------------------------------------------------------------------------------------

  function Run(s: State, events: seq<Event>): (t: State)
    requires Shape(s)
    ensures Shape(t)
    decreases |events|
  {
    if events == [] then s else Run(Step(s, events[0]), events[1..])
  }

  /** The invariants hold after any interleaving of commits, reloads, ticks, continuations and
      unmounts from the first render on. */
  lemma {:induction false} RunKeepsInv(s: State, events: seq<Event>)
    requires Inv(s)
    ensures Inv(Run(s, events))
    decreases |events|
  {
    hide Step, Counted, Numbered, Paired, Sourced, Attached, Ordered, Serial, Quiet, HasLatest, Waiting;
    if events != [] {
      StepKeepsInv(s, events[0]);
      RunKeepsInv(Step(s, events[0]), events[1..]);
    }
  }

  /** What a render with the given props hands to the component. */
  datatype View = View(data: Option<Data>, failed: bool, loading: bool)

  function Render(s: State, p: Props): View {
    if !p.enabled then View(None, false, false)
    else if s.snapshot.key == p.key then View(s.snapshot.data, s.snapshot.failed, s.snapshot.loading)
    else View(None, false, true)
  }

  /** Whatever is rendered for a key was fetched by a fetcher that was rendered together with that
      key, even when the render comes before its own commit. */
  lemma ShownDataBelongsToKey(p0: Props, events: seq<Event>, p: Props)
    requires Render(Run(Init(p0), events), p).data != None
    ensures p.enabled
    ensures var s := Run(Init(p0), events);
      exists i :: 0 <= i < |s.requests| && s.requests[i].key == p.key
        && (s.requests[i].fetcher, p.key) in s.captured && s.requests[i].result == Render(s, p).data
  {
    InitInv(p0);
    RunKeepsInv(Init(p0), events);
    hide Run, Counted, Numbered, Attached, Ordered, Serial, Quiet, HasLatest, Waiting;
    var s := Run(Init(p0), events);
    assert s.requests[s.source.value].key == p.key;
  }

  /** The counter of every group is exactly the number of its requests still outstanding. */
  lemma PendingIsOutstanding(p0: Props, events: seq<Event>, g: nat)
    requires g < |Run(Init(p0), events).groups|
    ensures var s := Run(Init(p0), events); s.groups[g].pending == Outstanding(s.requests, g) >= 0
  {
    InitInv(p0);
    RunKeepsInv(Init(p0), events);
  }

  /** A tick issues a request exactly when the timer runs and nothing of the live group is outstanding. */
  lemma TickIffNothingOutstanding(p0: Props, events: seq<Event>)
    ensures var s := Run(Init(p0), events);
      |Step(s, Tick).requests| > |s.requests| <==>
        s.timer && forall i :: 0 <= i < |s.requests| && s.requests[i].group == s.current ==> s.requests[i].phase == Done
  {
    InitInv(p0);
    RunKeepsInv(Init(p0), events);
    var s := Run(Init(p0), events);
    OutstandingZero(s.requests, s.current);
    hide Run;
  }

  /** In any run two requests of one group overlap only if the later one is a manual
      reload. */
  lemma PollsNeverOverlapInGroup(p0: Props, events: seq<Event>, i: nat, j: nat)
    requires i < j < |Run(Init(p0), events).requests|
    requires var s := Run(Init(p0), events); Overlap(s.requests[i], s.requests[j])
    ensures !Run(Init(p0), events).requests[j].auto
  {
    InitInv(p0);
    RunKeepsInv(Init(p0), events);
  }

  /** The snapshot is written in request order: once a request of a group wrote, no earlier request
      of that group and no request of an earlier group ever writes again. */
  lemma WritesNeverGoBack(p0: Props, events: seq<Event>, i: nat, j: nat)
    requires i < j < |Run(Init(p0), events).writes|
    ensures var w := Run(Init(p0), events).writes;
      w[i].group < w[j].group || (w[i].group == w[j].group && w[i].id <= w[j].id)
  {
    InitInv(p0);
    RunKeepsInv(Init(p0), events);
  }

  /** A step that changes the snapshot is a continuation of the latest request of the live group of
      a mounted, enabled hook. */
  lemma OnlyTheLatestWrites(s: State, e: Event)
    requires Inv(s) && Step(s, e).snapshot != s.snapshot
    ensures (e.Begin? || e.Resolve? || e.Catch?) && e.request < |s.requests| && IsLatest(s, e.request)
    ensures s.mounted != None && s.enabledRef
    ensures forall k :: 0 <= k < |s.requests| && s.requests[k].group == s.current ==> k <= e.request
  {
    hide Counted, Paired, Sourced, Ordered, Serial, Quiet, HasLatest, Waiting;
    if e.Commit? && Changed(s, e.props) {
      CommitDelta(s, e.props);
    }
  }

  /** The last request issued in the live group is its latest. */
  lemma LastIsLatest(s: State, i: nat)
    requires Inv(s) && s.mounted != None && s.enabledRef && i < |s.requests| && s.requests[i].group == s.current
    requires forall k :: 0 <= k < |s.requests| && s.requests[k].group == s.current ==> k <= i
    ensures IsLatest(s, i)
  {
    hide Counted, Paired, Sourced, Ordered, Serial, Quiet, Waiting;
    var k :| 0 <= k < |s.requests| && IsLatest(s, k);
  }

  /** Over every run, at the render: once the last request issued in the live group of a mounted, enabled hook
      has settled, the component is handed what it resolved to, or that it failed; until then, once it began,
      that it is loading. */
  lemma OutcomeIsShown(p0: Props, events: seq<Event>, i: nat)
    requires var s := Run(Init(p0), events);
      && s.mounted != None && s.mounted.value.enabled && i < |s.requests| && s.requests[i].group == s.current
      && forall k :: 0 <= k < |s.requests| && s.requests[k].group == s.current ==> k <= i
    ensures var s := Run(Init(p0), events);
      var v := Render(s, s.mounted.value);
      match s.requests[i].phase
      case Queued => true
      case Fetching => v.loading
      case Rejected => v.loading
      case Settling =>
        if s.requests[i].result != None then v == View(s.requests[i].result, false, false)
        else v == View(v.data, true, false)
      case Done =>
        if s.requests[i].result != None then v == View(s.requests[i].result, false, false)
        else v == View(v.data, true, false)
  {
    InitInv(p0);
    RunKeepsInv(Init(p0), events);
    var s := Run(Init(p0), events);
    hide Run, Counted, Numbered, Paired, Sourced, Ordered, Serial, HasLatest, Waiting;
    LastIsLatest(s, i);
    assert Told(s, s.requests[i]);
  }

  /** What every step but a commit and an unmount makes of the view of an enabled hook. Beginning shows that it
      is loading and keeps the rest, resolving shows the data, failing shows the failure and keeps the data that
      was shown for the same key; and only the latest request of the live group does any of it. */
  lemma ViewStep(s: State, e: Event)
    requires Inv(s) && Enabled(s, e) && s.mounted != None && s.mounted.value.enabled && !e.Commit? && !e.Unmount?
    ensures var (t, p) := (Step(s, e), s.mounted.value);
      var (v, w) := (Render(s, p), Render(t, p));
      && t.mounted == s.mounted
      && w == match e
        case Begin(i) => if IsLatest(s, i) then View(v.data, v.failed, true) else v
        case Resolve(i, d) => if IsLatest(s, i) then View(Some(d), false, false) else v
        case Catch(i) => if IsLatest(s, i) then View(v.data, true, false) else v
        case _ => v
  {
    hide Counted, Numbered, Paired, Sourced, Ordered, Serial, Quiet, HasLatest, Waiting;
    if e.Reload? || e.Tick? {
      StepBy(s, e);
    } else {
      ContinuationStep(s, e);
      assert IsCurrent(s, e.request) <==> IsLatest(s, e.request);
      if IsLatest(s, e.request) {
        CurrentShows(s, e);
      } else {
        NotCurrentShowsNothing(s, e);
      }
    }
    hide Step;
  }

  /** So the data shown for a key stays through every failure, reload and tick, until a fetch resolves or the
      next commit. */
  lemma {:induction false} DataStaysUntilResolved(s: State, events: seq<Event>)
    requires Inv(s) && s.mounted != None && s.mounted.value.enabled
    requires forall k :: 0 <= k < |events| ==> !events[k].Commit? && !events[k].Unmount? && !events[k].Resolve?
    ensures var t := Run(s, events);
      t.mounted == s.mounted && Render(t, s.mounted.value).data == Render(s, s.mounted.value).data
    decreases |events|
  {
    assert Shape(s);
    hide Inv, Step, Render, Enabled;
    if events != [] {
      var e := events[0];
      DataStaysOneStep(s, e);
      StepKeepsInv(s, e);
      DataStaysUntilResolved(Step(s, e), events[1..]);
    }
  }

  lemma DataStaysOneStep(s: State, e: Event)
    requires Inv(s) && s.mounted != None && s.mounted.value.enabled && !e.Commit? && !e.Unmount? && !e.Resolve?
    ensures var t := Step(s, e);
      t.mounted == s.mounted && Render(t, s.mounted.value).data == Render(s, s.mounted.value).data
  {
    if Enabled(s, e) {
      ViewStep(s, e);
      hide Step, Inv, Render;
    }
  }

  /** A render that is disabled shows nothing at all, and one for another key than the snapshot's shows no data
      of the old key but that the new one is loading. */
  lemma OldDataIsHidden(s: State, p: Props)
    ensures !p.enabled ==> Render(s, p) == View(None, false, false)
    ensures p.enabled && s.snapshot.key != p.key ==> Render(s, p) == View(None, false, true)
  {
  }

  /** A commit starts over, with a new group and, if enabled, one automatic request at once, exactly when it is
      the first or changes the interval, the key or whether the hook is enabled. A new fetcher alone is only
      remembered, for the next request. */
  lemma CommitStartsOverIff(s: State, p: Props)
    requires Inv(s)
    ensures var t := Step(s, Commit(p));
      var same := s.mounted != None && s.mounted.value.interval == p.interval && s.mounted.value.key == p.key
        && s.mounted.value.enabled == p.enabled;
      && t.mounted == Some(p) && t.fetcherRef == p.fetcher && t.keyRef == p.key && t.enabledRef == p.enabled
      && (same ==> t.requests == s.requests && t.groups == s.groups && t.timer == s.timer)
      && (!same ==>
            && |t.groups| > |s.groups| && t.current >= |s.groups| && t.timer == (p.enabled && p.interval > 0)
            && t.requests == s.requests + (if p.enabled
                 then [Request(t.current, 1, p.key, p.fetcher, true, Queued, None)] else []))
  {
    hide Counted, Numbered, Paired, Sourced, Ordered, Serial, Quiet, HasLatest, Waiting;
    if Changed(s, p) {
      CommitDelta(s, p);
      hide Committed;
    }
  }

  /** Every request is issued with the key and the fetcher of the props committed last. */
  lemma RequestsCarryCommittedProps(s: State, e: Event)
    requires Inv(s) && |Step(s, e).requests| > |s.requests|
    ensures var t := Step(s, e);
      && |t.requests| == |s.requests| + 1 && t.mounted != None && t.mounted.value.enabled
      && var r := t.requests[|s.requests|];
         && r.key == t.mounted.value.key && r.fetcher == t.mounted.value.fetcher
         && r.group == t.current && r.phase == Queued && (r.auto <==> !e.Reload?)
  {
    hide Counted, Numbered, Paired, Sourced, Ordered, Serial, Quiet, HasLatest, Waiting;
    if Enabled(s, e) {
      StepBy(s, e);
      hide Step;
      match e
      case Commit(p) => CommitRequests(s, p);
      case Unmount =>
      case Reload =>
      case Tick =>
      case _ => ContinuationStep(s, e);
    }
  }

  lemma CommitRequests(s: State, p: Props)
    requires Inv(s) && |Committed(s, p).requests| > |s.requests|
    ensures var t := Committed(s, p);
      && |t.requests| == |s.requests| + 1 && t.mounted == Some(p) && p.enabled
      && t.requests[|s.requests|] == Request(t.current, 1, p.key, p.fetcher, true, Queued, None)
  {
    CommitStartsOverIff(s, p);
    StepBy(s, Commit(p));
    hide Committed, Inv, Step;
  }

  /** When every request of the live group of an enabled hook has settled, the hook shows the
      outcome for the committed key and is not loading. */
  lemma NothingSpinsForever(p0: Props, events: seq<Event>)
    requires var s := Run(Init(p0), events);
      && s.mounted != None && s.enabledRef
      && forall i :: 0 <= i < |s.requests| && s.requests[i].group == s.current ==> s.requests[i].phase == Done
    ensures var s := Run(Init(p0), events); !Render(s, s.mounted.value).loading && s.snapshot.key == s.mounted.value.key
  {
    InitInv(p0);
    RunKeepsInv(Init(p0), events);
    hide Run, Counted, Paired, Sourced, Ordered, Serial;
    var s := Run(Init(p0), events);
    var i :| 0 <= i < |s.requests| && IsLatest(s, i);
  }

  /** While the hook is unmounted or disabled nothing is requested, fetched or written, whatever
      arrives, until the next commit. */
  lemma {:induction false} IdleUntilCommit(s: State, events: seq<Event>)
    requires Inv(s) && (s.mounted == None || !s.enabledRef)
    requires forall k :: 0 <= k < |events| ==> !events[k].Commit?
    ensures var t := Run(s, events);
      |t.requests| == |s.requests| && t.fetched == s.fetched && t.snapshot == s.snapshot && t.writes == s.writes
    decreases |events|
  {
    if events != [] {
      var e := events[0];
      IdleStep(s, e);
      StepKeepsInv(s, e);
      hide Inv, Step;
      IdleUntilCommit(Step(s, e), events[1..]);
    }
  }

  lemma IdleStep(s: State, e: Event)
    requires Inv(s) && (s.mounted == None || !s.enabledRef) && !e.Commit?
    ensures var t := Step(s, e);
      && |t.requests| == |s.requests| && t.fetched == s.fetched && t.snapshot == s.snapshot && t.writes == s.writes
      && (t.mounted == None || !t.enabledRef)
  {
    hide Counted, Numbered, Paired, Sourced, Ordered, Serial, Quiet, HasLatest, Waiting;
  }

  // ------------------------------------------------------------------------------------------
  // When automatic polls overlap
  // ------------------------------------------------------------------------------------------

  /** An automatic request that has not settled. */
  predicate Polling(r: Request) {
    r.auto && r.phase != Done
  }

  ghost predicate AutoOutstanding(s: State) {
    exists i :: 0 <= i < |s.requests| && Polling(s.requests[i])
  }

  ghost predicate AutoOverlap(s: State) {
    exists i, j :: 0 <= i < j < |s.requests| && Polling(s.requests[i]) && Polling(s.requests[j])
  }

  /** An enabled commit with changed dependencies. */
  predicate Renews(s: State, e: Event) {
    e.Commit? && Changed(s, e.props) && e.props.enabled
  }

  /** The events that issue an automatic request. */
  predicate IssuesPoll(s: State, e: Event)
    requires s.current < |s.groups|
  {
    Renews(s, e) || (e.Tick? && s.timer && s.groups[s.current].pending == 0)
  }

  lemma PollIsIssued(s: State, e: Event)
    requires Inv(s) && IssuesPoll(s, e)
    ensures var t := Step(s, e);
      && |t.requests| == |s.requests| + 1 && t.requests[..|s.requests|] == s.requests
      && Polling(t.requests[|s.requests|]) && t.requests[|s.requests|].group == t.current
  {
    hide Counted, Numbered, Paired, Sourced, Ordered, Serial, Quiet, HasLatest, Waiting;
    if e.Commit? {
      CommitDelta(s, e.props);
      hide Committed;
    }
  }

  /** Any other step leaves the automatic requests alone or settles one. */
  ghost predicate NoNewPoll(s: State, t: State) {
    && |s.requests| <= |t.requests|
    && (forall i :: 0 <= i < |s.requests| && Polling(t.requests[i]) ==> Polling(s.requests[i]))
    && (forall i :: |s.requests| <= i < |t.requests| ==> !Polling(t.requests[i]))
  }

  lemma NoPollIsIssued(s: State, e: Event)
    requires Inv(s) && !IssuesPoll(s, e)
    ensures NoNewPoll(s, Step(s, e))
  {
    hide Counted, Numbered, Paired, Sourced, Ordered, Serial, Quiet, HasLatest, Waiting;
    if Enabled(s, e) {
      match e
      case Commit(p) =>
        if Changed(s, p) {
          CommitDelta(s, p);
          hide Committed;
        }
      case Unmount =>
      case Reload =>
      case Tick =>
      case _ =>
        ContinuationStep(s, e);
        hide Step;
    }
  }

  /** One step from a state without overlap makes automatic requests overlap exactly when it issues one
      while another has not settled. */
  lemma OverlapBeginsIff(s: State, e: Event)
    requires Inv(s) && !AutoOverlap(s)
    ensures AutoOverlap(Step(s, e)) <==> AutoOutstanding(s) && IssuesPoll(s, e)
  {
    var t, n := Step(s, e), |s.requests|;
    if IssuesPoll(s, e) {
      PollIsIssued(s, e);
      hide Inv, Step, IssuesPoll, Polling;
      assert forall i :: 0 <= i < n ==> t.requests[i] == t.requests[..n][i];
      if AutoOutstanding(s) {
        var i :| 0 <= i < n && Polling(s.requests[i]);
        assert Polling(t.requests[i]) && Polling(t.requests[n]);
      } else {
        forall i, j | 0 <= i < j < |t.requests| ensures !Polling(t.requests[i]) || !Polling(t.requests[j]) {
          assert t.requests[i] == s.requests[i];
        }
      }
    } else {
      NoPollIsIssued(s, e);
      hide Inv, Step, IssuesPoll, Polling;
      forall i, j | 0 <= i < j < |t.requests| ensures !Polling(t.requests[i]) || !Polling(t.requests[j]) {
        if j < n {
          assert !Polling(s.requests[i]) || !Polling(s.requests[j]);
        }
      }
    }
  }

  /** While the timer runs, what has not settled belongs to the live group. */
  ghost predicate Homed(s: State) {
    s.timer ==> forall i :: 0 <= i < |s.requests| && Polling(s.requests[i]) ==> s.requests[i].group == s.current
  }

  /** A tick that finds its group settled finds nothing automatic outstanding. */
  lemma TickFindsNothing(s: State)
    requires Inv(s) && Homed(s) && s.timer && s.groups[s.current].pending == 0
    ensures !AutoOutstanding(s)
  {
    OutstandingZero(s.requests, s.current);
  }

  lemma StepStaysHomed(s: State, e: Event)
    requires Inv(s) && Homed(s) && (Renews(s, e) ==> !AutoOutstanding(s))
    ensures Homed(Step(s, e))
  {
    var t, n := Step(s, e), |s.requests|;
    LiveGroupStays(s, e);
    if IssuesPoll(s, e) {
      if e.Tick? { TickFindsNothing(s); }
      PollIsIssued(s, e);
      hide Inv, Step, Polling;
      forall i | 0 <= i < n ensures !Polling(t.requests[i]) {
        assert t.requests[i] == t.requests[..n][i];
      }
    } else {
      NoPollIsIssued(s, e);
      hide Inv, Step, Polling, IssuesPoll, Renews;
    }
  }

  /** A step keeps the live group and every request's group, stops the timer, or renews. */
  lemma LiveGroupStays(s: State, e: Event)
    requires Inv(s)
    ensures var t := Step(s, e);
      && (t.timer && !Renews(s, e) ==> s.timer && t.current == s.current)
      && |s.requests| <= |t.requests|
      && forall i :: 0 <= i < |s.requests| ==> t.requests[i].group == s.requests[i].group
  {
    hide Counted, Numbered, Paired, Sourced, Ordered, Serial, Quiet, HasLatest, Waiting;
    if Enabled(s, e) {
      match e
      case Commit(p) =>
        if Changed(s, p) {
          CommitDelta(s, p);
          hide Committed;
        }
      case Unmount =>
      case Reload =>
      case Tick =>
      case _ =>
        ContinuationStep(s, e);
        hide Step;
    }
  }

  /** At no moment of the run are two automatic requests outstanding. */
  ghost predicate NeverOverlaps(s: State, events: seq<Event>)
    requires Shape(s)
    decreases |events|
  {
    !AutoOverlap(s) && (events == [] || NeverOverlaps(Step(s, events[0]), events[1..]))
  }

  /** Every enabled commit with changed dependencies finds nothing automatic outstanding. */
  ghost predicate RenewsWhenSettled(s: State, events: seq<Event>)
    requires Shape(s)
    decreases |events|
  {
    events == []
    || ((Renews(s, events[0]) ==> !AutoOutstanding(s)) && RenewsWhenSettled(Step(s, events[0]), events[1..]))
  }

  lemma {:induction false} NeverOverlapsFrom(s: State, events: seq<Event>)
    requires Inv(s) && Homed(s) && !AutoOverlap(s)
    ensures NeverOverlaps(s, events) <==> RenewsWhenSettled(s, events)
    decreases |events|
  {
    if events != [] {
      var e := events[0];
      OverlapBeginsIff(s, e);
      StepKeepsInv(s, e);
      if Renews(s, e) && AutoOutstanding(s) {
        assert AutoOverlap(Step(s, e));
      } else {
        StepStaysHomed(s, e);
        if IssuesPoll(s, e) && !Renews(s, e) { TickFindsNothing(s); }
        hide Inv, Step, Homed, AutoOverlap, AutoOutstanding, Renews;
        NeverOverlapsFrom(Step(s, e), events[1..]);
      }
    }
  }

  /** From the first render on, automatic polls never overlap exactly when every enabled commit with
      changed dependencies finds none of them outstanding; what the timer and reloads do never matters. */
  lemma PollsNeverOverlapIff(p0: Props, events: seq<Event>)
    ensures NeverOverlaps(Init(p0), events) <==> RenewsWhenSettled(Init(p0), events)
  {
    InitInv(p0);
    NeverOverlapsFrom(Init(p0), events);
  }

  lemma FirstFetch(a: Props)
    requires a.enabled
    ensures var s := Step(Step(Init(a), Commit(a)), Begin(0));
      && |s.requests| == 1 && s.requests[0].phase == Fetching && s.requests[0].auto
      && s.mounted == Some(a) && s.fetched == [0]
  {
  }

  lemma FetchAfterKeyChange(s: State, b: Props)
    requires Shape(s) && b.enabled && s.mounted != None && s.mounted.value.key != b.key
    ensures var t, n := Step(Step(s, Commit(b)), Begin(|s.requests|)), |s.requests|;
      && |t.requests| == n + 1 && t.requests[..n] == s.requests
      && t.requests[n].phase == Fetching && t.requests[n].auto && t.requests[n].group >= |s.groups|
      && t.fetched == s.fetched + [n]
  {
    var u := Step(s, Commit(b));
    CommitDelta(s, b);
    assert u == Committed(s, b) && u.fetched == s.fetched;
    hide Committed;
    assert IsCurrent(u, |s.requests|);
  }

  /** Across a change of key the promise "automatic polls never overlap" fails: the fetch for the
      old key is still awaited when the one for the new key begins, with no manual reload. */
  lemma PollsOverlapAcrossKeys(a: Props, b: Props)
    requires a.enabled && b.enabled && a.key != b.key
    ensures var s := Run(Init(a), [Commit(a), Begin(0), Commit(b), Begin(1)]);
      && |s.requests| == 2 && s.requests[0].phase == Fetching && s.requests[1].phase == Fetching
      && s.requests[0].auto && s.requests[1].auto && s.requests[0].group != s.requests[1].group && s.fetched == [0, 1]
  {
    var s2 := Step(Step(Init(a), Commit(a)), Begin(0));
    var s4 := Step(Step(s2, Commit(b)), Begin(1));
    RunFour(Init(a), Commit(a), Begin(0), Commit(b), Begin(1));
    FirstFetch(a);
    FetchAfterKeyChange(s2, b);
    hide Step, Run;
    assert s4.requests[0] == s4.requests[..1][0];
  }

  lemma RunFour(s: State, a: Event, b: Event, c: Event, d: Event)
    requires Shape(s)
    ensures Run(s, [a, b, c, d]) == Step(Step(Step(Step(s, a), b), c), d)
  {
    hide Step;
    assert [a, b, c, d][1..] == [b, c, d] && [b, c, d][1..] == [c, d] && [c, d][1..] == [d] && [d][1..] == [];
    assert Run(Step(Step(Step(s, a), b), c), [d]) == Step(Step(Step(Step(s, a), b), c), d);
    assert Run(Step(Step(s, a), b), [c, d]) == Run(Step(Step(Step(s, a), b), c), [d]);
  }

  // ------------------------------------------------------------------------------------------
  // The hook itself
  // ------------------------------------------------------------------------------------------

  lemma StepIs(s: State, e: Event)
    requires Inv(s) && Enabled(s, e)
    ensures Shape(s) && Inv(Step(s, e))
    ensures e.Commit? ==> Step(s, e) == Committed(s, e.props)
    ensures e.Unmount? ==> Step(s, e) == CleanedUp(s).(mounted := None)
    ensures e.Reload? ==> Step(s, e) == Started(s, false)
    ensures e.Tick? ==> Step(s, e) == if s.groups[s.current].pending == 0 then Started(s, true) else s
    ensures e.Begin? ==> Step(s, e) == Begun(s, e.request)
    ensures e.Resolve? ==> Step(s, e) == Resolved(s, e.request, e.data)
    ensures e.Reject? ==> Step(s, e) == SetPhase(s, e.request, Rejected)
    ensures e.Catch? ==> Step(s, e) == Caught(s, e.request)
    ensures e.Finally? ==> Step(s, e) == Finished(s, e.request)
  {
    StepKeepsInv(s, e);
    StepBy(s, e);
    hide *;
  }

  /** The gate is open exactly while the hook is mounted. */
  lemma GateIsOpenIffMounted(p0: Props, events: seq<Event>)
    ensures var s := Run(Init(p0), events); s.active <==> s.mounted != None
  {
    InitInv(p0);
    RunKeepsInv(Init(p0), events);
  }

  /** The lifetime gate of one hook instance. */
  class PollLifecycle {
    var active: bool

    constructor ()
      ensures !active
    {
      active := false;
    }

    method Start()
      modifies this
      ensures active
    {
      active := true;
    }

    method Stop()
      modifies this
      ensures !active
    {
      active := false;
    }
  }

  /** The refs, the snapshot and the promise continuations of one mounted component. Each method is
      one atomic piece of the hook, and takes the state where the machine's event takes it. */
  class Poll {
    const lifecycle: PollLifecycle
    var current: nat
    var groups: seq<Group>
    var requests: seq<Request>
    var snapshot: Snapshot
    var fetcherRef: Fetcher
    var keyRef: Key
    var enabledRef: bool
    var mounted: Option<Props>
    var timer: bool
    ghost var captured: set<(Fetcher, Key)>
    ghost var writes: seq<Write>
    ghost var source: Option<nat>
    ghost var fetched: seq<nat>

    ghost function Now(): State
      reads this, lifecycle
    {
      State(lifecycle.active, current, groups, requests, snapshot, fetcherRef, keyRef, enabledRef, mounted, timer,
            captured, writes, source, fetched)
    }

    ghost predicate Valid()
      reads this, lifecycle
    {
      Inv(Now())
    }

    constructor (p: Props)
      ensures fresh(lifecycle) && Now() == Init(p) && Valid()
    {
      lifecycle := new PollLifecycle();
      current, groups, requests := 0, [Group(0, 0)], [];
      snapshot := Snapshot(p.key, None, false, true);
      fetcherRef, keyRef, enabledRef, mounted, timer := p.fetcher, p.key, p.enabled, None, false;
      captured, writes, source, fetched := {(p.fetcher, p.key)}, [], None, [];
      new;
      InitInv(p);
    }

    method NewGroup()
      modifies this`groups, this`current
      ensures Now() == InstallGroup(old(Now()))
    {
      groups := groups + [Group(0, 0)];
      current := |groups| - 1;
    }

    /** `run` around the body of `reload`: a closed gate and a disabled hook issue nothing, otherwise the
        request gets the next number of the live group and captures the committed key and fetcher. */
    method Issue(auto: bool)
      requires current < |groups|
      modifies this`groups, this`requests
      ensures Now() == Started(old(Now()), auto)
      ensures !lifecycle.active || !enabledRef ==> Now() == old(Now())
    {
      if lifecycle.active {
        if !enabledRef {
          return;
        }
        var requestId := groups[current].latest + 1;
        groups := groups[current := Group(requestId, groups[current].pending + 1)];
        requests := requests + [Request(current, requestId, keyRef, fetcherRef, auto, Queued, None)];
      }
    }

    method Cleanup()
      modifies this`groups, this`current, this`timer, lifecycle
      ensures Now() == CleanedUp(old(Now()))
    {
      lifecycle.Stop();
      NewGroup();
      timer := false;
    }

    method RunEffect(p: Props)
      modifies this, lifecycle
      ensures Now() == Effect(old(Now()), p)
    {
      lifecycle.Start();
      NewGroup();
      Issue(true);
      timer := p.enabled && p.interval > 0;
    }

    /** The first effect: remember what was rendered. */
    method UpdateRefs(p: Props)
      modifies this`fetcherRef, this`keyRef, this`enabledRef, this`mounted, this`captured
      ensures Now() == WithRefs(old(Now()), p)
    {
      fetcherRef, keyRef, enabledRef, mounted := p.fetcher, p.key, p.enabled, Some(p);
      captured := captured + {(p.fetcher, p.key)};
    }

    method OnCommit(p: Props)
      requires Valid()
      modifies this, lifecycle
      ensures Now() == Step(old(Now()), Commit(p)) && Valid()
    {
      hide Inv, Step, CleanedUp, WithRefs, Effect;
      StepIs(Now(), Commit(p));
      var changed := mounted == None || !SameDeps(mounted.value, p);
      if changed && mounted != None {
        Cleanup();
      }
      UpdateRefs(p);
      if changed {
        RunEffect(p);
      }
    }

    method OnUnmount()
      requires Valid() && mounted != None
      modifies this, lifecycle
      ensures Now() == Step(old(Now()), Unmount) && Valid()
    {
      hide Inv, Step;
      StepIs(Now(), Unmount);
      Cleanup();
      mounted := None;
    }

    method OnReload()
      requires Valid()
      modifies this
      ensures Now() == Step(old(Now()), Reload) && Valid()
    {
      hide Inv, Step;
      StepIs(Now(), Reload);
      Issue(false);
    }

    method OnTick()
      requires Valid() && timer
      modifies this
      ensures Now() == Step(old(Now()), Tick) && Valid()
    {
      hide Inv, Step;
      StepIs(Now(), Tick);
      if groups[current].pending == 0 {
        Issue(true);
      }
    }

    /** `setSnapshot`, on behalf of request `i`. */
    method SetSnapshot(shown: Snapshot, ghost i: nat, ghost from: Option<nat>)
      requires i < |requests|
      modifies this`snapshot, this`writes, this`source
      ensures Now() == Wrote(old(Now()), i, shown).(source := from)
    {
      snapshot := shown;
      writes := writes + [Write(requests[i].group, requests[i].id)];
      source := from;
    }

    /** Let a request move on. */
    method Advance(i: nat, phase: Phase, result: Option<Data>)
      requires i < |requests|
      modifies this`requests
      ensures Now() == old(Now()).(requests := old(requests)[i := old(requests[i]).(phase := phase, result := result)])
    {
      requests := requests[i := requests[i].(phase := phase, result := result)];
    }

    /** The first continuation: show that the request is loading and call its fetcher. */
    method OnBegin(i: nat) returns (fetch: Option<Fetcher>)
      requires Valid() && i < |requests| && requests[i].phase == Queued
      modifies this
      ensures Now() == Step(old(Now()), Begin(i)) && Valid()
      ensures fetch == if old(IsCurrent(Now(), i)) then Some(old(requests[i].fetcher)) else None
    {
      hide Inv, Step;
      StepIs(Now(), Begin(i));
      var r := requests[i];
      var isCurrent := lifecycle.active && enabledRef && r.group == current && r.id == groups[current].latest;
      if !isCurrent {
        Advance(i, Settling, r.result);
        return None;
      }
      var same := snapshot.key == r.key;
      SetSnapshot(Snapshot(r.key, if same then snapshot.data else None, same && snapshot.failed, true), i,
                  if same then source else None);
      fetched := fetched + [i];
      Advance(i, Fetching, r.result);
      return Some(r.fetcher);
    }

    method OnResolve(i: nat, data: Data)
      requires Valid() && i < |requests| && requests[i].phase == Fetching
      modifies this
      ensures Now() == Step(old(Now()), Resolve(i, data)) && Valid()
    {
      hide Inv, Step;
      StepIs(Now(), Resolve(i, data));
      var r := requests[i];
      var isCurrent := lifecycle.active && enabledRef && r.group == current && r.id == groups[current].latest;
      if isCurrent {
        SetSnapshot(Snapshot(r.key, Some(data), false, false), i, Some(i));
      }
      Advance(i, Settling, Some(data));
    }

    method OnReject(i: nat)
      requires Valid() && i < |requests| && requests[i].phase == Fetching
      modifies this
      ensures Now() == Step(old(Now()), Reject(i)) && Valid()
    {
      hide Inv, Step;
      StepIs(Now(), Reject(i));
      requests := requests[i := requests[i].(phase := Rejected)];
    }

    method OnCatch(i: nat)
      requires Valid() && i < |requests| && requests[i].phase == Rejected
      modifies this
      ensures Now() == Step(old(Now()), Catch(i)) && Valid()
    {
      hide Inv, Step;
      StepIs(Now(), Catch(i));
      var r := requests[i];
      var isCurrent := lifecycle.active && enabledRef && r.group == current && r.id == groups[current].latest;
      if isCurrent {
        var same := snapshot.key == r.key;
        SetSnapshot(Snapshot(r.key, if same then snapshot.data else None, true, false), i,
          if same then source else None);
      }
      Advance(i, Settling, r.result);
    }

    method OnFinally(i: nat)
      requires Valid() && i < |requests| && requests[i].phase == Settling
      modifies this
      ensures Now() == Step(old(Now()), Finally(i)) && Valid()
    {
      hide Inv, Step;
      StepIs(Now(), Finally(i));
      var g := requests[i].group;
      groups := groups[g := groups[g].(pending := groups[g].pending - 1)];
      requests := requests[i := requests[i].(phase := Done)];
    }
  }
}