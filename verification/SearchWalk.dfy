/** The parallel search walkers of the Rust sidecar
    (crates/lingtai-search-sidecar/src/main.rs, `WalkShared`, `glob_walk`, `grep`).

    The directory walker hands each entry to one worker, once, until a worker quits.  Every
    atomic operation of a worker is its own step, so an action sequence is a schedule.
    Loads of the stop flag are relaxed: a worker may miss a flag that is already set.

    Entries are numbered in `PathBuf` order.  `items(e)` is what the entry yields: for grep
    the ascending numbers of its matching lines, for glob `[0]` when the path matches, and
    nothing for directories, skipped files and files without a match. */
module SearchWalk {
  import opened Common

  type Path = nat

  datatype Config = Config(
    entries: set<Path>, items: Path -> seq<nat>, maxResults: nat, maxVisited: nat,
    lockedSink: bool)                        // grep holds the sink lock over a whole file

  datatype Reason = VisitedBudget | Walltime | MaxResults

  datatype Stage = Taken | Checked | Visited | WantSink | Emitting | Counted

  datatype Pc =
    | Idle
    | Holding(e: Path, stage: Stage, k: nat)  // k items of e already pushed
    | Tripped(reason: Reason)                 // inside set_truncated, before the slot
    | Slotted                                 // slot settled, stop flag not yet stored
    | Retired                                 // returned WalkState::Quit

  /** Matches of one file in push order, as grep groups them; glob pushes one per path. */
  datatype Group = Group(path: Path, lines: seq<nat>)

  datatype State = State(
    pending: set<Path>, pcs: seq<Pc>, visited: nat, count: nat,
    slot: Option<Reason>, stop: bool, lock: Option<nat>, groups: seq<Group>,
    // history: items that drew a ticket, items whose ticket was within the cap, workers
    // that overran the visit budget, entries that were visited
    counted: set<(Path, nat)>, won: set<(Path, nat)>, overran: set<nat>, seen: set<Path>)

  datatype Action =
    | Take(w: nat, entry: Path)
    | Check(w: nat, seesStop: bool)
    | Visit(w: nat)
    | ReadClock(w: nat, over: bool)
    | EnterSink(w: nat)
    | CountNext(w: nat)
    | Push(w: nat)
    | SettleSlot(w: nat)
    | StoreStop(w: nat)

  function Init(c: Config, workers: nat): State {
    State(c.entries, seq(workers, _ => Idle), 0, 0, None, false, None, [], {}, {}, {}, {})
  }

  function At(s: State, w: nat, pc: Pc): State
    requires w < |s.pcs|
  {
    s.(pcs := s.pcs[w := pc])
  }

  function PushLine(groups: seq<Group>, e: Path, line: nat): seq<Group> {
    if groups != [] && groups[|groups| - 1].path == e
    then groups[|groups| - 1 := Group(e, groups[|groups| - 1].lines + [line])]
    else groups + [Group(e, [line])]
  }

  predicate Enabled(c: Config, s: State, a: Action) {
    a.w < |s.pcs| &&
    var pc := s.pcs[a.w];
    match a
    case Take(_, entry) => pc.Idle? && entry in s.pending
    case Check(_, seesStop) => pc.Holding? && pc.stage == Taken && (seesStop ==> s.stop)
    case Visit(_) => pc.Holding? && pc.stage == Checked
    case ReadClock(_, _) => pc.Holding? && pc.stage == Visited
    case EnterSink(w) => pc.Holding? && pc.stage == WantSink && (c.lockedSink ==> s.lock.None?)
    case CountNext(_) => pc.Holding? && pc.stage == Emitting
    case Push(_) => pc.Holding? && pc.stage == Counted && pc.k < |c.items(pc.e)|
    case SettleSlot(_) => pc.Tripped?
    case StoreStop(_) => pc.Slotted?
  }

  function Apply(c: Config, s: State, a: Action): State {
    if !Enabled(c, s, a) then s
    else
      var w, pc := a.w, s.pcs[a.w];
      match a
      case Take(_, entry) => At(s.(pending := s.pending - {entry}), w, Holding(entry, Taken, 0))
      case Check(_, seesStop) => At(s, w, if seesStop then Retired else pc.(stage := Checked))
      case Visit(_) =>
        var s' := s.(visited := s.visited + 1, seen := s.seen + {pc.e});
        if s'.visited > c.maxVisited
        then At(s'.(overran := s.overran + {w}), w, Tripped(VisitedBudget))
        else At(s', w, pc.(stage := Visited))
      case ReadClock(_, over) =>
        At(s, w, if over then Tripped(Walltime) else if c.items(pc.e) == [] then Idle else pc.(stage := WantSink))
      case EnterSink(_) =>
        At(s.(lock := if c.lockedSink then Some(w) else s.lock), w, pc.(stage := Emitting))
      case CountNext(_) =>
        if pc.k >= |c.items(pc.e)| then At(s.(lock := if c.lockedSink then None else s.lock), w, Idle)
        else
          var s' := s.(count := s.count + 1, counted := s.counted + {(pc.e, pc.k)});
          if s'.count > c.maxResults then At(s', w, Tripped(MaxResults))
          else At(s'.(won := s.won + {(pc.e, pc.k)}), w, pc.(stage := Counted))
      case Push(_) =>
        At(s.(groups := PushLine(s.groups, pc.e, c.items(pc.e)[pc.k])), w, Holding(pc.e, Emitting, pc.k + 1))
      case SettleSlot(_) => At(s.(slot := if s.slot.None? then Some(pc.reason) else s.slot), w, Slotted)
      case StoreStop(_) => At(s.(stop := true, lock := if s.lock == Some(w) then None else s.lock), w, Retired)
  }

  function Run(c: Config, s: State, actions: seq<Action>): State
    decreases |actions|
  {
    if actions == [] then s else Run(c, Apply(c, s, actions[0]), actions[1..])
  }

  /** The walker has joined its workers: each is idle or has quit, and the queue is empty
      unless one quit. */
  predicate Finished(s: State) {
    && (forall w :: 0 <= w < |s.pcs| ==> s.pcs[w].Idle? || s.pcs[w].Retired?)
    && (s.pending == {} || exists w :: 0 <= w < |s.pcs| && s.pcs[w].Retired?)
  }

  /** Glob paths are pushed at most one item each, without holding the lock while counting. */
  ghost predicate WellFormed(c: Config) {
    !c.lockedSink ==> forall e :: |c.items(e)| <= 1
  }

  // ---- who holds what --------------------------------------------------------------

  ghost predicate HoldOf(c: Config, s: State, w: nat)
    requires w < |s.pcs|
  {
    s.pcs[w].Holding? ==>
      var pc := s.pcs[w];
      && pc.e in c.entries && pc.e !in s.pending && pc.k <= |c.items(pc.e)|
      && (pc.stage == Counted ==> pc.k < |c.items(pc.e)|)
      && (pc.stage != Emitting && pc.stage != Counted ==> pc.k == 0)
      && (c.lockedSink && (pc.stage == Emitting || pc.stage == Counted) ==> s.lock == Some(w))
  }

  ghost predicate Apart(s: State, v: nat, w: nat)
    requires v < |s.pcs| && w < |s.pcs|
  {
    s.pcs[v].Holding? && s.pcs[w].Holding? ==> s.pcs[v].e != s.pcs[w].e
  }

  ghost predicate HoldsEntries(c: Config, s: State) {
    && s.pending <= c.entries
    && (forall w :: 0 <= w < |s.pcs| ==> HoldOf(c, s, w))
    && (forall v, w :: 0 <= v < w < |s.pcs| ==> Apart(s, v, w))
  }

  lemma StepKeepsHoldOf(c: Config, s: State, a: Action, w: nat)
    requires w < |s.pcs| && HoldOf(c, s, w) && s.pending <= c.entries
    requires a.w < |s.pcs| ==> HoldOf(c, s, a.w)
    ensures HoldOf(c, Apply(c, s, a), w)
  {
  }

  lemma StepKeepsApart(c: Config, s: State, a: Action, v: nat, w: nat)
    requires v < w < |s.pcs| && Apart(s, v, w) && HoldOf(c, s, v) && HoldOf(c, s, w)
    ensures Apart(Apply(c, s, a), v, w)
  {
  }

  lemma StepKeepsHolds(c: Config, s: State, a: Action)
    requires HoldsEntries(c, s)
    ensures HoldsEntries(c, Apply(c, s, a))
  {
    forall w | 0 <= w < |s.pcs| ensures HoldOf(c, Apply(c, s, a), w) { StepKeepsHoldOf(c, s, a, w); }
    forall v, w | 0 <= v < w < |s.pcs| ensures Apart(Apply(c, s, a), v, w) { StepKeepsApart(c, s, a, v, w); }
  }

  lemma HeldApart(c: Config, s: State, w: nat)
    requires HoldsEntries(c, s) && w < |s.pcs|
    ensures HoldOf(c, s, w)
    ensures forall v :: 0 <= v < |s.pcs| && v != w && s.pcs[v].Holding? && s.pcs[w].Holding? ==>
      s.pcs[v].e != s.pcs[w].e
  {
    forall v | 0 <= v < |s.pcs| && v != w
      ensures s.pcs[v].Holding? && s.pcs[w].Holding? ==> s.pcs[v].e != s.pcs[w].e
    {
      if v < w { assert Apart(s, v, w); } else { assert Apart(s, w, v); }
    }
  }

  // ---- the groups ------------------------------------------------------------------

  ghost predicate GroupsDistinct(groups: seq<Group>) {
    forall i, j :: 0 <= i < j < |groups| ==> groups[i].path != groups[j].path
  }

  ghost predicate GroupOk(c: Config, s: State, g: Group) {
    && g.path in c.entries && g.path !in s.pending
    && 0 < |g.lines| <= |c.items(g.path)| && g.lines == c.items(g.path)[..|g.lines|]
  }

  /** The group of the entry a worker holds is what the worker pushed so far, and under the
      sink lock it is the last group. */
  ghost predicate SinkOf(c: Config, s: State, w: nat)
    requires w < |s.pcs|
  {
    s.pcs[w].Holding? ==>
      && (forall i :: 0 <= i < |s.groups| && s.groups[i].path == s.pcs[w].e ==> |s.groups[i].lines| == s.pcs[w].k)
      && (s.pcs[w].k > 0 && c.lockedSink ==>
            s.groups != [] && s.groups[|s.groups| - 1].path == s.pcs[w].e)
  }

  ghost predicate GroupsOk(c: Config, s: State) {
    && GroupsDistinct(s.groups)
    && (forall i :: 0 <= i < |s.groups| ==> GroupOk(c, s, s.groups[i]))
    && (forall w :: 0 <= w < |s.pcs| ==> SinkOf(c, s, w))
  }

  lemma PushKeepsGroups(c: Config, s: State, w: nat)
    requires WellFormed(c) && HoldsEntries(c, s) && GroupsOk(c, s) && Enabled(c, s, Push(w))
    ensures GroupsOk(c, Apply(c, s, Push(w)))
  {
    var s' := Apply(c, s, Push(w));
    var Holding(e, _, k) := s.pcs[w];
    assert SinkOf(c, s, w);
    HeldApart(c, s, w);
    if s.groups != [] && s.groups[|s.groups| - 1].path == e {
      var last := s.groups[|s.groups| - 1];
      assert GroupOk(c, s, last);
      assert c.items(e)[..k] + [c.items(e)[k]] == c.items(e)[..k + 1];
    } else {
      assert k == 0 && [c.items(e)[0]] == c.items(e)[..1];
      forall i | 0 <= i < |s.groups| ensures s.groups[i].path != e {
        assert GroupOk(c, s, s.groups[i]);
      }
    }
    forall i | 0 <= i < |s'.groups| ensures GroupOk(c, s', s'.groups[i]) {
      if i < |s.groups| { assert GroupOk(c, s, s.groups[i]); }
    }
    forall v | 0 <= v < |s.pcs| ensures SinkOf(c, s', v) {
      assert SinkOf(c, s, v);
      HeldApart(c, s, v);
    }
  }

  lemma StepKeepsSink(c: Config, s: State, a: Action, v: nat)
    requires v < |s.pcs| && SinkOf(c, s, v) && !(a.Push? && Enabled(c, s, a))
    requires forall i :: 0 <= i < |s.groups| ==> GroupOk(c, s, s.groups[i])
    ensures SinkOf(c, Apply(c, s, a), v)
  {
    var s' := Apply(c, s, a);
    forall i | 0 <= i < |s.groups| && s.pcs[v].Idle? && s'.pcs[v].Holding? ensures s.groups[i].path != s'.pcs[v].e {
      assert GroupOk(c, s, s.groups[i]);
    }
  }

  lemma StepKeepsGroups(c: Config, s: State, a: Action)
    requires WellFormed(c) && HoldsEntries(c, s) && GroupsOk(c, s)
    ensures GroupsOk(c, Apply(c, s, a))
  {
    var s' := Apply(c, s, a);
    if a.Push? && Enabled(c, s, a) {
      PushKeepsGroups(c, s, a.w);
    } else {
      assert s'.groups == s.groups && s'.pending <= s.pending && |s'.pcs| == |s.pcs|;
      forall i | 0 <= i < |s'.groups| ensures GroupOk(c, s', s'.groups[i]) {
        assert GroupOk(c, s, s.groups[i]);
      }
      forall v | 0 <= v < |s'.pcs| ensures SinkOf(c, s', v) {
        assert SinkOf(c, s, v);
        StepKeepsSink(c, s, a, v);
      }
    }
  }

  // ---- tickets ---------------------------------------------------------------------

  function AllItems(c: Config): set<(Path, nat)> {
    set e, k | e in c.entries && 0 <= k < |c.items(e)| :: (e, k)
  }

  function Min(a: nat, b: nat): nat { if a <= b then a else b }

  ghost predicate Pushed(groups: seq<Group>, e: Path, k: nat) {
    exists i :: 0 <= i < |groups| && groups[i].path == e && k < |groups[i].lines|
  }

  ghost predicate InFlight(pcs: seq<Pc>, e: Path, k: nat) {
    exists w :: 0 <= w < |pcs| && pcs[w] == Holding(e, Counted, k)
  }

  /** The tickets a worker's entry has drawn are those before its next item. */
  ghost predicate TicketsOf(s: State, w: nat)
    requires w < |s.pcs|
  {
    s.pcs[w].Holding? ==>
      && (forall j: nat :: (s.pcs[w].e, j) in s.counted <==>
            j < s.pcs[w].k || (j == s.pcs[w].k && s.pcs[w].stage == Counted))
      && (s.pcs[w].stage == Counted ==> (s.pcs[w].e, s.pcs[w].k) in s.won)
  }

  ghost predicate TicketCounts(c: Config, s: State) {
    && s.counted <= AllItems(c) && |s.counted| == s.count
    && s.won <= s.counted && |s.won| == Min(s.count, c.maxResults)
    && (forall x <- s.counted :: x.0 !in s.pending)
  }

  ghost predicate TicketsOk(c: Config, s: State) {
    && TicketCounts(c, s)
    && (forall w :: 0 <= w < |s.pcs| ==> TicketsOf(s, w))
    && (forall e: Path, k: nat :: (e, k) in s.won <==> Pushed(s.groups, e, k) || InFlight(s.pcs, e, k))
  }

  lemma PushLinePushes(groups: seq<Group>, e: Path, line: nat, k: nat, e': Path, j: nat)
    requires GroupsDistinct(groups)
    requires forall i :: 0 <= i < |groups| && groups[i].path == e ==> |groups[i].lines| == k && i == |groups| - 1
    requires k > 0 ==> groups != [] && groups[|groups| - 1].path == e
    ensures Pushed(PushLine(groups, e, line), e', j) <==> Pushed(groups, e', j) || (e' == e && j == k)
  {
    var groups' := PushLine(groups, e, line);
    if Pushed(groups, e', j) {
      var i :| 0 <= i < |groups| && groups[i].path == e' && j < |groups[i].lines|;
      assert groups'[i].path == e' && j < |groups'[i].lines|;
    }
    if e' == e && j == k {
      assert groups'[|groups'| - 1].path == e && j < |groups'[|groups'| - 1].lines|;
    }
  }

  lemma InFlightUpdate(pcs: seq<Pc>, w: nat, pc: Pc, e: Path, k: nat)
    requires w < |pcs|
    requires forall v :: 0 <= v < |pcs| && v != w && pcs[v].Holding? && pcs[w].Holding? ==> pcs[v].e != pcs[w].e
    ensures InFlight(pcs[w := pc], e, k)
       <==> (InFlight(pcs, e, k) && pcs[w] != Holding(e, Counted, k)) || pc == Holding(e, Counted, k)
  {
    if InFlight(pcs, e, k) && pcs[w] != Holding(e, Counted, k) {
      var v :| 0 <= v < |pcs| && pcs[v] == Holding(e, Counted, k);
      assert pcs[w := pc][v] == Holding(e, Counted, k);
    }
    if pc == Holding(e, Counted, k) { assert pcs[w := pc][w] == pc; }
  }

  lemma CountKeepsTicketsOf(c: Config, s: State, w: nat, v: nat)
    requires HoldsEntries(c, s) && Enabled(c, s, CountNext(w)) && v < |s.pcs|
    requires TicketsOf(s, v) && TicketsOf(s, w)
    ensures TicketsOf(Apply(c, s, CountNext(w)), v)
  {
    HeldApart(c, s, w);
  }

  lemma CountKeepsWon(c: Config, s: State, w: nat, e: Path, j: nat)
    requires HoldsEntries(c, s) && TicketsOk(c, s) && Enabled(c, s, CountNext(w))
    ensures var s' := Apply(c, s, CountNext(w));
      (e, j) in s'.won <==> Pushed(s'.groups, e, j) || InFlight(s'.pcs, e, j)
  {
    var s' := Apply(c, s, CountNext(w));
    HeldApart(c, s, w);
    InFlightUpdate(s.pcs, w, s'.pcs[w], e, j);
  }

  lemma CountKeepsTicketCounts(c: Config, s: State, w: nat)
    requires TicketCounts(c, s) && Enabled(c, s, CountNext(w)) && HoldOf(c, s, w) && TicketsOf(s, w)
    ensures TicketCounts(c, Apply(c, s, CountNext(w)))
  {
    var Holding(e, _, k) := s.pcs[w];
    assert (e, k) !in s.counted;
  }

  lemma CountKeepsTickets(c: Config, s: State, w: nat)
    requires HoldsEntries(c, s) && TicketsOk(c, s) && Enabled(c, s, CountNext(w))
    ensures TicketsOk(c, Apply(c, s, CountNext(w)))
  {
    var s' := Apply(c, s, CountNext(w));
    HeldApart(c, s, w);
    assert TicketsOf(s, w);
    CountKeepsTicketCounts(c, s, w);
    forall e': Path, j: nat ensures (e', j) in s'.won <==> Pushed(s'.groups, e', j) || InFlight(s'.pcs, e', j) {
      CountKeepsWon(c, s, w, e', j);
    }
    forall v | 0 <= v < |s.pcs| ensures TicketsOf(s', v) { CountKeepsTicketsOf(c, s, w, v); }
  }

  lemma PushKeepsTickets(c: Config, s: State, w: nat)
    requires WellFormed(c) && HoldsEntries(c, s) && GroupsOk(c, s) && TicketsOk(c, s) && Enabled(c, s, Push(w))
    ensures TicketsOk(c, Apply(c, s, Push(w)))
  {
    var s' := Apply(c, s, Push(w));
    var Holding(e, _, k) := s.pcs[w];
    assert TicketsOf(s, w) && SinkOf(c, s, w);
    HeldApart(c, s, w);
    forall i | 0 <= i < |s.groups| && s.groups[i].path == e ensures i == |s.groups| - 1 {
      assert GroupOk(c, s, s.groups[i]);
    }
    if !c.lockedSink { assert |c.items(e)| <= 1; }
    forall e': Path, j: nat ensures (e', j) in s'.won <==> Pushed(s'.groups, e', j) || InFlight(s'.pcs, e', j) {
      InFlightUpdate(s.pcs, w, s'.pcs[w], e', j);
      PushLinePushes(s.groups, e, c.items(e)[k], k, e', j);
    }
    forall v | 0 <= v < |s.pcs| ensures TicketsOf(s', v) { assert TicketsOf(s, v); }
  }

  lemma MoveKeepsTickets(c: Config, s: State, s': State, w: nat, pc: Pc)
    requires HoldsEntries(c, s) && TicketsOk(c, s) && w < |s.pcs| && s'.pcs == s.pcs[w := pc]
    requires s'.counted == s.counted && s'.won == s.won && s'.count == s.count && s'.groups == s.groups
    requires s'.pending <= s.pending
    requires !(s.pcs[w].Holding? && s.pcs[w].stage == Counted) && !(pc.Holding? && pc.stage == Counted)
    requires pc.Holding? ==> pc.k == (if s.pcs[w].Holding? then s.pcs[w].k else 0)
    requires pc.Holding? ==> if s.pcs[w].Holding? then pc.e == s.pcs[w].e else pc.e in s.pending
    ensures TicketsOk(c, s')
  {
    HeldApart(c, s, w);
    assert TicketsOf(s, w);
    forall e: Path, j: nat ensures (e, j) in s'.won <==> Pushed(s'.groups, e, j) || InFlight(s'.pcs, e, j) {
      InFlightUpdate(s.pcs, w, pc, e, j);
    }
    forall v | 0 <= v < |s.pcs| ensures TicketsOf(s', v) { assert TicketsOf(s, v); }
  }

  lemma StepKeepsTickets(c: Config, s: State, a: Action)
    requires WellFormed(c) && HoldsEntries(c, s) && GroupsOk(c, s) && TicketsOk(c, s)
    ensures TicketsOk(c, Apply(c, s, a))
  {
    if !Enabled(c, s, a) {
    } else if a.CountNext? {
      CountKeepsTickets(c, s, a.w);
    } else if a.Push? {
      PushKeepsTickets(c, s, a.w);
    } else {
      var s' := Apply(c, s, a);
      HeldApart(c, s, a.w);
      MoveKeepsTickets(c, s, s', a.w, s'.pcs[a.w]);
    }
  }

  // ---- the stop flag, the slot and the visit budget ---------------------------------

  ghost predicate SomeTripped(s: State, r: Reason) {
    exists w :: 0 <= w < |s.pcs| && s.pcs[w] == Tripped(r)
  }

  ghost predicate Unsettled(s: State) {
    !s.stop && forall w :: 0 <= w < |s.pcs| ==> !s.pcs[w].Slotted? && !s.pcs[w].Retired?
  }

  ghost predicate StopOk(c: Config, s: State) {
    && (s.slot.None? ==> Unsettled(s))
    && (s.count > c.maxResults ==> s.slot.Some? || SomeTripped(s, MaxResults))
    && (SomeTripped(s, MaxResults) || s.slot == Some(MaxResults) ==> s.count > c.maxResults)
  }

  lemma StepKeepsUnsettled(c: Config, s: State, a: Action)
    requires Unsettled(s) && Apply(c, s, a).slot.None?
    ensures Unsettled(Apply(c, s, a))
  {
  }

  /** A worker in `set_truncated` for a reason leaves it only by settling the slot. */
  lemma TrippedUntilSettled(c: Config, s: State, a: Action, r: Reason)
    requires SomeTripped(s, r)
    ensures SomeTripped(Apply(c, s, a), r) || Apply(c, s, a).slot.Some?
  {
    var v :| 0 <= v < |s.pcs| && s.pcs[v] == Tripped(r);
    if Enabled(c, s, a) && a.w != v { assert Apply(c, s, a).pcs[v] == Tripped(r); }
  }

  lemma StepKeepsStop(c: Config, s: State, a: Action)
    requires StopOk(c, s)
    ensures StopOk(c, Apply(c, s, a))
  {
    var s' := Apply(c, s, a);
    if s'.slot.None? { StepKeepsUnsettled(c, s, a); }
    if Enabled(c, s, a) {
      if SomeTripped(s, MaxResults) { TrippedUntilSettled(c, s, a, MaxResults); }
      if SomeTripped(s', MaxResults) && !SomeTripped(s, MaxResults) {
        assert s'.pcs[a.w] == Tripped(MaxResults);
      }
      if a.CountNext? && s'.count > c.maxResults {
        assert s'.pcs[a.w] == Tripped(MaxResults) || s.count == s'.count;
      }
    }
  }

  ghost predicate VisitOk(c: Config, s: State) {
    && s.visited <= c.maxVisited + |s.overran|
    && (forall w <- s.overran :: w < |s.pcs| && (s.pcs[w].Tripped? || s.pcs[w].Slotted? || s.pcs[w].Retired?))
  }

  lemma StepKeepsVisit(c: Config, s: State, a: Action)
    requires VisitOk(c, s)
    ensures VisitOk(c, Apply(c, s, a))
  {
    if Enabled(c, s, a) { assert s.pcs[a.w].Holding? ==> a.w !in s.overran; }
    if a.Visit? && Enabled(c, s, a) { assert |s.overran + {a.w}| == |s.overran| + 1; }
  }

  lemma {:induction false} SubsetOfRange(xs: set<nat>, n: nat)
    requires forall x <- xs :: x < n
    ensures |xs| <= n
  {
    if xs != {} {
      if n - 1 in xs {
        SubsetOfRange(xs - {n - 1}, n - 1);
      } else {
        SubsetOfRange(xs, n - 1);
      }
    }
  }

  // ---- nothing is skipped while no budget trips ---------------------------------------

  ghost predicate HeldBySome(s: State, e: Path) {
    exists w :: 0 <= w < |s.pcs| && s.pcs[w].Holding? && s.pcs[w].e == e
  }

  ghost predicate Reached(s: State, e: Path, j: nat) {
    (e, j) in s.counted || e in s.pending || HeldBySome(s, e)
  }

  ghost predicate NoneTripped(s: State) {
    s.slot.None? && forall w :: 0 <= w < |s.pcs| ==> !s.pcs[w].Tripped?
  }

  ghost predicate NothingSkipped(c: Config, s: State) {
    NoneTripped(s) ==>
      forall e: Path, j: nat | e in c.entries && j < |c.items(e)| ::
        Reached(s, e, j)
  }

  lemma StepKeepsReached(c: Config, s: State, a: Action, e: Path, j: nat)
    requires Enabled(c, s, a) && TicketsOf(s, a.w) && Reached(s, e, j) && j < |c.items(e)| && HoldOf(c, s, a.w)
    requires Apply(c, s, a).slot.None? && !Apply(c, s, a).pcs[a.w].Tripped? && !s.pcs[a.w].Slotted?
    requires a.Check? ==> !a.seesStop
    ensures Reached(Apply(c, s, a), e, j)
  {
    var s' := Apply(c, s, a);
    if HeldBySome(s, e) {
      var w :| 0 <= w < |s.pcs| && s.pcs[w].Holding? && s.pcs[w].e == e;
      assert w != a.w ==> s'.pcs[w] == s.pcs[w];
      assert w == a.w && s'.pcs[w].Holding? ==> s'.pcs[w].e == e;
    } else if e in s.pending && e !in s'.pending {
      assert s'.pcs[a.w].e == e;
    }
  }

  lemma NoneTrippedBefore(c: Config, s: State, a: Action)
    requires Enabled(c, s, a) && NoneTripped(Apply(c, s, a))
    ensures NoneTripped(s)
  {
    var s' := Apply(c, s, a);
    assert !s'.pcs[a.w].Tripped?;
    forall w | 0 <= w < |s.pcs| ensures !s.pcs[w].Tripped? {
      if w != a.w { assert s'.pcs[w] == s.pcs[w]; }
    }
  }

  lemma StepSkipsNothing(c: Config, s: State, a: Action)
    requires HoldsEntries(c, s) && TicketsOk(c, s) && StopOk(c, s) && NothingSkipped(c, s)
    ensures NothingSkipped(c, Apply(c, s, a))
  {
    if Enabled(c, s, a) && NoneTripped(Apply(c, s, a)) {
      NoneTrippedBefore(c, s, a);
      HeldApart(c, s, a.w);
      assert TicketsOf(s, a.w);
      forall e: Path, j: nat | e in c.entries && j < |c.items(e)| ensures Reached(Apply(c, s, a), e, j) {
        StepKeepsReached(c, s, a, e, j);
      }
    }
  }

  // ---- why a walk stops ----------------------------------------------------------------

  /** An entry not visited yet is queued, or held by a worker before its visit. */
  ghost predicate UnseenOf(s: State, w: nat)
    requires w < |s.pcs|
  {
    s.pcs[w].Holding? ==> (s.pcs[w].e !in s.seen <==> s.pcs[w].stage == Taken || s.pcs[w].stage == Checked)
  }

  ghost predicate SeenOk(c: Config, s: State) {
    && s.seen <= c.entries && s.pending !! s.seen && |s.seen| == s.visited
    && forall w :: 0 <= w < |s.pcs| ==> UnseenOf(s, w)
  }

  lemma StepKeepsUnseenOf(c: Config, s: State, a: Action, w: nat)
    requires w < |s.pcs| && UnseenOf(s, w) && s.pending !! s.seen
    requires a.w < |s.pcs| && s.pcs[a.w].Holding? && s.pcs[w].Holding? && a.w != w ==> s.pcs[a.w].e != s.pcs[w].e
    ensures UnseenOf(Apply(c, s, a), w)
  {
  }

  lemma VisitSees(s: State, e: Path)
    requires |s.seen| == s.visited && e !in s.seen
    ensures |s.seen + {e}| == s.visited + 1
  {
  }

  lemma StepKeepsSeen(c: Config, s: State, a: Action)
    requires HoldsEntries(c, s) && SeenOk(c, s)
    ensures SeenOk(c, Apply(c, s, a))
  {
    if Enabled(c, s, a) {
      HeldApart(c, s, a.w);
      assert UnseenOf(s, a.w);
      if a.Visit? { VisitSees(s, s.pcs[a.w].e); }
      forall w | 0 <= w < |s.pcs| ensures UnseenOf(Apply(c, s, a), w) { StepKeepsUnseenOf(c, s, a, w); }
    }
  }

  /** The budget was overrun exactly if the walk stops for something, and a walk that stops
      for the budget has overrun it. */
  ghost predicate BudgetOk(c: Config, s: State) {
    && (s.visited > c.maxVisited ==> s.slot.Some? || SomeTripped(s, VisitedBudget))
    && (SomeTripped(s, VisitedBudget) || s.slot == Some(VisitedBudget) ==> s.visited > c.maxVisited)
  }

  lemma StepKeepsBudget(c: Config, s: State, a: Action)
    requires BudgetOk(c, s)
    ensures BudgetOk(c, Apply(c, s, a))
  {
    var s' := Apply(c, s, a);
    if Enabled(c, s, a) {
      if SomeTripped(s, VisitedBudget) { TrippedUntilSettled(c, s, a, VisitedBudget); }
      if SomeTripped(s', VisitedBudget) && !SomeTripped(s, VisitedBudget) {
        assert s'.pcs[a.w] == Tripped(VisitedBudget);
      }
      if a.Visit? && s'.visited > c.maxVisited { assert s'.pcs[a.w] == Tripped(VisitedBudget); }
    }
  }

  /** The flag is raised only after a reason was recorded, by a worker that quits. */
  ghost predicate FlagOk(s: State) {
    && (s.stop ==> s.slot.Some?)
    && (s.slot.Some? ==> s.stop || exists w :: 0 <= w < |s.pcs| && s.pcs[w].Slotted?)
    && (forall w :: 0 <= w < |s.pcs| && s.pcs[w].Retired? ==> s.stop)
    && (forall w :: 0 <= w < |s.pcs| && s.pcs[w].Slotted? ==> s.slot.Some?)
  }

  lemma StepKeepsFlag(c: Config, s: State, a: Action)
    requires FlagOk(s)
    ensures FlagOk(Apply(c, s, a))
  {
    var s' := Apply(c, s, a);
    if Enabled(c, s, a) && s'.slot.Some? && !s'.stop {
      if s.slot.Some? {
        var w :| 0 <= w < |s.pcs| && s.pcs[w].Slotted?;
        assert s'.pcs[w].Slotted?;
      } else {
        assert s'.pcs[a.w].Slotted?;
      }
    }
  }

  /** Only a worker between its first item and its return holds the sink lock. */
  ghost predicate LockOk(c: Config, s: State) {
    s.lock.Some? ==>
      && c.lockedSink
      && s.lock.value < |s.pcs|
      && var pc := s.pcs[s.lock.value];
      (pc.Holding? && (pc.stage == Emitting || pc.stage == Counted)) || pc.Tripped? || pc.Slotted?
  }

  lemma StepKeepsLock(c: Config, s: State, a: Action)
    requires HoldsEntries(c, s) && LockOk(c, s)
    ensures LockOk(c, Apply(c, s, a))
  {
    if Enabled(c, s, a) { assert HoldOf(c, s, a.w); }
  }

  /** Until something trips, every entry is queued, held or visited. */
  ghost predicate NoneMissed(c: Config, s: State) {
    NoneTripped(s) ==> forall e <- c.entries :: e in s.pending || e in s.seen || HeldBySome(s, e)
  }

  lemma StepMissesNone(c: Config, s: State, a: Action)
    requires NoneMissed(c, s) && StopOk(c, s) && SeenOk(c, s)
    ensures NoneMissed(c, Apply(c, s, a))
  {
    var s' := Apply(c, s, a);
    if Enabled(c, s, a) && NoneTripped(s') {
      NoneTrippedBefore(c, s, a);
      assert UnseenOf(s, a.w);
      forall e | e in c.entries ensures e in s'.pending || e in s'.seen || HeldBySome(s', e) {
        if HeldBySome(s, e) {
          var w :| 0 <= w < |s.pcs| && s.pcs[w].Holding? && s.pcs[w].e == e;
          if w != a.w { assert s'.pcs[w] == s.pcs[w]; }
          else if s'.pcs[w].Holding? { assert s'.pcs[w].e == e; }
        } else if e in s.pending && e !in s'.pending {
          assert s'.pcs[a.w].e == e;
        }
      }
    }
  }

  ghost predicate StopsRightly(c: Config, s: State) {
    SeenOk(c, s) && BudgetOk(c, s) && FlagOk(s) && LockOk(c, s) && NoneMissed(c, s)
  }

  lemma StepStopsRightly(c: Config, s: State, a: Action)
    requires HoldsEntries(c, s) && StopOk(c, s) && StopsRightly(c, s)
    ensures StopsRightly(c, Apply(c, s, a))
  {
    StepKeepsSeen(c, s, a);
    StepKeepsBudget(c, s, a);
    StepKeepsFlag(c, s, a);
    StepKeepsLock(c, s, a);
    StepMissesNone(c, s, a);
  }

  // ---- every schedule ----------------------------------------------------------------

  ghost predicate Inv(c: Config, s: State) {
    && HoldsEntries(c, s) && GroupsOk(c, s) && TicketsOk(c, s)
    && StopOk(c, s) && VisitOk(c, s) && NothingSkipped(c, s) && StopsRightly(c, s)
  }

  lemma StepKeepsInv(c: Config, s: State, a: Action)
    requires WellFormed(c) && Inv(c, s)
    ensures Inv(c, Apply(c, s, a))
  {
    StepKeepsHolds(c, s, a);
    StepKeepsGroups(c, s, a);
    StepKeepsTickets(c, s, a);
    StepKeepsStop(c, s, a);
    StepKeepsVisit(c, s, a);
    StepSkipsNothing(c, s, a);
    StepStopsRightly(c, s, a);
  }

  /** Over any schedule the invariant holds. */
  lemma {:induction false} RunKeepsInv(c: Config, s: State, actions: seq<Action>)
    requires WellFormed(c) && Inv(c, s)
    ensures Inv(c, Run(c, s, actions))
    decreases |actions|
  {
    if actions != [] {
      var next := Apply(c, s, actions[0]);
      StepKeepsInv(c, s, actions[0]);
      RunKeepsInv(c, next, actions[1..]);
      assert Run(c, s, actions) == Run(c, next, actions[1..]);
    }
  }

  /** ... and a settled truncation reason stays. */
  lemma {:induction false} RunKeepsReason(c: Config, s: State, actions: seq<Action>)
    ensures |Run(c, s, actions).pcs| == |s.pcs|
    ensures s.slot.Some? ==> Run(c, s, actions).slot == s.slot
    decreases |actions|
  {
    if actions != [] { RunKeepsReason(c, Apply(c, s, actions[0]), actions[1..]); }
  }

  lemma InitInv(c: Config, workers: nat)
    ensures Inv(c, Init(c, workers))
  {
    var s := Init(c, workers);
    assert forall w :: 0 <= w < |s.pcs| ==> TicketsOf(s, w) && SinkOf(c, s, w) && UnseenOf(s, w);
  }

  /** The reported visit count overshoots its budget by at most one per worker. */
  lemma VisitedWithinWorkers(c: Config, workers: nat, actions: seq<Action>)
    requires WellFormed(c)
    ensures Run(c, Init(c, workers), actions).visited <= c.maxVisited + workers
  {
    InitInv(c, workers);
    RunKeepsInv(c, Init(c, workers), actions);
    RunKeepsReason(c, Init(c, workers), actions);
    SubsetOfRange(Run(c, Init(c, workers), actions).overran, workers);
  }

  /** The first truncation reason is never overwritten. */
  lemma FirstReasonWins(c: Config, workers: nat, actions: seq<Action>, more: seq<Action>)
    requires Run(c, Init(c, workers), actions).slot.Some?
    ensures Run(c, Run(c, Init(c, workers), actions), more).slot == Run(c, Init(c, workers), actions).slot
  {
    RunKeepsReason(c, Run(c, Init(c, workers), actions), more);
  }

  /** Some worker can always move until the walk has finished: no lock is left held by a
      worker that returned. */
  lemma NoDeadlock(c: Config, workers: nat, actions: seq<Action>) returns (a: Action)
    requires WellFormed(c) && workers > 0 && !Finished(Run(c, Init(c, workers), actions))
    ensures Enabled(c, Run(c, Init(c, workers), actions), a)
  {
    var s := Run(c, Init(c, workers), actions);
    InitInv(c, workers);
    RunKeepsInv(c, Init(c, workers), actions);
    RunKeepsReason(c, Init(c, workers), actions);
    if w :| 0 <= w < |s.pcs| && !s.pcs[w].Idle? && !s.pcs[w].Retired? {
      a := NextOf(c, s, if s.pcs[w].Holding? && s.pcs[w].stage == WantSink && s.lock.Some? then s.lock.value else w);
    } else {
      var entry :| entry in s.pending;
      a := Take(0, entry);
    }
  }

  /** The next action of a worker that is not waiting for anything. */
  lemma NextOf(c: Config, s: State, w: nat) returns (a: Action)
    requires w < |s.pcs| && HoldOf(c, s, w) && !s.pcs[w].Idle? && !s.pcs[w].Retired?
    requires s.pcs[w].Holding? && s.pcs[w].stage == WantSink ==> s.lock.None?
    ensures Enabled(c, s, a)
  {
    match s.pcs[w]
    case Tripped(_) => a := SettleSlot(w);
    case Slotted => a := StoreStop(w);
    case Holding(_, stage, _) =>
      match stage {
        case Taken => a := Check(w, false);
        case Checked => a := Visit(w);
        case Visited => a := ReadClock(w, false);
        case WantSink => a := EnterSink(w);
        case Emitting => a := CountNext(w);
        case Counted => a := Push(w);
      }
  }

  ghost predicate NeverOver(actions: seq<Action>) {
    forall a <- actions :: a.ReadClock? ==> !a.over
  }

  /** Without an over-time reading of the clock nothing stops for the walltime. */
  lemma {:induction false} RunInTime(c: Config, s: State, actions: seq<Action>)
    requires NeverOver(actions) && s.slot != Some(Walltime) && !SomeTripped(s, Walltime)
    ensures Run(c, s, actions).slot != Some(Walltime) && !SomeTripped(Run(c, s, actions), Walltime)
    decreases |actions|
  {
    if actions != [] {
      var next := Apply(c, s, actions[0]);
      assert actions[0] in actions && forall a <- actions[1..] :: a in actions;
      forall v | 0 <= v < |s.pcs| ensures next.pcs[v] != Tripped(Walltime) {
        assert s.pcs[v] != Tripped(Walltime);
      }
      RunInTime(c, next, actions[1..]);
    }
  }

  /** A worker in `set_truncated` leaves a reason in the slot, whatever the others do. */
  lemma {:induction false} TrippedEndsTruncated(c: Config, s: State, actions: seq<Action>, r: Reason)
    requires SomeTripped(s, r) || s.slot.Some?
    ensures SomeTripped(Run(c, s, actions), r) || Run(c, s, actions).slot.Some?
    decreases |actions|
  {
    if actions != [] {
      if SomeTripped(s, r) { TrippedUntilSettled(c, s, actions[0], r); }
      TrippedEndsTruncated(c, Apply(c, s, actions[0]), actions[1..], r);
    }
  }

  /** A walk whose clock was once read over time ends with a reason. */
  lemma OverTimeIsReported(c: Config, s: State, w: nat, actions: seq<Action>)
    requires Enabled(c, s, ReadClock(w, true))
    ensures var s' := Run(c, Apply(c, s, ReadClock(w, true)), actions);
      Finished(s') ==> s'.slot.Some?
  {
    var next := Apply(c, s, ReadClock(w, true));
    assert next.pcs[w] == Tripped(Walltime);
    TrippedEndsTruncated(c, next, actions, Walltime);
  }

  /** What the reported reason of a finished walk says: `visited` that more entries than the
      budget were visited, `walltime` that the clock was over time, and no reason that the
      budget was kept and every entry visited. */
  lemma ReasonIsTrue(c: Config, workers: nat, actions: seq<Action>)
    requires WellFormed(c) && Finished(Run(c, Init(c, workers), actions))
    ensures var s := Run(c, Init(c, workers), actions);
      && s.visited <= |c.entries| && (s.stop <==> s.slot.Some?)
      && (s.slot == Some(VisitedBudget) ==> s.visited > c.maxVisited)
      && (s.slot == Some(Walltime) ==> exists a <- actions :: a.ReadClock? && a.over)
      && (s.slot == None ==> s.visited == |c.entries| <= c.maxVisited)
  {
    var s := Run(c, Init(c, workers), actions);
    InitInv(c, workers);
    RunKeepsInv(c, Init(c, workers), actions);
    CountedWithin(s.seen, c.entries);
    if NeverOver(actions) { RunInTime(c, Init(c, workers), actions); }
    if s.slot == None {
      assert NoneTripped(s) && s.pending == {};
      assert s.seen == c.entries;
    }
  }

  // ---- how much a finished walk collected ---------------------------------------------

  function TotalLines(groups: seq<Group>): nat {
    if groups == [] then 0 else |groups[0].lines| + TotalLines(groups[1..])
  }

  function Slots(g: Group): set<(Path, nat)> {
    set k | 0 <= k < |g.lines| :: (g.path, k)
  }

  function Indices(groups: seq<Group>): set<(Path, nat)> {
    if groups == [] then {} else Slots(groups[0]) + Indices(groups[1..])
  }

  lemma {:induction false} SlotsCount(g: Group)
    ensures |Slots(g)| == |g.lines|
    decreases |g.lines|
  {
    if g.lines != [] {
      var n := |g.lines| - 1;
      SlotsCount(Group(g.path, g.lines[..n]));
      assert Slots(g) == Slots(Group(g.path, g.lines[..n])) + {(g.path, n)};
    }
  }

  lemma {:induction false} IndicesArePushed(groups: seq<Group>, e: Path, k: nat)
    ensures (e, k) in Indices(groups) <==> Pushed(groups, e, k)
  {
    if groups != [] {
      IndicesArePushed(groups[1..], e, k);
      if Pushed(groups[1..], e, k) {
        var i :| 0 <= i < |groups[1..]| && groups[1..][i].path == e && k < |groups[1..][i].lines|;
        assert groups[i + 1].path == e;
      }
      if Pushed(groups, e, k) {
        var i :| 0 <= i < |groups| && groups[i].path == e && k < |groups[i].lines|;
        if i > 0 { assert groups[1..][i - 1].path == e; }
      }
    }
  }

  lemma {:induction false} IndicesCount(groups: seq<Group>)
    requires GroupsDistinct(groups)
    ensures |Indices(groups)| == TotalLines(groups)
  {
    if groups != [] {
      IndicesCount(groups[1..]);
      SlotsCount(groups[0]);
      forall x | x in Slots(groups[0]) ensures x !in Indices(groups[1..]) {
        IndicesArePushed(groups[1..], x.0, x.1);
      }
    }
  }

  lemma WonIsPushed(c: Config, s: State)
    requires TicketsOk(c, s) && Finished(s)
    ensures s.won == Indices(s.groups)
  {
    forall e: Path, k: nat ensures (e, k) in s.won <==> (e, k) in Indices(s.groups) {
      IndicesArePushed(s.groups, e, k);
    }
    assert forall x <- s.won :: (x.0, x.1) in Indices(s.groups);
    assert forall x <- Indices(s.groups) :: (x.0, x.1) in s.won;
  }

  lemma AllCounted(c: Config, s: State)
    requires TicketsOk(c, s) && StopOk(c, s) && NothingSkipped(c, s) && Finished(s) && s.slot == None
    ensures s.counted == AllItems(c)
  {
    assert NoneTripped(s) && s.pending == {};
    forall x | x in AllItems(c) ensures x in s.counted {
      assert Reached(s, x.0, x.1);
    }
  }

  lemma FinishedIsExact(c: Config, s: State)
    requires Inv(c, s) && Finished(s) && (s.slot == None || s.slot == Some(MaxResults))
    ensures TotalLines(s.groups) == Min(c.maxResults, |AllItems(c)|)
    ensures s.slot == Some(MaxResults) <==> |AllItems(c)| > c.maxResults
  {
    WonIsPushed(c, s);
    IndicesCount(s.groups);
    CountedWithin(s.counted, AllItems(c));
    if s.slot == None { AllCounted(c, s); }
  }

  /** Whatever the schedule: if no visit or walltime budget is reported, the walk collected
      exactly min(cap, number of items), and reports the cap exactly when items exceed it. */
  lemma FinishedWalkIsExact(c: Config, workers: nat, actions: seq<Action>)
    requires WellFormed(c)
    requires var s := Run(c, Init(c, workers), actions);
      Finished(s) && (s.slot == None || s.slot == Some(MaxResults))
    ensures var s := Run(c, Init(c, workers), actions);
      && TotalLines(s.groups) == Min(c.maxResults, |AllItems(c)|)
      && (s.slot == Some(MaxResults) <==> |AllItems(c)| > c.maxResults)
  {
    InitInv(c, workers);
    RunKeepsInv(c, Init(c, workers), actions);
    FinishedIsExact(c, Run(c, Init(c, workers), actions));
  }

  /** Within all three budgets no reason is reported, whatever the schedule. */
  lemma WithinBudgetsIsComplete(c: Config, workers: nat, actions: seq<Action>)
    requires WellFormed(c) && Finished(Run(c, Init(c, workers), actions))
    requires |c.entries| <= c.maxVisited && |AllItems(c)| <= c.maxResults && NeverOver(actions)
    ensures var s := Run(c, Init(c, workers), actions);
      s.slot == None && s.visited == |c.entries| && TotalLines(s.groups) == |AllItems(c)|
  {
    var s := Run(c, Init(c, workers), actions);
    ReasonIsTrue(c, workers, actions);
    assert s.slot != Some(VisitedBudget) && s.slot != Some(Walltime);
    assert s.slot.Some? ==> s.slot.value == MaxResults;
    FinishedWalkIsExact(c, workers, actions);
  }

  lemma {:induction false} CountedWithin<T>(a: set<T>, b: set<T>)
    requires a <= b
    ensures |a| <= |b|
  {
    if a != {} {
      var x :| x in a;
      CountedWithin(a - {x}, b - {x});
    }
  }
}
