/** The in-memory mirror of the external-hook registry and its stat stamp
    (src/lingtai/kernel/notifications.py, `sync_hook_registry`, `_update_hook_registry`).

    Any number of threads run the two functions while other processes write the file.
    A run is any sequence of actions, each one atomic effect of one thread; an action that
    is not enabled changes nothing, so the sequences are exactly the interleavings. */
module HookRegistry {
  import opened Common

  /** `(mtime_ns, size)`, or `None` for an absent file. */
  type Stat = Option<(int, int)>
  datatype Version = Version(stat: Stat, manifests: seq<Json>)

  /** The channel names a manifest list registers. */
  function Channels(manifests: seq<Json>): set<string> {
    set m <- manifests | m.Get("channel").Str? && m.Get("channel").s != "" :: m.Get("channel").s
  }

  /** Where a thread is.  `at` is the registry version the thread's stat call read. */
  datatype Pc =
    | Idle
    | Written                                    // update committed, lock not yet taken
    | Forgotten                                  // seeded flag and stamp dropped
    | Statted(stat: Stat, at: nat)
    | Locked(stat: Stat, at: nat)
    | Loaded(stat: Stat, at: nat, version: nat)  // manifests in hand, lock held
    | Returned(at: nat)
    | LoadFailed

  datatype State = State(
    disk: seq<Version>, mirror: set<string>, stamp: Stat, seeded: bool,
    lock: Option<nat>, pcs: map<nat, Pc>,
    mirrored: nat)                               // history: the newest version the mirror is known to show

  datatype Action =
    | OutOfBandWrite(written: Version)           // another process replaces the file
    | Update(t: nat, v: Option<Version>)         // `update_hook_manifests` commits, or changes nothing
    | Forget(t: nat)                             // discard and pop, under the lock
    | ReadStat(t: nat)                           // `stat_hook_registry`, no lock
    | Acquire(t: nat)
    | CompareOrLoad(t: nat)                      // the stamp comparison, then the load
    | FailLoad(t: nat)
    | Install(t: nat)                            // mirror, stamp and seeded, then release

  function PcOf(s: State, t: nat): Pc {
    if t in s.pcs then s.pcs[t] else Idle
  }

  function Init(v: Version): State {
    State([v], {}, None, false, None, map[], 0)
  }

  function Newest(s: State): nat
    requires s.disk != []
  {
    |s.disk| - 1
  }

  function Apply(s: State, a: Action): (r: State)
    requires s.disk != []
    ensures s.disk <= r.disk
  {
    match a
    case OutOfBandWrite(v) => s.(disk := s.disk + [v])
    case Update(t, v) =>
      if !PcOf(s, t).Idle? && !PcOf(s, t).Returned? && !PcOf(s, t).LoadFailed? then s
      else s.(disk := if v.Some? then s.disk + [v.value] else s.disk, pcs := s.pcs[t := Written])
    case Forget(t) =>
      if !PcOf(s, t).Written? || s.lock.Some? then s
      else s.(seeded := false, stamp := None, pcs := s.pcs[t := Forgotten])
    case ReadStat(t) =>
      if PcOf(s, t).Written? || PcOf(s, t).Statted? || PcOf(s, t).Locked? || PcOf(s, t).Loaded? then s
      else s.(pcs := s.pcs[t := Statted(s.disk[Newest(s)].stat, Newest(s))])
    case Acquire(t) =>
      if !PcOf(s, t).Statted? || s.lock.Some? then s
      else s.(lock := Some(t), pcs := s.pcs[t := Locked(PcOf(s, t).stat, PcOf(s, t).at)])
    case CompareOrLoad(t) =>
      var pc := PcOf(s, t);
      if !pc.Locked? then s
      else if s.stamp == pc.stat && s.seeded
      then s.(lock := None, pcs := s.pcs[t := Returned(pc.at)],
              mirrored := if s.mirrored < pc.at then pc.at else s.mirrored)
      else s.(pcs := s.pcs[t := Loaded(pc.stat, pc.at, Newest(s))])
    case FailLoad(t) =>
      if !PcOf(s, t).Locked? || (s.stamp == PcOf(s, t).stat && s.seeded) then s
      else s.(lock := None, pcs := s.pcs[t := LoadFailed])
    case Install(t) =>
      var pc := PcOf(s, t);
      if !pc.Loaded? || pc.version >= |s.disk| then s
      else State(s.disk, Channels(s.disk[pc.version].manifests), pc.stat, true, None,
                 s.pcs[t := Returned(pc.at)], pc.version)
  }

  function Run(s: State, actions: seq<Action>): (r: State)
    requires s.disk != []
    ensures s.disk <= r.disk
    decreases |actions|
  {
    if actions == [] then s else Run(Apply(s, actions[0]), actions[1..])
  }

  /** No registry version reuses the stat of another. */
  ghost predicate NoStatRecurs(disk: seq<Version>) {
    forall i, j :: 0 <= i < j < |disk| ==> disk[i].stat != disk[j].stat
  }

  function ChannelsOf(disk: seq<Version>, k: int): set<string>
    requires 0 <= k < |disk|
  {
    Channels(disk[k].manifests)
  }

  /** Where a stat recurs, the channels are back to what they were the whole time since. */
  ghost predicate RecurrenceIsHarmless(disk: seq<Version>) {
    forall i, m, j | 0 <= i <= m < j < |disk| && disk[i].stat == disk[j].stat ::
      ChannelsOf(disk, m) == ChannelsOf(disk, j)
  }

  // ---- the invariant ---------------------------------------------------------------

  ghost predicate ThreadInv(s: State, t: nat) {
    match PcOf(s, t)
    case Statted(stat, at) => at < |s.disk| && stat == s.disk[at].stat
    case Locked(stat, at) => s.lock == Some(t) && at < |s.disk| && stat == s.disk[at].stat
    case Loaded(stat, at, version) =>
      s.lock == Some(t) && at <= version < |s.disk| && stat == s.disk[at].stat && s.mirrored <= version
    case Returned(at) => at <= s.mirrored < |s.disk| && s.mirror == ChannelsOf(s.disk, s.mirrored)
    case _ => true
  }

  ghost predicate Inv(s: State) {
    && s.mirrored < |s.disk|
    && (s.seeded ==> s.mirror == ChannelsOf(s.disk, s.mirrored))
    && (s.seeded ==> exists k :: 0 <= k <= s.mirrored && s.disk[k].stat == s.stamp)
    && (forall t :: ThreadInv(s, t))
  }

  /** A stamp that matches a stat read at `at` means the mirror shows that version. */
  lemma MatchShows(s: State, at: nat)
    requires s.seeded && s.mirrored < |s.disk| && at < |s.disk| && s.disk[at].stat == s.stamp
    requires RecurrenceIsHarmless(s.disk) && s.mirror == ChannelsOf(s.disk, s.mirrored)
    requires exists k :: 0 <= k <= s.mirrored && s.disk[k].stat == s.stamp
    ensures s.mirrored < at ==> s.mirror == ChannelsOf(s.disk, at)
  {
  }

  lemma StepKeepsOwn(s: State, a: Action)
    requires Inv(s) && RecurrenceIsHarmless(Apply(s, a).disk) && !a.OutOfBandWrite?
    ensures ThreadInv(Apply(s, a), a.t)
  {
    assert ThreadInv(s, a.t);
    if a.CompareOrLoad? && PcOf(s, a.t).Locked? && s.seeded && s.stamp == PcOf(s, a.t).stat {
      MatchShows(s, PcOf(s, a.t).at);
    }
  }

  /** A step of another thread, or of another process. */
  lemma StepKeepsOther(s: State, a: Action, t: nat)
    requires Inv(s) && RecurrenceIsHarmless(Apply(s, a).disk) && (a.OutOfBandWrite? || a.t != t)
    ensures ThreadInv(Apply(s, a), t)
  {
    var s' := Apply(s, a);
    assert ThreadInv(s, t) && PcOf(s', t) == PcOf(s, t);
    match PcOf(s, t)
    case Returned(at) =>
      if s'.seeded { StepKeepsMirror(s, a); }
    case Locked(_, _) =>
      if !a.OutOfBandWrite? { assert ThreadInv(s, a.t); }
    case Loaded(_, _, _) =>
      if !a.OutOfBandWrite? { assert ThreadInv(s, a.t); }
    case _ =>
  }

  lemma StepKeepsThread(s: State, a: Action, t: nat)
    requires Inv(s) && RecurrenceIsHarmless(Apply(s, a).disk)
    ensures ThreadInv(Apply(s, a), t)
  {
    if a.OutOfBandWrite? || a.t != t { StepKeepsOther(s, a, t); } else { StepKeepsOwn(s, a); }
  }

  lemma StepKeepsMirror(s: State, a: Action)
    requires Inv(s) && RecurrenceIsHarmless(Apply(s, a).disk)
    ensures var s' := Apply(s, a);
      && s.mirrored <= s'.mirrored < |s'.disk|
      && (s'.seeded ==> s'.mirror == ChannelsOf(s'.disk, s'.mirrored))
      && (s'.seeded ==> exists k :: 0 <= k <= s'.mirrored && s'.disk[k].stat == s'.stamp)
  {
    var s' := Apply(s, a);
    if a.Install? && PcOf(s, a.t).Loaded? {
      assert ThreadInv(s, a.t);
      assert s'.disk[PcOf(s, a.t).at].stat == s'.stamp;
    } else if s.seeded {
      var k :| 0 <= k <= s.mirrored && s.disk[k].stat == s.stamp;
      assert s'.disk[k].stat == s.stamp;
      if a.CompareOrLoad? && PcOf(s, a.t).Locked? && s.stamp == PcOf(s, a.t).stat {
        assert ThreadInv(s, a.t);
        MatchShows(s, PcOf(s, a.t).at);
      }
    }
  }

  lemma StepKeepsInv(s: State, a: Action)
    requires Inv(s) && RecurrenceIsHarmless(Apply(s, a).disk)
    ensures Inv(Apply(s, a))
    ensures s.mirrored <= Apply(s, a).mirrored && s.disk <= Apply(s, a).disk
  {
    StepKeepsMirror(s, a);
    forall t ensures ThreadInv(Apply(s, a), t) { StepKeepsThread(s, a, t); }
  }

  lemma PrefixIsHarmless(disk: seq<Version>, whole: seq<Version>)
    requires disk <= whole && RecurrenceIsHarmless(whole)
    ensures RecurrenceIsHarmless(disk)
  {
    forall i, m, j | 0 <= i <= m < j < |disk| && disk[i].stat == disk[j].stat
      ensures ChannelsOf(disk, m) == ChannelsOf(disk, j)
    {
      assert disk[i] == whole[i] && disk[m] == whole[m] && disk[j] == whole[j];
      assert ChannelsOf(whole, m) == ChannelsOf(whole, j);
    }
  }

  /** Over any run the invariant holds and the version the mirror shows never goes back. */
  lemma {:induction false} RunKeepsInv(s: State, actions: seq<Action>)
    requires Inv(s) && RecurrenceIsHarmless(Run(s, actions).disk)
    ensures Inv(Run(s, actions))
    ensures s.mirrored <= Run(s, actions).mirrored
    decreases |actions|
  {
    if actions != [] {
      PrefixIsHarmless(Apply(s, actions[0]).disk, Run(s, actions).disk);
      StepKeepsInv(s, actions[0]);
      RunKeepsInv(Apply(s, actions[0]), actions[1..]);
    }
  }

  /** The mirror holds exactly the non-empty channel names the manifests carry. */
  ghost predicate Mirrors(mirror: set<string>, manifests: seq<Json>) {
    forall c :: c in mirror <==>
      c != "" && exists m <- manifests :: m.Obj? && "channel" in m.fields && m.fields["channel"] == Str(c)
  }

  lemma ChannelsAreMirrored(manifests: seq<Json>)
    ensures Mirrors(Channels(manifests), manifests)
  {
    forall m | m in manifests && m.Get("channel").Str? && m.Get("channel").s != ""
      ensures m.Obj? && m.fields["channel"] == Str(m.Get("channel").s)
    {
    }
  }

  /** A seeded mirror is the channel set of a version no older than the one its stamp
      names, and a sync that returned left it no older than the disk its stat call read. */
  lemma MirrorIsNeverStale(v: Version, actions: seq<Action>)
    requires RecurrenceIsHarmless(Run(Init(v), actions).disk)
    ensures var s := Run(Init(v), actions);
      s.seeded ==> exists named, k ::
        && 0 <= named <= k < |s.disk|
        && s.disk[named].stat == s.stamp
        && s.mirror == ChannelsOf(s.disk, k) && Mirrors(s.mirror, s.disk[k].manifests)
    ensures var s := Run(Init(v), actions);
      forall t :: PcOf(s, t).Returned? ==>
        exists k ::
          && PcOf(s, t).at <= k < |s.disk|
          && s.mirror == ChannelsOf(s.disk, k) && Mirrors(s.mirror, s.disk[k].manifests)
  {
    RunKeepsInv(Init(v), actions);
    var s := Run(Init(v), actions);
    ChannelsAreMirrored(s.disk[s.mirrored].manifests);
    forall t | PcOf(s, t).Returned?
      ensures PcOf(s, t).at <= s.mirrored && s.mirror == ChannelsOf(s.disk, s.mirrored)
    {
      assert ThreadInv(s, t);
    }
  }

  // ---- no thread waits for ever ----------------------------------------------------

  ghost predicate HoldOf(s: State, t: nat) {
    && (PcOf(s, t).Locked? || PcOf(s, t).Loaded? <==> s.lock == Some(t))
    && (PcOf(s, t).Loaded? ==> PcOf(s, t).version < |s.disk|)
  }

  lemma {:induction false} RunKeepsHolds(s: State, actions: seq<Action>)
    requires s.disk != [] && forall t :: HoldOf(s, t)
    ensures forall t :: HoldOf(Run(s, actions), t)
    decreases |actions|
  {
    if actions != [] {
      var a := actions[0];
      if !a.OutOfBandWrite? { assert HoldOf(s, a.t); }
      forall t ensures HoldOf(Apply(s, a), t) { assert HoldOf(s, t); }
      RunKeepsHolds(Apply(s, a), actions[1..]);
    }
  }

  predicate AtRest(pc: Pc) { pc.Idle? || pc.Returned? || pc.LoadFailed? }

  /** Whatever happened before, a thread inside one of the functions, or the holder of the
      lock it waits for, can move, and its lock is free again once it has returned or failed. */
  lemma SomeThreadCanMove(v: Version, actions: seq<Action>, t: nat) returns (a: Action)
    requires !AtRest(PcOf(Run(Init(v), actions), t))
    ensures var s := Run(Init(v), actions);
      && !a.OutOfBandWrite? && (a.t == t || s.lock == Some(a.t))
      && PcOf(Apply(s, a), a.t) != PcOf(s, a.t)
    ensures var s := Run(Init(v), actions);
      s.lock.Some? ==> !AtRest(PcOf(s, s.lock.value))
  {
    var s := Run(Init(v), actions);
    RunKeepsHolds(Init(v), actions);
    assert HoldOf(s, t);
    if s.lock.Some? { assert HoldOf(s, s.lock.value); }
    var u := if (PcOf(s, t).Written? || PcOf(s, t).Statted?) && s.lock.Some? then s.lock.value else t;
    match PcOf(s, u)
    case Written => a := Forget(u);
    case Forgotten => a := ReadStat(u);
    case Statted(_, _) => a := Acquire(u);
    case Locked(_, _) => a := CompareOrLoad(u);
    case Loaded(_, _, _) => a := Install(u);
  }

  // ---- an update reads its own write -----------------------------------------------

  /** The mirror shows version `n` or a later one. */
  ghost predicate Shows(s: State, n: nat) {
    exists k :: n <= k < |s.disk| && s.mirror == ChannelsOf(s.disk, k)
  }

  /** Once thread `t` has dropped the stamp under the lock, nobody can install or trust a
      version before `n`: whoever holds manifests took the lock, and loaded, after that. */
  ghost predicate Dropped(s: State, t: nat, n: nat) {
    && (s.seeded || PcOf(s, t).Returned? ==> Shows(s, n))
    && forall u :: PcOf(s, u).Loaded? ==> n <= PcOf(s, u).version
  }

  ghost predicate UpdateInv(s: State, t: nat, n: nat) {
    n < |s.disk| && (forall u :: HoldOf(s, u)) && (PcOf(s, t).Written? || Dropped(s, t, n))
  }

  lemma StepStillShows(s: State, a: Action, n: nat)
    requires n < |s.disk| && Shows(s, n) && (!a.OutOfBandWrite? ==> HoldOf(s, a.t))
    requires a.Install? && PcOf(s, a.t).Loaded? ==> n <= PcOf(s, a.t).version
    ensures Shows(Apply(s, a), n)
  {
    var k :| n <= k < |s.disk| && s.mirror == ChannelsOf(s.disk, k);
    var s' := Apply(s, a);
    if a.Install? && PcOf(s, a.t).Loaded? {
      assert s'.mirror == ChannelsOf(s'.disk, PcOf(s, a.t).version);
    } else {
      assert s'.mirror == ChannelsOf(s'.disk, k);
    }
  }

  lemma StepKeepsDropped(s: State, a: Action, t: nat, n: nat)
    requires n < |s.disk| && (forall u :: HoldOf(s, u)) && Dropped(s, t, n)
    ensures Dropped(Apply(s, a), t, n)
  {
    var s' := Apply(s, a);
    if !a.OutOfBandWrite? { assert HoldOf(s, a.t); }
    if Shows(s, n) {
      StepStillShows(s, a, n);
    } else if a.Install? && PcOf(s, a.t).Loaded? {
      assert s'.mirror == ChannelsOf(s'.disk, PcOf(s, a.t).version);
    }
    forall u | PcOf(s', u).Loaded? ensures n <= PcOf(s', u).version {
      assert HoldOf(s, u);
    }
  }

  lemma StepKeepsUpdate(s: State, a: Action, t: nat, n: nat)
    requires UpdateInv(s, t, n)
    ensures UpdateInv(Apply(s, a), t, n)
  {
    var s' := Apply(s, a);
    if !a.OutOfBandWrite? { assert HoldOf(s, a.t); }
    forall u ensures HoldOf(s', u) { assert HoldOf(s, u); }
    if !PcOf(s, t).Written? {
      StepKeepsDropped(s, a, t, n);
    } else if a.Forget? && a.t == t && s.lock.None? {
      forall u ensures !PcOf(s', u).Loaded? { assert HoldOf(s, u); }
    }
  }

  lemma {:induction false} RunKeepsUpdate(s: State, t: nat, n: nat, actions: seq<Action>)
    requires UpdateInv(s, t, n)
    ensures UpdateInv(Run(s, actions), t, n)
    decreases |actions|
  {
    if actions != [] {
      StepKeepsUpdate(s, actions[0], t, n);
      RunKeepsUpdate(Apply(s, actions[0]), t, n, actions[1..]);
    }
  }

  /** `_update_hook_registry` reads its own write, whatever ran before and in between and
      however stats recur: once the sync it ends with has returned, the mirror is no older
      than the version it committed.  Dropping the stamp is what makes this unconditional. */
  lemma UpdateIsVisibleOnReturn(v: Version, before: seq<Action>, t: nat, w: Version, actions: seq<Action>)
    requires AtRest(PcOf(Run(Init(v), before), t))
    requires PcOf(Run(Apply(Run(Init(v), before), Update(t, Some(w))), actions), t).Returned?
    ensures var n := |Run(Init(v), before).disk|;
      var end := Run(Apply(Run(Init(v), before), Update(t, Some(w))), actions);
      exists k ::
        n <= k < |end.disk| && end.mirror == ChannelsOf(end.disk, k) && Mirrors(end.mirror, end.disk[k].manifests)
  {
    var s := Run(Init(v), before);
    RunKeepsHolds(Init(v), before);
    var s1 := Apply(s, Update(t, Some(w)));
    assert UpdateInv(s1, t, |s.disk|) by {
      assert HoldOf(s, t);
      forall u ensures HoldOf(s1, u) { assert HoldOf(s, u); }
    }
    RunKeepsUpdate(s1, t, |s.disk|, actions);
    var end := Run(s1, actions);
    var k :| |s.disk| <= k < |end.disk| && end.mirror == ChannelsOf(end.disk, k);
    ChannelsAreMirrored(end.disk[k].manifests);
  }

  // ---- exactly when ----------------------------------------------------------------

  lemma DistinctStatsAreHarmless(disk: seq<Version>)
    requires NoStatRecurs(disk)
    ensures RecurrenceIsHarmless(disk)
  {
  }

  /** Thread `t` returned from a sync that read version `at`, and the mirror is older. */
  ghost predicate Stale(s: State, t: nat) {
    PcOf(s, t).Returned? && forall k :: PcOf(s, t).at <= k < |s.disk| ==> s.mirror != ChannelsOf(s.disk, k)
  }

  lemma {:induction false} RunConcat(s: State, a: seq<Action>, b: seq<Action>)
    requires s.disk != []
    ensures Run(s, a + b) == Run(Run(s, a), b)
    decreases |a|
  {
    if a == [] {
      assert a + b == b;
    } else {
      assert (a + b)[1..] == a[1..] + b;
      RunConcat(Apply(s, a[0]), a[1..], b);
    }
  }

  function Writes(versions: seq<Version>): seq<Action> {
    seq(|versions|, k requires 0 <= k < |versions| => OutOfBandWrite(versions[k]))
  }

  lemma {:induction false} RunOfWrites(s: State, versions: seq<Version>)
    requires s.disk != []
    ensures Run(s, Writes(versions)) == s.(disk := s.disk + versions)
    decreases |versions|
  {
    if versions == [] {
      assert s.disk + versions == s.disk;
    } else {
      assert Writes(versions)[1..] == Writes(versions[1..]);
      RunOfWrites(Apply(s, OutOfBandWrite(versions[0])), versions[1..]);
      assert s.disk + [versions[0]] + versions[1..] == s.disk + versions;
    }
  }

  /** Other processes write the versions up to `k`. */
  lemma WriteUpTo(s: State, disk: seq<Version>, n: nat, k: nat) returns (actions: seq<Action>)
    requires 1 <= n <= k <= |disk| && s.disk == disk[..n]
    ensures Run(s, actions) == s.(disk := disk[..k])
  {
    var more := disk[n..k];
    actions := Writes(more);
    RunOfWrites(s, more);
    assert s.disk + more == disk[..k];
  }

  lemma Run2(s: State, a: Action, b: Action)
    requires s.disk != []
    ensures Run(s, [a, b]) == Apply(Apply(s, a), b)
  {
    assert [a, b][1..] == [b] && [b][1..] == [];
    assert Run(Apply(s, a), [b]) == Run(Apply(Apply(s, a), b), []);
  }

  function AfterStat(disk: seq<Version>, i: nat): State
    requires i < |disk|
  {
    State(disk[..i + 1], {}, None, false, Some(0), map[0 := Locked(disk[i].stat, i)], 0)
  }

  lemma StatEarly(disk: seq<Version>, i: nat) returns (actions: seq<Action>)
    requires i < |disk|
    ensures Run(Init(disk[0]), actions) == AfterStat(disk, i)
  {
    var s0, r := Init(disk[0]), [ReadStat(0), Acquire(0)];
    assert s0.disk == disk[..1];
    var w := WriteUpTo(s0, disk, 1, i + 1);
    actions := w + r;
    Run2(s0.(disk := disk[..i + 1]), ReadStat(0), Acquire(0));
    RunConcat(s0, w, r);
  }

  function SyncedOnce(disk: seq<Version>, i: nat): State
    requires i < |disk|
  {
    State(disk, ChannelsOf(disk, |disk| - 1), disk[i].stat, true, None, map[0 := Returned(i)], |disk| - 1)
  }

  lemma LoadNow(s: State, i: nat) returns (actions: seq<Action>)
    requires i < |s.disk| && !s.seeded && s.pcs == map[0 := Locked(s.disk[i].stat, i)]
    ensures Run(s, actions) == SyncedOnce(s.disk, i)
  {
    actions := [CompareOrLoad(0), Install(0)];
    Run2(s, CompareOrLoad(0), Install(0));
  }

  /** One sync reads the stat of version `i` and, after more writes, loads version `m`. */
  lemma LoadLate(disk: seq<Version>, i: nat, m: nat) returns (actions: seq<Action>)
    requires i <= m < |disk|
    ensures Run(Init(disk[0]), actions) == SyncedOnce(disk[..m + 1], i)
  {
    var first := StatEarly(disk, i);
    var s := AfterStat(disk, i);
    var w := WriteUpTo(s, disk, i + 1, m + 1);
    var l := LoadNow(s.(disk := disk[..m + 1]), i);
    actions := first + w + l;
    RunConcat(Init(disk[0]), first, w);
    RunConcat(Init(disk[0]), first + w, l);
  }

  /** A sync that reads the stamped stat returns without loading. */
  lemma SyncReturnsAtOnce(s: State) returns (actions: seq<Action>)
    requires s.disk != [] && s.seeded && s.stamp == s.disk[Newest(s)].stat && s.lock.None? && PcOf(s, 0).Returned?
    ensures var end := Run(s, actions);
      end.disk == s.disk && end.mirror == s.mirror && PcOf(end, 0) == Returned(Newest(s))
  {
    var r, last := [ReadStat(0), Acquire(0)], [CompareOrLoad(0)];
    actions := r + last;
    Run2(s, ReadStat(0), Acquire(0));
    var s1 := Run(s, r);
    assert PcOf(s1, 0) == Locked(s.stamp, Newest(s));
    RunConcat(s, r, last);
    assert last[1..] == [];
    assert Run(s1, last) == Run(Apply(s1, CompareOrLoad(0)), []);
  }

  /** When a write reuses the stamped stat, a sync returns at once and the mirror stays. */
  lemma RecurringStatLeavesMirrorStale(disk: seq<Version>, i: nat, m: nat, j: nat) returns (actions: seq<Action>)
    requires i <= m < j < |disk| && disk[i].stat == disk[j].stat && ChannelsOf(disk, m) != ChannelsOf(disk, j)
    ensures var end := Run(Init(disk[0]), actions);
      end.disk == disk[..j + 1] && Stale(end, 0)
  {
    var load := LoadLate(disk, i, m);
    var s := SyncedOnce(disk[..m + 1], i);
    var w := WriteUpTo(s, disk, m + 1, j + 1);
    var s1 := s.(disk := disk[..j + 1]);
    var r := SyncReturnsAtOnce(s1);
    actions := load + w + r;
    ThreeRuns(Init(disk[0]), load, s, w, s1, r);
    StaleAt(Run(s1, r), disk, m, j);
  }

  lemma ThreeRuns(s0: State, a: seq<Action>, s1: State, b: seq<Action>, s2: State, c: seq<Action>)
    requires s0.disk != [] && Run(s0, a) == s1 && s1.disk != [] && Run(s1, b) == s2
    ensures Run(s0, a + b + c) == Run(s2, c)
  {
    RunConcat(s0, a, b);
    RunConcat(s0, a + b, c);
  }

  lemma StaleAt(end: State, disk: seq<Version>, m: nat, j: nat)
    requires m < j < |disk| && end.disk == disk[..j + 1] && PcOf(end, 0) == Returned(j)
    requires end.mirror == ChannelsOf(disk, m) != ChannelsOf(disk, j)
    ensures Stale(end, 0)
  {
    assert ChannelsOf(end.disk, j) == ChannelsOf(disk, j);
  }

  /** For a history of registry versions, no sync ever returns with a mirror older than the
      disk it read, under any interleaving, exactly when recurring stats are harmless. */
  lemma NeverStaleIffHarmless(disk: seq<Version>)
    requires disk != []
    ensures RecurrenceIsHarmless(disk) <==>
      forall actions: seq<Action>, t: nat | Run(Init(disk[0]), actions).disk <= disk ::
        !Stale(Run(Init(disk[0]), actions), t)
  {
    if RecurrenceIsHarmless(disk) {
      forall actions: seq<Action>, t: nat | Run(Init(disk[0]), actions).disk <= disk
        ensures !Stale(Run(Init(disk[0]), actions), t)
      {
        PrefixIsHarmless(Run(Init(disk[0]), actions).disk, disk);
        MirrorIsNeverStale(disk[0], actions);
      }
    } else {
      var i: nat, m: nat, j: nat :| i <= m < j < |disk| && disk[i].stat == disk[j].stat
        && ChannelsOf(disk, m) != ChannelsOf(disk, j);
      var actions := RecurringStatLeavesMirrorStale(disk, i, m, j);
      assert Run(Init(disk[0]), actions).disk <= disk;
    }
  }

  /** In particular where every version has a stat of its own. */
  lemma NeverStaleWithDistinctStats(v: Version, actions: seq<Action>, t: nat)
    requires NoStatRecurs(Run(Init(v), actions).disk)
    ensures !Stale(Run(Init(v), actions), t)
  {
    var disk := Run(Init(v), actions).disk;
    DistinctStatsAreHarmless(disk);
    MirrorIsNeverStale(v, actions);
  }
}
