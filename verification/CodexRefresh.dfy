/** Cross-process OAuth refresh over one token file (src/lingtai/auth/codex.py).

    The grant is the refresh of section 6 of RFC 6749 with the rotation of section 10.4:
    the server retires each refresh token it accepts and answers with a new one.  A run is
    any sequence of actions of any number of processes; disabled actions change nothing. */
module CodexRefresh {
  import opened Common

  const REFRESH_BUFFER_SECONDS := 300

  /** Tokens are numbered in the order the server issues them. */
  datatype Tokens = Tokens(access: nat, refresh: Option<nat>, expiresAt: int)

  datatype Pc =
    | Ready
    | WantLock(data: Tokens, rejected: Option<nat>)
    | InLock(data: Tokens, rejected: Option<nat>)
    | MustPost(latest: Tokens, refreshToken: nat, rejected: Option<nat>)
    | Posted(merged: Tokens, rejected: Option<nat>)  // response in hand, file not yet replaced
    | Reading(rejected: Option<nat>)                 // lock released, about to read the result
    | Done(access: nat, rejected: Option<nat>)
    | Failed

  /** `since` is the clock when its current call began. */
  datatype Proc = Proc(cache: Option<Tokens>, pc: Pc, since: int)

  /** A post the server answered: who was rejected, the access token replaced, the one issued. */
  datatype Post = Post(rejected: Option<nat>, replaced: nat, issued: nat, accepted: bool)

  datatype State = State(
    file: Tokens, retired: set<nat>, next: nat, now: int,
    lock: Option<nat>, procs: map<nat, Proc>, posts: seq<Post>,
    granted: set<Tokens>)                        // history: the login and every answer

  datatype Action =
    | Tick(seconds: nat)
    | GetAccessToken(p: nat, cacheHit: bool)
    | RefreshRejected(p: nat, rejected: nat, cacheHit: bool)
    | Acquire(p: nat)
    | RereadAndDecide(p: nat)
    | SendPost(p: nat, expiresAt: int)
    | PostLost(p: nat)                           // the request fails before the server acts on it
    | Replace(p: nat)
    | ReadBack(p: nat, cacheHit: bool)
    | Crash(p: nat)

  function ProcOf(s: State, p: nat): Proc {
    if p in s.procs then s.procs[p] else Proc(None, Ready, 0)
  }

  /** `_read`: a coarse mtime may serve the cached parse of an older file. */
  function Read(s: State, p: nat, cacheHit: bool): Tokens {
    if cacheHit && ProcOf(s, p).cache.Some? then ProcOf(s, p).cache.value else s.file
  }

  predicate AtRest(pc: Pc) { pc.Ready? || pc.Done? || pc.Failed? }

  predicate Holds(pc: Pc) { pc.InLock? || pc.MustPost? || pc.Posted? }

  predicate ExpiresSafely(t: Tokens, now: int) { t.expiresAt > now + REFRESH_BUFFER_SECONDS }

  function With(s: State, p: nat, cache: Option<Tokens>, pc: Pc): State {
    s.(procs := s.procs[p := Proc(cache, pc, ProcOf(s, p).since)])
  }

  /** A call begins with the first read. */
  function Begin(s: State, p: nat, data: Tokens, pc: Pc): State {
    s.(procs := s.procs[p := Proc(Some(data), pc, s.now)])
  }

  function Apply(s: State, a: Action): State {
    match a
    case Tick(seconds) => s.(now := s.now + seconds)
    case GetAccessToken(p, hit) =>
      if !AtRest(ProcOf(s, p).pc) then s
      else
        var data := Read(s, p, hit);
        Begin(s, p, data,
          if s.now + REFRESH_BUFFER_SECONDS >= data.expiresAt then WantLock(data, None) else Done(data.access, None))
    case RefreshRejected(p, rejected, hit) =>
      // Only a token that was once issued can have been rejected.
      if !AtRest(ProcOf(s, p).pc) || rejected >= s.next then s
      else Begin(s, p, Read(s, p, hit), WantLock(Read(s, p, hit), Some(rejected)))
    case Acquire(p) =>
      if !ProcOf(s, p).pc.WantLock? || s.lock.Some? then s
      else With(s.(lock := Some(p)), p, None, InLock(ProcOf(s, p).pc.data, ProcOf(s, p).pc.rejected))
    case RereadAndDecide(p) =>
      if !ProcOf(s, p).pc.InLock? then s
      else
        var InLock(data, rejected) := ProcOf(s, p).pc;
        var latest := s.file;
        var alreadyReplaced := rejected.Some? && Some(latest.access) != rejected;
        if ExpiresSafely(latest, s.now) && (rejected.None? || alreadyReplaced)
        then With(s.(lock := None), p, Some(latest), Reading(rejected))
        else
          var refresh := if latest.refresh.Some? then latest.refresh else data.refresh;
          if refresh.None? then With(s.(lock := None), p, Some(latest), Failed)
          else With(s, p, Some(latest), MustPost(latest, refresh.value, rejected))
    case SendPost(p, expiresAt) =>
      if !ProcOf(s, p).pc.MustPost? then s
      else
        var MustPost(latest, token, rejected) := ProcOf(s, p).pc;
        var post := Post(rejected, latest.access, s.next, token !in s.retired);
        if token in s.retired
        then With(s.(lock := None, posts := s.posts + [post]), p, Some(latest), Failed)
        else
          var merged := Tokens(s.next, Some(s.next + 1), expiresAt);
          With(s.(retired := s.retired + {token}, next := s.next + 2, posts := s.posts + [post],
                  granted := s.granted + {merged}),
               p, Some(latest), Posted(merged, rejected))
    case PostLost(p) =>
      if !ProcOf(s, p).pc.MustPost? then s
      else With(s.(lock := None), p, ProcOf(s, p).cache, Failed)
    case Replace(p) =>
      if !ProcOf(s, p).pc.Posted? then s
      else With(s.(file := ProcOf(s, p).pc.merged, lock := None), p, None, Reading(ProcOf(s, p).pc.rejected))
    case ReadBack(p, hit) =>
      if !ProcOf(s, p).pc.Reading? then s
      else With(s, p, Some(Read(s, p, hit)), Done(Read(s, p, hit).access, ProcOf(s, p).pc.rejected))
    case Crash(p) =>
      // A crash between the post and the replace is the one excluded by hypothesis.
      if ProcOf(s, p).pc.Posted? then s
      else With(s.(lock := if s.lock == Some(p) then None else s.lock), p, None, Ready)
  }

  function Run(s: State, actions: seq<Action>): State
    decreases |actions|
  {
    if actions == [] then s else Run(Apply(s, actions[0]), actions[1..])
  }

  /** A login wrote the file; no process has started. */
  function Init(login: Tokens, now: int): State {
    State(login, {}, 1 + login.access + (if login.refresh.Some? then login.refresh.value else 0), now,
          None, map[], [], {login})
  }

  // ---- no retired token is posted ---------------------------------------------------

  /** The live credential: the file's, or the response its lock holder is about to write. */
  function Current(s: State): Tokens {
    if s.lock.Some? && ProcOf(s, s.lock.value).pc.Posted? then ProcOf(s, s.lock.value).pc.merged else s.file
  }

  ghost predicate ProcInv(s: State, p: nat) {
    var pc := ProcOf(s, p).pc;
    && (Holds(pc) ==> s.lock == Some(p))
    && (pc.MustPost? ==> pc.latest == s.file && Some(pc.refreshToken) == s.file.refresh)
  }

  ghost predicate Inv(s: State) {
    && (forall p :: ProcInv(s, p))
    && (s.lock.Some? ==> Holds(ProcOf(s, s.lock.value).pc))
    && (forall t <- s.retired :: t < s.next)
    && Current(s).refresh.Some? && Current(s).refresh.value < s.next && Current(s).refresh.value !in s.retired
    && (forall post <- s.posts :: post.accepted)
  }

  lemma StepKeepsInv(s: State, a: Action)
    requires Inv(s)
    ensures Inv(Apply(s, a))
  {
    var s' := Apply(s, a);
    if !a.Tick? { assert ProcInv(s, a.p); }
    if s.lock.Some? { assert ProcInv(s, s.lock.value); }
    forall p ensures ProcInv(s', p) {
      assert ProcInv(s, p);
    }
  }

  lemma {:induction false} RunKeepsInv(s: State, actions: seq<Action>)
    requires Inv(s)
    ensures Inv(Run(s, actions))
    decreases |actions|
  {
    if actions != [] {
      StepKeepsInv(s, actions[0]);
      RunKeepsInv(Apply(s, actions[0]), actions[1..]);
    }
  }

  /** Whatever the interleaving, the server accepts every post, and no process about to
      post holds a retired refresh token. */
  lemma NoRetiredTokenIsPosted(login: Tokens, now: int, actions: seq<Action>)
    requires login.refresh.Some?
    ensures var s := Run(Init(login, now), actions);
      && (forall post <- s.posts :: post.accepted)
      && (forall p :: ProcOf(s, p).pc.MustPost? ==> ProcOf(s, p).pc.refreshToken !in s.retired)
  {
    RunKeepsInv(Init(login, now), actions);
    var s := Run(Init(login, now), actions);
    forall p | ProcOf(s, p).pc.MustPost? ensures ProcOf(s, p).pc.refreshToken !in s.retired {
      assert ProcInv(s, p);
    }
  }

  // ---- one post per rejected token --------------------------------------------------

  /** The server's answers outlive the horizon no clock of the run passes. */
  ghost predicate LongLived(actions: seq<Action>, horizon: int) {
    forall a <- actions :: a.SendPost? ==> a.expiresAt > horizon + REFRESH_BUFFER_SECONDS
  }

  function RejectedOf(pc: Pc): Option<nat> {
    if AtRest(pc) && !pc.Done? then None else pc.rejected
  }

  /** The posts form a chain: each replaces what the previous one issued, and after the
      first each was made because exactly that token was rejected. */
  ghost predicate Chain(posts: seq<Post>) {
    && (forall i :: 0 <= i < |posts| ==> posts[i].replaced < posts[i].issued)
    && (forall i :: 0 <= i < |posts| && posts[i].rejected.Some? ==> posts[i].rejected.value < posts[i].issued)
    && (forall i :: 0 < i < |posts| ==> posts[i].replaced == posts[i - 1].issued)
    && (forall i :: 0 < i < |posts| ==> posts[i].rejected == Some(posts[i].replaced))
  }

  ghost predicate ChainEnd(s: State, horizon: int) {
    && Chain(s.posts)
    && Current(s).access < s.next
    && (s.posts != [] ==> s.posts[|s.posts| - 1].issued == Current(s).access
                          && Current(s).expiresAt > horizon + REFRESH_BUFFER_SECONDS)
  }

  ghost predicate CallerInv(s: State, p: nat) {
    var pc := ProcOf(s, p).pc;
    && (RejectedOf(pc).Some? ==> RejectedOf(pc).value < s.next)
    && (pc.MustPost? && s.posts != [] ==> pc.rejected == Some(pc.latest.access))
  }

  ghost predicate ChainInv(s: State, horizon: int) {
    ChainEnd(s, horizon) && forall p :: CallerInv(s, p)
  }

  lemma ChainGrows(posts: seq<Post>, post: Post)
    requires Chain(posts) && post.replaced < post.issued
    requires post.rejected.Some? ==> post.rejected.value < post.issued
    requires posts != [] ==> post.replaced == posts[|posts| - 1].issued && post.rejected == Some(post.replaced)
    ensures Chain(posts + [post])
  {
  }

  /** Only an answered post changes the live credential. */
  lemma CurrentChangesOnlyByPost(s: State, a: Action)
    requires Inv(s) && !a.SendPost?
    ensures Current(Apply(s, a)) == Current(s) && Apply(s, a).posts == s.posts && Apply(s, a).next == s.next
  {
    if !a.Tick? { assert ProcInv(s, a.p); }
    if s.lock.Some? { assert ProcInv(s, s.lock.value); }
  }

  lemma StepKeepsChainEnd(s: State, a: Action, horizon: int)
    requires Inv(s) && ChainEnd(s, horizon)
    requires a.SendPost? ==> a.expiresAt > horizon + REFRESH_BUFFER_SECONDS && CallerInv(s, a.p)
    ensures ChainEnd(Apply(s, a), horizon)
  {
    if !a.SendPost? {
      CurrentChangesOnlyByPost(s, a);
    } else if ProcOf(s, a.p).pc.MustPost? {
      assert ProcInv(s, a.p) && Current(s) == s.file;
      var MustPost(latest, token, rejected) := ProcOf(s, a.p).pc;
      var post := Post(rejected, latest.access, s.next, true);
      assert Apply(s, a).posts == s.posts + [post];
      ChainGrows(s.posts, post);
    }
  }

  lemma OwnStepKeepsCaller(s: State, a: Action, horizon: int)
    requires Inv(s) && ChainEnd(s, horizon) && s.now <= horizon && !a.Tick? && CallerInv(s, a.p)
    ensures CallerInv(Apply(s, a), a.p)
  {
    assert ProcInv(s, a.p);
  }

  lemma OtherStepKeepsCaller(s: State, a: Action, p: nat)
    requires Inv(s) && CallerInv(s, p) && (a.Tick? || a.p != p)
    ensures CallerInv(Apply(s, a), p)
  {
    assert ProcInv(s, p) && ProcOf(Apply(s, a), p) == ProcOf(s, p) && s.next <= Apply(s, a).next;
    if a.SendPost? { assert ProcInv(s, a.p); }
  }

  lemma StepKeepsCaller(s: State, a: Action, horizon: int, p: nat)
    requires Inv(s) && ChainEnd(s, horizon) && s.now <= horizon && CallerInv(s, p)
    ensures CallerInv(Apply(s, a), p)
  {
    if a.Tick? || a.p != p { OtherStepKeepsCaller(s, a, p); } else { OwnStepKeepsCaller(s, a, horizon); }
  }

  lemma StepKeepsChain(s: State, a: Action, horizon: int)
    requires Inv(s) && ChainInv(s, horizon) && s.now <= horizon
    requires a.SendPost? ==> a.expiresAt > horizon + REFRESH_BUFFER_SECONDS
    ensures ChainInv(Apply(s, a), horizon)
  {
    if a.SendPost? { assert CallerInv(s, a.p); }
    StepKeepsChainEnd(s, a, horizon);
    forall p ensures CallerInv(Apply(s, a), p) { StepKeepsCaller(s, a, horizon, p); }
  }

  lemma {:induction false} RunKeepsChain(s: State, actions: seq<Action>, horizon: int)
    requires Inv(s) && ChainInv(s, horizon) && LongLived(actions, horizon)
    requires Run(s, actions).now <= horizon
    ensures ChainInv(Run(s, actions), horizon)
    decreases |actions|
  {
    if actions != [] {
      ClockOnlyAdvances(s, actions);
      assert actions[0] in actions;
      StepKeepsInv(s, actions[0]);
      StepKeepsChain(s, actions[0], horizon);
      assert LongLived(actions[1..], horizon) by { assert forall a <- actions[1..] :: a in actions; }
      RunKeepsChain(Apply(s, actions[0]), actions[1..], horizon);
    }
  }

  lemma {:induction false} ClockOnlyAdvances(s: State, actions: seq<Action>)
    ensures s.now <= Run(s, actions).now
    decreases |actions|
  {
    if actions != [] { ClockOnlyAdvances(Apply(s, actions[0]), actions[1..]); }
  }

  lemma {:induction false} IssuedGrows(posts: seq<Post>, i: nat, j: nat)
    requires Chain(posts) && i <= j < |posts|
    ensures posts[i].issued <= posts[j].issued
  {
    if i < j { IssuedGrows(posts, i, j - 1); }
  }

  /** All callers rejected with the same access token cause at most one post, however many
      processes they run in and however they interleave. */
  lemma OnePostPerRejectedToken(login: Tokens, now: int, actions: seq<Action>, horizon: int)
    requires login.refresh.Some? && LongLived(actions, horizon)
    requires Run(Init(login, now), actions).now <= horizon
    ensures var posts := Run(Init(login, now), actions).posts;
      forall i, j :: 0 <= i < j < |posts| && posts[i].rejected.Some? ==> posts[i].rejected != posts[j].rejected
  {
    RunKeepsChain(Init(login, now), actions, horizon);
    var posts := Run(Init(login, now), actions).posts;
    forall i, j | 0 <= i < j < |posts| && posts[i].rejected.Some? ensures posts[i].rejected != posts[j].rejected {
      IssuedGrows(posts, i, j - 1);
    }
  }

  // ---- what a rejected caller gets back ---------------------------------------------

  ghost predicate ReplacedFor(s: State, p: nat) {
    var Proc(cache, pc, _) := ProcOf(s, p);
    var rejected := RejectedOf(pc);
    && (rejected.Some? ==> rejected.value < s.next)
    && (pc.Posted? ==> Some(pc.merged.access) != rejected)
    && (pc.Done? ==> Some(pc.access) != rejected)
    && (pc.Reading? ==> && Some(s.file.access) != rejected && Some(Current(s).access) != rejected
                        && (cache.Some? ==> Some(cache.value.access) != rejected))
  }

  /** The live credential's access token only ever changes to one issued just now. */
  lemma AccessOnlyChangesToNewest(s: State, a: Action)
    requires Inv(s)
    ensures Current(Apply(s, a)).access == Current(s).access || Current(Apply(s, a)).access == s.next
    ensures Apply(s, a).file.access == s.file.access || Apply(s, a).file.access == Current(s).access
  {
    if !a.SendPost? { CurrentChangesOnlyByPost(s, a); }
    if !a.Tick? { assert ProcInv(s, a.p); }
  }

  lemma OwnStepKeepsReplaced(s: State, a: Action)
    requires Inv(s) && !a.Tick? && ReplacedFor(s, a.p)
    ensures ReplacedFor(Apply(s, a), a.p)
  {
    assert ProcInv(s, a.p);
  }

  lemma OtherStepKeepsReplaced(s: State, a: Action, p: nat)
    requires Inv(s) && ReplacedFor(s, p) && (a.Tick? || a.p != p)
    ensures ReplacedFor(Apply(s, a), p)
  {
    AccessOnlyChangesToNewest(s, a);
    assert ProcOf(Apply(s, a), p) == ProcOf(s, p) && s.next <= Apply(s, a).next;
  }

  lemma StepKeepsReplaced(s: State, a: Action, p: nat)
    requires Inv(s) && ReplacedFor(s, p)
    ensures ReplacedFor(Apply(s, a), p)
  {
    if a.Tick? || a.p != p { OtherStepKeepsReplaced(s, a, p); } else { OwnStepKeepsReplaced(s, a); }
  }

  lemma {:induction false} RunKeepsReplaced(s: State, actions: seq<Action>)
    requires Inv(s) && forall p :: ReplacedFor(s, p)
    ensures forall p :: ReplacedFor(Run(s, actions), p)
    decreases |actions|
  {
    if actions != [] {
      StepKeepsInv(s, actions[0]);
      forall p ensures ReplacedFor(Apply(s, actions[0]), p) { StepKeepsReplaced(s, actions[0], p); }
      RunKeepsReplaced(Apply(s, actions[0]), actions[1..]);
    }
  }

  /** A call that returns after a rejection never returns the rejected token, even when the
      final read is served from a cache a coarse mtime failed to invalidate. */
  lemma RejectedTokenIsNeverReturned(login: Tokens, now: int, actions: seq<Action>, p: nat)
    requires login.refresh.Some?
    ensures var pc := ProcOf(Run(Init(login, now), actions), p).pc;
      pc.Done? && pc.rejected.Some? ==> pc.access != pc.rejected.value
  {
    RunKeepsReplaced(Init(login, now), actions);
    assert ReplacedFor(Run(Init(login, now), actions), p);
  }

  // ---- the token handed out has time left ---------------------------------------------

  ghost predicate Outlives(t: Tokens, since: int) {
    t.expiresAt > since + 300
  }

  /** A call about to read its result finds, in its cache and in the file, now and after the
      response under way is written, only credentials with time left since it began. */
  ghost predicate FreshFor(s: State, p: nat, horizon: int) {
    var Proc(cache, pc, since) := ProcOf(s, p);
    && (!pc.Ready? ==> since <= s.now)
    && (pc.Posted? ==> Outlives(pc.merged, horizon))
    && (pc.Reading? ==> Outlives(s.file, since) && Outlives(Current(s), since)
                        && (cache.Some? ==> Outlives(cache.value, since)))
    && (pc.Done? ==> cache.Some? && cache.value.access == pc.access && Outlives(cache.value, since))
  }

  lemma OwnStepKeepsFresh(s: State, a: Action, horizon: int)
    requires Inv(s) && s.now <= horizon && !a.Tick? && FreshFor(s, a.p, horizon)
    requires a.SendPost? ==> Outlives(Tokens(0, None, a.expiresAt), horizon)
    ensures FreshFor(Apply(s, a), a.p, horizon)
  {
    assert ProcInv(s, a.p);
  }

  /** The live credential and the file only ever change to an answer just given. */
  lemma OtherStepKeepsFresh(s: State, a: Action, p: nat, horizon: int)
    requires Inv(s) && Apply(s, a).now <= horizon && FreshFor(s, p, horizon) && (a.Tick? || a.p != p)
    requires a.SendPost? ==> Outlives(Tokens(0, None, a.expiresAt), horizon)
    ensures FreshFor(Apply(s, a), p, horizon)
  {
    if !a.SendPost? { CurrentChangesOnlyByPost(s, a); }
    if !a.Tick? { assert ProcInv(s, a.p); }
    assert p in s.procs ==> ProcOf(Apply(s, a), p) == ProcOf(s, p);
  }

  lemma {:induction false} RunKeepsFresh(s: State, actions: seq<Action>, horizon: int)
    requires Inv(s) && (forall p :: FreshFor(s, p, horizon)) && LongLived(actions, horizon)
    requires Run(s, actions).now <= horizon
    ensures forall p :: FreshFor(Run(s, actions), p, horizon)
    decreases |actions|
  {
    if actions != [] {
      ClockOnlyAdvances(s, actions);
      var a, s' := actions[0], Apply(s, actions[0]);
      ClockOnlyAdvances(s', actions[1..]);
      assert a in actions && forall b <- actions[1..] :: b in actions;
      StepKeepsInv(s, a);
      forall p ensures FreshFor(s', p, horizon) {
        assert FreshFor(s, p, horizon);
        if a.Tick? || a.p != p { OtherStepKeepsFresh(s, a, p, horizon); } else { OwnStepKeepsFresh(s, a, horizon); }
      }
      RunKeepsFresh(s', actions[1..], horizon);
    }
  }

  /** Every credential in the file, in a cache or in hand is the login or an answer. */
  ghost predicate Genuine(s: State) {
    s.file in s.granted && forall p :: GenuineFor(s, p)
  }

  ghost predicate GenuineFor(s: State, p: nat) {
    var Proc(cache, pc, _) := ProcOf(s, p);
    (cache.Some? ==> cache.value in s.granted) && (pc.Posted? ==> pc.merged in s.granted)
  }

  lemma StepKeepsGenuine(s: State, a: Action)
    requires Inv(s) && Genuine(s)
    ensures Genuine(Apply(s, a))
  {
    if !a.Tick? { assert GenuineFor(s, a.p) && ProcInv(s, a.p); }
    forall p ensures GenuineFor(Apply(s, a), p) { assert GenuineFor(s, p); }
  }

  lemma {:induction false} RunKeepsGenuine(s: State, actions: seq<Action>)
    requires Inv(s) && Genuine(s)
    ensures Genuine(Run(s, actions))
    decreases |actions|
  {
    if actions != [] {
      StepKeepsInv(s, actions[0]);
      StepKeepsGenuine(s, actions[0]);
      RunKeepsGenuine(Apply(s, actions[0]), actions[1..]);
    }
  }

  /** Whatever the interleaving, a call that has returned, rejected before or not, handed out
      the access token of a genuine credential it read, one that expired more than 300
      seconds after the call began. */
  lemma ReturnedTokenHasTimeLeft(login: Tokens, now: int, actions: seq<Action>, horizon: int, p: nat)
    requires login.refresh.Some? && LongLived(actions, horizon)
    requires Run(Init(login, now), actions).now <= horizon
    ensures var s := Run(Init(login, now), actions);
      var Proc(cache, pc, since) := ProcOf(s, p);
      pc.Done? ==>
        && cache.Some? && cache.value in s.granted
        && pc.access == cache.value.access && cache.value.expiresAt > since + 300
  {
    ClockOnlyAdvances(Init(login, now), actions);
    RunKeepsFresh(Init(login, now), actions, horizon);
    RunKeepsGenuine(Init(login, now), actions);
    assert GenuineFor(Run(Init(login, now), actions), p);
    assert FreshFor(Run(Init(login, now), actions), p, horizon);
  }

  /** The first read decides alone: a call returns at once exactly when what it read has more
      than 300 seconds left, and goes for the lock otherwise. */
  lemma FirstReadDecides(s: State, p: nat, cacheHit: bool)
    requires AtRest(ProcOf(s, p).pc)
    ensures var data := if cacheHit && ProcOf(s, p).cache.Some? then ProcOf(s, p).cache.value else s.file;
      var after := ProcOf(Apply(s, GetAccessToken(p, cacheHit)), p);
      && after.since == s.now
      && after.pc == if data.expiresAt > s.now + 300 then Done(data.access, None) else WantLock(data, None)
  {
  }

  // ---- nobody posts needlessly, fails or waits for ever ---------------------------------

  ghost predicate Needs(s: State, p: nat) {
    var pc := ProcOf(s, p).pc;
    && (pc.MustPost? ==> pc.rejected == Some(pc.latest.access) || pc.latest.expiresAt <= s.now + 300)
    && !pc.Failed?
  }

  lemma StepKeepsNeeds(s: State, a: Action, p: nat)
    requires Inv(s) && Needs(s, p) && !a.PostLost?
    ensures Needs(Apply(s, a), p)
  {
    if !a.Tick? && a.p == p { assert ProcInv(s, p); }
  }

  lemma {:induction false} RunKeepsNeeds(s: State, actions: seq<Action>)
    requires Inv(s) && (forall p :: Needs(s, p)) && forall a <- actions :: !a.PostLost?
    ensures forall p :: Needs(Run(s, actions), p)
    decreases |actions|
  {
    if actions != [] {
      assert actions[0] in actions && forall a <- actions[1..] :: a in actions;
      StepKeepsInv(s, actions[0]);
      forall p ensures Needs(Apply(s, actions[0]), p) { StepKeepsNeeds(s, actions[0], p); }
      RunKeepsNeeds(Apply(s, actions[0]), actions[1..]);
    }
  }

  /** As long as requests reach the server no call ever fails, and a process posts only for
      the token it was rejected with or for a credential that is running out. */
  lemma NoneFailsOrPostsNeedlessly(login: Tokens, now: int, actions: seq<Action>, p: nat)
    requires login.refresh.Some? && forall a <- actions :: !a.PostLost?
    ensures var s := Run(Init(login, now), actions);
      var pc := ProcOf(s, p).pc;
      && !pc.Failed?
      && (pc.MustPost? ==> pc.rejected == Some(pc.latest.access) || pc.latest.expiresAt <= s.now + 300)
  {
    RunKeepsNeeds(Init(login, now), actions);
    assert Needs(Run(Init(login, now), actions), p);
  }

  /** While a call is under way, it or the holder of the lock it waits for can move. */
  lemma SomeoneCanMove(login: Tokens, now: int, actions: seq<Action>, p: nat) returns (a: Action)
    requires login.refresh.Some? && !AtRest(ProcOf(Run(Init(login, now), actions), p).pc)
    ensures var s := Run(Init(login, now), actions);
      && !a.Tick? && !a.Crash? && !a.PostLost? && (a.p == p || s.lock == Some(a.p))
      && ProcOf(Apply(s, a), a.p).pc != ProcOf(s, a.p).pc
  {
    var s := Run(Init(login, now), actions);
    RunKeepsInv(Init(login, now), actions);
    var q := if ProcOf(s, p).pc.WantLock? && s.lock.Some? then s.lock.value else p;
    assert ProcInv(s, q);
    match ProcOf(s, q).pc
    case WantLock(_, _) => a := Acquire(q);
    case InLock(_, _) => a := RereadAndDecide(q);
    case MustPost(_, _, _) => a := SendPost(q, 0);
    case Posted(_, _) => a := Replace(q);
    case Reading(_) => a := ReadBack(q, false);
  }
}
