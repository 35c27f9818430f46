/** The consumer delay: one durable record, one alarm mirror, crashes between their
    atomic writes (src/lingtai/kernel/notifications.py).

    One process with any number of threads is modelled.  Transactions are serialised by
    the delay lock, every write either lands or the process dies, and the process may die
    after any write.  The journal of writes is what whole-run safety is stated on. */
module NotificationDelay {
  import opened Common
  import CoherentRead
  import DaemonAttention
  import Fingerprints

  type Channel = string

  const DELAY_ALARM_CHANNEL: string := "delay-alarm"
  const ACTIVE := Str("active")
  const EXPIRING := Str("expiring")
  const PUBLISHED := Str("published")
  const CANCELLED := Str("cancelled")

  datatype Stats = Unknown | Absent | Present(size: nat, sha256: string)

  datatype Completion = Completion(
    requestId: Json, target: string, requestedSeconds: int, actualSeconds: real,
    expiredAt: real, changed: bool, initial: Stats, current: Stats)

  /** The state file, field by field as `.get` reads it (a missing field is `Null`).
      `completion` is present only when it is an object with every required key. */
  datatype DelayRecord = DelayRecord(
    status: Json, target: Json, requestId: Json, seconds: Json, started: Json, deadline: Json,
    initial: Stats, completion: Option<Completion>)

  datatype Alarm = Alarm(
    target: string, publishedAt: real, requestId: Json, requestedSeconds: int, actualSeconds: real,
    changed: bool, initial: Stats, current: Stats)

  function AlarmPayload(c: Completion): Alarm {
    Alarm(c.target, c.expiredAt, c.requestId, c.requestedSeconds, c.actualSeconds, c.changed, c.initial, c.current)
  }

  function StatsChanged(initial: Stats, current: Stats): bool {
    match (initial, current)
    case (Unknown, Unknown) => false
    case (Absent, Absent) => false
    case (Present(_, a), Present(_, b)) => a != b
    case _ => true
  }

  /** Two looks at a target differ unless both found nothing (or could not look), or both found
      files of the same content hash, whatever their sizes. */
  lemma WhatCountsAsChanged(initial: Stats, current: Stats)
    ensures !StatsChanged(initial, current) <==>
            initial == current || (initial.Present? && current.Present? && initial.sha256 == current.sha256)
  {
  }

  predicate IsNumber(j: Json) { j.Int? || j.Float? }

  function Number(j: Json): real
    requires IsNumber(j)
  {
    if j.Int? then j.i as real else j.f
  }

  /** The validation every reader applies before it lets a record suppress anything. */
  predicate IsActive(s: DelayRecord) {
    && s.status == ACTIVE
    && s.target.Str? && s.target.s != DELAY_ALARM_CHANNEL
    && s.requestId.Str? && s.requestId.s != ""
    && s.seconds.Int? && s.seconds.i >= 1
    && IsNumber(s.started) && IsNumber(s.deadline)
    && Number(s.deadline) >= Number(s.started)
  }

  predicate IsLive(s: DelayRecord, now: real) {
    IsActive(s) && Number(s.deadline) > now
  }

  /** The weaker validation of the expiry path. */
  predicate MayExpire(s: DelayRecord, now: real) {
    && s.target.Str? && s.target.s != DELAY_ALARM_CHANNEL
    && s.seconds.Int? && s.seconds.i >= 1
    && IsNumber(s.started) && IsNumber(s.deadline) && Number(s.deadline) <= now
  }

  function Complete(s: DelayRecord, now: real, current: Stats): Completion
    requires MayExpire(s, now)
  {
    var elapsed := now - Number(s.started);
    Completion(s.requestId, s.target.s, s.seconds.i, if elapsed < 0.0 then 0.0 else elapsed, now,
               StatsChanged(s.initial, current), s.initial, current)
  }

  function NewRecord(channel: Channel, seconds: int, now: real, id: string, initial: Stats): DelayRecord {
    DelayRecord(ACTIVE, Str(channel), Str(id), Int(seconds), Float(now), Float(now + seconds as real), initial, None)
  }

  datatype Decision =
    | Overdue(requestId: Json)
    | Mismatch(activeChannel: Channel)
    | NothingToCancel
    | Cancel(record: DelayRecord)
    | Start

  /** What a delay action does with the record it finds under the lock. */
  function Decide(state: Option<DelayRecord>, now: real, channel: Channel, seconds: int): Decision {
    if state.Some? && IsActive(state.value) && Number(state.value.deadline) <= now
    then Overdue(state.value.requestId)
    else if seconds != 0 then Start
    else if state.None? || !IsLive(state.value, now) then NothingToCancel
    else if state.value.target != Str(channel) then Mismatch(state.value.target.s)
    else Cancel(state.value.(status := CANCELLED))
  }

  /** The channel a consumer suppresses, given the record it reads. */
  function SuppressedTarget(state: Option<DelayRecord>, now: real, allowed: Channel -> bool): Option<Channel> {
    if state.Some? && IsLive(state.value, now) && allowed(state.value.target.s)
    then Some(state.value.target.s) else None
  }

  datatype DelayResult =
    | InvalidDelay
    | TargetMismatch(activeChannel: Channel)
    | RecoveryPending
    | Cancelled(cancelled: bool)
    | Delayed

  predicate ValidRequest(channel: Channel, seconds: Json, cap: int, allowed: Channel -> bool) {
    allowed(channel) && channel != DELAY_ALARM_CHANNEL && seconds.Int? && 0 <= seconds.i <= cap
  }

  // ---- the journal of durable writes ----------------------------------------------

  datatype Write =
    | PutState(record: DelayRecord, at: real, cap: int)
    | Ring(alarm: Alarm, at: real)

  function StateOf(log: seq<Write>): Option<DelayRecord> {
    if log == [] then None
    else if log[|log| - 1].PutState? then Some(log[|log| - 1].record)
    else StateOf(log[..|log| - 1])
  }

  ghost predicate Rung(log: seq<Write>, id: Json) {
    exists w <- log :: w.Ring? && w.alarm.requestId == id
  }

  /** `next` takes the place of `prev` for good: a cancellation, or another request. */
  predicate Displaces(prev: DelayRecord, next: DelayRecord) {
    next.status == CANCELLED || next.requestId != prev.requestId
  }

  /** A record is displaced only before its deadline, after its alarm, or once cancelled. */
  ghost predicate NoAlarmLost(log: seq<Write>) {
    forall j | 0 <= j < |log| && log[j].PutState? && StateOf(log[..j]).Some? ::
      Displaces(StateOf(log[..j]).value, log[j].record) ==> Displaceable(log[..j], log[j].at)
  }

  ghost predicate Displaceable(log: seq<Write>, at: real)
    requires StateOf(log).Some?
  {
    var prev := StateOf(log).value;
    prev.status == CANCELLED || Rung(log, prev.requestId) || (IsNumber(prev.deadline) && at < Number(prev.deadline))
  }

  /** Rewriting an alarm after a crash rewrites the identical payload. */
  ghost predicate OneAlarmPerRequest(log: seq<Write>) {
    forall v, w | v in log && w in log && v.Ring? && w.Ring? && v.alarm.requestId == w.alarm.requestId ::
      v.alarm == w.alarm
  }

  /** Every delay was started by a validated request under the cap then in force. */
  ghost predicate StartedWithinCap(log: seq<Write>) {
    forall w <- log :: w.PutState? ==> StartedRight(w)
  }

  /** The delay an alarm reports was started earlier, with that target, window and initial
      state, and had run its full time. */
  ghost predicate Told(log: seq<Write>, a: Alarm) {
    && a.changed == StatsChanged(a.initial, a.current)
    && exists w <- log ::
      && w.PutState? && w.record.status == ACTIVE && w.record.requestId == a.requestId
      && w.record.target == Str(a.target) && w.record.seconds == Int(a.requestedSeconds)
      && w.record.initial == a.initial
      && a.actualSeconds == a.publishedAt - w.at && a.actualSeconds >= a.requestedSeconds as real
  }

  ghost predicate AlarmsAreTrue(log: seq<Write>) {
    forall w <- log :: w.Ring? ==> Told(log, w.alarm)
  }

  ghost predicate Safe(log: seq<Write>) {
    NoAlarmLost(log) && OneAlarmPerRequest(log) && StartedWithinCap(log) && AlarmsAreTrue(log)
  }

  /** How the durable record relates to the alarms rung so far. */
  ghost predicate Consistent(log: seq<Write>, now: real) {
    && (forall w <- log :: w.at <= now)
    && (StateOf(log).Some? ==>
      var s := StateOf(log).value;
      || (s.status == ACTIVE && IsActive(s) && !Rung(log, s.requestId) && s.completion.None?)
      || (s.status == EXPIRING && s.completion.Some? && s.completion.value.requestId == s.requestId
          && IsNumber(s.deadline) && Number(s.deadline) <= now
          && Told(log, AlarmPayload(s.completion.value))
          && forall w <- log :: w.Ring? && w.alarm.requestId == s.requestId ==>
               w.alarm == AlarmPayload(s.completion.value))
      || (s.status == PUBLISHED && Rung(log, s.requestId))
      || s.status == CANCELLED)
  }

  function IdOf(w: Write): Json {
    if w.Ring? then w.alarm.requestId else w.record.requestId
  }

  ghost predicate IdsKnown(log: seq<Write>, issued: set<string>) {
    forall w <- log :: IdOf(w).Str? && IdOf(w).s in issued
  }

  lemma StateOfAppend(log: seq<Write>, w: Write)
    ensures StateOf(log + [w]) == if w.PutState? then Some(w.record) else StateOf(log)
  {
    assert (log + [w])[..|log|] == log;
  }

  lemma StateOfIsLogged(log: seq<Write>)
    requires StateOf(log).Some?
    ensures exists w <- log :: w.PutState? && w.record == StateOf(log).value
  {
    if !log[|log| - 1].PutState? {
      StateOfIsLogged(log[..|log| - 1]);
      var w :| w in log[..|log| - 1] && w.PutState? && w.record == StateOf(log).value;
    }
  }

  lemma RungAppend(log: seq<Write>, w: Write, id: Json)
    ensures Rung(log + [w], id) <==> Rung(log, id) || (w.Ring? && w.alarm.requestId == id)
  {
    if Rung(log, id) {
      var v :| v in log && v.Ring? && v.alarm.requestId == id;
      assert v in log + [w];
    }
    if w.Ring? && w.alarm.requestId == id { assert w in log + [w]; }
  }

  /** A delay recorded in the journal ran out after `since`. */
  ghost predicate RanOut(log: seq<Write>, since: real, now: real) {
    exists w <- log ::
      w.PutState? && w.record.status == Str("active") && IsNumber(w.record.deadline)
      && since < Number(w.record.deadline) <= now
  }

  lemma RanOutStays(log: seq<Write>, later: seq<Write>, since: real, now: real, after: real)
    requires log <= later && now <= after && RanOut(log, since, now)
    ensures RanOut(later, since, after)
  {
    assert forall w <- log :: w in later;
  }

  lemma RungStays(log: seq<Write>, later: seq<Write>, id: Json)
    requires log <= later
    ensures Rung(log, id) ==> Rung(later, id)
  {
    assert forall w <- log :: w in later;
  }

  ghost predicate StartedRight(w: Write)
    requires w.PutState?
  {
    w.record.status == ACTIVE ==>
      && IsActive(w.record) && w.record.started == Float(w.at)
      && w.record.deadline == Float(w.at + w.record.seconds.i as real) && w.record.seconds.i <= w.cap
  }

  ghost predicate PutAllowed(log: seq<Write>, w: Write)
    requires w.PutState?
  {
    StartedRight(w) && MayReplace(log, w)
  }

  lemma ToldStays(log: seq<Write>, w: Write, a: Alarm)
    requires Told(log, a)
    ensures Told(log + [w], a)
  {
    assert forall v <- log :: v in log + [w];
  }

  lemma TruthStays(log: seq<Write>, w: Write)
    requires AlarmsAreTrue(log) && (w.Ring? ==> Told(log, w.alarm))
    ensures AlarmsAreTrue(log + [w])
  {
    forall v | v in log + [w] && v.Ring? ensures Told(log + [w], v.alarm) {
      assert Told(log, v.alarm);
      ToldStays(log, w, v.alarm);
    }
  }

  /** What the expiry records of an active delay is true of it. */
  lemma CompletionIsTold(log: seq<Write>, now: real, current: Stats)
    requires StateOf(log).Some? && StartedWithinCap(log)
    requires StateOf(log).value.status == ACTIVE && MayExpire(StateOf(log).value, now)
    ensures Told(log, AlarmPayload(Complete(StateOf(log).value, now, current)))
  {
    StateOfIsLogged(log);
  }

  ghost predicate MayReplace(log: seq<Write>, w: Write)
    requires w.PutState?
  {
    StateOf(log).Some? && Displaces(StateOf(log).value, w.record) ==> Displaceable(log, w.at)
  }

  /** One more write loses an alarm exactly when it displaces a record it may not. */
  lemma NoAlarmLostGrows(log: seq<Write>, w: Write)
    requires NoAlarmLost(log)
    ensures NoAlarmLost(log + [w]) <==> (w.PutState? ==> MayReplace(log, w))
  {
    var log' := log + [w];
    assert log'[..|log|] == log && log'[|log|] == w;
    forall j | 0 <= j < |log| ensures log'[..j] == log[..j] && log'[j] == log[j] {
    }
  }

  /** Putting a record keeps a safe journal safe exactly when a started delay starts right
      and the record it displaces may go. */
  lemma PutKeepsSafe(log: seq<Write>, w: Write)
    requires Safe(log) && w.PutState?
    ensures Safe(log + [w]) <==> PutAllowed(log, w)
  {
    NoAlarmLostGrows(log, w);
    TruthStays(log, w);
    assert w in log + [w];
    assert forall v <- log :: v in log + [w];
  }

  /** Ringing keeps it safe when the alarm is true and no different one rang before. */
  lemma RingKeepsSafe(log: seq<Write>, w: Write)
    requires Safe(log) && w.Ring? && Told(log, w.alarm)
    requires forall v <- log :: v.Ring? && v.alarm.requestId == w.alarm.requestId ==> v.alarm == w.alarm
    ensures Safe(log + [w])
  {
    NoAlarmLostGrows(log, w);
    TruthStays(log, w);
    OneAlarmStays(log, w);
    assert forall v <- log + [w] :: v == w || v in log;
  }

  lemma OneAlarmStays(log: seq<Write>, w: Write)
    requires OneAlarmPerRequest(log) && w.Ring?
    requires forall v <- log :: v.Ring? && v.alarm.requestId == w.alarm.requestId ==> v.alarm == w.alarm
    ensures OneAlarmPerRequest(log + [w])
  {
    assert forall v <- log + [w] :: v == w || v in log;
  }

  /** In every reachable state a suppressed channel has a live record naming it that was
      started under the cap, the clock is inside its window, and it is not the alarm. */
  lemma SuppressedOnlyInsideWindow(log: seq<Write>, now: real, allowed: Channel -> bool)
    requires Safe(log) && Consistent(log, now)
    ensures var target := SuppressedTarget(StateOf(log), now, allowed);
      target.Some? ==>
        && target.value != DELAY_ALARM_CHANNEL && allowed(target.value)
        && exists w <- log :: w.PutState? && Some(w.record) == StateOf(log) && w.record.target == Str(target.value)
             && w.record.seconds.Int? && 1 <= w.record.seconds.i <= w.cap
             && w.at <= now < w.at + w.record.seconds.i as real
  {
    if SuppressedTarget(StateOf(log), now, allowed).Some? {
      StateOfIsLogged(log);
      var w :| w in log && w.PutState? && w.record == StateOf(log).value;
      assert ACTIVE == w.record.status;
    }
  }

  /** A record whose alarm was promised on disk and has not rung. */
  ghost predicate Unprotected(log: seq<Write>) {
    && StateOf(log).Some? && StateOf(log).value.status == EXPIRING
    && !Rung(log, StateOf(log).value.requestId)
  }

  /** Whatever wrote the journal: a delay action that decides to start loses an alarm exactly
      when it finds an `expiring` record not rung yet.  The overdue check protects every
      other debt. */
  lemma StartLosesAlarmIff(
      log: seq<Write>, now: real, channel: Channel, seconds: int, cap: int, id: string, initial: Stats)
    requires Safe(log) && Consistent(log, now) && Decide(StateOf(log), now, channel, seconds).Start?
    requires forall w <- log :: IdOf(w) != Str(id)
    ensures var w := PutState(NewRecord(channel, seconds, now, id, initial), now, cap);
      NoAlarmLost(log + [w]) <==> !Unprotected(log)
  {
    var w := PutState(NewRecord(channel, seconds, now, id, initial), now, cap);
    NoAlarmLostGrows(log, w);
    if StateOf(log).Some? {
      StateOfIsLogged(log);
      assert Displaces(StateOf(log).value, w.record);
    }
  }

  /** The record passes every check of a live delay and names `channel`. */
  ghost predicate Names(state: Option<DelayRecord>, now: real, allowed: Channel -> bool, channel: Channel) {
    && state.Some? && state.value.status == ACTIVE && state.value.target == Str(channel)
    && channel != DELAY_ALARM_CHANNEL && allowed(channel)
    && state.value.requestId.Str? && state.value.requestId != Str("")
    && state.value.seconds.Int? && state.value.seconds.i > 0
    && IsNumber(state.value.started) && IsNumber(state.value.deadline)
    && Number(state.value.started) <= Number(state.value.deadline) && now < Number(state.value.deadline)
  }

  /** Whatever is on disk: a channel is suppressed exactly when a valid live record names it. */
  lemma OnlyAValidRecordHides(state: Option<DelayRecord>, now: real, allowed: Channel -> bool, channel: Channel)
    ensures SuppressedTarget(state, now, allowed) == Some(channel) <==> Names(state, now, allowed, channel)
  {
  }

  /** What that does to a coherent read: the consumer sees the allowed directory less the one
      ordinary channel a valid live record names, and daemon attention is masked for a delay
      only if the record names `daemon`.  A malformed record hides and masks nothing. */
  lemma ConsumerSeesTheRest(
      state: Option<DelayRecord>, now: real, allowed: Channel -> bool, allow: Channel -> bool,
      dir: CoherentRead.Directory, rawFp: seq<Fingerprints.Entry>, payloads: map<Channel, Json>, threshold: Option<nat>)
    ensures var delayed := SuppressedTarget(state, now, allowed);
      var whole := CoherentRead.Visible(dir, allow);
      && CoherentRead.Visible(dir, CoherentRead.ConsumerAllow(allow, delayed))
         == whole - (set c | c in dir && Names(state, now, allowed, c) && c != DaemonAttention.DAEMON_CHANNEL)
      && (!Names(state, now, allowed, DaemonAttention.DAEMON_CHANNEL) ==>
            CoherentRead.MaskedFor(rawFp, payloads, threshold, delayed)
            == CoherentRead.MaskedFor(rawFp, payloads, threshold, None))
  {
    forall c ensures SuppressedTarget(state, now, allowed) == Some(c) <==> Names(state, now, allowed, c) {
      OnlyAValidRecordHides(state, now, allowed, c);
    }
  }

  /** Without the one-process hypothesis every overdue delay can end there: another process
      records the expiry and dies before ringing, and a delay action already past its own
      recovery overwrites the `expiring` record, which is no candidate for the check. */
  lemma CrashedExpiryIsLost(
      log: seq<Write>, now: real, current: Stats, channel: Channel, seconds: int, cap: int, id: string, initial: Stats)
    requires Safe(log) && Consistent(log, now) && seconds > 0 && forall w <- log :: IdOf(w) != Str(id)
    requires StateOf(log).Some? && StateOf(log).value.status == ACTIVE && MayExpire(StateOf(log).value, now)
    ensures var first := StateOf(log).value;
      var expired := first.(status := EXPIRING, completion := Some(Complete(first, now, current)));
      var log' := log + [PutState(expired, now, cap)];
      && Safe(log') && Consistent(log', now) && Decide(StateOf(log'), now, channel, seconds).Start?
      && !NoAlarmLost(log' + [PutState(NewRecord(channel, seconds, now, id, initial), now, cap)])
  {
    var first := StateOf(log).value;
    var w := PutState(first.(status := EXPIRING, completion := Some(Complete(first, now, current))), now, cap);
    assert "active"[0] != "expiring"[0] && "cancelled"[0] != "expiring"[0] && "cancelled"[0] != "active"[0];
    assert "published"[0] != "active"[0];
    StateOfIsLogged(log);
    StateOfAppend(log, w);
    PutKeepsSafe(log, w);
    CompletionIsTold(log, now, current);
    ToldStays(log, w, AlarmPayload(w.record.completion.value));
    RungAppend(log, w, first.requestId);
    StartLosesAlarmIff(log + [w], now, channel, seconds, cap, id, initial);
  }

  /** The shortest such run. */
  lemma ExpiringRecordIsNotProtected(other: string, id: string)
    requires id != "" && other != "" && id != other
    ensures var first := NewRecord("email", 5, 0.0, id, Absent);
      var expiring := first.(status := EXPIRING, completion := Some(Complete(first, 6.0, Absent)));
      var log := [PutState(first, 0.0, 600), PutState(expiring, 6.0, 600)];
      && Safe(log) && Consistent(log, 6.0) && Decide(StateOf(log), 7.0, "email", 5) == Start
      && !NoAlarmLost(log + [PutState(NewRecord("email", 5, 7.0, other, Absent), 7.0, 600)])
  {
    var first := NewRecord("email", 5, 0.0, id, Absent);
    var expiring := first.(status := EXPIRING, completion := Some(Complete(first, 6.0, Absent)));
    var log := [PutState(first, 0.0, 600), PutState(expiring, 6.0, 600)];
    var log' := log + [PutState(NewRecord("email", 5, 7.0, other, Absent), 7.0, 600)];
    assert "active"[0] != "expiring"[0] && "email"[0] != DELAY_ALARM_CHANNEL[0];
    assert "cancelled"[0] != "expiring"[0] && "cancelled"[0] != "active"[0];
    assert log[..1] == [log[0]] && log[..0] == [];
    assert StateOf(log) == Some(expiring) && log[0] in log;
    assert log'[..2] == log && log'[2].PutState?;
    assert Displaces(expiring, log'[2].record) && !Displaceable(log, 7.0);
  }

  // ---- the consumer ----------------------------------------------------------------

  class DelayStore {
    var state: Option<DelayRecord>
    var now: real
    /** Request ids handed out so far: a fresh id is never one of them. */
    var issued: set<string>
    ghost var log: seq<Write>
    /** Transactions of other threads so far. */
    ghost var foreign: nat

    ghost predicate Valid()
      reads this
    {
      state == StateOf(log) && Safe(log) && Consistent(log, now) && IdsKnown(log, issued)
    }

    constructor (now: real)
      ensures Valid() && state == None && this.now == now && log == []
    {
      state, issued, log := None, {}, [];
      this.now := now;
    }

    ghost predicate HasStatus(status: Json)
      reads this
    {
      state.Some? && state.value.status == status
    }

    ghost predicate Expiring()
      reads this
    {
      state.Some? && state.value.status == EXPIRING
    }

    /** The record of request `id` has passed its deadline: its alarm is owed. */
    ghost predicate Owes(id: Json)
      reads this
    {
      && state.Some? && state.value.requestId == id
      && (Expiring() || (IsActive(state.value) && Number(state.value.deadline) <= now))
    }

    ghost predicate OwesExpected(expected: Option<string>)
      reads this
    {
      state.Some? && Owes(state.value.requestId) && (expected.Some? ==> state.value.requestId == Str(expected.value))
    }

    /** What one live process keeps across a transaction: time and the journal only grow,
        no record is left `expiring`, and an owed alarm stays owed until it rings. */
    twostate predicate Progress()
      reads this
    {
      && old(now) <= now && old(log) <= log
      && (if old(Expiring()) then state == old(state) || Rung(log, old(state).value.requestId) else !Expiring())
      && (forall id :: old(Owes(id)) ==> Owes(id) || Rung(log, id))
      && (forall id :: old(Rung(log, id)) ==> Rung(log, id))
      && (NoneDueBy(old(now)) || state == old(state))
    }

    /** No active record on disk has a deadline at or before `t`. */
    ghost predicate NoneDueBy(t: real)
      reads this
    {
      state.Some? && IsActive(state.value) ==> Number(state.value.deadline) > t
    }


    method Wait()
      requires Valid()
      modifies `now
      ensures Valid() && old(now) <= now
    {
      var later: real := *;
      if now < later { now := later; }
    }

    /** One atomic replace of the state file; the process may die right after it. */
    method WriteState(record: DelayRecord, cap: int) returns (alive: bool)
      requires Valid() && PutAllowed(log, PutState(record, now, cap))
      requires Consistent(log + [PutState(record, now, cap)], now)
      requires IdsKnown(log + [PutState(record, now, cap)], issued)
      modifies `state, `log
      ensures Valid() && log == old(log) + [PutState(record, now, cap)] && state == Some(record)
      ensures forall id :: Rung(log, id) <==> old(Rung(log, id))
    {
      StatePut(PutState(record, now, cap));
      state, log := Some(record), log + [PutState(record, now, cap)];
      alive := *;
    }

    /** One atomic replace of the alarm mirror of the `expiring` record. */
    method WriteAlarm() returns (alive: bool)
      requires Valid() && Expiring()
      modifies `log
      ensures Valid() && log == old(log) + [Ring(AlarmPayload(state.value.completion.value), now)]
      ensures forall id :: Rung(log, id) <==> old(Rung(log, id)) || id == state.value.requestId
    {
      var w := Ring(AlarmPayload(state.value.completion.value), now);
      AlarmRung(w);
      log := log + [w];
      alive := *;
    }

    /** The locked half of expiry recovery, given what the unlocked half observed. */
    method ExpireTransaction(
        observed: DelayRecord, observedStats: Stats, expected: Option<string>)
      returns (alive: bool, done: bool)
      requires Valid()
      modifies `state, `now, `log
      ensures Valid()
      ensures alive ==> Progress()
      ensures alive && done ==> !Expiring() && RingsOut(observed, observedStats)
      ensures alive && !done ==> state == old(state) && log == old(log)
      ensures alive && (observed.status == ACTIVE || old(Expiring())) && old(OwesExpected(expected)) ==> done
      ensures !alive ==> |old(log)| < |log|
    {
      alive, done := true, false;
      Wait();
      if state.None? { return; }
      var s := state.value;
      if s.status == PUBLISHED || s.status == CANCELLED { return; }
      if expected.Some? && s.requestId != Str(expected.value) { return; }
      if s.status == ACTIVE && (observed.status != ACTIVE || !MayExpire(s, now)) { return; }
      alive := CompleteAndRing(observed, observedStats);
      done := true;
    }

    /** The two or three writes of an expiry that goes ahead. */
    method CompleteAndRing(observed: DelayRecord, observedStats: Stats) returns (alive: bool)
      requires Valid() && (Expiring() || (HasStatus(ACTIVE) && MayExpire(state.value, now)))
      modifies `state, `log
      ensures Valid()
      ensures alive ==> Progress() && !Expiring() && RingsOut(observed, observedStats)
      ensures |old(log)| < |log|
    {
      var s := state.value;
      if s.status == ACTIVE {
        var current := if s.target == observed.target && s.requestId == observed.requestId
                       then observedStats else Unknown;
        alive := RecordCompletion(current);
        if !alive { return; }
      }
      alive := RingAndPublish();
    }

    /** The record on disk becomes `published` after its alarm rang; the alarm describes the
        target only if the look before the lock saw this very record. */
    twostate predicate RingsOut(observed: DelayRecord, stats: Stats)
      reads this
    {
      && old(state).Some? && state.Some? && state.value.completion.Some?
      && state.value == old(state).value.(status := Str("published"), completion := state.value.completion)
      && Rung(log, old(state).value.requestId)
      && (var c := state.value.completion.value;
          Ring(Alarm(c.target, c.expiredAt, c.requestId, c.requestedSeconds, c.actualSeconds, c.changed, c.initial,
                     c.current), now) in log)
      && (if old(Expiring()) then state.value.completion == old(state).value.completion
          else state.value.completion.value.expiredAt == now && state.value.completion.value.current
               == if old(state).value.target == observed.target && old(state).value.requestId == observed.requestId
                  then stats else Unknown)
    }

    method RecordCompletion(current: Stats) returns (alive: bool)
      requires Valid() && state.Some? && state.value.status == ACTIVE && MayExpire(state.value, now)
      modifies `state, `log
      ensures Valid() && old(log) < log && Expiring()
      ensures state.value == old(state).value.(status := EXPIRING, completion := state.value.completion)
      ensures state.value.completion.value.current == current && state.value.completion.value.expiredAt == now
      ensures forall id :: Rung(log, id) <==> old(Rung(log, id))
    {
      var s := state.value.(status := EXPIRING, completion := Some(Complete(state.value, now, current)));
      CompletionIsTold(log, now, current);
      var w := PutState(s, now, 0);
      ToldStays(log, w, AlarmPayload(s.completion.value));
      StatePut(w);
      assert forall v <- log :: v.Ring? ==> v.alarm.requestId != s.requestId;
      alive := WriteState(s, 0);
    }

    method RingAndPublish() returns (alive: bool)
      requires Valid() && Expiring()
      modifies `state, `log
      ensures Valid() && old(log) < log
      ensures alive ==> state == Some(old(state).value.(status := PUBLISHED)) && Rung(log, state.value.requestId)
      ensures alive ==> Ring(AlarmPayload(old(state).value.completion.value), now) in log
      ensures forall id :: old(Rung(log, id)) ==> Rung(log, id)
    {
      alive := WriteAlarm();
      ghost var rung := log;
      assert old(log) <= rung;
      if alive {
        alive := Publish();
        assert rung <= log;
      }
    }

    method Publish() returns (alive: bool)
      requires Valid() && Expiring() && Rung(log, state.value.requestId)
      modifies `state, `log
      ensures Valid() && old(log) <= log && state == Some(old(state).value.(status := PUBLISHED))
      ensures !Expiring() && forall id :: Rung(log, id) <==> old(Rung(log, id))
    {
      var s := state.value.(status := PUBLISHED);
      StatePut(PutState(s, now, 0));
      alive := WriteState(s, 0);
    }

    lemma StatePut(w: Write)
      requires Valid() && w.PutState?
      ensures StateOf(log + [w]) == Some(w.record)
      ensures state.Some? && w.record.requestId == state.value.requestId ==> IdsKnown(log + [w], issued)
      ensures forall id :: Rung(log + [w], id) <==> Rung(log, id)
      ensures PutAllowed(log, w) ==> Safe(log + [w])
    {
      StateOfAppend(log, w);
      if state.Some? { StateOfIsLogged(log); }
      forall id { RungAppend(log, w, id); }
      if PutAllowed(log, w) { PutKeepsSafe(log, w); }
    }

    lemma AlarmRung(w: Write)
      requires Valid() && w.Ring? && Told(log, w.alarm)
      requires forall v <- log :: v.Ring? && v.alarm.requestId == w.alarm.requestId ==> v.alarm == w.alarm
      requires state.Some? && w.alarm.requestId == state.value.requestId
      ensures StateOf(log + [w]) == state && Safe(log + [w]) && IdsKnown(log + [w], issued)
      ensures Told(log + [w], w.alarm)
      ensures forall id :: Rung(log + [w], id) <==> Rung(log, id) || w.alarm.requestId == id
    {
      ToldStays(log, w, w.alarm);
      StateOfAppend(log, w);
      StateOfIsLogged(log);
      forall id { RungAppend(log, w, id); }
      RingKeepsSafe(log, w);
    }

    /** The locked half of a delay action: start, replace, cancel, or report an overdue
        record. */
    method DelayTransaction(channel: Channel, seconds: int, cap: int, initial: Stats)
      returns (alive: bool, decision: Decision)
      requires Valid() && !Expiring()
      requires channel != DELAY_ALARM_CHANNEL && 0 <= seconds <= cap
      modifies `state, `now, `issued, `log
      ensures Valid() && !Expiring() && old(now) <= now && old(log) <= log && (!alive ==> old(log) < log)
      ensures decision == Decide(old(state), now, channel, seconds)
      ensures NoneDueBy(old(now)) || state == old(state)
      ensures forall r :: old(Owes(r)) ==> Owes(r)
      ensures forall r :: old(Rung(log, r)) ==> Rung(log, r)
      ensures decision.Overdue? ==> Owes(decision.requestId)
      ensures !decision.Start? && !decision.Cancel? ==> state == old(state) && log == old(log)
      ensures decision.Cancel? ==>
        state == Some(decision.record) && log == old(log) + [PutState(decision.record, now, cap)]
      ensures decision.Start? ==> exists id ::
        && id !in old(issued) && id != "" && state == Some(NewRecord(channel, seconds, now, id, initial))
        && log == old(log) + [PutState(NewRecord(channel, seconds, now, id, initial), now, cap)]
    {
      alive := true;
      Wait();
      decision := Decide(state, now, channel, seconds);
      if decision.Cancel? {
        alive := CancelDelay(cap);
      } else if decision.Start? {
        alive := StartDelay(channel, seconds, cap, initial);
      }
    }

    method CancelDelay(cap: int) returns (alive: bool)
      requires Valid() && state.Some? && IsLive(state.value, now)
      modifies `state, `log
      ensures Valid() && !Expiring() && state == Some(old(state).value.(status := CANCELLED))
      ensures log == old(log) + [PutState(state.value, now, cap)]
      ensures forall id :: Rung(log, id) <==> old(Rung(log, id))
    {
      var record := state.value.(status := CANCELLED);
      StatePut(PutState(record, now, cap));
      alive := WriteState(record, cap);
    }

    method StartDelay(channel: Channel, seconds: int, cap: int, initial: Stats) returns (alive: bool)
      requires Valid() && !Expiring() && channel != DELAY_ALARM_CHANNEL && 0 < seconds <= cap
      requires Decide(state, now, channel, seconds).Start?
      modifies `state, `issued, `log
      ensures Valid() && !Expiring() && old(log) < log
      ensures forall r :: old(Owes(r)) ==> Owes(r)
      ensures forall r :: old(Rung(log, r)) ==> Rung(log, r)
      ensures exists id ::
        && id !in old(issued) && id != "" && state == Some(NewRecord(channel, seconds, now, id, initial))
        && log == old(log) + [PutState(NewRecord(channel, seconds, now, id, initial), now, cap)]
    {
      var id := FreshId();
      ghost var w := PutState(NewRecord(channel, seconds, now, id, initial), now, cap);
      issued := issued + {id};
      StatePut(w);
      assert !Rung(log, Str(id));
      alive := WriteState(NewRecord(channel, seconds, now, id, initial), cap);
    }

    /** `uuid4().hex`: any id never handed out before. */
    method FreshId() returns (id: string)
      ensures id != "" && id !in issued
    {
      id := *;
      if id != "" && id !in issued { return; }
      var todo := issued;
      id := "0";
      while todo != {}
        invariant forall s <- issued - todo :: |s| < |id|
        invariant id != ""
      {
        var s :| s in todo;
        todo := todo - {s};
        if |id| <= |s| { id := s + "0"; }
      }
    }

    /** Other threads of the live process run whole transactions; false when it dies.  A
        thread reaches a delay transaction only past its own recovery. */
    method OtherThreads() returns (alive: bool)
      requires Valid()
      modifies `state, `now, `issued, `log, `foreign
      ensures Valid()
      ensures alive ==> Progress()
      ensures old(foreign) <= foreign && (!alive ==> |old(log)| < |log|)
      ensures foreign == old(foreign) ==> alive && state == old(state) && now == old(now) && log == old(log)
    {
      alive := true;
      var steps: int := *;
      while alive && steps > 0
        invariant Valid() && (alive ==> Progress())
        invariant old(foreign) <= foreign && (if alive then |old(log)| <= |log| else |old(log)| < |log|)
        invariant foreign == old(foreign) ==> alive && state == old(state) && now == old(now) && log == old(log)
        decreases steps
      {
        steps := steps - 1;
        alive := OtherThread();
      }
    }

    /** One transaction of another thread, if it does any. */
    method OtherThread() returns (alive: bool)
      requires Valid()
      modifies `state, `now, `issued, `log, `foreign
      ensures Valid()
      ensures alive ==> Progress()
      ensures foreign == old(foreign) + 1 && (!alive ==> |old(log)| < |log|)
    {
      alive := true;
      foreign := foreign + 1;
      var expiring, channel: Channel, seconds: int, cap: int, stats: Stats := *, *, *, *, *;
      if state.Some? && state.value.status == EXPIRING {
        expiring := true;
      }
      if expiring {
        var observed: DelayRecord, expected: Option<string> := *, *;
        var done;
        alive, done := ExpireTransaction(observed, stats, expected);
      } else if channel != DELAY_ALARM_CHANNEL && 0 <= seconds <= cap {
        var decision;
        alive, decision := DelayTransaction(channel, seconds, cap, stats);
      }
    }

    /** Recover or complete an overdue delay: an unlocked look, then the transaction. */
    method Reconcile(stats: Stats, expected: Option<string>) returns (alive: bool, done: bool)
      requires Valid()
      modifies `state, `now, `issued, `log, `foreign
      ensures Valid()
      ensures alive ==> Progress()
      ensures alive && expected.None? ==> !Expiring() && NoneDueBy(old(now))
      ensures alive && old(OwesExpected(expected)) ==> old(state).Some? && Rung(log, old(state).value.requestId)
      ensures old(foreign) <= foreign && (!alive ==> |old(log)| < |log|)
      ensures alive && foreign == old(foreign) && old(OwesExpected(expected)) ==>
        done && RingsOut(old(state).value, stats)
    {
      alive, done := true, false;
      if state.None? { return; }
      var observed := state.value;
      Wait();
      if observed.status == PUBLISHED || observed.status == CANCELLED { return; }
      if expected.Some? && observed.requestId != Str(expected.value) { return; }
      if observed.status == ACTIVE {
        if !observed.target.Str? || observed.target.s == DELAY_ALARM_CHANNEL
           || !IsNumber(observed.deadline) || Number(observed.deadline) > now { return; }
      } else if observed.status != EXPIRING {
        return;
      }
      alive, done := RecoverObserved(observed, stats, expected);
    }

    /** The look showed a record to recover; other threads may take the lock first. */
    method RecoverObserved(observed: DelayRecord, stats: Stats, expected: Option<string>)
      returns (alive: bool, done: bool)
      requires Valid() && state == Some(observed) && Owes(observed.requestId)
      requires observed.status == ACTIVE || observed.status == EXPIRING
      modifies `state, `now, `issued, `log, `foreign
      ensures Valid()
      ensures alive ==> Progress()
      ensures alive && expected.None? ==> !Expiring() && NoneDueBy(old(now))
      ensures alive && old(OwesExpected(expected)) ==> Rung(log, observed.requestId)
      ensures old(foreign) <= foreign && (!alive ==> |old(log)| < |log|)
      ensures alive && foreign == old(foreign) && old(OwesExpected(expected)) ==> done && RingsOut(observed, stats)
    {
      done := false;
      alive := OtherThreads();
      if !alive { return; }
      alive, done := ExpireTransaction(observed, stats, expected);
    }

    /** One write after `before` put a live delay of exactly the requested window. */
    ghost predicate JustStarted(before: seq<Write>, channel: Channel, seconds: Json, cap: int, initial: Stats)
      reads this
    {
      && seconds.Int? && seconds.i > 0 && state.Some? && state.value.initial == initial
      && log == before + [PutState(state.value, now, cap)]
      && IsLive(state.value, now) && state.value.target == Str(channel) && state.value.seconds == seconds
      && Number(state.value.deadline) == now + seconds.i as real
    }

    /** One write after `before` put the live delay of the channel back as cancelled. */
    ghost predicate JustCancelled(before: seq<Write>, channel: Channel, seconds: Json, cap: int)
      reads this
    {
      && seconds == Int(0) && StateOf(before).Some?
      && var was := StateOf(before).value;
         && IsLive(was, now) && was.target == Str(channel)
         && log == before + [PutState(was.(status := Str("cancelled")), now, cap)]
    }

    /** A cancellation was refused, and nothing written: another channel is delayed, or none is. */
    ghost predicate NothingCancelled(before: seq<Write>, channel: Channel, seconds: Json, r: DelayResult)
      reads this
    {
      && seconds == Int(0) && log == before
      && if r.TargetMismatch?
         then state.Some? && IsLive(state.value, now)
              && state.value.target == Str(r.activeChannel) && r.activeChannel != channel
         else !(state.Some? && IsLive(state.value, now))
    }

    /** What each answer says of the deciding transaction, which found the journal `before`. */
    ghost predicate Answers(
      r: DelayResult, before: seq<Write>, channel: Channel, seconds: Json, cap: int, initial: Stats)
      reads this
    {
      match r
      case Delayed => JustStarted(before, channel, seconds, cap, initial)
      case Cancelled(cancelled) =>
        if cancelled then JustCancelled(before, channel, seconds, cap)
        else NothingCancelled(before, channel, seconds, r)
      case TargetMismatch(_) => NothingCancelled(before, channel, seconds, r)
      case _ => true
    }

    /** One pass of the bounded loop; `settled` is false when an overdue record was found
        and its alarm rung, so the action must look again. */
    method Attempt(channel: Channel, seconds: int, cap: int, initial: Stats, current: Stats, ghost since: real)
      returns (alive: bool, settled: bool, r: DelayResult, ghost before: seq<Write>)
      requires Valid() && !Expiring() && channel != DELAY_ALARM_CHANNEL && 0 <= seconds <= cap
      requires since <= now && NoneDueBy(since)
      modifies `state, `now, `issued, `log, `foreign
      ensures Valid()
      ensures alive ==> old(now) <= now && old(log) <= log && !Expiring() && r != InvalidDelay && NoneDueBy(since)
      ensures alive ==> old(log) <= before <= log && Answers(r, before, channel, Int(seconds), cap, initial)
      ensures alive && r == RecoveryPending ==> RanOut(log, since, now)
      ensures alive && !settled ==> r == RecoveryPending
      ensures old(foreign) <= foreign && (!alive ==> |old(log)| < |log|)
      ensures alive && r == RecoveryPending && foreign == old(foreign) ==>
        !settled && !HasStatus(ACTIVE) && old(HasStatus(ACTIVE))
    {
      settled, r, before := true, RecoveryPending, log;
      alive := LetOthersRun(since);
      if !alive { return; }
      before := log;
      var overdue;
      alive, r, overdue := Settle(channel, seconds, cap, initial, since);
      if !alive { return; }
      if overdue.Some? {
        alive, settled := RecoverOverdue(overdue, current, since);
      }
    }

    /** What a delay action needs of the others while it waits for the lock. */
    method LetOthersRun(ghost since: real) returns (alive: bool)
      requires Valid() && !Expiring() && since <= now && NoneDueBy(since)
      modifies `state, `now, `issued, `log, `foreign
      ensures Valid()
      ensures alive ==> old(now) <= now && old(log) <= log && !Expiring() && NoneDueBy(since)
      ensures old(foreign) <= foreign && (!alive ==> |old(log)| < |log|)
      ensures foreign == old(foreign) ==> alive && state == old(state) && log == old(log)
    {
      alive := OtherThreads();
    }

    /** An overdue record was found under the lock; it is the action's to ring unless another
        thread comes first. */
    method RecoverOverdue(overdue: Option<string>, current: Stats, ghost since: real)
      returns (alive: bool, settled: bool)
      requires Valid() && !Expiring() && overdue.Some? && OwesExpected(overdue) && HasStatus(ACTIVE)
      requires since <= now && NoneDueBy(since) && RanOut(log, since, now)
      modifies `state, `now, `issued, `log, `foreign
      ensures Valid()
      ensures alive ==>
        old(now) <= now && old(log) <= log && !Expiring() && NoneDueBy(since) && RanOut(log, since, now)
      ensures old(foreign) <= foreign && (!alive ==> |old(log)| < |log|)
      ensures alive && foreign == old(foreign) ==> !settled && !HasStatus(ACTIVE)
    {
      var done;
      ghost var earlier, before := log, now;
      alive, done := Reconcile(current, overdue);
      settled := !done;
      if alive { RanOutStays(earlier, log, since, before, now); }
    }

    lemma OverdueRanOut(since: real)
      requires Valid() && NoneDueBy(since) && !NoneDueBy(now)
      ensures RanOut(log, since, now)
    {
      StateOfIsLogged(log);
    }

    /** The transaction and the answer its decision stands for. */
    method Settle(channel: Channel, seconds: int, cap: int, initial: Stats, ghost since: real)
      returns (alive: bool, r: DelayResult, overdue: Option<string>)
      requires Valid() && !Expiring() && channel != DELAY_ALARM_CHANNEL && 0 <= seconds <= cap
      requires since <= now && NoneDueBy(since)
      modifies `state, `now, `issued, `log
      ensures Valid() && !Expiring() && old(now) <= now && old(log) <= log && r != InvalidDelay && NoneDueBy(since)
      ensures Answers(r, old(log), channel, Int(seconds), cap, initial)
      ensures overdue.Some? <==> r == RecoveryPending
      ensures overdue.Some? ==>
        OwesExpected(overdue) && RanOut(log, since, now) && state == old(state) && HasStatus(ACTIVE)
      ensures !alive ==> |old(log)| < |log|
    {
      overdue := None;
      var decision;
      alive, decision := DelayTransaction(channel, seconds, cap, if seconds > 0 then initial else Unknown);
      match decision {
        case Mismatch(activeChannel) => r := TargetMismatch(activeChannel);
        case NothingToCancel => r := Cancelled(false);
        case Cancel(_) => r := Cancelled(true);
        case Start => r := Delayed;
        case Overdue(requestId) =>
          r, overdue := RecoveryPending, Some(requestId.s);
          OverdueRanOut(since);
      }
    }

    /** Start, replace or cancel the one delay.  An owed alarm rings first.  A valid request
        is put off only over a delay that ran out meanwhile, and only if another thread
        interfered. */
    method DelayChannel(channel: Channel, seconds: Json, cap: int, allowed: Channel -> bool, initial: Stats)
      returns (alive: bool, r: DelayResult, ghost before: seq<Write>)
      requires Valid()
      modifies `state, `now, `issued, `log, `foreign
      ensures Valid()
      ensures alive ==>
        (r == InvalidDelay <==>
           !(allowed(channel) && channel != "delay-alarm" && seconds.Int? && 0 <= seconds.i <= cap))
      ensures !ValidRequest(channel, seconds, cap, allowed) ==> alive && state == old(state) && log == old(log)
      ensures alive && r != InvalidDelay ==> old(now) <= now && old(log) <= log && !Expiring()
      ensures alive && r != InvalidDelay ==> forall id :: old(Owes(id)) ==> Rung(log, id)
      ensures alive && r != InvalidDelay ==>
        old(log) <= before <= log && Answers(r, before, channel, seconds, cap, initial)
      ensures alive && r == RecoveryPending ==> RanOut(log, old(now), now) && old(foreign) < foreign
      ensures alive && r != InvalidDelay && !RanOut(log, old(now), now) ==>
        if seconds.i > 0 then r == Delayed else r.Cancelled? || r.TargetMismatch?
      ensures !alive ==> |old(log)| < |log|
    {
      alive, r, before := true, InvalidDelay, log;
      if !ValidRequest(channel, seconds, cap, allowed) { return; }
      var current: Stats := *;
      var done;
      alive, done := Reconcile(current, None);
      if !alive { return; }
      ghost var rung := log;
      alive, r, before := TakeTwoPasses(channel, seconds.i, cap, initial, current, old(now));
      forall id | alive { RungStays(rung, log, id); }
    }

    /** The bounded loop. */
    method TakeTwoPasses(channel: Channel, seconds: int, cap: int, initial: Stats, current: Stats, ghost since: real)
      returns (alive: bool, r: DelayResult, ghost before: seq<Write>)
      requires Valid() && !Expiring() && channel != DELAY_ALARM_CHANNEL && 0 <= seconds <= cap
      requires since <= now && NoneDueBy(since)
      modifies `state, `now, `issued, `log, `foreign
      ensures Valid()
      ensures alive ==> old(now) <= now && old(log) <= log && !Expiring() && r != InvalidDelay
      ensures alive ==> old(log) <= before <= log && Answers(r, before, channel, Int(seconds), cap, initial)
      ensures alive && r == RecoveryPending ==> RanOut(log, since, now) && old(foreign) < foreign
      ensures old(foreign) <= foreign && (!alive ==> |old(log)| < |log|)
    {
      alive, before := true, log;
      var attempt, settled := 0, false;
      r := RecoveryPending;
      while attempt < 2
        invariant alive && Valid() && !Expiring() && old(now) <= now && old(log) <= before <= log
        invariant r == RecoveryPending
        invariant NoneDueBy(since) && (attempt > 0 ==> RanOut(log, since, now))
        invariant old(foreign) <= foreign
        invariant foreign == old(foreign) && attempt > 0 ==>
          attempt == 1 && !HasStatus(ACTIVE)
      {
        alive, settled, r, before := Attempt(channel, seconds, cap, initial, current, since);
        if !alive || settled { return; }
        r := RecoveryPending;
        attempt := attempt + 1;
      }
    }

    /** The channel a coherent read suppresses: recovery first, then, some time and any
        number of other threads' transactions later, the record. */
    method DelayedTarget(allowed: Channel -> bool, stats: Stats) returns (alive: bool, target: Option<Channel>)
      requires Valid()
      modifies `state, `now, `issued, `log, `foreign
      ensures Valid()
      ensures alive ==> Progress() && !Expiring() && target == SuppressedTarget(state, now, allowed)
      ensures alive ==> forall id :: old(Owes(id)) ==> Rung(log, id)
    {
      var done;
      target := None;
      alive, done := Reconcile(stats, None);
      if !alive { return; }
      alive := OtherThreads();
      Wait();
      if alive && state.Some? && IsLive(state.value, now) && allowed(state.value.target.s) {
        target := Some(state.value.target.s);
      }
    }

    /** Any number of process lifetimes over the same durable record: each call may be
        the process's last, and the next process starts from what was written. */
    method Run(allowed: Channel -> bool)
      requires Valid()
      modifies `state, `now, `issued, `log, `foreign
      ensures Valid() && Safe(log)
    {
      var steps: int := *;
      while steps > 0
        invariant Valid()
        decreases steps
      {
        steps := steps - 1;
        Wait();
        var expected: Option<string>, channel: Channel, seconds: Json, cap: int, stats: Stats := *, *, *, *, *;
        var alive, done, r, target;
        ghost var before;
        if {
          case true => alive, done := Reconcile(stats, expected);
          case true => alive, r, before := DelayChannel(channel, seconds, cap, allowed, stats);
          case true => alive, target := DelayedTarget(allowed, stats);
        }
      }
    }
  }
}
