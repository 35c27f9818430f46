/** Agent-facing dismissal by optimistic compare-and-swap against the delivered version
    (src/lingtai/kernel/notifications.py, `dismiss_channel`). */
module Dismissal {
  import opened Common
  import opened Fingerprints
  import opened CoherentRead
  import opened DaemonAttention

  /** `UNCONDITIONAL`, or the delivered fingerprint entry (`None` expects absence). */
  datatype Expected = Unconditional | Version(entry: Option<Entry>)

  datatype Outcome =
    | InvalidChannel
    | MissingAckReason
    | ProtectedChannel
    | AtomicDismissNeedsEventChannel
    | Guarded
    | StaleVersion(delivered: Option<Entry>, current: Option<Entry>)
    | Cleared(existed: bool)
    | EventsRemoved(removed: nat, remaining: nat)
    /** The file is no text at all: its `UnicodeDecodeError` leaves the call. */
    | Undecodable

  function DeliveredEntry(fp: seq<Entry>, channel: Channel): Option<Entry> {
    if fp == [] then None
    else if fp[0].name == FileName(channel) then Some(fp[0])
    else DeliveredEntry(fp[1..], channel)
  }

  function CurrentVersion(files: Directory, channel: Channel, hash: Bytes -> string): Option<Entry> {
    if channel in files then Some(EntryOf(hash, channel, files[channel])) else None
  }

  predicate Conflicts(files: Directory, channel: Channel, expected: Expected, hash: Bytes -> string) {
    expected.Version? && expected.entry != CurrentVersion(files, channel, hash)
  }

  /** Unparseable and non-object content is presented to mutators as `{}`. */
  function CurrentPayload(files: Directory, channel: Channel, parse: Bytes -> Option<Json>): Json {
    if channel in files && parse(files[channel]).Some? && parse(files[channel]).value.Obj?
    then parse(files[channel]).value else Obj(map[])
  }

  function Events(payload: Json): seq<Json> {
    var events := payload.Get("data").Get("events");
    if events.Arr? then events.items else []
  }

  /** An event matches when it carries the given event id or the given ref id. */
  predicate Matches(ev: Json, eventId: string, refId: string) {
    ev.Obj? && ((eventId != "" && ev.Get("event_id") == Str(eventId))
                || (refId != "" && ev.Get("ref_id") == Str(refId)))
  }

  function Kept(events: seq<Json>, eventId: string, refId: string): seq<Json> {
    if events == [] then []
    else (if Matches(events[0], eventId, refId) then [] else [events[0]]) + Kept(events[1..], eventId, refId)
  }

  function WithEvents(payload: Json, events: seq<Json>, header: string, publishedAt: string): Option<Json> {
    if events == [] || !payload.Obj? then None
    else
      var data := payload.Get("data");
      var fields := if data.Obj? then data.fields else map[];
      Some(Obj(payload.fields["data" := Obj(fields["events" := Arr(events)])]
                              ["header" := Str(header)]["published_at" := Str(publishedAt)]))
  }

  // ---- what a matching version means ----------------------------------------------

  lemma {:induction false} DeliveredEntryIsTheEntry(fp: seq<Entry>, view: Directory, c: Channel, hash: Bytes -> string)
    requires forall e <- fp :: exists d :: d in view && e == EntryOf(hash, d, view[d])
    ensures DeliveredEntry(fp, c).Some? ==> c in view && DeliveredEntry(fp, c).value == EntryOf(hash, c, view[c])
    ensures DeliveredEntry(fp, c).None? ==> forall e <- fp :: e.name != FileName(c)
  {
    if fp != [] {
      assert fp[0] in fp && forall e <- fp[1..] :: e in fp;
      var d :| d in view && fp[0] == EntryOf(hash, d, view[d]);
      FileNameIsInjective(d, c);
      DeliveredEntryIsTheEntry(fp[1..], view, c, hash);
    }
  }

  /** The delivered token matches the current file exactly when the content, absence
      included, is the delivered content. */
  lemma TokenMatchesIffContentDelivered(
      fp: seq<Entry>, view: Directory, files: Directory, c: Channel, hash: Bytes -> string)
    requires Injective(hash) && FingerprintOf(fp, view, hash)
    ensures !Conflicts(files, c, Version(DeliveredEntry(fp, c)), hash) <==> Same(files, view, c)
  {
    DeliveredEntryIsTheEntry(fp, view, c, hash);
  }

  // ---- what an event dismissal keeps ----------------------------------------------

  ghost predicate Increasing(idx: seq<nat>) {
    forall i, j :: 0 <= i < j < |idx| ==> idx[i] < idx[j]
  }

  /** The same positions one later, as seen from a list with one more element in front. */
  function Later(idx: seq<nat>): (r: seq<nat>)
    ensures |r| == |idx| && forall i :: 0 <= i < |r| ==> r[i] == idx[i] + 1
  {
    seq(|idx|, i requires 0 <= i < |idx| => idx[i] + 1)
  }

  lemma LaterHolds(idx: seq<nat>, k: int)
    ensures k in Later(idx) <==> k - 1 in idx
  {
    if k - 1 in idx {
      var i :| 0 <= i < |idx| && idx[i] == k - 1;
      assert Later(idx)[i] == k;
    }
  }

  ghost predicate Selects(idx: seq<nat>, events: seq<Json>, kept: seq<Json>) {
    |idx| == |kept| && forall i :: 0 <= i < |idx| ==> idx[i] < |events| && kept[i] == events[idx[i]]
  }

  /** The kept list is the non-matching events at increasing positions: none lost, none
      duplicated, none reordered. */
  lemma {:induction false} KeptIsTheNonMatchingSubsequence(events: seq<Json>, eventId: string, refId: string)
    returns (idx: seq<nat>)
    ensures Selects(idx, events, Kept(events, eventId, refId)) && Increasing(idx)
    ensures forall k :: 0 <= k < |events| ==> (k in idx <==> !Matches(events[k], eventId, refId))
  {
    if events == [] { return []; }
    var rest := KeptIsTheNonMatchingSubsequence(events[1..], eventId, refId);
    var later := Later(rest);
    idx := (if Matches(events[0], eventId, refId) then [] else [0]) + later;
    var m := Matches(events[0], eventId, refId);
    forall k | 0 <= k < |events| ensures k in idx <==> !Matches(events[k], eventId, refId) {
      LaterHolds(rest, k);
      assert k in idx <==> (k == 0 && !m) || k in later;
      if k == 0 { assert 0 !in later; } else { assert events[k] == events[1..][k - 1]; }
    }
    SelectsLater(rest, events, Kept(events[1..], eventId, refId));
    if !m { SelectsFirst(later, events, Kept(events[1..], eventId, refId)); }
  }

  lemma SelectsLater(idx: seq<nat>, events: seq<Json>, kept: seq<Json>)
    requires events != [] && Selects(idx, events[1..], kept) && Increasing(idx)
    ensures Selects(Later(idx), events, kept) && Increasing(Later(idx))
  {
    forall i | 0 <= i < |idx| ensures Later(idx)[i] < |events| && kept[i] == events[Later(idx)[i]] {
      assert events[1..][idx[i]] == events[idx[i] + 1];
    }
  }

  lemma SelectsFirst(idx: seq<nat>, events: seq<Json>, kept: seq<Json>)
    requires events != [] && Selects(idx, events, kept) && Increasing(idx) && forall i :: 0 <= i < |idx| ==> idx[i] > 0
    ensures Selects([0] + idx, events, [events[0]] + kept) && Increasing([0] + idx)
  {
  }

  lemma EventsOfWithEvents(payload: Json, events: seq<Json>, header: string, publishedAt: string)
    ensures WithEvents(payload, events, header, publishedAt).Some? ==>
      Events(WithEvents(payload, events, header, publishedAt).value) == events
  {
    assert "data"[0] != "header"[0] && "data"[0] != "published_at"[0];
  }

  /** A rewrite touches the event list, the header and the time stamp, nothing else. */
  lemma RewriteKeepsTheRest(payload: Json, events: seq<Json>, header: string, publishedAt: string)
    requires WithEvents(payload, events, header, publishedAt).Some?
    ensures var next := WithEvents(payload, events, header, publishedAt).value;
      && next.Obj? && next.Get("header") == Str(header) && next.Get("published_at") == Str(publishedAt)
      && next.fields - {"data", "header", "published_at"} == payload.fields - {"data", "header", "published_at"}
      && next.Get("data").Obj?
      && next.Get("data").fields - {"events"}
         == (if payload.Get("data").Obj? then payload.Get("data").fields else map[]) - {"events"}
  {
    assert "data"[0] != "header"[0] && "data"[0] != "published_at"[0] && "header"[0] != "published_at"[0];
  }

  // ---- the operation ---------------------------------------------------------------

  class NotificationAgent {
    var files: Directory
    var rawFp: seq<Entry>
    const hash: Bytes -> string
    const parse: Bytes -> Option<Json>
    const utf8: Bytes -> bool
    const encode: Json -> Bytes
    const header: nat -> string
    const allowed: Channel -> bool
    const guarded: set<Channel>

    constructor (
        hash: Bytes -> string, parse: Bytes -> Option<Json>, utf8: Bytes -> bool, encode: Json -> Bytes,
        header: nat -> string, allowed: Channel -> bool, guarded: set<Channel>, files: Directory, rawFp: seq<Entry>)
      ensures this.files == files && this.rawFp == rawFp && this.hash == hash && this.parse == parse
      ensures this.utf8 == utf8 && this.encode == encode && this.header == header
      ensures this.allowed == allowed && this.guarded == guarded
    {
      this.hash, this.parse, this.utf8, this.encode := hash, parse, utf8, encode;
      this.header, this.allowed, this.guarded, this.files, this.rawFp := header, allowed, guarded, files, rawFp;
    }

    /** The refusals decided before the Store is touched. */
    function Refusal(channel: Channel, force: bool, reason: string, eventId: string, refId: string)
      : Option<Outcome>
    {
      if !allowed(channel) then Some(InvalidChannel)
      else if channel == "post-molt" && reason == "" then Some(MissingAckReason)
      else if channel == "goal" then Some(ProtectedChannel)
      else if (eventId != "" || refId != "") && channel != "system" && channel != DAEMON_CHANNEL
      then Some(AtomicDismissNeedsEventChannel)
      else if channel in guarded && !force then Some(Guarded)
      else None
    }

    /** When each refusal is given, the first that applies winning. */
    predicate RefusedOnlyIf(
      r: Outcome, channel: Channel, force: bool, reason: string, eventId: string, refId: string)
    {
      var mayGo := allowed(channel) && !(channel == "post-molt" && reason == "") && channel != "goal";
      var wholeOrMany := (eventId == "" && refId == "") || channel == "system" || channel == "daemon";
      && (r == InvalidChannel <==> !allowed(channel))
      && (r == MissingAckReason <==> allowed(channel) && channel == "post-molt" && reason == "")
      && (r == ProtectedChannel <==> allowed(channel) && channel == "goal")
      && (r == AtomicDismissNeedsEventChannel <==> mayGo && !wholeOrMany)
      && (r == Guarded <==> mayGo && wholeOrMany && channel in guarded && !force)
    }

    /** A stale refusal shows both versions: the delivered entry and that of the file now there. */
    ghost predicate Versions(r: Outcome, dir: Directory, delivered: Directory, channel: Channel)
      requires r.StaleVersion?
    {
      && r.delivered == (if channel in delivered
                         then Some(Entry(channel + ".json", |delivered[channel]|, hash(delivered[channel]))) else None)
      && r.current == (if channel in dir
                       then Some(Entry(channel + ".json", |dir[channel]|, hash(dir[channel]))) else None)
    }

    /** The payload an event dismissal writes, unless nothing is left. */
    function Rewritten(payload: Json, eventId: string, refId: string, publishedAt: string): Option<Json> {
      var kept := Kept(Events(payload), eventId, refId);
      WithEvents(payload, kept, header(|kept|), publishedAt)
    }

    /** `dir` after the matching events of `payload`, the payload of its `channel`, are gone. */
    function WithoutEvents(
        dir: Directory, channel: Channel, payload: Json, eventId: string, refId: string, publishedAt: string)
      : Directory
    {
      match Rewritten(payload, eventId, refId, publishedAt)
      case None => dir - {channel}
      case Some(next) => dir[channel := encode(next)]
    }

    /** Exactly the matching events of `payload` went from `before` to `after`. */
    predicate Dropped(
      before: Directory, after: Directory, r: Outcome, channel: Channel, payload: Json,
      eventId: string, refId: string, publishedAt: string)
    {
      var kept := Kept(Events(payload), eventId, refId);
      && r.EventsRemoved? && r.remaining == |kept| && r.removed + |kept| == |Events(payload)|
      && after == WithoutEvents(before, channel, payload, eventId, refId, publishedAt)
    }

    /** What an event dismissal did: nothing, because nothing matched, or it dropped the
        matching events of the payload that the file held. */
    predicate EventsGone(
      before: Directory, after: Directory, r: Outcome, channel: Channel,
      eventId: string, refId: string, publishedAt: string)
    {
      var payload := CurrentPayload(before, channel, parse);
      var kept := Kept(Events(payload), eventId, refId);
      && r.EventsRemoved? && r.remaining == |kept| && r.removed + |kept| == |Events(payload)|
      && (if r.removed == 0
          then after == before && kept == Events(payload)
          else channel in before && parse(before[channel]) == Some(payload)
               && Dropped(before, after, r, channel, payload, eventId, refId, publishedAt))
    }

    method RemoveEvents(channel: Channel, eventId: string, refId: string, publishedAt: string) returns (r: Outcome)
      modifies `files
      ensures files - {channel} == old(files) - {channel}
      ensures EventsGone(old(files), files, r, channel, eventId, refId, publishedAt)
    {
      var payload := CurrentPayload(files, channel, parse);
      var events := Events(payload);
      var kept := Kept(events, eventId, refId);
      KeptIsNoLonger(events, eventId, refId);
      r := EventsRemoved(|events| - |kept|, |kept|);
      if |kept| < |events| {
        match Rewritten(payload, eventId, refId, publishedAt) {
          case None => files := files - {channel};
          case Some(next) => files := files[channel := encode(next)];
        }
      }
    }

    /** The rewritten payload holds exactly the non-matching events, and so does the file
        if that payload survives encoding. */
    lemma WhatIsLeft(
        before: Directory, after: Directory, r: Outcome, channel: Channel, payload: Json,
        eventId: string, refId: string, publishedAt: string)
      requires payload.Obj? && Dropped(before, after, r, channel, payload, eventId, refId, publishedAt)
      ensures r.remaining == 0 ==> after == before - {channel}
      ensures r.remaining > 0 ==>
        var next := Rewritten(payload, eventId, refId, publishedAt);
        && next.Some? && Events(next.value) == Kept(Events(payload), eventId, refId)
        && after == before[channel := encode(next.value)]
        && (parse(encode(next.value)) == next ==> CurrentPayload(after, channel, parse) == next.value)
    {
      var kept := Kept(Events(payload), eventId, refId);
      EventsOfWithEvents(payload, kept, header(|kept|), publishedAt);
    }

    /** The file of `channel` holds an object whose `data.events` is the list `items`. */
    ghost predicate HoldsEvents(dir: Directory, channel: Channel, items: seq<Json>) {
      && channel in dir && parse(dir[channel]).Some?
      && var payload := parse(dir[channel]).value;
      && payload.Obj? && "data" in payload.fields && payload.fields["data"].Obj?
      && "events" in payload.fields["data"].fields && payload.fields["data"].fields["events"] == Arr(items)
    }

    /** The events at positions `idx` are those that are left. */
    ghost predicate Leaves(
      before: Directory, after: Directory, channel: Channel, items: seq<Json>, idx: seq<nat>, publishedAt: string)
    {
      if |idx| == |items| then after == before
      else if idx == [] then after == before - {channel}
      else
        exists next, kept ::
          && after == before[channel := encode(next)] && Selects(idx, items, kept)
          && next.Get("data").Get("events") == Arr(kept) && next.Get("header") == Str(header(|kept|))
          && next.Get("published_at") == Str(publishedAt)
    }

    /** `idx` are the positions of the events that carry neither of the given ids. */
    ghost predicate Spared(idx: seq<nat>, items: seq<Json>, eventId: string, refId: string) {
      && (forall k <- idx :: k < |items|)
      && (forall k :: 0 <= k < |items| ==>
            (k !in idx <==>
               && items[k].Obj?
               && ((eventId != "" && items[k].Get("event_id") == Str(eventId))
                   || (refId != "" && items[k].Get("ref_id") == Str(refId)))))
    }

    /** Every object whose `event_id` is the given id, or whose `ref_id` is the given one,
        goes; every other event stays, in its order.  A file without such a list is left. */
    ghost predicate GoneById(
      before: Directory, after: Directory, r: Outcome, channel: Channel,
      eventId: string, refId: string, publishedAt: string)
    {
      && (forall items | HoldsEvents(before, channel, items) ::
            exists idx: seq<nat> ::
              GoneButFor(idx, before, after, r, channel, items, eventId, refId, publishedAt))
      && ((forall items :: !HoldsEvents(before, channel, items)) ==> r == EventsRemoved(0, 0) && after == before)
    }

    ghost predicate GoneButFor(
      idx: seq<nat>, before: Directory, after: Directory, r: Outcome, channel: Channel,
      items: seq<Json>, eventId: string, refId: string, publishedAt: string)
    {
      && Increasing(idx) && Spared(idx, items, eventId, refId)
      && r.EventsRemoved? && r.remaining == |idx| && r.removed + |idx| == |items|
      && Leaves(before, after, channel, items, idx, publishedAt)
    }

    lemma EventsGoById(
        before: Directory, after: Directory, r: Outcome, channel: Channel,
        eventId: string, refId: string, publishedAt: string)
      requires EventsGone(before, after, r, channel, eventId, refId, publishedAt)
      ensures GoneById(before, after, r, channel, eventId, refId, publishedAt)
    {
      forall items | HoldsEvents(before, channel, items)
        ensures exists idx: seq<nat> ::
          GoneButFor(idx, before, after, r, channel, items, eventId, refId, publishedAt)
      {
        var idx := KeptIsTheNonMatchingSubsequence(items, eventId, refId);
        SparedAreLeft(before, after, r, channel, items, idx, eventId, refId, publishedAt);
        assert GoneButFor(idx, before, after, r, channel, items, eventId, refId, publishedAt);
      }
      if forall items :: !HoldsEvents(before, channel, items) {
        NoEventsWithoutAList(before, channel);
      }
    }

    lemma SparedAreLeft(
        before: Directory, after: Directory, r: Outcome, channel: Channel, items: seq<Json>, idx: seq<nat>,
        eventId: string, refId: string, publishedAt: string)
      requires EventsGone(before, after, r, channel, eventId, refId, publishedAt)
      requires HoldsEvents(before, channel, items) && Selects(idx, items, Kept(items, eventId, refId))
      ensures Leaves(before, after, channel, items, idx, publishedAt)
    {
      var payload := CurrentPayload(before, channel, parse);
      var kept := Kept(items, eventId, refId);
      if |idx| != |items| && idx != [] {
        RewriteKeepsTheRest(payload, kept, header(|kept|), publishedAt);
        EventsOfWithEvents(payload, kept, header(|kept|), publishedAt);
        var next := Rewritten(payload, eventId, refId, publishedAt).value;
        assert after == before[channel := encode(next)] && Selects(idx, items, kept);
        assert next.Get("data").Get("events") == Arr(kept);
      }
    }

    lemma NoEventsWithoutAList(dir: Directory, channel: Channel)
      requires forall items :: !HoldsEvents(dir, channel, items)
      ensures Events(CurrentPayload(dir, channel, parse)) == []
    {
      var payload := CurrentPayload(dir, channel, parse);
      if payload.Get("data").Get("events").Arr? {
        assert HoldsEvents(dir, channel, payload.Get("data").Get("events").items);
      }
    }

    /** `reason` is already stripped.  `delivered` is the directory view the agent was last
        shown; the ghost argument only names what `rawFp` stands for. */
    method Dismiss(
        channel: Channel, force: bool, reason: string, eventId: string, refId: string, publishedAt: string,
        ghost delivered: Directory)
      returns (r: Outcome)
      requires Injective(hash) && FingerprintOf(rawFp, delivered, hash)
      modifies `files
      // Other channels are never touched.
      ensures files - {channel} == old(files) - {channel}
      ensures RefusedOnlyIf(r, channel, force, reason, eventId, refId)
      ensures Refusal(channel, force, reason, eventId, refId).Some? ==>
        r == Refusal(channel, force, reason, eventId, refId).value && files == old(files)
      // A file that is no text makes the call raise, forced or not, stale or not.
      ensures Refusal(channel, force, reason, eventId, refId).None? ==>
        (r.Undecodable? <==> channel in old(files) && !utf8(old(files)[channel]))
      // Otherwise, without force, staleness is exactly a change since delivery.
      ensures Refusal(channel, force, reason, eventId, refId).None? && !r.Undecodable? ==>
        (r.StaleVersion? <==> !force && !Same(old(files), delivered, channel))
      ensures r.StaleVersion? || r.Undecodable? ==> files == old(files)
      ensures r.StaleVersion? ==> Versions(r, old(files), delivered, channel)
      ensures !force && files != old(files) ==> channel in delivered && old(files)[channel] == delivered[channel]
      // A whole-channel dismissal removes the file and says whether there was one.
      ensures r.Cleared? ==>
        files == old(files) - {channel} && (r.existed <==> channel in old(files)) && eventId == "" == refId
      // An event dismissal leaves exactly the non-matching events, in order.
      ensures r.EventsRemoved? ==>
        && EventsGone(old(files), files, r, channel, eventId, refId, publishedAt)
        && GoneById(old(files), files, r, channel, eventId, refId, publishedAt)
      ensures Refusal(channel, force, reason, eventId, refId).None? && !r.StaleVersion? && !r.Undecodable? ==>
        if eventId == "" && refId == "" then r.Cleared? else r.EventsRemoved?
    {
      var refusal := Refusal(channel, force, reason, eventId, refId);
      if refusal.Some? { return refusal.value; }
      if channel in files && !utf8(files[channel]) { return Undecodable; }
      var token := DeliveredEntry(rawFp, channel);
      var expected := if force then Unconditional else Version(token);
      TokenMatchesIffContentDelivered(rawFp, delivered, files, channel, hash);
      if Conflicts(files, channel, expected, hash) {
        DeliveredEntryIsTheEntry(rawFp, delivered, channel, hash);
        return StaleVersion(token, CurrentVersion(files, channel, hash));
      }
      if eventId == "" && refId == "" {
        r := Cleared(channel in files);
        files := files - {channel};
      } else {
        r := RemoveEvents(channel, eventId, refId, publishedAt);
        EventsGoById(old(files), files, r, channel, eventId, refId, publishedAt);
      }
    }
  }

  lemma {:induction false} KeptIsNoLonger(events: seq<Json>, eventId: string, refId: string)
    ensures |Kept(events, eventId, refId)| <= |events|
    ensures |Kept(events, eventId, refId)| == |events| <==> Kept(events, eventId, refId) == events
    ensures |Kept(events, eventId, refId)| == |events| <==>
      forall k :: 0 <= k < |events| ==> !Matches(events[k], eventId, refId)
  {
    if events != [] { KeptIsNoLonger(events[1..], eventId, refId); }
  }

  /** The observation is the directory of instant `t`, with `channel` visible and as in `current`. */
  ghost predicate ShownAt(
      store: Store, visible: Channel -> bool, o: Observation, current: Directory, channel: Channel, t: nat)
  {
    && Describes(o.rawFp, o.payloads, store.timeline(t), store, visible)
    && channel in Visible(store.timeline(t), visible) && Same(current, store.timeline(t), channel)
  }

  ghost predicate WasShown(
      store: Store, visible: Channel -> bool, o: Observation, current: Directory, channel: Channel, since: nat, to: nat)
  {
    exists t :: since <= t <= to && ShownAt(store, visible, o, current, channel, t)
  }

  /** What delivery needs of the coherent read. */
  method ReadForDelivery(store: Store, allow: Channel -> bool, delayed: Option<Channel>, threshold: Option<nat>)
    returns (o: Observation, ghost delivered: Directory, ghost since: nat, ghost clean: bool)
    requires Injective(store.hash)
    modifies store`now, store`faults
    ensures old(store.now) <= since <= store.now && (store.faults == old(store.faults) ==> clean)
    ensures o.stable ==> FingerprintOf(o.rawFp, delivered, store.hash)
    ensures o.stable && clean ==> PinnedIn(o.rawFp, o.payloads, store, ConsumerAllow(allow, delayed), since)
  {
    ghost var starts, failed;
    o, since, clean, starts, failed := CoherentAttentionRead(store, allow, delayed, threshold);
    delivered := map[];
    if o.stable { delivered :| FingerprintOf(o.rawFp, delivered, store.hash); }
  }

  /** A coherent read is delivered, and producers run on until the agent acts. */
  method Deliver(
      store: Store, agent: NotificationAgent, allow: Channel -> bool, delayed: Option<Channel>, threshold: Option<nat>)
    returns (o: Observation, ghost delivered: Directory, ghost since: nat, ghost clean: bool, ghost readEnd: nat)
    requires Injective(store.hash)
    modifies store`now, store`faults, agent`rawFp, agent`files
    ensures old(store.now) <= since <= readEnd <= store.now && (store.faults == old(store.faults) ==> clean)
    ensures if o.stable then agent.files == store.timeline(store.now) && agent.rawFp == o.rawFp
            else agent.files == old(agent.files) && agent.rawFp == old(agent.rawFp)
    ensures o.stable ==> FingerprintOf(o.rawFp, delivered, store.hash)
    ensures o.stable && clean && NoFalseMatch(store.timeline, ConsumerAllow(allow, delayed), since, readEnd) ==>
      DescribesSome(store, ConsumerAllow(allow, delayed), o, since, readEnd)
  {
    o, delivered, since, clean := ReadForDelivery(store, allow, delayed, threshold);
    readEnd := store.now;
    if o.stable {
      store.Wait();
      agent.rawFp, agent.files := o.rawFp, store.timeline(store.now);
    }
  }

  ghost predicate DescribesSome(store: Store, visible: Channel -> bool, o: Observation, since: nat, to: nat) {
    exists t :: since <= t <= to && Describes(o.rawFp, o.payloads, store.timeline(t), store, visible)
  }

  /** The whole loop: a stable read is delivered, producers run on, and the agent then
      dismisses a channel, or events of it, without force.  What it changes is what it was
      shown: the delivered file is cleared, or loses matching events that were delivered. */
  method DeliverThenDismiss(
      store: Store, agent: NotificationAgent, allow: Channel -> bool, delayed: Option<Channel>,
      threshold: Option<nat>, channel: Channel, reason: string, eventId: string, refId: string, publishedAt: string)
    returns (o: Observation, r: Option<Outcome>, ghost since: nat, ghost clean: bool, ghost readEnd: nat)
    requires Injective(store.hash) && agent.hash == store.hash && agent.parse == store.parse
    modifies store`now, store`faults, agent`rawFp, agent`files
    ensures old(store.now) <= since <= readEnd <= store.now && (store.faults == old(store.faults) ==> clean)
    ensures o.stable <==> r.Some?
    ensures !o.stable ==> agent.files == old(agent.files)
    // False matches and read errors are excluded during the read only; afterwards producers are unconstrained.
    ensures var visible, current := ConsumerAllow(allow, delayed), store.timeline(store.now);
      && o.stable && clean && NoFalseMatch(store.timeline, visible, since, readEnd) && agent.files != current ==>
        && WasShown(store, visible, o, current, channel, since, readEnd)
        && (if r.value.Cleared? then agent.files == current - {channel}
            else channel in o.payloads
                 && agent.Dropped(
                      current, agent.files, r.value, channel, o.payloads[channel], eventId, refId, publishedAt))
  {
    ghost var shown;
    o, shown, since, clean, readEnd := Deliver(store, agent, allow, delayed, threshold);
    if !o.stable { return o, None, since, clean, readEnd; }
    var outcome := agent.Dismiss(channel, false, reason, eventId, refId, publishedAt, shown);
    r := Some(outcome);
    ghost var visible, current := ConsumerAllow(allow, delayed), store.timeline(store.now);
    if clean && NoFalseMatch(store.timeline, visible, since, readEnd) && agent.files != current {
      ChangedWasDelivered(store, visible, o, shown, current, channel, since, readEnd);
    }
  }

  /** A file equal to the delivered one was shown, and its payload is the one in the observation. */
  lemma ChangedWasDelivered(
      store: Store, visible: Channel -> bool, o: Observation, delivered: Directory, current: Directory,
      channel: Channel, since: nat, readEnd: nat)
    requires Injective(store.hash) && FingerprintOf(o.rawFp, delivered, store.hash)
    requires DescribesSome(store, visible, o, since, readEnd)
    requires channel in delivered && Same(current, delivered, channel)
    ensures WasShown(store, visible, o, current, channel, since, readEnd)
    ensures store.parse(current[channel]).Some? ==>
      channel in o.payloads && store.parse(current[channel]) == Some(o.payloads[channel])
  {
    var t :| since <= t <= readEnd && Describes(o.rawFp, o.payloads, store.timeline(t), store, visible);
    FingerprintDeterminesView(o.rawFp, delivered, Visible(store.timeline(t), visible), store.hash);
    assert ShownAt(store, visible, o, current, channel, t);
  }
}
