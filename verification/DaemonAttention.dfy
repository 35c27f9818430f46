/** The daemon channel's batch odometer and the attention mask that turns many daemon
    writes into one wake edge (src/lingtai/kernel/notifications.py). */
module DaemonAttention {
  import opened Common
  import opened Fingerprints

  const DAEMON_CHANNEL: string := "daemon"
  const DAEMON_FILE: string := "daemon.json"
  const DELAYED_TOKEN: string := "daemon:delayed=1"
  const ALARMED_TOKEN: string := "daemon:alarm=1"
  const QUIET_TOKEN: string := "daemon:alarm=0"

  datatype Batch = Batch(count: nat, alarmFired: bool)

  /** The batch state inside a channel payload; malformed state is a fresh batch. */
  function BatchState(payload: Json): Batch {
    var state := payload.Get("data").Get(DAEMON_CHANNEL);
    if !state.Obj? then Batch(0, false)
    else
      var count := state.Get("count");
      Batch(if count.Int? && count.i >= 0 then count.i else 0, state.Get("alarm_fired") == Bool(true))
  }

  function NextBatchState(payload: Json, threshold: Option<nat>): Batch {
    var Batch(count, fired) := BatchState(payload);
    Batch(count + 1, fired || (threshold.Some? && count + 1 > threshold.value))
  }

  predicate Alarmed(payload: Json, threshold: nat) {
    BatchState(payload).alarmFired || BatchState(payload).count > threshold
  }

  /** `None` passes the raw content hash through. */
  function AttentionToken(payload: Json, threshold: Option<nat>, delayed: bool): Option<string> {
    if delayed then Some(DELAYED_TOKEN)
    else if threshold.None? then None
    else Some(if Alarmed(payload, threshold.value) then ALARMED_TOKEN else QUIET_TOKEN)
  }

  predicate Has(fp: seq<Entry>, name: string) {
    exists e <- fp :: e.name == name
  }

  /** Put `tok` in place of the entry of the same name. */
  function Rewrite(fp: seq<Entry>, tok: Entry): (r: seq<Entry>) {
    if fp == [] then []
    else [if fp[0].name == tok.name then tok else fp[0]] + Rewrite(fp[1..], tok)
  }

  /** Rewrite the daemon entry to its token, adding a virtual one when the file is absent. */
  function Mask(fp: seq<Entry>, payload: Json, threshold: Option<nat>, delayed: bool): seq<Entry> {
    var token := AttentionToken(payload, threshold, delayed);
    if token.None? then fp else MaskWith(fp, Entry(DAEMON_FILE, 0, token.value))
  }

  function MaskWith(fp: seq<Entry>, tok: Entry): seq<Entry> {
    var masked := Rewrite(fp, tok);
    Sort(if Has(masked, tok.name) then masked else masked + [tok])
  }

  /** The entries of every other file, in order. */
  function Others(fp: seq<Entry>, name: string): (r: seq<Entry>)
    ensures forall e :: e in r <==> e in fp && e.name != name
  {
    if fp == [] then []
    else if fp[0].name == name then Others(fp[1..], name)
    else [fp[0]] + Others(fp[1..], name)
  }

  function NonDaemon(fp: seq<Entry>): seq<Entry> {
    Others(fp, DAEMON_FILE)
  }

  // ---- what the mask lets through -------------------------------------------------

  lemma {:induction false} OthersOfAbsent(fp: seq<Entry>, name: string)
    requires forall e <- fp :: e.name != name
    ensures Others(fp, name) == fp
  {
    if fp != [] { OthersOfAbsent(fp[1..], name); }
  }

  lemma {:induction false} RewriteOfAbsent(fp: seq<Entry>, tok: Entry)
    requires forall e <- fp :: e.name != tok.name
    ensures Rewrite(fp, tok) == fp
  {
    if fp != [] { RewriteOfAbsent(fp[1..], tok); }
  }

  lemma {:induction false} RewriteKeepsNames(fp: seq<Entry>, tok: Entry)
    ensures |Rewrite(fp, tok)| == |fp|
    ensures forall i :: 0 <= i < |fp| ==> Rewrite(fp, tok)[i].name == fp[i].name
  {
    if fp != [] { RewriteKeepsNames(fp[1..], tok); }
  }

  /** Dropping an entry of a sorted tuple and inserting its token by name is rewriting it. */
  lemma {:induction false} RewriteIsInsert(fp: seq<Entry>, tok: Entry)
    requires SortedByName(fp) && Has(fp, tok.name)
    ensures Rewrite(fp, tok) == Insert(tok, Others(fp, tok.name))
  {
    var rest := fp[1..];
    if fp[0].name == tok.name {
      forall e | e in rest ensures e.name != tok.name && Before(tok.name, e.name) {
        BeforeIsTotal(tok.name, e.name);
      }
      OthersOfAbsent(rest, tok.name);
      RewriteOfAbsent(rest, tok);
    } else {
      assert Has(rest, tok.name);
      BeforeIsTotal(fp[0].name, tok.name);
      RewriteIsInsert(rest, tok);
    }
  }

  /** The masked tuple is the other files' raw entries with one token entry in its place. */
  lemma MaskIsTokenAmongOthers(fp: seq<Entry>, tok: Entry)
    requires SortedByName(fp)
    ensures MaskWith(fp, tok) == Insert(tok, Others(fp, tok.name))
  {
    RewriteKeepsNames(fp, tok);
    if Has(fp, tok.name) {
      var k :| 0 <= k < |fp| && fp[k].name == tok.name;
      assert Has(Rewrite(fp, tok), tok.name) by { assert Rewrite(fp, tok)[k].name == tok.name; }
      SortOfSorted(Rewrite(fp, tok));
      RewriteIsInsert(fp, tok);
    } else {
      RewriteOfAbsent(fp, tok);
      assert (fp + [tok])[..|fp|] == fp;
      SortOfSorted(fp);
      OthersOfAbsent(fp, tok.name);
    }
  }

  /** `fp` with the daemon entry, present or not, replaced by the one token entry. */
  ghost predicate TokenAmong(masked: seq<Entry>, fp: seq<Entry>, token: string) {
    && SortedByName(masked)
    && forall e :: e in masked <==> e == Entry("daemon.json", 0, token) || (e in fp && e.name != "daemon.json")
  }

  /** The latch is set in the payload, or its count, if it holds one, is above the threshold. */
  ghost predicate OverThreshold(payload: Json, threshold: nat) {
    var batch := payload.Get("data").Get("daemon");
    batch.Get("alarm_fired") == Bool(true) || (batch.Get("count").Int? && batch.Get("count").i > threshold)
  }

  /** What the wake fingerprint of a sorted raw one is. */
  ghost predicate ShownAs(masked: seq<Entry>, fp: seq<Entry>, payload: Json, threshold: Option<nat>, delayed: bool) {
    if delayed then TokenAmong(masked, fp, "daemon:delayed=1")
    else if threshold.None? then masked == fp
    else TokenAmong(masked, fp, if OverThreshold(payload, threshold.value) then "daemon:alarm=1" else "daemon:alarm=0")
  }

  /** Without a threshold and a delay every byte shows; otherwise one token stands for the
      daemon and every other entry shows as it is. */
  lemma WhatTheMaskShows(fp: seq<Entry>, payload: Json, threshold: Option<nat>, delayed: bool)
    requires SortedByName(fp)
    ensures ShownAs(Mask(fp, payload, threshold, delayed), fp, payload, threshold, delayed)
  {
    var token := AttentionToken(payload, threshold, delayed);
    if token.Some? { TokenShows(fp, token.value); }
  }

  lemma TokenShows(fp: seq<Entry>, token: string)
    requires SortedByName(fp)
    ensures TokenAmong(MaskWith(fp, Entry(DAEMON_FILE, 0, token)), fp, token)
  {
    var tok, others := Entry(DAEMON_FILE, 0, token), NonDaemon(fp);
    MaskIsTokenAmongOthers(fp, tok);
    OthersAreSorted(fp, DAEMON_FILE);
    InsertKeepsSorted(tok, others);
    InsertHolds(tok, others);
  }

  lemma InsertHolds(tok: Entry, fp: seq<Entry>)
    ensures forall e :: e in Insert(tok, fp) <==> e == tok || e in fp
  {
    forall e ensures e in Insert(tok, fp) <==> e == tok || e in fp {
      assert e in Insert(tok, fp) <==> e in multiset(Insert(tok, fp));
    }
  }

  lemma {:induction false} OthersAreSorted(fp: seq<Entry>, name: string)
    requires SortedByName(fp)
    ensures SortedByName(Others(fp, name))
  {
    if fp != [] {
      OthersAreSorted(fp[1..], name);
      if fp[0].name != name { SortedFromFront(fp[0], Others(fp[1..], name)); }
    }
  }

  lemma {:induction false} OthersOfInsert(e: Entry, fp: seq<Entry>)
    requires forall x <- fp :: x.name != e.name
    ensures Others(Insert(e, fp), e.name) == fp
    ensures e in multiset(Insert(e, fp))
  {
    OthersOfAbsent(fp, e.name);
    if fp != [] && !Before(e.name, fp[0].name) {
      OthersOfInsert(e, fp[1..]);
    }
  }

  /** Two masked tuples agree exactly when the other files and the tokens agree. */
  lemma MaskEquality(fp1: seq<Entry>, tok1: Entry, fp2: seq<Entry>, tok2: Entry)
    requires SortedByName(fp1) && SortedByName(fp2) && tok1.name == tok2.name
    ensures MaskWith(fp1, tok1) == MaskWith(fp2, tok2)
       <==> Others(fp1, tok1.name) == Others(fp2, tok1.name) && tok1 == tok2
  {
    MaskIsTokenAmongOthers(fp1, tok1);
    MaskIsTokenAmongOthers(fp2, tok2);
    OthersOfInsert(tok1, Others(fp1, tok1.name));
    OthersOfInsert(tok2, Others(fp2, tok1.name));
  }

  /** With a threshold, masked tuples are equal exactly when the other channels are
      byte-equal and the alarm bits agree: event bodies below the edge never show. */
  lemma ThresholdMaskEquality(fp1: seq<Entry>, p1: Json, fp2: seq<Entry>, p2: Json, threshold: nat)
    requires SortedByName(fp1) && SortedByName(fp2)
    ensures Mask(fp1, p1, Some(threshold), false) == Mask(fp2, p2, Some(threshold), false)
       <==> NonDaemon(fp1) == NonDaemon(fp2) && Alarmed(p1, threshold) == Alarmed(p2, threshold)
  {
    assert ALARMED_TOKEN[13] != QUIET_TOKEN[13];
    MaskEquality(fp1, Entry(DAEMON_FILE, 0, AttentionToken(p1, Some(threshold), false).value),
                 fp2, Entry(DAEMON_FILE, 0, AttentionToken(p2, Some(threshold), false).value));
  }

  /** Under a live daemon delay no daemon state at all moves the masked tuple. */
  lemma DelayedMaskEquality(
      fp1: seq<Entry>, p1: Json, fp2: seq<Entry>, p2: Json, threshold: Option<nat>)
    requires SortedByName(fp1) && SortedByName(fp2)
    ensures Mask(fp1, p1, threshold, true) == Mask(fp2, p2, threshold, true)
       <==> NonDaemon(fp1) == NonDaemon(fp2)
  {
    var tok := Entry(DAEMON_FILE, 0, DELAYED_TOKEN);
    MaskEquality(fp1, tok, fp2, tok);
  }

  // ---- the batch over a whole run -------------------------------------------------

  /** A daemon append (with an arbitrary rest of the payload), or a clear dropping the file. */
  datatype Op = Append(rest: map<string, Json>) | Clear

  function Overlay(rest: map<string, Json>, b: Batch): Json {
    var data := Obj(rest).Get("data");
    var fields := if data.Obj? then data.fields else map[];
    var state := Obj(map["count" := Int(b.count), "alarm_fired" := Bool(b.alarmFired)]);
    Obj(rest["data" := Obj(fields[DAEMON_CHANNEL := state])])
  }

  function Run(ops: seq<Op>, threshold: Option<nat>): Json {
    if ops == [] then Null
    else
      var before := Run(ops[..|ops| - 1], threshold);
      match ops[|ops| - 1]
      case Clear => Null
      case Append(rest) => Overlay(rest, NextBatchState(before, threshold))
  }

  function AppendsSinceClear(ops: seq<Op>): nat {
    if ops == [] || ops[|ops| - 1].Clear? then 0 else 1 + AppendsSinceClear(ops[..|ops| - 1])
  }

  lemma OverlayState(rest: map<string, Json>, b: Batch)
    ensures BatchState(Overlay(rest, b)) == b
  {
    assert "count"[0] != "alarm_fired"[0];
  }

  /** The stored batch counts the appends since the last clear, whatever the threshold, and
      is latched exactly once a threshold has been passed. */
  lemma {:induction false} BatchCountsAppends(ops: seq<Op>, threshold: Option<nat>)
    ensures BatchState(Run(ops, threshold))
         == Batch(AppendsSinceClear(ops), threshold.Some? && AppendsSinceClear(ops) > threshold.value)
  {
    if ops != [] && ops[|ops| - 1].Append? {
      BatchCountsAppends(ops[..|ops| - 1], threshold);
      OverlayState(ops[|ops| - 1].rest, NextBatchState(Run(ops[..|ops| - 1], threshold), threshold));
    }
  }

  /** An append to a payload without usable batch state, or with a count that is no natural
      number, starts to count at one and never forgets an alarm. */
  lemma AppendToMalformed(payload: Json, threshold: Option<nat>)
    requires var count := payload.Get("data").Get("daemon").Get("count"); !count.Int? || count.i < 0
    ensures var fired := payload.Get("data").Get("daemon").Get("alarm_fired") == Bool(true);
      NextBatchState(payload, threshold) == Batch(1, fired || threshold == Some(0))
  {
  }

  /** Over any run, one more operation moves the wake fingerprint (the other channels
      standing still) exactly when it is append number `threshold + 1` of its batch, or
      the clear of a batch that had alarmed. */
  lemma OneWakeEdgePerBatch(ops: seq<Op>, op: Op, threshold: nat, fp: seq<Entry>, fp': seq<Entry>)
    requires SortedByName(fp) && SortedByName(fp') && NonDaemon(fp) == NonDaemon(fp')
    ensures Mask(fp, Run(ops, Some(threshold)), Some(threshold), false)
         != Mask(fp', Run(ops + [op], Some(threshold)), Some(threshold), false)
       <==> if op.Append? then AppendsSinceClear(ops) == threshold
            else AppendsSinceClear(ops) > threshold
  {
    assert (ops + [op])[..|ops|] == ops;
    BatchCountsAppends(ops, Some(threshold));
    BatchCountsAppends(ops + [op], Some(threshold));
    ThresholdMaskEquality(fp, Run(ops, Some(threshold)), fp', Run(ops + [op], Some(threshold)), threshold);
  }

  /** The baseline of an agent that never synced: the mask of an empty directory. */
  function EmptyBaseline(threshold: Option<nat>, delayed: bool): seq<Entry> {
    if threshold.None? && !delayed then [] else Mask([], Null, threshold, delayed)
  }

  /** A first daemon sighting wakes a never-synced agent exactly when its batch alarms. */
  lemma FirstSightWakesOnlyIfAlarmed(ops: seq<Op>, threshold: nat, daemon: Entry)
    requires daemon.name == DAEMON_FILE
    ensures Mask([daemon], Run(ops, Some(threshold)), Some(threshold), false)
         != EmptyBaseline(Some(threshold), false)
       <==> AppendsSinceClear(ops) > threshold
  {
    BatchCountsAppends(ops, Some(threshold));
    assert [daemon][1..] == [];
    ThresholdMaskEquality([daemon], Run(ops, Some(threshold)), [], Null, threshold);
  }

  /** Otherwise the sight always wakes without a threshold and never under a delay. */
  lemma FirstSightOtherwise(payload: Json, threshold: Option<nat>, daemon: Entry)
    requires daemon.name == DAEMON_FILE
    ensures Mask([daemon], payload, None, false) != EmptyBaseline(None, false)
    ensures Mask([daemon], payload, threshold, true) == EmptyBaseline(threshold, true)
  {
    assert [daemon][1..] == [];
    DelayedMaskEquality([daemon], payload, [], Null, threshold);
  }
}
