/** The verify-and-retry read of the notification directory under concurrent producers
    (src/lingtai/kernel/notifications.py, `coherent_attention_read`).

    Producers are an arbitrary `timeline` of directory contents.  Every listing and every
    file read happens at its own instant, at or after the previous one, so one pass over
    the directory may tear in any way. */
module CoherentRead {
  import opened Common
  import opened Fingerprints
  import opened DaemonAttention

  type Channel = string
  type Bytes = seq<bv8>
  type Directory = map<Channel, Bytes>

  const COHERENT_READ_ATTEMPTS := 3

  function FileName(c: Channel): string {
    c + ".json"
  }

  function EntryOf(hash: Bytes -> string, c: Channel, raw: Bytes): Entry {
    Entry(FileName(c), |raw|, hash(raw))
  }

  ghost predicate Injective(hash: Bytes -> string) {
    forall a, b :: hash(a) == hash(b) ==> a == b
  }

  /** `fp` is the Store fingerprint of exactly the files in `view`. */
  ghost predicate FingerprintOf(fp: seq<Entry>, view: Directory, hash: Bytes -> string) {
    && SortedByName(fp)
    && (forall c <- view :: EntryOf(hash, c, view[c]) in fp)
    && (forall e <- fp :: exists c :: c in view && e == EntryOf(hash, c, view[c]))
  }

  /** The payload map a snapshot returns for `view`: malformed files are skipped. */
  function Decoded(view: Directory, parse: Bytes -> Option<Json>): map<Channel, Json> {
    map c | c in view && parse(view[c]).Some? :: parse(view[c]).value
  }

  function Visible(dir: Directory, allow: Channel -> bool): Directory {
    map c | c in dir && allow(c) :: dir[c]
  }

  /** What a read of channel `c` finds in `dir`: its bytes, or nothing. */
  function Look(dir: Directory, c: Channel): Option<Bytes> {
    if c in dir then Some(dir[c]) else None
  }

  predicate Same(d1: Directory, d2: Directory, c: Channel) {
    Look(d1, c) == Look(d2, c)
  }

  // ---- what one pass may see ------------------------------------------------------

  /** Channel `c` looked like this at some instant of the window. */
  ghost predicate LookedLike(timeline: nat -> Directory, c: Channel, look: Option<Bytes>, from: nat, to: nat) {
    exists t :: from <= t <= to && Look(timeline(t), c) == look
  }

  /** What a pass that lists the directory at `listed` may make of channel `c`: `daemon` is
      read before the listing, a listed file after it, and an unlisted file not at all. */
  ghost predicate MayShow(
      timeline: nat -> Directory, c: Channel, look: Option<Bytes>, from: nat, listed: nat, to: nat)
  {
    if c == DAEMON_CHANNEL then LookedLike(timeline, c, look, from, listed)
    else if c in timeline(listed) then LookedLike(timeline, c, look, listed, to)
    else look == None
  }

  ghost predicate PassListing(
      view: Directory, timeline: nat -> Directory, allow: Channel -> bool, from: nat, listed: nat, to: nat)
  {
    && from <= listed <= to
    && (forall c <- view :: allow(c))
    && (forall c :: allow(c) ==> MayShow(timeline, c, Look(view, c), from, listed, to))
  }

  /** `view` is what one pass in the window may show. */
  ghost predicate Pass(view: Directory, timeline: nat -> Directory, allow: Channel -> bool, from: nat, to: nat) {
    exists listed :: PassListing(view, timeline, allow, from, listed, to)
  }

  lemma ShownWasThere(
      timeline: nat -> Directory, c: Channel, look: Option<Bytes>, from: nat, listed: nat, to: nat)
    requires from <= listed <= to && MayShow(timeline, c, look, from, listed, to)
    ensures LookedLike(timeline, c, look, from, to)
  {
    if c == DAEMON_CHANNEL {
      var t :| from <= t <= listed && Look(timeline(t), c) == look;
    } else if c in timeline(listed) {
      var t :| listed <= t <= to && Look(timeline(t), c) == look;
    } else {
      assert Look(timeline(listed), c) == look;
    }
  }

  /** A longer window shows no less. */
  lemma ShownInLonger(
      timeline: nat -> Directory, c: Channel, look: Option<Bytes>,
      from: nat, listed: nat, to: nat, from': nat, to': nat)
    requires MayShow(timeline, c, look, from, listed, to) && from' <= from && to <= to'
    ensures MayShow(timeline, c, look, from', listed, to')
  {
    if c == DAEMON_CHANNEL {
      var t :| from <= t <= listed && Look(timeline(t), c) == look;
    } else if c in timeline(listed) {
      var t :| listed <= t <= to && Look(timeline(t), c) == look;
    }
  }

  /** A pass that happens all at one instant. */
  lemma InstantPass(timeline: nat -> Directory, allow: Channel -> bool, from: nat, at: nat, to: nat)
    requires from <= at <= to
    ensures Pass(Visible(timeline(at), allow), timeline, allow, from, to)
  {
    var view := Visible(timeline(at), allow);
    forall c | allow(c) ensures MayShow(timeline, c, Look(view, c), from, at, to) {
      assert Look(timeline(at), c) == Look(view, c);
    }
    assert PassListing(view, timeline, allow, from, at, to);
  }

  // ---- the Store: a per-file reader ----------------------------------------------

  class Store {
    const timeline: nat -> Directory
    const hash: Bytes -> string
    const parse: Bytes -> Option<Json>
    /** Contents that decode as text at all. */
    const utf8: Bytes -> bool
    /** Instants at which the file system raises: a listing raises with it, but the error of
        a single file is swallowed and the file looks absent. */
    const broken: nat -> bool
    var now: nat
    /** File reads that raised and were swallowed. */
    ghost var faults: nat

    constructor (
        timeline: nat -> Directory, hash: Bytes -> string, parse: Bytes -> Option<Json>, utf8: Bytes -> bool,
        broken: nat -> bool, now: nat)
      ensures this.timeline == timeline && this.hash == hash && this.parse == parse && this.utf8 == utf8
      ensures this.broken == broken && this.now == now && faults == 0
    {
      this.timeline, this.hash, this.parse, this.utf8 := timeline, hash, parse, utf8;
      this.broken, this.now, faults := broken, now, 0;
    }

    ghost predicate Readable(from: nat, to: nat) {
      forall t :: from <= t <= to ==> !broken(t)
    }

    /** No visible file holds bytes that are no text. */
    ghost predicate Decodable(allow: Channel -> bool, from: nat, to: nat) {
      forall t, c | from <= t <= to && allow(c) && c in timeline(t) :: utf8(timeline(t)[c])
    }

    /** Producers run for an arbitrary while. */
    method Wait()
      modifies `now
      ensures old(now) <= now
    {
      var later: nat :| now <= later;
      now := later;
    }

    method ListDirectory() returns (names: set<Channel>)
      modifies `now
      ensures old(now) <= now && names == timeline(now).Keys
    {
      Wait();
      names := timeline(now).Keys;
    }

    method ReadBytes(c: Channel) returns (raw: Option<Bytes>)
      modifies `now, `faults
      ensures old(now) <= now
      ensures raw == if broken(now) then None else Look(timeline(now), c)
      ensures faults == old(faults) + if broken(now) && c in timeline(now) then 1 else 0
    {
      Wait();
      raw := if broken(now) || c !in timeline(now) then None else Some(timeline(now)[c]);
      faults := faults + if broken(now) && c in timeline(now) then 1 else 0;
    }

    /** One file of a fingerprint pass. */
    method ReadEntry(c: Channel, entries: seq<Entry>, ghost view: Directory)
      returns (more: seq<Entry>, ghost view': Directory)
      requires EntriesOf(entries, view, hash) && c !in view
      modifies `now, `faults
      ensures old(now) <= now && old(faults) <= faults && (!broken(now) ==> faults == old(faults))
      ensures EntriesOf(more, view', hash) && view' - {c} == view
      ensures faults == old(faults) ==> Look(view', c) == Look(timeline(now), c)
    {
      var raw := ReadBytes(c);
      more, view' := entries, view;
      if raw.Some? {
        EntriesGrow(entries, view, c, raw.value, hash);
        more, view' := entries + [EntryOf(hash, c, raw.value)], view[c := raw.value];
      }
    }

    /** One unlocked fingerprint pass; `ok` is false when the pass raised. */
    method Fingerprint(allow: Channel -> bool) returns (ok: bool, fp: seq<Entry>, ghost view: Directory)
      modifies `now, `faults
      ensures old(now) <= now && old(faults) <= faults
      ensures ok ==> FingerprintOf(fp, view, hash)
      ensures ok && faults == old(faults) ==> Pass(view, timeline, allow, old(now), now)
      ensures Readable(old(now), now) ==> ok && faults == old(faults)
    {
      ok, view, fp := false, map[], [];
      var entries: seq<Entry> := [];
      if allow(DAEMON_CHANNEL) { entries, view := ReadEntry(DAEMON_CHANNEL, entries, view); }
      ghost var readAt := now;
      var todo := ListDirectory();
      if broken(now) { return; }
      ghost var listed := now;
      todo := todo - {DAEMON_CHANNEL};
      DirectoryListed(view, timeline, allow, old(now), readAt, listed, faults == old(faults));
      while todo != {}
        invariant old(now) <= listed <= now && old(faults) <= faults
        invariant EntriesOf(entries, view, hash) && (Readable(old(now), now) ==> faults == old(faults))
        invariant Underway(view, todo, timeline, allow, old(now), listed, now, faults == old(faults))
      {
        var c :| c in todo;
        if allow(c) {
          ghost var earlier, clean := view, faults == old(faults);
          readAt := now;
          entries, view := ReadEntry(c, entries, view);
          FileRead(
            earlier, view, todo, timeline, allow, c, old(now), listed, readAt, now, clean, faults == old(faults));
        }
        todo := todo - {c};
      }
      assert faults == old(faults) ==> PassListing(view, timeline, allow, old(now), listed, now);
      FingerprintOfEntries(entries, view, hash);
      fp := Sort(entries);
      ok := true;
    }

    /** The payloads of the files in `view`, all of them text. */
    ghost predicate Loaded(payloads: map<Channel, Json>, view: Directory) {
      payloads == Decoded(view, parse) && forall c <- view :: utf8(view[c])
    }

    /** One file of a snapshot pass; `ok` is false when its bytes are no text. */
    method ReadPayload(c: Channel, payloads: map<Channel, Json>, ghost view: Directory)
      returns (ok: bool, more: map<Channel, Json>, ghost view': Directory)
      requires Loaded(payloads, view) && c !in view
      modifies `now, `faults
      ensures old(now) <= now && old(faults) <= faults && (!broken(now) ==> faults == old(faults))
      ensures ok ==> Loaded(more, view') && view' - {c} == view
      ensures ok && faults == old(faults) ==> Look(view', c) == Look(timeline(now), c)
      ensures !ok ==> c in timeline(now) && !utf8(timeline(now)[c])
    {
      var raw := ReadBytes(c);
      ok, more, view' := true, payloads, view;
      if raw.Some? {
        if !utf8(raw.value) { return false, map[], view; }
        DecodedGrows(view, c, raw.value, parse);
        view' := view[c := raw.value];
        if parse(raw.value).Some? { more := payloads[c := parse(raw.value).value]; }
      }
    }

    /** One unlocked snapshot pass over the same kind of per-file reads. */
    method Snapshot(allow: Channel -> bool)
      returns (ok: bool, payloads: map<Channel, Json>, ghost view: Directory)
      modifies `now, `faults
      ensures old(now) <= now && old(faults) <= faults
      ensures ok ==> payloads == Decoded(view, parse) && forall c <- view :: allow(c) && utf8(view[c])
      ensures ok && faults == old(faults) ==> Pass(view, timeline, allow, old(now), now)
      ensures Readable(old(now), now) ==> faults == old(faults) && (Decodable(allow, old(now), now) ==> ok)
      ensures !ok ==> payloads == map[]
    {
      ok, view, payloads := true, map[], map[];
      if allow(DAEMON_CHANNEL) {
        ok, payloads, view := ReadPayload(DAEMON_CHANNEL, payloads, view);
        if !ok { payloads := map[]; return; }
      }
      ghost var readAt := now;
      var todo := ListDirectory();
      if broken(now) { return false, map[], view; }
      ghost var listed := now;
      todo := todo - {DAEMON_CHANNEL};
      DirectoryListed(view, timeline, allow, old(now), readAt, listed, faults == old(faults));
      while todo != {}
        invariant old(now) <= listed <= now && old(faults) <= faults
        invariant Loaded(payloads, view) && (Readable(old(now), now) ==> faults == old(faults))
        invariant Underway(view, todo, timeline, allow, old(now), listed, now, faults == old(faults))
      {
        var c :| c in todo;
        if allow(c) {
          ghost var earlier, clean := view, faults == old(faults);
          readAt := now;
          ok, payloads, view := ReadPayload(c, payloads, view);
          if !ok { payloads := map[]; return; }
          FileRead(
            earlier, view, todo, timeline, allow, c, old(now), listed, readAt, now, clean, faults == old(faults));
        }
        todo := todo - {c};
      }
      assert faults == old(faults) ==> PassListing(view, timeline, allow, old(now), listed, now);
      ok := true;
    }
  }

  // ---- what one pass has seen -----------------------------------------------------

  /** The entries of exactly the files read so far. */
  ghost predicate EntriesOf(entries: seq<Entry>, view: Directory, hash: Bytes -> string) {
    && Distinct(entries)
    && (forall c <- view :: EntryOf(hash, c, view[c]) in entries)
    && (forall e <- entries :: exists c :: c in view && e == EntryOf(hash, c, view[c]))
  }

  lemma EntriesGrow(entries: seq<Entry>, view: Directory, c: Channel, raw: Bytes, hash: Bytes -> string)
    requires EntriesOf(entries, view, hash) && c !in view
    ensures EntriesOf(entries + [EntryOf(hash, c, raw)], view[c := raw], hash)
  {
    var more, view' := entries + [EntryOf(hash, c, raw)], view[c := raw];
    forall e | e in entries
      ensures e.name != FileName(c) && exists d :: d in view' && e == EntryOf(hash, d, view'[d])
    {
      var d :| d in view && e == EntryOf(hash, d, view[d]);
      FileNameIsInjective(d, c);
      assert view'[d] == view[d];
    }
    assert more[|entries|] == EntryOf(hash, c, view'[c]);
    assert forall d <- view :: EntryOf(hash, d, view[d]) in entries && EntryOf(hash, d, view[d]) in more;
  }

  lemma FingerprintOfEntries(entries: seq<Entry>, view: Directory, hash: Bytes -> string)
    requires EntriesOf(entries, view, hash)
    ensures FingerprintOf(Sort(entries), view, hash)
  {
    SortSorts(entries);
  }

  /** A pass that still has to read `todo`: every other visible channel is in `view` as the
      pass may show it, unless a read raised. */
  ghost predicate Underway(
      view: Directory, todo: set<Channel>, timeline: nat -> Directory, allow: Channel -> bool,
      from: nat, listed: nat, to: nat, clean: bool)
  {
    && from <= listed <= to && todo <= timeline(listed).Keys - {DAEMON_CHANNEL}
    && (forall c <- view :: allow(c) && c !in todo)
    && (clean ==> forall c | allow(c) && c !in todo :: MayShow(timeline, c, Look(view, c), from, listed, to))
  }

  lemma DirectoryListed(
      view: Directory, timeline: nat -> Directory, allow: Channel -> bool,
      from: nat, readAt: nat, listed: nat, clean: bool)
    requires from <= readAt <= listed && view - {DAEMON_CHANNEL} == map[]
    requires if allow(DAEMON_CHANNEL) then clean ==> Same(view, timeline(readAt), DAEMON_CHANNEL) else view == map[]
    ensures Underway(view, timeline(listed).Keys - {DAEMON_CHANNEL}, timeline, allow, from, listed, listed, clean)
  {
    var todo := timeline(listed).Keys - {DAEMON_CHANNEL};
    assert forall c <- view :: c == DAEMON_CHANNEL || c in view - {DAEMON_CHANNEL};
    if clean {
      forall c | allow(c) && c !in todo ensures MayShow(timeline, c, Look(view, c), from, listed, listed) {
        if c == DAEMON_CHANNEL { assert Look(timeline(readAt), c) == Look(view, c); }
      }
    }
  }

  lemma FileRead(
      earlier: Directory, view: Directory, todo: set<Channel>, timeline: nat -> Directory, allow: Channel -> bool,
      c: Channel, from: nat, listed: nat, readAt: nat, to: nat, clean: bool, clean': bool)
    requires Underway(earlier, todo, timeline, allow, from, listed, readAt, clean)
    requires readAt <= to && c in todo && allow(c) && view - {c} == earlier
    requires clean' ==> clean && Same(view, timeline(to), c)
    ensures Underway(view, todo - {c}, timeline, allow, from, listed, to, clean')
  {
    assert forall d <- view :: d == c || d in view - {c};
    if clean' {
      forall d | allow(d) && d !in todo - {c} ensures MayShow(timeline, d, Look(view, d), from, listed, to) {
        if d == c {
          assert Look(timeline(to), c) == Look(view, c);
        } else {
          assert d in earlier <==> d in view - {c};
          ShownInLonger(timeline, d, Look(earlier, d), from, listed, readAt, from, to);
        }
      }
    }
  }

  lemma DecodedGrows(view: Directory, c: Channel, raw: Bytes, parse: Bytes -> Option<Json>)
    requires c !in view
    ensures Decoded(view[c := raw], parse)
         == if parse(raw).Some? then Decoded(view, parse)[c := parse(raw).value] else Decoded(view, parse)
  {
  }

  lemma FileNameIsInjective(a: Channel, b: Channel)
    ensures FileName(a) == FileName(b) ==> a == b
  {
    if FileName(a) == FileName(b) {
      assert |a| == |b|;
      assert a == FileName(a)[..|a|] && b == FileName(b)[..|b|];
    }
  }

  // ---- why matching bookends pin one instant --------------------------------------

  /** A fingerprint under an injective hash names at most one set of files. */
  lemma FingerprintDeterminesView(fp: seq<Entry>, v1: Directory, v2: Directory, hash: Bytes -> string)
    requires Injective(hash) && FingerprintOf(fp, v1, hash) && FingerprintOf(fp, v2, hash)
    ensures v1 == v2
  {
    forall c | c in v1 ensures c in v2 && v1[c] == v2[c] {
      var c' :| c' in v2 && EntryOf(hash, c, v1[c]) == EntryOf(hash, c', v2[c']);
      FileNameIsInjective(c, c');
    }
    forall c | c in v2 ensures c in v1 {
      var c' :| c' in v1 && EntryOf(hash, c, v2[c]) == EntryOf(hash, c', v1[c']);
      FileNameIsInjective(c, c');
    }
  }

  lemma ViewIsVisible(view: Directory, dir: Directory, allow: Channel -> bool)
    requires forall c <- view :: allow(c)
    requires forall c :: allow(c) ==> Same(view, dir, c)
    ensures view == Visible(dir, allow)
  {
    assert forall c <- view :: Same(view, dir, c);
    assert forall c <- Visible(dir, allow) :: Same(view, dir, c);
  }

  /** Passes listing at `l1` before `x` and at `l2` after it may both show this look. */
  ghost predicate BothMayShow(
      timeline: nat -> Directory, c: Channel, look: Option<Bytes>, from: nat, l1: nat, x: nat, l2: nat, to: nat)
  {
    MayShow(timeline, c, look, from, l1, x) && MayShow(timeline, c, look, x, l2, to)
  }

  /** No visible channel gives the two passes away. */
  ghost predicate MayMatch(
      timeline: nat -> Directory, allow: Channel -> bool, from: nat, l1: nat, x: nat, l2: nat, to: nat)
  {
    forall c | allow(c) :: exists look :: BothMayShow(timeline, c, look, from, l1, x, l2, to)
  }

  /** Channel by channel: where two passes around an instant may match at all, the only look
      they may share is the one of that instant. */
  ghost predicate NoFalseMatch(timeline: nat -> Directory, allow: Channel -> bool, from: nat, to: nat) {
    forall l1, x, l2 | from <= l1 <= x <= l2 <= to && MayMatch(timeline, allow, from, l1, x, l2, to) ::
      forall c, look | allow(c) && BothMayShow(timeline, c, look, from, l1, x, l2, to) :: look == Look(timeline(x), c)
  }

  /** Matching passes before and after a snapshot pass, where no false match is possible: all
      three are the one directory that existed when the first pass ended. */
  lemma BookendsPinOneInstant(
      timeline: nat -> Directory, allow: Channel -> bool,
      bookend: Directory, middle: Directory, t0: nat, t1: nat, t2: nat, t3: nat)
    requires t0 <= t1 <= t2 <= t3 && NoFalseMatch(timeline, allow, t0, t3)
    requires Pass(bookend, timeline, allow, t0, t1) && Pass(bookend, timeline, allow, t2, t3)
    requires Pass(middle, timeline, allow, t1, t2)
    ensures bookend == middle == Visible(timeline(t1), allow)
  {
    var l1 :| PassListing(bookend, timeline, allow, t0, l1, t1);
    var m :| PassListing(middle, timeline, allow, t1, m, t2);
    var l2 :| PassListing(bookend, timeline, allow, t2, l2, t3);
    forall x | t1 <= x <= t2 ensures forall c :: allow(c) ==> Same(bookend, timeline(x), c) {
      MatchPinsInstant(timeline, allow, bookend, t0, t1, t2, t3, l1, l2, x);
    }
    forall c | allow(c) ensures Same(middle, bookend, c) {
      ShownWasThere(timeline, c, Look(middle, c), t1, m, t2);
      var t :| t1 <= t <= t2 && Look(timeline(t), c) == Look(middle, c);
      assert Same(bookend, timeline(t), c);
    }
    assert forall c :: allow(c) ==> Same(middle, bookend, c) && Same(bookend, timeline(t1), c);
    ViewIsVisible(bookend, timeline(t1), allow);
    ViewIsVisible(middle, timeline(t1), allow);
  }

  lemma MatchPinsInstant(
      timeline: nat -> Directory, allow: Channel -> bool, bookend: Directory,
      t0: nat, t1: nat, t2: nat, t3: nat, l1: nat, l2: nat, x: nat)
    requires t1 <= x <= t2 && NoFalseMatch(timeline, allow, t0, t3)
    requires PassListing(bookend, timeline, allow, t0, l1, t1) && PassListing(bookend, timeline, allow, t2, l2, t3)
    ensures forall c :: allow(c) ==> Same(bookend, timeline(x), c)
  {
    forall c | allow(c) ensures BothMayShow(timeline, c, Look(bookend, c), t0, l1, x, l2, t3) {
      ShownInLonger(timeline, c, Look(bookend, c), t0, l1, t1, t0, x);
      ShownInLonger(timeline, c, Look(bookend, c), t2, l2, t3, x, t3);
    }
    assert MayMatch(timeline, allow, t0, l1, x, l2, t3);
  }

  /** Whenever passes match around a snapshot pass, the three show one directory of the window. */
  ghost predicate BookendsPin(timeline: nat -> Directory, allow: Channel -> bool, from: nat, to: nat) {
    forall bookend, middle, t1, t2 | Framed(timeline, allow, bookend, middle, from, t1, t2, to) ::
      exists t :: from <= t <= to && bookend == middle == Visible(timeline(t), allow)
  }

  ghost predicate Framed(
      timeline: nat -> Directory, allow: Channel -> bool, bookend: Directory, middle: Directory,
      from: nat, t1: nat, t2: nat, to: nat)
  {
    && from <= t1 <= t2 <= to
    && Pass(bookend, timeline, allow, from, t1) && Pass(bookend, timeline, allow, t2, to)
    && Pass(middle, timeline, allow, t1, t2)
  }

  ghost function SharedLook(
      timeline: nat -> Directory, c: Channel, from: nat, l1: nat, x: nat, l2: nat, to: nat): (look: Option<Bytes>)
    requires exists look :: BothMayShow(timeline, c, look, from, l1, x, l2, to)
    ensures BothMayShow(timeline, c, look, from, l1, x, l2, to)
  {
    var look :| BothMayShow(timeline, c, look, from, l1, x, l2, to);
    look
  }

  /** A view both passes may show, with channel `c` as wanted. */
  lemma SharedView(
      timeline: nat -> Directory, allow: Channel -> bool, c: Channel, look: Option<Bytes>,
      from: nat, l1: nat, x: nat, l2: nat, to: nat)
    returns (view: Directory)
    requires from <= l1 <= x <= l2 <= to && MayMatch(timeline, allow, from, l1, x, l2, to)
    requires allow(c) && BothMayShow(timeline, c, look, from, l1, x, l2, to)
    ensures Pass(view, timeline, allow, from, x) && Pass(view, timeline, allow, x, to) && Look(view, c) == look
  {
    var names := timeline(l1).Keys + {DAEMON_CHANNEL};
    var pick := map d | d in names && allow(d) ::
      if d == c then look else SharedLook(timeline, d, from, l1, x, l2, to);
    view := map d | d in pick && pick[d].Some? :: pick[d].value;
    forall d | allow(d) ensures BothMayShow(timeline, d, Look(view, d), from, l1, x, l2, to) {
      if d in names {
        assert Look(view, d) == pick[d];
      } else {
        var other :| BothMayShow(timeline, d, other, from, l1, x, l2, to);
        assert d !in view;
      }
    }
    assert c !in names ==> look == None;
    assert PassListing(view, timeline, allow, from, l1, x);
    assert PassListing(view, timeline, allow, x, l2, to);
  }

  /** A possible false match is met by some run of the three passes. */
  lemma FalseMatchDefeatsBookends(
      timeline: nat -> Directory, allow: Channel -> bool, c: Channel, look: Option<Bytes>,
      from: nat, l1: nat, x: nat, l2: nat, to: nat)
    requires from <= l1 <= x <= l2 <= to && MayMatch(timeline, allow, from, l1, x, l2, to)
    requires allow(c) && BothMayShow(timeline, c, look, from, l1, x, l2, to) && look != Look(timeline(x), c)
    ensures !BookendsPin(timeline, allow, from, to)
  {
    var bookend := SharedView(timeline, allow, c, look, from, l1, x, l2, to);
    var middle := Visible(timeline(x), allow);
    InstantPass(timeline, allow, x, x, x);
    assert Look(middle, c) == Look(timeline(x), c);
    assert Framed(timeline, allow, bookend, middle, from, x, x, to);
  }

  /** Matching bookends prove that the observation is one directory exactly when no false
      match is possible. */
  lemma BookendsPinIffNoFalseMatch(timeline: nat -> Directory, allow: Channel -> bool, from: nat, to: nat)
    ensures BookendsPin(timeline, allow, from, to) <==> NoFalseMatch(timeline, allow, from, to)
  {
    if NoFalseMatch(timeline, allow, from, to) {
      forall bookend, middle, t1: nat, t2: nat | Framed(timeline, allow, bookend, middle, from, t1, t2, to)
        ensures exists t :: from <= t <= to && bookend == middle == Visible(timeline(t), allow)
      {
        BookendsPinOneInstant(timeline, allow, bookend, middle, from, t1, t2, to);
      }
    } else {
      var l1: nat, x: nat, l2: nat :| from <= l1 <= x <= l2 <= to && MayMatch(timeline, allow, from, l1, x, l2, to)
        && !(forall c, look | allow(c) && BothMayShow(timeline, c, look, from, l1, x, l2, to) ::
               look == Look(timeline(x), c));
      var c, look :| allow(c) && BothMayShow(timeline, c, look, from, l1, x, l2, to) && look != Look(timeline(x), c);
      FalseMatchDefeatsBookends(timeline, allow, c, look, from, l1, x, l2, to);
    }
  }

  // ---- recurring contents ----------------------------------------------------------

  /** Channel `c` never leaves a content (absence included) and returns to it in the window. */
  ghost predicate NeverRecurs(timeline: nat -> Directory, c: Channel, from: nat, to: nat) {
    forall a, b, d | from <= a <= b <= d <= to && Same(timeline(a), timeline(d), c) ::
      Same(timeline(a), timeline(b), c)
  }

  ghost predicate NoRecurrence(timeline: nat -> Directory, allow: Channel -> bool, from: nat, to: nat) {
    forall c :: allow(c) ==> NeverRecurs(timeline, c, from, to)
  }

  /** Where no visible channel returns to an earlier content, no false match is possible. */
  lemma NoRecurrenceSuffices(timeline: nat -> Directory, allow: Channel -> bool, from: nat, to: nat)
    requires NoRecurrence(timeline, allow, from, to)
    ensures NoFalseMatch(timeline, allow, from, to)
  {
    if !NoFalseMatch(timeline, allow, from, to) {
      var l1: nat, x: nat, l2: nat :| from <= l1 <= x <= l2 <= to && MayMatch(timeline, allow, from, l1, x, l2, to)
        && !(forall c, look | allow(c) && BothMayShow(timeline, c, look, from, l1, x, l2, to) ::
               look == Look(timeline(x), c));
      var c, look :| allow(c) && BothMayShow(timeline, c, look, from, l1, x, l2, to) && look != Look(timeline(x), c);
      SharedLookWasThere(timeline, c, look, from, l1, x, l2, to);
    }
  }

  lemma SharedLookWasThere(
      timeline: nat -> Directory, c: Channel, look: Option<Bytes>, from: nat, l1: nat, x: nat, l2: nat, to: nat)
    requires from <= l1 <= x <= l2 <= to && BothMayShow(timeline, c, look, from, l1, x, l2, to)
    requires NeverRecurs(timeline, c, from, to)
    ensures look == Look(timeline(x), c)
  {
    ShownWasThere(timeline, c, look, from, l1, x);
    ShownWasThere(timeline, c, look, x, l2, to);
    var a :| from <= a <= x && Look(timeline(a), c) == look;
    var d :| x <= d <= to && Look(timeline(d), c) == look;
    assert Same(timeline(a), timeline(d), c);
  }

  /** A visible directory that changes and comes back defeats the bookends: one pass before
      the change and one after its undoing match around a snapshot of something else. */
  lemma RecurrenceDefeatsBookends(
      timeline: nat -> Directory, allow: Channel -> bool, from: nat, to: nat, a: nat, b: nat, d: nat)
    requires from <= a <= b <= d <= to
    requires Visible(timeline(a), allow) == Visible(timeline(d), allow) != Visible(timeline(b), allow)
    ensures Framed(timeline, allow, Visible(timeline(a), allow), Visible(timeline(b), allow), from, b, b, to)
    ensures !BookendsPin(timeline, allow, from, to)
  {
    InstantPass(timeline, allow, from, a, b);
    InstantPass(timeline, allow, b, b, b);
    InstantPass(timeline, allow, b, d, to);
    assert Framed(timeline, allow, Visible(timeline(a), allow), Visible(timeline(b), allow), from, b, b, to);
  }

  /** Channel `email` changes and comes back, and `soul` appears with the change. */
  ghost predicate GivenAway(timeline: nat -> Directory, allow: Channel -> bool, x: Bytes, y: Bytes, z: Bytes) {
    && allow("email") && allow("soul") && x != y
    && timeline(0) == map["email" := x]
    && timeline(1) == map["email" := y, "soul" := z]
    && timeline(2) == map["email" := x, "soul" := z]
  }

  /** A single channel may come back without harm when another one gives the change away. */
  lemma RecurrenceMayBeHarmless(timeline: nat -> Directory, allow: Channel -> bool, x: Bytes, y: Bytes, z: Bytes)
    requires GivenAway(timeline, allow, x, y, z)
    ensures NoFalseMatch(timeline, allow, 0, 2) && !NoRecurrence(timeline, allow, 0, 2)
  {
    EmailRecurs(timeline, allow, x, y, z);
    EmailIsGivenAway(timeline, allow, x, y, z);
  }

  lemma EmailIsGivenAway(timeline: nat -> Directory, allow: Channel -> bool, x: Bytes, y: Bytes, z: Bytes)
    requires GivenAway(timeline, allow, x, y, z)
    ensures NoFalseMatch(timeline, allow, 0, 2)
  {
    forall l1: nat, m: nat, l2: nat | l1 <= m <= l2 <= 2 && MayMatch(timeline, allow, 0, l1, m, l2, 2)
      ensures forall c, look | allow(c) && BothMayShow(timeline, c, look, 0, l1, m, l2, 2) ::
        look == Look(timeline(m), c)
    {
      forall c, look | BothMayShow(timeline, c, look, 0, l1, m, l2, 2) ensures look == Look(timeline(m), c) {
        HarmlessAt(timeline, allow, x, y, z, l1, m, l2, c, look);
      }
    }
  }

  lemma EmailRecurs(timeline: nat -> Directory, allow: Channel -> bool, x: Bytes, y: Bytes, z: Bytes)
    requires GivenAway(timeline, allow, x, y, z)
    ensures !NoRecurrence(timeline, allow, 0, 2)
  {
    assert Same(timeline(0), timeline(2), "email") && !Same(timeline(0), timeline(1), "email");
    assert !NeverRecurs(timeline, "email", 0, 2);
  }

  lemma HarmlessAt(
      timeline: nat -> Directory, allow: Channel -> bool, x: Bytes, y: Bytes, z: Bytes,
      l1: nat, m: nat, l2: nat, c: Channel, look: Option<Bytes>)
    requires GivenAway(timeline, allow, x, y, z) && l1 <= m <= l2 <= 2
    requires MayMatch(timeline, allow, 0, l1, m, l2, 2) && BothMayShow(timeline, c, look, 0, l1, m, l2, 2)
    ensures look == Look(timeline(m), c)
  {
    if m != 1 {
      ShownAtEdge(timeline, c, look, 0, l1, m, l2, 2);
    } else {
      OneListingEachSide(timeline, allow, x, y, z, l1, l2);
      ShownAtOne(timeline, allow, x, y, z, c, look);
    }
  }

  lemma ShownAtEdge(
      timeline: nat -> Directory, c: Channel, look: Option<Bytes>, from: nat, l1: nat, x: nat, l2: nat, to: nat)
    requires from <= l1 <= x <= l2 <= to && BothMayShow(timeline, c, look, from, l1, x, l2, to)
    requires x == from || x == to
    ensures look == Look(timeline(x), c)
  {
    ShownWasThere(timeline, c, look, from, l1, x);
    ShownWasThere(timeline, c, look, x, l2, to);
  }

  lemma ShownAtOne(
      timeline: nat -> Directory, allow: Channel -> bool, x: Bytes, y: Bytes, z: Bytes, c: Channel, look: Option<Bytes>)
    requires GivenAway(timeline, allow, x, y, z) && MayShow(timeline, c, look, 0, 1, 1)
    ensures look == Look(timeline(1), c)
  {
    assert "email"[0] == 'e' && "soul"[0] == 's' && DAEMON_CHANNEL[0] == 'd';
    if c == DAEMON_CHANNEL {
      var t: nat :| t <= 1 && Look(timeline(t), c) == look;
      assert t == 0 || t == 1;
    }
  }

  /** On that timeline passes around instant 1 match only if both list the directory there. */
  lemma OneListingEachSide(
      timeline: nat -> Directory, allow: Channel -> bool, x: Bytes, y: Bytes, z: Bytes, l1: nat, l2: nat)
    requires GivenAway(timeline, allow, x, y, z) && l1 <= 1 <= l2 <= 2
    requires MayMatch(timeline, allow, 0, l1, 1, l2, 2)
    ensures l1 == 1 && l2 == 1
  {
    assert "email"[0] == 'e' && "soul"[0] == 's' && DAEMON_CHANNEL[0] == 'd';
    var soul :| BothMayShow(timeline, "soul", soul, 0, l1, 1, l2, 2);
    var email :| BothMayShow(timeline, "email", email, 0, l1, 1, l2, 2);
    if l1 == 0 {
      assert false;
    } else if l2 == 2 {
      assert false;
    }
  }

  // ---- the read ------------------------------------------------------------------

  datatype Observation = Observation(
    rawFp: seq<Entry>, maskedFp: seq<Entry>, payloads: map<Channel, Json>, stable: bool)

  /** The consumer's filter: a delayed ordinary channel is omitted, `daemon` never is. */
  function ConsumerAllow(allow: Channel -> bool, delayed: Option<Channel>): Channel -> bool {
    c => allow(c) && (delayed == Some(c) ==> c == DAEMON_CHANNEL)
  }

  function MaskedFor(
      rawFp: seq<Entry>, payloads: map<Channel, Json>, threshold: Option<nat>, delayed: Option<Channel>)
    : seq<Entry>
  {
    Mask(rawFp, if DAEMON_CHANNEL in payloads then payloads[DAEMON_CHANNEL] else Null,
         threshold, delayed == Some(DAEMON_CHANNEL))
  }

  /** Fingerprint and payloads are those of the single directory state `dir`. */
  ghost predicate Describes(
      rawFp: seq<Entry>, payloads: map<Channel, Json>, dir: Directory, store: Store, allow: Channel -> bool)
  {
    && FingerprintOf(rawFp, Visible(dir, allow), store.hash)
    && payloads == Decoded(Visible(dir, allow), store.parse)
  }

  /** ... of some instant since `since`, provided no false match was possible since then. */
  ghost predicate PinnedIn(
      rawFp: seq<Entry>, payloads: map<Channel, Json>, store: Store, allow: Channel -> bool, since: nat)
    reads store`now
  {
    NoFalseMatch(store.timeline, allow, since, store.now) ==>
      exists t :: since <= t <= store.now && Describes(rawFp, payloads, store.timeline(t), store, allow)
  }

  /** Nothing the consumer can see changed, and nothing raised. */
  ghost predicate Quiet(store: Store, allow: Channel -> bool, from: nat, to: nat) {
    && store.Readable(from, to) && store.Decodable(allow, from, to)
    && (forall t :: from <= t <= to ==> Visible(store.timeline(t), allow) == Visible(store.timeline(from), allow))
  }

  lemma QuietPass(store: Store, view: Directory, allow: Channel -> bool, start: nat, from: nat, to: nat)
    requires start <= from <= to && Quiet(store, allow, start, to)
    requires Pass(view, store.timeline, allow, from, to)
    ensures view == Visible(store.timeline(start), allow)
  {
    var listed :| PassListing(view, store.timeline, allow, from, listed, to);
    forall c | allow(c) ensures Same(view, store.timeline(start), c) {
      ShownWasThere(store.timeline, c, Look(view, c), from, listed, to);
      var t :| from <= t <= to && Look(store.timeline(t), c) == Look(view, c);
      assert Look(Visible(store.timeline(t), allow), c) == Look(store.timeline(t), c);
      assert Look(Visible(store.timeline(start), allow), c) == Look(store.timeline(start), c);
    }
    assert forall c :: allow(c) ==> Same(view, store.timeline(start), c);
    ViewIsVisible(view, store.timeline(start), allow);
  }

  /** The one entry the mask may rewrite is that of the daemon channel's own file. */
  lemma DaemonEntryIsTheDaemonFile(fp: seq<Entry>, view: Directory, hash: Bytes -> string)
    requires FingerprintOf(fp, view, hash)
    ensures "daemon" in view <==> exists e <- fp :: e.name == "daemon.json"
    ensures forall e <- fp :: e.name == "daemon.json" ==>
      "daemon" in view && e == Entry("daemon.json", |view["daemon"]|, hash(view["daemon"]))
  {
    assert FileName("daemon") == "daemon.json";
    forall e | e in fp && e.name == "daemon.json"
      ensures "daemon" in view && e == EntryOf(hash, "daemon", view["daemon"])
    {
      var c :| c in view && e == EntryOf(hash, c, view[c]);
      FileNameIsInjective(c, "daemon");
    }
  }

  lemma FingerprintIsUnique(a: seq<Entry>, b: seq<Entry>, view: Directory, hash: Bytes -> string)
    requires FingerprintOf(a, view, hash) && FingerprintOf(b, view, hash)
    ensures a == b
  {
    SortedIsUnique(a, b);
  }

  /** `fp` is the fingerprint of what a pass that ended at `to` showed. */
  ghost predicate LastPass(fp: seq<Entry>, store: Store, allow: Channel -> bool, from: nat, to: nat) {
    exists view, t :: from <= t <= to && Pass(view, store.timeline, allow, t, to) && FingerprintOf(fp, view, store.hash)
  }

  /** `payloads` is what a pass of the window decoded. */
  ghost predicate SomePass(payloads: map<Channel, Json>, store: Store, allow: Channel -> bool, from: nat, to: nat) {
    exists view, t, u ::
      from <= t <= u <= to && Pass(view, store.timeline, allow, t, u) && payloads == Decoded(view, store.parse)
  }

  /** One to three attempts, each begun when the one before it had seen something change. */
  ghost predicate Retried(store: Store, allow: Channel -> bool, starts: seq<nat>, since: nat) {
    && 1 <= |starts| <= 3 && starts[|starts| - 1] == since
    && forall i :: 0 <= i < |starts| - 1 ==>
         starts[i] <= starts[i + 1] && !Quiet(store, allow, starts[i], starts[i + 1])
  }

  /** Fingerprint, snapshot, fingerprint; `ok` is false when one of them raised. */
  method ReadOnce(store: Store, visible: Channel -> bool)
    returns (ok: bool, before: seq<Entry>, payloads: map<Channel, Json>, after: seq<Entry>)
    requires Injective(store.hash)
    modifies store`now, store`faults
    ensures old(store.now) <= store.now && old(store.faults) <= store.faults
    ensures Quiet(store, visible, old(store.now), store.now) ==>
      ok && before == after && store.faults == old(store.faults)
    ensures !ok ==> !store.Readable(old(store.now), store.now)
                    || !store.Decodable(visible, old(store.now), store.now)
    ensures ok ==> (exists view :: FingerprintOf(after, view, store.hash)) && forall c <- payloads :: visible(c)
    ensures ok && store.faults == old(store.faults) ==>
      && LastPass(after, store, visible, old(store.now), store.now)
      && SomePass(payloads, store, visible, old(store.now), store.now)
      && (before == after ==> PinnedIn(after, payloads, store, visible, old(store.now)))
  {
    ghost var t0 := store.now;
    payloads, after := map[], [];
    ghost var vb, vs, va;
    ok, before, vb := store.Fingerprint(visible);
    if !ok { return; }
    ghost var t1 := store.now;
    ok, payloads, vs := store.Snapshot(visible);
    if !ok { return; }
    ghost var t2 := store.now;
    ok, after, va := store.Fingerprint(visible);
    if !ok { return; }
    if store.faults == old(store.faults) {
      assert LastPass(after, store, visible, t0, store.now);
      assert SomePass(payloads, store, visible, t0, store.now);
      if before == after {
        FingerprintDeterminesView(after, vb, va, store.hash);
        AttemptIsPinned(store, visible, after, payloads, vb, vs, t0, t1, t2);
      }
    }
    if Quiet(store, visible, t0, store.now) {
      assert Quiet(store, visible, t0, t1);
      QuietPass(store, vb, visible, t0, t0, t1);
      QuietPass(store, va, visible, t0, t2, store.now);
      FingerprintIsUnique(before, after, va, store.hash);
    }
  }

  /** The bounded retry.  `starts` are the instants at which the attempts began, `since` the
      last of them; `clean` says that no file read of that attempt raised, `failed` that one
      of its passes did. */
  method ReadWithRetries(store: Store, visible: Channel -> bool)
    returns (rawFp: seq<Entry>, payloads: map<Channel, Json>, stable: bool, failed: bool,
             ghost since: nat, ghost clean: bool, ghost starts: seq<nat>)
    requires Injective(store.hash)
    modifies store`now, store`faults
    ensures old(store.now) <= since <= store.now && (store.faults == old(store.faults) ==> clean)
    ensures Retried(store, visible, starts, since) && starts[0] == old(store.now)
    ensures Quiet(store, visible, since, store.now) ==> stable && clean
    ensures !stable && !failed ==> |starts| == 3
    ensures failed ==>
      !stable && !(store.Readable(since, store.now) && store.Decodable(visible, since, store.now))
    ensures stable && clean ==> PinnedIn(rawFp, payloads, store, visible, since)
    ensures stable ==> exists view :: FingerprintOf(rawFp, view, store.hash)
    ensures !failed && clean ==>
      LastPass(rawFp, store, visible, since, store.now) && SomePass(payloads, store, visible, since, store.now)
    ensures failed ==> payloads == map[] && (|starts| == 1 ==> rawFp == [])
    ensures failed && |starts| > 1 && store.faults == old(store.faults) ==>
      LastPass(rawFp, store, visible, starts[|starts| - 2], since)
    ensures SortedByName(rawFp) && forall c <- payloads :: visible(c)
  {
    since, clean, starts, failed := store.now, true, [store.now], false;
    rawFp, payloads, stable := [], map[], false;
    var attempt := 0;
    while attempt < COHERENT_READ_ATTEMPTS
      invariant old(store.now) <= since <= store.now && old(store.faults) <= store.faults
      invariant forall c <- payloads :: visible(c)
      invariant store.faults == old(store.faults) ==> clean
      invariant Retried(store, visible, starts, since) && starts[0] == old(store.now) && !stable && !failed
      invariant attempt == 0 ==> since == store.now && |starts| == 1 && rawFp == []
      invariant SortedByName(rawFp)
      invariant attempt > 0 ==> |starts| == attempt && !Quiet(store, visible, since, store.now)
      invariant attempt > 0 && clean ==>
        LastPass(rawFp, store, visible, since, store.now) && SomePass(payloads, store, visible, since, store.now)
    {
      if attempt > 0 { since, starts := store.now, starts + [store.now]; }
      ghost var faults := store.faults;
      var ok, before, after;
      ok, before, payloads, after := ReadOnce(store, visible);
      clean := store.faults == faults;
      if !ok {
        failed, payloads := true, map[];
        return;
      }
      rawFp := after;
      if before == after {
        stable := true;
        return;
      }
      attempt := attempt + 1;
    }
  }

  /** The read: the last observation and the wake fingerprint made of it. */
  method CoherentAttentionRead(
      store: Store, allow: Channel -> bool, delayed: Option<Channel>, threshold: Option<nat>)
    returns (r: Observation, ghost since: nat, ghost clean: bool, ghost starts: seq<nat>, ghost failed: bool)
    requires Injective(store.hash)
    modifies store`now, store`faults
    ensures old(store.now) <= since <= store.now && (store.faults == old(store.faults) ==> clean)
    ensures Retried(store, ConsumerAllow(allow, delayed), starts, since) && starts[0] == old(store.now)
    // An attempt that nothing disturbs settles the answer, and giving up takes three that something did.
    ensures Quiet(store, ConsumerAllow(allow, delayed), since, store.now) ==> r.stable && clean
    ensures !r.stable && !failed ==> |starts| == 3
    ensures failed ==> !r.stable && !(store.Readable(since, store.now)
                                      && store.Decodable(ConsumerAllow(allow, delayed), since, store.now))
    ensures r.stable && clean ==> PinnedIn(r.rawFp, r.payloads, store, ConsumerAllow(allow, delayed), since)
    ensures r.stable ==> exists view :: FingerprintOf(r.rawFp, view, store.hash)
    // Stable or not, both halves come from passes of the last attempt; after a failure the
    // fingerprint is that of the attempt before.
    ensures !failed && clean ==>
      && LastPass(r.rawFp, store, ConsumerAllow(allow, delayed), since, store.now)
      && SomePass(r.payloads, store, ConsumerAllow(allow, delayed), since, store.now)
    ensures failed ==> r.maskedFp == r.rawFp && r.payloads == map[] && (|starts| == 1 ==> r.rawFp == [])
    ensures failed && |starts| > 1 && store.faults == old(store.faults) ==>
      LastPass(r.rawFp, store, ConsumerAllow(allow, delayed), starts[|starts| - 2], since)
    // The wake fingerprint: the raw one, unless a threshold or a delay asks for the token.
    ensures threshold.None? && delayed != Some("daemon") ==> r.maskedFp == r.rawFp
    ensures !failed ==>
      ShownAs(r.maskedFp, r.rawFp, if "daemon" in r.payloads then r.payloads["daemon"] else Null,
              threshold, delayed == Some("daemon"))
    ensures !failed ==> r.maskedFp == MaskedFor(r.rawFp, r.payloads, threshold, delayed)
    ensures forall c <- r.payloads :: ConsumerAllow(allow, delayed)(c)
  {
    var visible := ConsumerAllow(allow, delayed);
    var rawFp, payloads, stable, raised;
    rawFp, payloads, stable, raised, since, clean, starts := ReadWithRetries(store, visible);
    failed := raised;
    if raised { return Observation(rawFp, rawFp, map[], false), since, clean, starts, failed; }
    WhatTheMaskShows(
      rawFp, if DAEMON_CHANNEL in payloads then payloads[DAEMON_CHANNEL] else Null, threshold,
      delayed == Some(DAEMON_CHANNEL));
    r := Observation(rawFp, MaskedFor(rawFp, payloads, threshold, delayed), payloads, stable);
  }

  lemma AttemptIsPinned(
      store: Store, visible: Channel -> bool, fp: seq<Entry>, payloads: map<Channel, Json>,
      bookend: Directory, middle: Directory, t0: nat, t1: nat, t2: nat)
    requires t0 <= t1 <= t2 <= store.now && FingerprintOf(fp, bookend, store.hash)
    requires payloads == Decoded(middle, store.parse)
    requires Pass(bookend, store.timeline, visible, t0, t1) && Pass(bookend, store.timeline, visible, t2, store.now)
    requires Pass(middle, store.timeline, visible, t1, t2)
    ensures PinnedIn(fp, payloads, store, visible, t0)
  {
    if NoFalseMatch(store.timeline, visible, t0, store.now) {
      BookendsPinOneInstant(store.timeline, visible, bookend, middle, t0, t1, t2, store.now);
      assert Describes(fp, payloads, store.timeline(t1), store, visible);
    }
  }
}
