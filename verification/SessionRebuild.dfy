/** Rebuilding an agent session from `events.jsonl`: a bounded scan from the tail, and a
    full forward scan as the last resort (src/lingtai/kernel/agent_session.py). */
module SessionRebuild {
  import opened Common

  const MOLT_BOUNDARY_EVENT := Str("psyche_molt")
  const TOKEN_EVENT := Str("llm_response")

  /** Python library behaviour the scans rely on: `decode` strips a line and loads it as
      JSON (`None` for a blank or invalid line), `toInt` is `_int`, `iso` is `_iso_from_ts`. */
  datatype Library = Library(
    decode: string -> Option<Json>, toInt: Json -> int, iso: Json -> Option<string>)

  datatype Tokens = Tokens(calls: nat, input: int, output: int, cached: int, thinking: int)

  /** The generation so far: its token totals and the boundary that opened it. */
  datatype Generation = Generation(tokens: Tokens, ts: Json, source: Json)

  datatype Tier = ReverseScan | FullScan | NoSource

  datatype Session = Session(
    moltCount: int, startedAt: Option<string>, source: Json, tokens: Tokens, tier: Tier, scanned: nat)

  const ZERO := Tokens(0, 0, 0, 0, 0)
  const BOOT := Generation(ZERO, Null, Str("boot"))

  function EventType(ev: Json): Json { OrElse(ev.Get("type"), ev.Get("event")) }

  predicate IsBoundary(ev: Json) { EventType(ev) == MOLT_BOUNDARY_EVENT }

  function Plus(a: Tokens, b: Tokens): Tokens {
    Tokens(a.calls + b.calls, a.input + b.input, a.output + b.output, a.cached + b.cached, a.thinking + b.thinking)
  }

  /** What one event that is no boundary adds. */
  function Usage(lib: Library, ev: Json): Tokens {
    if EventType(ev) != TOKEN_EVENT then ZERO
    else Tokens(1, lib.toInt(ev.Get("input_tokens")), lib.toInt(ev.Get("output_tokens")),
                lib.toInt(ev.Get("cached_tokens")), lib.toInt(ev.Get("thinking_tokens")))
  }

  /** The timestamp and source a boundary event sets. */
  function Opened(ev: Json): (Json, Json) {
    (ev.Get("ts"), OrElse(ev.Get("initiator"), Str("agent")))
  }

  /** How events read, as values the fold below is generic in. */
  datatype Reading = Reading(
    event: string -> Option<Json>, boundary: Json -> bool, usage: Json -> Tokens, opens: Json -> (Json, Json))

  function ReadingOf(lib: Library): Reading {
    Reading(line => var ev := lib.decode(line); if ev.Some? && ev.value.Obj? then ev else None,
            ev => IsBoundary(ev), ev => Usage(lib, ev), ev => Opened(ev))
  }

  /** The meaning of a trajectory: the totals of the events after its last boundary. */
  function Current(r: Reading, events: seq<Json>): Generation {
    if |events| == 0 then BOOT
    else
      var last := events[|events| - 1];
      if r.boundary(last) then Generation(ZERO, r.opens(last).0, r.opens(last).1)
      else
        var before := Current(r, events[..|events| - 1]);
        before.(tokens := Plus(before.tokens, r.usage(last)))
  }

  function Meaning(lib: Library, lines: seq<string>): Generation {
    Current(ReadingOf(lib), Events(ReadingOf(lib), lines))
  }

  function SessionOf(lib: Library, moltCount: int, g: Generation, tier: Tier, scanned: nat): Session {
    Session(moltCount, lib.iso(g.ts), g.source, g.tokens, tier, scanned)
  }

  // ---- lines -----------------------------------------------------------------------

  /** Line ends of a file opened in text mode. */
  predicate IsNewline(c: char) { c == '\n' || c == '\r' }

  /** Line ends of `str.splitlines()`. */
  predicate IsBreak(c: char) {
    IsNewline(c) || c in {'\U{0B}', '\U{0C}', '\U{1C}', '\U{1D}', '\U{1E}', '\U{85}', '\U{2028}', '\U{2029}'}
  }

  /** The line ends by code point. */
  lemma WhereLinesEnd(c: char)
    ensures IsNewline(c) <==> c as int == 10 || c as int == 13
    ensures IsBreak(c) <==>
      var x := c as int;
      10 <= x <= 13 || 28 <= x <= 30 || x == 133 || x == 8232 || x == 8233
  {
  }

  /** Pieces between line ends.  A `\r\n` pair counts as two ends here: the empty piece in
      between is skipped by both scans like every blank line. */
  function Lines(text: string, ends: char -> bool): (r: seq<string>)
    ensures r != []
  {
    if |text| == 0 then [""]
    else
      var rest := Lines(text[1..], ends);
      if ends(text[0]) then [""] + rest else [[text[0]] + rest[0]] + rest[1..]
  }

  /** The objects among the decoded lines, oldest first. */
  function Events(r: Reading, lines: seq<string>): seq<Json> {
    if |lines| == 0 then []
    else
      var ev := r.event(lines[|lines| - 1]);
      Events(r, lines[..|lines| - 1]) + (if ev.Some? then [ev.value] else [])
  }

  /** UTF-8 bytes of one character. */
  function Width(c: char): nat {
    if c < '\U{80}' then 1 else if c < '\U{800}' then 2 else if c < '\U{10000}' then 3 else 4
  }

  function ByteLen(text: string): nat {
    if |text| == 0 then 0 else Width(text[0]) + ByteLen(text[1..])
  }

  /** Where the last `bytes` bytes start, rounded up to a whole character. */
  function Cut(text: string, bytes: nat): (k: nat)
    ensures k <= |text|
    ensures ByteLen(text[k..]) <= bytes && (k == 0 <==> ByteLen(text) <= bytes)
  {
    if ByteLen(text) <= bytes then 0 else 1 + Cut(text[1..], bytes)
  }

  /** The decoded tail read: a character cut in two shows as replacement characters. */
  function TailText(text: string, bytes: nat): string {
    var k := Cut(text, bytes);
    if k == 0 then text
    else seq(bytes - ByteLen(text[k..]), _ => '\U{FFFD}') + text[k..]
  }

  /** `_read_tail_lines`. */
  function ReadTailLines(text: string, bytes: nat): (seq<string>, bool) {
    var lines, hitStart := Lines(TailText(text, bytes), IsBreak), Cut(text, bytes) == 0;
    (if hitStart then lines else lines[1..], hitStart)
  }

  /** No line end but the text-mode ones: what "newline-delimited" has to mean. */
  ghost predicate Clean(text: string) {
    forall c <- text :: IsBreak(c) ==> IsNewline(c)
  }

  lemma {:induction false} CleanLines(text: string)
    requires Clean(text)
    ensures Lines(text, IsBreak) == Lines(text, IsNewline)
  {
    if |text| > 0 {
      assert text[0] in text && forall c <- text[1..] :: c in text;
      CleanLines(text[1..]);
    }
  }

  /** Characters in front of `rest` change no line of it but the first. */
  lemma {:induction false} LinesKeepTail(front: string, rest: string, ends: char -> bool)
    ensures var all, some := Lines(front + rest, ends), Lines(rest, ends);
      |all| >= |some| && all[|all| - |some| + 1..] == some[1..]
  {
    if |front| == 0 {
      assert front + rest == rest;
    } else {
      var whole, tail := front + rest, front[1..] + rest;
      assert whole[1..] == tail && whole[0] == front[0];
      LinesKeepTail(front[1..], rest, ends);
      LinesInFront(whole, ends);
    }
  }

  /** One more character in front adds a first line or lengthens it. */
  lemma LinesInFront(text: string, ends: char -> bool)
    requires |text| > 0
    ensures var all, tail := Lines(text, ends), Lines(text[1..], ends);
      all == [[]] + tail || (|all| == |tail| && all[1..] == tail[1..])
  {
  }

  /** Replacement characters in front of `rest` only lengthen its first line. */
  lemma {:induction false} ReplacementsStayInFirstLine(junk: string, rest: string)
    requires forall c <- junk :: c == '\U{FFFD}'
    ensures Lines(junk + rest, IsBreak)[1..] == Lines(rest, IsBreak)[1..]
  {
    if |junk| == 0 {
      assert junk + rest == rest;
    } else {
      assert (junk + rest)[1..] == junk[1..] + rest && junk[0] in junk;
      assert forall c <- junk[1..] :: c in junk;
      ReplacementsStayInFirstLine(junk[1..], rest);
    }
  }

  /** The part of the file the bounded read shows. */
  function Shown(text: string, bytes: nat): string { text[Cut(text, bytes)..] }

  lemma LinesOfSuffix(text: string, k: nat, ends: char -> bool)
    requires k <= |text|
    ensures var all, some := Lines(text, ends), Lines(text[k..], ends);
      |all| >= |some| && all[|all| - |some| + 1..] == some[1..]
  {
    assert text[..k] + text[k..] == text;
    LinesKeepTail(text[..k], text[k..], ends);
  }

  lemma CutReadLines(text: string, bytes: nat)
    requires Cut(text, bytes) > 0
    ensures ReadTailLines(text, bytes) == (Lines(Shown(text, bytes), IsBreak)[1..], false)
  {
    var rest := Shown(text, bytes);
    ReplacementsStayInFirstLine(seq(bytes - ByteLen(rest), _ => '\U{FFFD}'), rest);
  }

  /** Where the bounded read shows clean text, it returns the last lines of the file, all of
      them when it reached the start.  What lies before it may be anything. */
  lemma TailLinesAreLastLines(text: string, bytes: nat)
    requires Clean(Shown(text, bytes))
    ensures EndsWith(Lines(text, IsNewline), ReadTailLines(text, bytes).0)
    ensures ReadTailLines(text, bytes).1 ==> ReadTailLines(text, bytes).0 == Lines(text, IsNewline)
  {
    if Cut(text, bytes) == 0 {
      assert Shown(text, bytes) == text;
      CleanLines(text);
    } else {
      var shown := Shown(text, bytes);
      var all, some := Lines(text, IsNewline), Lines(shown, IsNewline);
      LinesOfSuffix(text, Cut(text, bytes), IsNewline);
      WithoutFirst(all, some);
      CleanLines(shown);
      CutReadLines(text, bytes);
    }
  }

  predicate EndsWith(all: seq<string>, lines: seq<string>) {
    |lines| <= |all| && lines == all[|all| - |lines|..]
  }

  lemma WithoutFirst(all: seq<string>, some: seq<string>)
    requires |all| >= |some| > 0 && all[|all| - |some| + 1..] == some[1..]
    ensures EndsWith(all, some[1..])
  {
  }

  // ---- generations -----------------------------------------------------------------

  lemma {:induction false} EventsConcat(r: Reading, a: seq<string>, b: seq<string>)
    ensures Events(r, a + b) == Events(r, a) + Events(r, b)
  {
    if b == [] {
      assert a + b == a;
    } else {
      assert (a + b)[..|a + b| - 1] == a + b[..|b| - 1];
      EventsConcat(r, a, b[..|b| - 1]);
    }
  }

  lemma CurrentGrows(r: Reading, events: seq<Json>, ev: Json)
    ensures var g := Current(r, events);
      Current(r, events + [ev])
      == if r.boundary(ev) then Generation(ZERO, r.opens(ev).0, r.opens(ev).1)
         else g.(tokens := Plus(g.tokens, r.usage(ev)))
  {
    assert (events + [ev])[..|events|] == events;
  }

  lemma EventsGrow(r: Reading, lines: seq<string>, i: nat)
    requires i < |lines|
    ensures var ev := r.event(lines[i]);
      Events(r, lines[..i + 1])
      == if ev.Some? then Events(r, lines[..i]) + [ev.value] else Events(r, lines[..i])
  {
    assert lines[..i + 1][..i] == lines[..i];
  }

  predicate HasBoundary(r: Reading, events: seq<Json>) {
    exists ev <- events :: r.boundary(ev)
  }

  /** Events from the last boundary on, that one included: what a backward scan looks at. */
  function Recent(r: Reading, events: seq<Json>): nat {
    if |events| == 0 then 0
    else if r.boundary(events[|events| - 1]) then 1
    else 1 + Recent(r, events[..|events| - 1])
  }

  lemma RecentGrows(r: Reading, events: seq<Json>, ev: Json)
    ensures Recent(r, events + [ev]) == if r.boundary(ev) then 1 else 1 + Recent(r, events)
  {
    assert (events + [ev])[..|events|] == events;
  }

  /** Once a boundary is in view, older events do not matter. */
  lemma {:induction false} HistoryBeforeBoundaryIsIgnored(r: Reading, old_: seq<Json>, recent: seq<Json>)
    requires HasBoundary(r, recent)
    ensures Current(r, old_ + recent) == Current(r, recent)
  {
    var init := recent[..|recent| - 1];
    assert (old_ + recent)[..|old_ + recent| - 1] == old_ + init;
    if !r.boundary(recent[|recent| - 1]) {
      var ev :| ev in recent && r.boundary(ev);
      assert ev in init;
      HistoryBeforeBoundaryIsIgnored(r, old_, init);
    }
  }

  /** A generation some usage later. */
  function Later(g: Generation, tokens: Tokens): Generation { g.(tokens := Plus(g.tokens, tokens)) }

  lemma LaterByNothing(g: Generation)
    ensures Later(g, ZERO) == g
  {
  }

  lemma BoundaryGrows(r: Reading, events: seq<Json>, ev: Json)
    ensures HasBoundary(r, events + [ev]) <==> HasBoundary(r, events) || r.boundary(ev)
  {
    assert ev in events + [ev] && forall e <- events :: e in events + [ev];
  }

  /** Scanning back to `older` has looked at `n` events, summed `tokens` over them and met no
      boundary. */
  ghost predicate Behind(r: Reading, events: seq<Json>, older: seq<Json>, tokens: Tokens, n: nat) {
    && Current(r, events) == Later(Current(r, older), tokens)
    && (HasBoundary(r, events) <==> HasBoundary(r, older))
    && Recent(r, events) == n + Recent(r, older)
  }

  lemma StepBehind(r: Reading, events: seq<Json>, older: seq<Json>, ev: Json, tokens: Tokens, n: nat)
    requires Behind(r, events, older + [ev], tokens, n) && !r.boundary(ev)
    ensures Behind(r, events, older, Plus(r.usage(ev), tokens), n + 1)
  {
    CurrentGrows(r, older, ev);
    BoundaryGrows(r, older, ev);
    RecentGrows(r, older, ev);
  }

  lemma BoundaryBehind(r: Reading, events: seq<Json>, older: seq<Json>, ev: Json, tokens: Tokens, n: nat)
    requires Behind(r, events, older + [ev], tokens, n) && r.boundary(ev)
    ensures Current(r, events) == Generation(tokens, r.opens(ev).0, r.opens(ev).1)
    ensures HasBoundary(r, events) && Recent(r, events) == n + 1
  {
    CurrentGrows(r, older, ev);
    BoundaryGrows(r, older, ev);
    RecentGrows(r, older, ev);
  }

  lemma NothingBehind(r: Reading, events: seq<Json>, tokens: Tokens, n: nat)
    requires Behind(r, events, [], tokens, n)
    ensures Current(r, events) == Generation(tokens, BOOT.ts, BOOT.source)
    ensures !HasBoundary(r, events) && Recent(r, events) == n
  {
  }

  lemma AllBehind(r: Reading, events: seq<Json>)
    ensures Behind(r, events, events, ZERO, 0)
  {
    LaterByNothing(Current(r, events));
  }

  // ---- the scans -------------------------------------------------------------------

  /** Forward, resetting the aggregate at every boundary. */
  method ScanForward(r: Reading, lines: seq<string>) returns (g: Generation, scanned: nat)
    ensures g == Current(r, Events(r, lines)) && scanned == |Events(r, lines)|
  {
    var tokens, ts, source := ZERO, Null, Str("boot");
    scanned := 0;
    for i := 0 to |lines|
      invariant Generation(tokens, ts, source) == Current(r, Events(r, lines[..i]))
      invariant scanned == |Events(r, lines[..i])|
    {
      EventsGrow(r, lines, i);
      var ev := r.event(lines[i]);
      if ev.Some? {
        CurrentGrows(r, Events(r, lines[..i]), ev.value);
        scanned := scanned + 1;
        if r.boundary(ev.value) {
          tokens, ts, source := ZERO, r.opens(ev.value).0, r.opens(ev.value).1;
        } else {
          tokens := Plus(tokens, r.usage(ev.value));
        }
      }
    }
    assert lines[..|lines|] == lines;
    g := Generation(tokens, ts, source);
  }

  /** Backward from the newest line, stopping at the first boundary met. */
  method ScanBackward(r: Reading, lines: seq<string>) returns (found: bool, g: Generation, scanned: nat)
    ensures g == Current(r, Events(r, lines)) && (found <==> HasBoundary(r, Events(r, lines)))
    ensures scanned == Recent(r, Events(r, lines))
  {
    var tokens, n := ZERO, 0;
    ghost var events := Events(r, lines);
    assert lines[..|lines|] == lines;
    AllBehind(r, events);
    for i := |lines| downto 0
      invariant Behind(r, events, Events(r, lines[..i]), tokens, n)
    {
      EventsGrow(r, lines, i);
      ghost var older := Events(r, lines[..i]);
      var ev := r.event(lines[i]);
      if ev.Some? {
        if r.boundary(ev.value) {
          BoundaryBehind(r, events, older, ev.value, tokens, n);
          return true, Generation(tokens, r.opens(ev.value).0, r.opens(ev.value).1), n + 1;
        }
        StepBehind(r, events, older, ev.value, tokens, n);
        tokens := Plus(r.usage(ev.value), tokens);
        n := n + 1;
      }
    }
    assert lines[..0] == [];
    NothingBehind(r, events, tokens, n);
    found, g, scanned := false, Generation(tokens, Null, Str("boot")), n;
  }

  function FullAnswer(lib: Library, text: string, moltCount: int): Session {
    var r, lines := ReadingOf(lib), Lines(text, IsNewline);
    SessionOf(lib, moltCount, Meaning(lib, lines), FullScan, |Events(r, lines)|)
  }

  method FullScanOf(lib: Library, text: string, moltCount: int) returns (s: Session)
    ensures s == FullAnswer(lib, text, moltCount)
  {
    var g, scanned := ScanForward(ReadingOf(lib), Lines(text, IsNewline));
    s := SessionOf(lib, moltCount, g, FullScan, scanned);
  }

  /** The bounded view shows a boundary or reaches the start of the file. */
  predicate CanAnswer(lib: Library, text: string, bytes: nat) {
    var (lines, hitStart) := ReadTailLines(text, bytes);
    hitStart || HasBoundary(ReadingOf(lib), Events(ReadingOf(lib), lines))
  }

  function BoundedAnswer(lib: Library, text: string, moltCount: int, bytes: nat): Session {
    var r, lines := ReadingOf(lib), ReadTailLines(text, bytes).0;
    SessionOf(lib, moltCount, Meaning(lib, lines), ReverseScan, Recent(r, Events(r, lines)))
  }

  method ReverseScanOf(lib: Library, text: string, moltCount: int, bytes: nat) returns (s: Option<Session>)
    ensures s == if CanAnswer(lib, text, bytes) then Some(BoundedAnswer(lib, text, moltCount, bytes)) else None
  {
    var (lines, hitStart) := ReadTailLines(text, bytes);
    var found, g, scanned := ScanBackward(ReadingOf(lib), lines);
    if !found && !hitStart { return None; }
    s := Some(SessionOf(lib, moltCount, g, ReverseScan, scanned));
  }

  /** Equal in every field but the tier label and the scanned count. */
  predicate Agrees(a: Session, b: Session) {
    a.moltCount == b.moltCount && a.startedAt == b.startedAt && a.source == b.source && a.tokens == b.tokens
  }

  lemma LastLinesDecide(lib: Library, all: seq<string>, lines: seq<string>)
    requires EndsWith(all, lines) && HasBoundary(ReadingOf(lib), Events(ReadingOf(lib), lines))
    ensures Meaning(lib, lines) == Meaning(lib, all)
  {
    var r, older := ReadingOf(lib), all[..|all| - |lines|];
    assert all == older + lines;
    EventsConcat(r, older, lines);
    HistoryBeforeBoundaryIsIgnored(r, Events(r, older), Events(r, lines));
  }

  /** Whenever a bounded view of clean text can answer, it means what the file means. */
  lemma BoundedViewAgrees(lib: Library, text: string, bytes: nat)
    requires Clean(Shown(text, bytes))
    ensures CanAnswer(lib, text, bytes) ==>
      Meaning(lib, ReadTailLines(text, bytes).0) == Meaning(lib, Lines(text, IsNewline))
  {
    TailLinesAreLastLines(text, bytes);
    var lines := ReadTailLines(text, bytes).0;
    if HasBoundary(ReadingOf(lib), Events(ReadingOf(lib), lines)) {
      LastLinesDecide(lib, Lines(text, IsNewline), lines);
    }
  }

  // ---- what a rebuilt session says --------------------------------------------------

  /** The line decodes to an object of that kind: its `type`, or else its `event`. */
  predicate IsEvent(lib: Library, line: string, kind: string) {
    && lib.decode(line).Some? && lib.decode(line).value.Obj?
    && var ev := lib.decode(line).value;
       (if Truthy(ev.Get("type")) then ev.Get("type") else ev.Get("event")) == Str(kind)
  }

  function CallsIn(lib: Library, lines: seq<string>): nat {
    if |lines| == 0 then 0
    else CallsIn(lib, lines[..|lines| - 1]) + if IsEvent(lib, lines[|lines| - 1], "llm_response") then 1 else 0
  }

  /** One field summed over the calls. */
  function SumOf(lib: Library, lines: seq<string>, field: string): int {
    if |lines| == 0 then 0
    else
      var last := lines[|lines| - 1];
      SumOf(lib, lines[..|lines| - 1], field)
      + if IsEvent(lib, last, "llm_response") then lib.toInt(lib.decode(last).value.Get(field)) else 0
  }

  ghost predicate CountsCalls(lib: Library, lines: seq<string>, tokens: Tokens) {
    && tokens.calls == CallsIn(lib, lines)
    && tokens.input == SumOf(lib, lines, "input_tokens") && tokens.output == SumOf(lib, lines, "output_tokens")
    && tokens.cached == SumOf(lib, lines, "cached_tokens") && tokens.thinking == SumOf(lib, lines, "thinking_tokens")
  }

  /** Line `b` is the last molt boundary, or there is none and `b` is -1. */
  ghost predicate LastMolt(lib: Library, lines: seq<string>, b: int) {
    && -1 <= b < |lines| && (b >= 0 ==> IsEvent(lib, lines[b], "psyche_molt"))
    && forall k :: b < k < |lines| ==> !IsEvent(lib, lines[k], "psyche_molt")
  }

  /** The start and the source are those of the boundary at line `b`. */
  ghost predicate OpenedBy(lib: Library, lines: seq<string>, b: int, ts: Json, source: Json)
    requires LastMolt(lib, lines, b)
  {
    if b < 0 then ts == Null && source == Str("boot")
    else
      var initiator := lib.decode(lines[b]).value.Get("initiator");
      && ts == lib.decode(lines[b]).value.Get("ts")
      && source == if Truthy(initiator) then initiator else Str("agent")
  }

  /** The totals are those of the calls after the last molt boundary, which names the start
      and the source. */
  ghost predicate SaysSince(lib: Library, lines: seq<string>, b: int, ts: Json, source: Json, tokens: Tokens) {
    LastMolt(lib, lines, b) && CountsCalls(lib, lines[b + 1..], tokens) && OpenedBy(lib, lines, b, ts, source)
  }

  lemma {:induction false} MeaningSays(lib: Library, lines: seq<string>) returns (b: int)
    ensures var g := Meaning(lib, lines); SaysSince(lib, lines, b, g.ts, g.source, g.tokens)
  {
    if |lines| == 0 { return -1; }
    var n := |lines| - 1;
    var init, last := lines[..n], lines[n];
    assert lines == init + [last];
    MeaningGrows(lib, init, last);
    if IsEvent(lib, last, "psyche_molt") {
      b := n;
      assert lines[n + 1..] == [];
    } else {
      b := MeaningSays(lib, init);
      var g := Meaning(lib, init);
      SaysOneMore(lib, init, last, b, g.ts, g.source, g.tokens);
    }
  }

  lemma MeaningGrows(lib: Library, lines: seq<string>, last: string)
    ensures var g, ev := Meaning(lib, lines), ReadingOf(lib).event(last);
      Meaning(lib, lines + [last])
      == if ev.None? then g
         else if IsBoundary(ev.value) then Generation(ZERO, Opened(ev.value).0, Opened(ev.value).1)
         else g.(tokens := Plus(g.tokens, Usage(lib, ev.value)))
  {
    var r := ReadingOf(lib);
    assert (lines + [last])[..|lines|] == lines && (lines + [last])[..|lines| + 1] == lines + [last];
    EventsGrow(r, lines + [last], |lines|);
    if r.event(last).Some? { CurrentGrows(r, Events(r, lines), r.event(last).value); }
  }

  lemma SaysOneMore(
      lib: Library, lines: seq<string>, last: string, b: int, ts: Json, source: Json, tokens: Tokens)
    requires SaysSince(lib, lines, b, ts, source, tokens) && !IsEvent(lib, last, "psyche_molt")
    ensures var ev := ReadingOf(lib).event(last);
      SaysSince(lib, lines + [last], b, ts, source, if ev.Some? then Plus(tokens, Usage(lib, ev.value)) else tokens)
  {
    assert (lines + [last])[..|lines|] == lines;
    MoltStaysLast(lib, lines + [last], b);
    OneMoreLine(lib, lines[b + 1..], last, tokens);
    assert (lines + [last])[b + 1..] == lines[b + 1..] + [last];
  }

  lemma MoltStaysLast(lib: Library, lines: seq<string>, b: int)
    requires |lines| > 0 && LastMolt(lib, lines[..|lines| - 1], b)
    requires !IsEvent(lib, lines[|lines| - 1], "psyche_molt")
    ensures LastMolt(lib, lines, b)
  {
    var init := lines[..|lines| - 1];
    forall k | b < k < |lines| ensures !IsEvent(lib, lines[k], "psyche_molt") {
      if k < |init| { assert lines[k] == init[k]; }
    }
    if b >= 0 { assert lines[b] == init[b]; }
  }

  lemma OneMoreLine(lib: Library, lines: seq<string>, line: string, tokens: Tokens)
    requires CountsCalls(lib, lines, tokens)
    ensures var ev := ReadingOf(lib).event(line);
      CountsCalls(lib, lines + [line], if ev.Some? then Plus(tokens, Usage(lib, ev.value)) else tokens)
  {
    assert (lines + [line])[..|lines|] == lines;
  }

  /** The JSONL tiers of the rebuild.  Where the view is clean the answer does not depend on the
      bound, and is the totals since the last boundary of the whole file. */
  method Rebuild(lib: Library, file: Option<string>, moltCount: int, bytes: nat, allowFullScan: bool)
    returns (s: Session)
    ensures s == if file.Some? && CanAnswer(lib, file.value, bytes)
                 then BoundedAnswer(lib, file.value, moltCount, bytes)
                 else if file.Some? && allowFullScan then FullAnswer(lib, file.value, moltCount)
                 else Session(moltCount, None, Str("boot"), ZERO, NoSource, 0)
    ensures file.Some? && Clean(Shown(file.value, bytes)) && s.tier != NoSource ==>
      Agrees(s, FullAnswer(lib, file.value, moltCount))
    ensures s.moltCount == moltCount && (s.tier == NoSource ==> file == None || !allowFullScan)
    ensures s.tier != NoSource ==>
      var lines := if s.tier == ReverseScan then ReadTailLines(file.value, bytes).0 else Lines(file.value, IsNewline);
      exists ts, b :: s.startedAt == lib.iso(ts) && SaysSince(lib, lines, b, ts, s.source, s.tokens)
  {
    if file.Some? {
      ghost var b1 := MeaningSays(lib, Lines(file.value, IsNewline));
      ghost var b2 := MeaningSays(lib, ReadTailLines(file.value, bytes).0);
    }
    if file.Some? {
      var found := ReverseScanOf(lib, file.value, moltCount, bytes);
      if found.Some? {
        if Clean(Shown(file.value, bytes)) { BoundedViewAgrees(lib, file.value, bytes); }
        return found.value;
      }
      if allowFullScan {
        s := FullScanOf(lib, file.value, moltCount);
        return;
      }
    }
    s := Session(moltCount, None, Str("boot"), ZERO, NoSource, 0);
  }

  // ---- where the two scans part ----------------------------------------------------

  /** The first line that text mode keeps whole and `splitlines()` cuts. */
  lemma {:induction false} UncleanLine(text: string) returns (k: nat)
    requires !Clean(text)
    ensures k < |Lines(text, IsNewline)| && exists c <- Lines(text, IsNewline)[k] :: IsBreak(c)
  {
    var rest := Lines(text[1..], IsNewline);
    if IsBreak(text[0]) && !IsNewline(text[0]) {
      k := 0;
      assert text[0] in Lines(text, IsNewline)[0];
    } else {
      assert !Clean(text[1..]) by {
        var c :| c in text && IsBreak(c) && !IsNewline(c);
        assert c in text[1..];
      }
      var j := UncleanLine(text[1..]);
      var c :| c in rest[j] && IsBreak(c);
      if IsNewline(text[0]) {
        k := j + 1;
      } else {
        k := j;
        assert c in Lines(text, IsNewline)[k];
      }
    }
  }

  lemma {:induction false} BreakFreeLines(text: string)
    ensures forall line <- Lines(text, IsBreak), c <- line :: !IsBreak(c)
  {
    if |text| > 0 { BreakFreeLines(text[1..]); }
  }

  const TOKEN := Obj(map["type" := TOKEN_EVENT])

  /** A decoder that knows one line: a response of no cost. */
  function Only(line: string): string -> Option<Json> {
    s => if s == line then Some(TOKEN) else None
  }

  lemma OnlyReads(lib: Library, line: string)
    ensures var r := ReadingOf(lib.(decode := Only(line)));
      && (forall s :: r.event(s) == if s == line then Some(TOKEN) else None)
      && !r.boundary(TOKEN) && r.usage(TOKEN).calls == 1
  {
    assert EventType(TOKEN) == TOKEN_EVENT && TOKEN_EVENT != MOLT_BOUNDARY_EVENT by {
      assert "llm_response"[0] != "psyche_molt"[0];
    }
  }

  lemma {:induction false} CountsOccurrences(r: Reading, line: string, token: Json, lines: seq<string>)
    requires forall s :: r.event(s) == if s == line then Some(token) else None
    requires !r.boundary(token) && r.usage(token).calls == 1
    ensures Current(r, Events(r, lines)).tokens.calls == multiset(lines)[line]
  {
    if |lines| > 0 {
      var init, last := lines[..|lines| - 1], lines[|lines| - 1];
      CountsOccurrences(r, line, token, init);
      assert lines == init + [last];
      if last == line { CurrentGrows(r, Events(r, init), token); }
      assert Events(r, lines) == if last == line then Events(r, init) + [token] else Events(r, init);
    }
  }

  /** A line with a stray line end in it counts for the forward scan only. */
  lemma LostLine(r: Reading, line: string, text: string)
    requires forall s :: r.event(s) == if s == line then Some(TOKEN) else None
    requires !r.boundary(TOKEN) && r.usage(TOKEN).calls == 1
    requires line in Lines(text, IsNewline) && exists c <- line :: IsBreak(c)
    ensures Current(r, Events(r, Lines(text, IsBreak))) != Current(r, Events(r, Lines(text, IsNewline)))
  {
    BreakFreeLines(text);
    CountsOccurrences(r, line, TOKEN, Lines(text, IsBreak));
    CountsOccurrences(r, line, TOKEN, Lines(text, IsNewline));
    assert line !in Lines(text, IsBreak);
  }

  /** On a file read whole, the tiers agree under every decoder that skips blank lines
      exactly when the file is clean.
      A record with, say, U+2028 inside a string is one line to the forward scan and two
      broken ones to the bounded scan, which then misses it. */
  lemma TiersAgreeIffClean(lib: Library, text: string, bytes: nat)
    requires ByteLen(text) <= bytes
    ensures Clean(text) <==> forall decode: string -> Option<Json> | decode("") == None ::
      var l := lib.(decode := decode);
      Meaning(l, ReadTailLines(text, bytes).0) == Meaning(l, Lines(text, IsNewline))
  {
    if Clean(text) {
      CleanLines(text);
    } else {
      var k := UncleanLine(text);
      var line := Lines(text, IsNewline)[k];
      var l := lib.(decode := Only(line));
      OnlyReads(lib, line);
      LostLine(ReadingOf(l), line, text);
      assert l.decode("") == None;
    }
  }

  // ---- ... and exactly when, for a view the bound cuts -------------------------------

  /** The lines after the last `b`. */
  function After(b: string, lines: seq<string>): seq<string> {
    if |lines| == 0 || lines[|lines| - 1] == b then [] else After(b, lines[..|lines| - 1]) + [lines[|lines| - 1]]
  }

  /** The same lines as often, blank ones aside. */
  ghost predicate SameCounts(a: seq<string>, c: seq<string>, blank: string) {
    forall s | s != blank :: multiset(a)[s] == multiset(c)[s]
  }

  /** Since any line the view shows, view and file hold the same lines. */
  ghost predicate SameSince(b: string, view: seq<string>, file: seq<string>) {
    b in file && SameCounts(After(b, view), After(b, file), "")
  }

  ghost predicate SameHistory(view: seq<string>, file: seq<string>) {
    forall b <- view :: b != "" ==> SameSince(b, view, file)
  }

  predicate Opens(r: Reading, line: string) {
    r.event(line).Some? && r.boundary(r.event(line).value)
  }

  function UsageOf(r: Reading, line: string): Tokens {
    if r.event(line).Some? then r.usage(r.event(line).value) else ZERO
  }

  function Total(r: Reading, lines: seq<string>): Tokens {
    if |lines| == 0 then ZERO else Plus(Total(r, lines[..|lines| - 1]), UsageOf(r, lines[|lines| - 1]))
  }

  lemma TotalGrows(r: Reading, lines: seq<string>, line: string)
    ensures Total(r, lines + [line]) == Plus(Total(r, lines), UsageOf(r, line))
  {
    assert (lines + [line])[..|lines|] == lines;
  }

  lemma {:induction false} AfterHasNone(b: string, lines: seq<string>)
    ensures b !in After(b, lines)
  {
    if |lines| > 0 { AfterHasNone(b, lines[..|lines| - 1]); }
  }

  /** The boundary that opened the current generation. */
  lemma {:induction false} LastBoundary(r: Reading, lines: seq<string>) returns (b: string)
    requires HasBoundary(r, Events(r, lines))
    ensures b in lines && Opens(r, b) && forall x <- After(b, lines) :: !Opens(r, x)
  {
    var n := |lines| - 1;
    assert lines[..n + 1] == lines;
    if Opens(r, lines[n]) {
      b := lines[n];
    } else {
      EventsGrow(r, lines, n);
      b := LastBoundary(r, lines[..n]);
    }
  }

  lemma {:induction false} CurrentSince(r: Reading, lines: seq<string>, b: string)
    requires b in lines && Opens(r, b) && forall x <- After(b, lines) :: !Opens(r, x)
    ensures var start := r.opens(r.event(b).value);
      Current(r, Events(r, lines)) == Generation(Total(r, After(b, lines)), start.0, start.1)
  {
    var n := |lines| - 1;
    var init, last := lines[..n], lines[n];
    assert lines[..n + 1] == lines && lines == init + [last];
    EventsGrow(r, lines, n);
    if r.event(last).Some? { CurrentGrows(r, Events(r, init), r.event(last).value); }
    if last != b {
      assert After(b, lines) == After(b, init) + [last];
      assert !Opens(r, last);
      CurrentSince(r, init, b);
      TotalGrows(r, After(b, init), last);
    }
  }

  lemma PlusSwaps(a: Tokens, b: Tokens, c: Tokens)
    ensures Plus(Plus(a, b), c) == Plus(Plus(a, c), b)
  {
  }

  lemma {:induction false} TotalWithout(r: Reading, lines: seq<string>, i: nat)
    requires i < |lines|
    ensures Total(r, lines) == Plus(Total(r, lines[..i] + lines[i + 1..]), UsageOf(r, lines[i]))
  {
    var n := |lines| - 1;
    if i == n {
      assert lines[..i] + lines[i + 1..] == lines[..n];
    } else {
      var init, last := lines[..n], lines[n];
      TotalWithout(r, init, i);
      var fewer := init[..i] + init[i + 1..];
      PlusSwaps(Total(r, fewer), UsageOf(r, init[i]), UsageOf(r, last));
      assert lines[..i] + lines[i + 1..] == fewer + [last];
      TotalGrows(r, fewer, last);
    }
  }

  lemma SameHas(a: seq<string>, c: seq<string>, blank: string, x: string)
    requires SameCounts(a, c, blank) && x != blank && x in c
    ensures x in a
  {
    assert multiset(a)[x] == multiset(c)[x];
  }

  lemma SameWithout(a: seq<string>, x: string, c: seq<string>, i: nat, blank: string)
    requires i < |c| && SameCounts(a + [x], c, blank) && c[i] == x
    ensures SameCounts(a, c[..i] + c[i + 1..], blank)
  {
    assert c == c[..i] + [x] + c[i + 1..];
    forall s | s != blank ensures multiset(a)[s] == multiset(c[..i] + c[i + 1..])[s] {
      assert multiset(a + [x])[s] == multiset(c)[s];
    }
  }

  lemma SameWithoutBlank(a: seq<string>, c: seq<string>, blank: string)
    requires SameCounts(a + [blank], c, blank)
    ensures SameCounts(a, c, blank)
  {
    forall s | s != blank ensures multiset(a)[s] == multiset(c)[s] {
      assert multiset(a + [blank])[s] == multiset(c)[s];
    }
  }

  lemma PlusZero(t: Tokens)
    ensures Plus(t, ZERO) == t
  {
  }

  lemma TotalSkips(r: Reading, a: seq<string>, x: string)
    requires UsageOf(r, x) == ZERO
    ensures Total(r, a + [x]) == Total(r, a)
  {
    TotalGrows(r, a, x);
    PlusZero(Total(r, a));
  }

  /** Totals only depend on how often each line occurs. */
  lemma {:induction false} TotalIsCounted(r: Reading, a: seq<string>, c: seq<string>, blank: string)
    requires UsageOf(r, blank) == ZERO && SameCounts(a, c, blank)
    ensures Total(r, a) == Total(r, c)
    decreases |a|
  {
    if |a| == 0 {
      OnlyBlanks(r, a, c, blank);
    } else {
      var init, x := a[..|a| - 1], a[|a| - 1];
      assert a == init + [x];
      if x == blank {
        SameWithoutBlank(init, c, blank);
        TotalIsCounted(r, init, c, blank);
        TotalSkips(r, init, blank);
      } else {
        SameHas(c, a, blank, x);
        var i :| 0 <= i < |c| && c[i] == x;
        SameWithout(init, x, c, i, blank);
        TotalIsCounted(r, init, c[..i] + c[i + 1..], blank);
        TotalWithout(r, c, i);
        TotalGrows(r, init, x);
      }
    }
  }

  lemma {:induction false} OnlyBlanks(r: Reading, a: seq<string>, c: seq<string>, blank: string)
    requires UsageOf(r, blank) == ZERO && |a| == 0 && SameCounts(a, c, blank)
    ensures Total(r, c) == ZERO
    decreases |c|
  {
    if |c| > 0 {
      var init, x := c[..|c| - 1], c[|c| - 1];
      assert c == init + [x];
      if x != blank { SameHas(a, c, blank, x); }
      SameWithoutBlank(init, a, blank);
      OnlyBlanks(r, a, init, blank);
      TotalSkips(r, init, blank);
    }
  }

  lemma SameHistoryAgrees(r: Reading, view: seq<string>, file: seq<string>)
    requires r.event("") == None && SameHistory(view, file) && HasBoundary(r, Events(r, view))
    ensures Current(r, Events(r, view)) == Current(r, Events(r, file))
  {
    var b := LastBoundary(r, view);
    assert SameSince(b, view, file);
    forall x | x in After(b, file) ensures !Opens(r, x) {
      if x != "" { SameHas(After(b, view), After(b, file), "", x); }
    }
    CurrentSince(r, view, b);
    CurrentSince(r, file, b);
    TotalIsCounted(r, After(b, view), After(b, file), "");
  }

  const BOUNDARY := Obj(map["type" := MOLT_BOUNDARY_EVENT, "ts" := Int(1)])

  /** A decoder that knows two lines: a boundary and a response. */
  function Two(b: string, s: string): string -> Option<Json> {
    x => if x == b then Some(BOUNDARY) else if x == s then Some(TOKEN) else None
  }

  ghost predicate ReadsTwo(r: Reading, b: string, s: string) {
    && (forall x :: r.event(x) == if x == b then Some(BOUNDARY) else if x == s then Some(TOKEN) else None)
    && r.boundary(BOUNDARY) && r.opens(BOUNDARY).0 == Int(1)
    && !r.boundary(TOKEN) && r.usage(TOKEN).calls == 1
  }

  lemma TwoReads(lib: Library, b: string, s: string)
    ensures ReadsTwo(ReadingOf(lib.(decode := Two(b, s))), b, s)
  {
    assert EventType(TOKEN) == TOKEN_EVENT && TOKEN_EVENT != MOLT_BOUNDARY_EVENT by {
      assert "llm_response"[0] != "psyche_molt"[0];
    }
    assert "ts"[1] != "type"[1];
    assert EventType(BOUNDARY) == MOLT_BOUNDARY_EVENT && BOUNDARY.Get("ts") == Int(1);
  }

  lemma {:induction false} TotalOfTwo(r: Reading, b: string, s: string, lines: seq<string>)
    requires ReadsTwo(r, b, s) && s != b && b !in lines
    ensures Total(r, lines).calls == multiset(lines)[s]
  {
    if |lines| > 0 {
      var n := |lines| - 1;
      assert lines == lines[..n] + [lines[n]];
      TotalOfTwo(r, b, s, lines[..n]);
    }
  }

  lemma {:induction false} UnopenedIsBoot(r: Reading, lines: seq<string>)
    requires forall x <- lines :: !Opens(r, x)
    ensures Current(r, Events(r, lines)).ts == Null
  {
    if |lines| > 0 {
      var n := |lines| - 1;
      assert lines[..n + 1] == lines && lines[n] in lines && forall x <- lines[..n] :: x in lines;
      UnopenedIsBoot(r, lines[..n]);
      EventsGrow(r, lines, n);
      if r.event(lines[n]).Some? { CurrentGrows(r, Events(r, lines[..n]), r.event(lines[n]).value); }
    }
  }

  lemma {:induction false} OpenedHasBoundary(r: Reading, lines: seq<string>, b: string)
    requires b in lines && Opens(r, b)
    ensures HasBoundary(r, Events(r, lines))
  {
    var n := |lines| - 1;
    assert lines[..n + 1] == lines;
    EventsGrow(r, lines, n);
    if lines[n] == b {
      assert r.event(b).value in Events(r, lines);
    } else {
      assert b in lines[..n];
      OpenedHasBoundary(r, lines[..n], b);
    }
  }

  lemma OtherHistoryShows(r: Reading, b: string, s: string, view: seq<string>, file: seq<string>)
    requires ReadsTwo(r, b, s) && b in view
    requires b !in file || (s != b && multiset(After(b, view))[s] != multiset(After(b, file))[s])
    ensures HasBoundary(r, Events(r, view)) && Current(r, Events(r, view)) != Current(r, Events(r, file))
  {
    OpenedHasBoundary(r, view, b);
    AfterHasNone(b, view);
    CurrentSince(r, view, b);
    if b in file {
      AfterHasNone(b, file);
      CurrentSince(r, file, b);
      TotalOfTwo(r, b, s, After(b, view));
      TotalOfTwo(r, b, s, After(b, file));
    } else {
      UnopenedIsBoot(r, file);
    }
  }

  /** The lines that tell a different history apart. */
  lemma OtherHistory(view: seq<string>, file: seq<string>) returns (b: string, s: string)
    requires !SameHistory(view, file)
    ensures b in view && b != "" && s != ""
    ensures b !in file || (s != b && multiset(After(b, view))[s] != multiset(After(b, file))[s])
  {
    b :| b in view && b != "" && !SameSince(b, view, file);
    s := b;
    if b in file {
      s :| s != "" && multiset(After(b, view))[s] != multiset(After(b, file))[s];
      AfterHasNone(b, view);
      AfterHasNone(b, file);
    }
  }

  /** Agreement of the two tiers under one decoder, whenever the bounded one answers. */
  ghost predicate TiersAgree(l: Library, text: string, bytes: nat) {
    CanAnswer(l, text, bytes) ==> Meaning(l, ReadTailLines(text, bytes).0) == Meaning(l, Lines(text, IsNewline))
  }

  /** For every file and every bound: the tiers agree under every decoder that skips blank
      lines exactly when a file read whole is clean, or the cut view shows no line since
      which the file holds other lines. */
  lemma TiersAgreeIff(lib: Library, text: string, bytes: nat)
    ensures (if ByteLen(text) <= bytes then Clean(text)
             else SameHistory(ReadTailLines(text, bytes).0, Lines(text, IsNewline)))
      <==> forall decode: string -> Option<Json> | decode("") == None :: TiersAgree(lib.(decode := decode), text, bytes)
  {
    if ByteLen(text) <= bytes {
      TiersAgreeIffClean(lib, text, bytes);
    } else {
      CutTiersAgreeIff(lib, text, bytes);
    }
  }

  lemma CutTiersAgreeIff(lib: Library, text: string, bytes: nat)
    requires ByteLen(text) > bytes
    ensures SameHistory(ReadTailLines(text, bytes).0, Lines(text, IsNewline))
      <==> forall decode: string -> Option<Json> | decode("") == None :: TiersAgree(lib.(decode := decode), text, bytes)
  {
    var view, file := ReadTailLines(text, bytes).0, Lines(text, IsNewline);
    if SameHistory(view, file) {
      forall decode: string -> Option<Json> | decode("") == None
        ensures TiersAgree(lib.(decode := decode), text, bytes)
      {
        var r := ReadingOf(lib.(decode := decode));
        if HasBoundary(r, Events(r, view)) { SameHistoryAgrees(r, view, file); }
      }
    } else {
      var b, s := OtherHistory(view, file);
      var l := lib.(decode := Two(b, s));
      TwoReads(lib, b, s);
      OtherHistoryShows(ReadingOf(l), b, s, view, file);
      assert l.decode("") == None && !TiersAgree(l, text, bytes);
    }
  }
}
