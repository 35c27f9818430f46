/** What `grep`, `glob_walk` and `run` make of the collected matches once the workers have
    joined (crates/lingtai-search-sidecar/src/main.rs). */
module SearchResults {
  import opened Common
  import opened SearchWalk

  function Truncate<T>(s: seq<T>, n: nat): seq<T> {
    if |s| <= n then s else s[..n]
  }

  // ---- grep: sort by file, sort lines, flatten under the cap --------------------------

  function InsertGroup(g: Group, gs: seq<Group>): seq<Group> {
    if gs == [] || g.path < gs[0].path then [g] + gs else [gs[0]] + InsertGroup(g, gs[1..])
  }

  function SortGroups(gs: seq<Group>): seq<Group> {
    if gs == [] then [] else InsertGroup(gs[0], SortGroups(gs[1..]))
  }

  function InsertLine(n: nat, ns: seq<nat>): seq<nat> {
    if ns == [] || n < ns[0] then [n] + ns else [ns[0]] + InsertLine(n, ns[1..])
  }

  function SortLines(ns: seq<nat>): seq<nat> {
    if ns == [] then [] else InsertLine(ns[0], SortLines(ns[1..]))
  }

  ghost predicate Ascending(ns: seq<nat>) {
    forall i, j :: 0 <= i < j < |ns| ==> ns[i] < ns[j]
  }

  ghost predicate AscendingPaths(gs: seq<Group>) {
    forall i, j :: 0 <= i < j < |gs| ==> gs[i].path < gs[j].path
  }

  function Tagged(g: Group): (r: seq<(Path, nat)>)
    ensures |r| == |g.lines| && forall i :: 0 <= i < |r| ==> r[i] == (g.path, g.lines[i])
  {
    seq(|g.lines|, i requires 0 <= i < |g.lines| => (g.path, g.lines[i]))
  }

  function Flatten(gs: seq<Group>): seq<(Path, nat)> {
    if gs == [] then [] else Tagged(gs[0]) + Flatten(gs[1..])
  }

  predicate Below(a: (Path, nat), b: (Path, nat)) {
    a.0 < b.0 || (a.0 == b.0 && a.1 < b.1)
  }

  ghost predicate StrictlySorted(out: seq<(Path, nat)>) {
    forall i, j :: 0 <= i < j < |out| ==> Below(out[i], out[j])
  }

  lemma {:induction false} InsertGroupKeeps(g: Group, gs: seq<Group>)
    ensures forall h :: h in InsertGroup(g, gs) <==> h == g || h in gs
    ensures TotalLines(InsertGroup(g, gs)) == |g.lines| + TotalLines(gs)
  {
    if gs != [] {
      InsertGroupKeeps(g, gs[1..]);
      assert gs == [gs[0]] + gs[1..];
    }
  }

  lemma {:induction false} InsertGroupSorts(g: Group, gs: seq<Group>)
    requires AscendingPaths(gs) && forall h <- gs :: h.path != g.path
    ensures AscendingPaths(InsertGroup(g, gs))
  {
    if gs != [] && g.path > gs[0].path {
      InsertGroupSorts(g, gs[1..]);
      InsertGroupKeeps(g, gs[1..]);
      var rest := InsertGroup(g, gs[1..]);
      forall i | 0 <= i < |rest| ensures gs[0].path < rest[i].path {
        assert rest[i] in rest;
      }
    }
  }

  /** Distinct files come out in path order, none lost and none added. */
  lemma {:induction false} SortGroupsSorts(gs: seq<Group>)
    requires GroupsDistinct(gs)
    ensures AscendingPaths(SortGroups(gs))
    ensures forall h :: h in SortGroups(gs) <==> h in gs
    ensures TotalLines(SortGroups(gs)) == TotalLines(gs)
  {
    if gs != [] {
      SortGroupsSorts(gs[1..]);
      InsertGroupSorts(gs[0], SortGroups(gs[1..]));
      InsertGroupKeeps(gs[0], SortGroups(gs[1..]));
    }
  }

  lemma {:induction false} SortLinesOfAscending(ns: seq<nat>)
    requires Ascending(ns)
    ensures SortLines(ns) == ns
  {
    if ns != [] {
      SortLinesOfAscending(ns[1..]);
      assert ns == [ns[0]] + ns[1..];
    }
  }

  lemma {:induction false} FlattenSorted(gs: seq<Group>)
    requires AscendingPaths(gs) && forall g <- gs :: Ascending(g.lines)
    ensures StrictlySorted(Flatten(gs)) && |Flatten(gs)| == TotalLines(gs)
    ensures forall x <- Flatten(gs) :: exists g <- gs :: x.0 == g.path && x.1 in g.lines
  {
    if gs != [] {
      assert gs[0] in gs && forall g <- gs[1..] :: g in gs;
      FlattenSorted(gs[1..]);
      forall x | x in Flatten(gs[1..]) ensures gs[0].path < x.0 {
        var g :| g in gs[1..] && x.0 == g.path;
      }
      FileInFront(gs[0], Flatten(gs[1..]));
    }
  }

  lemma FileInFront(g: Group, rest: seq<(Path, nat)>)
    requires Ascending(g.lines) && StrictlySorted(rest) && forall x <- rest :: g.path < x.0
    ensures StrictlySorted(Tagged(g) + rest)
  {
  }

  function Cap(maxResults: nat): nat { if maxResults == 0 then 1 else maxResults }

  /** The emission loop.  The cap is tested only after a match was pushed. */
  method EmitMatches(groups: seq<Group>, maxResults: nat) returns (emitted: seq<(Path, nat)>)
    requires forall g <- groups :: Ascending(g.lines)
    requires GroupsDistinct(groups)
    ensures emitted == Truncate(Flatten(SortGroups(groups)), Cap(maxResults))
  {
    var byFile := SortGroups(groups);
    assert forall g <- byFile :: Ascending(g.lines) by { SortGroupsSorts(groups); }
    ghost var all := Flatten(byFile);
    emitted := [];
    for f := 0 to |byFile|
      invariant emitted + Flatten(byFile[f..]) == all
      invariant |emitted| < Cap(maxResults)
    {
      var g := byFile[f];
      ghost var rest := Flatten(byFile[f + 1..]);
      FlattenFrom(byFile, f, emitted);
      var lines := SortLines(g.lines);
      assert Group(g.path, lines) == g by { assert g in byFile; SortLinesOfAscending(g.lines); }
      ghost var whole := emitted + Tagged(g);
      var done;
      emitted, done := EmitFile(g.path, lines, emitted, maxResults);
      if done {
        TruncateEarly(whole, rest, Cap(maxResults));
        return;
      }
    }
  }

  lemma FlattenFrom(gs: seq<Group>, f: nat, before: seq<(Path, nat)>)
    requires f < |gs|
    ensures before + Flatten(gs[f..]) == before + Tagged(gs[f]) + Flatten(gs[f + 1..])
  {
    assert gs[f..][1..] == gs[f + 1..];
  }

  lemma TruncateEarly<T>(whole: seq<T>, rest: seq<T>, cap: nat)
    requires |whole| >= cap
    ensures Truncate(whole + rest, cap) == Truncate(whole, cap)
  {
  }

  /** The inner loop over one file's sorted lines; `done` is the outer `break`. */
  method EmitFile(path: Path, lines: seq<nat>, before: seq<(Path, nat)>, maxResults: nat)
    returns (emitted: seq<(Path, nat)>, done: bool)
    requires |before| < Cap(maxResults)
    ensures var cap, whole := Cap(maxResults), before + Tagged(Group(path, lines));
      && emitted == Truncate(whole, cap) && (done <==> |whole| >= cap)
  {
    ghost var tagged := Tagged(Group(path, lines));
    emitted, done := before, false;
    for i := 0 to |lines|
      invariant emitted == before + tagged[..i]
      invariant |emitted| < Cap(maxResults)
    {
      emitted := emitted + [(path, lines[i])];
      assert emitted == before + tagged[..i + 1];
      if |emitted| >= maxResults { return emitted, true; }
    }
  }

  /** Every line grep reports is a match of a walked file. */
  ghost predicate TrueMatches(c: Config, out: seq<(Path, nat)>) {
    forall x <- out :: x.0 in c.entries && x.1 in c.items(x.0)
  }

  // ---- an untruncated answer is complete, hence unique --------------------------------

  function AllMatches(c: Config): set<(Path, nat)> {
    set e, k | e in c.entries && 0 <= k < |c.items(e)| :: (e, c.items(e)[k])
  }

  lemma DistinctImages(x: (Path, nat), y: (Path, nat), items: Path -> seq<nat>)
    requires x != y && x.1 < |items(x.0)| && y.1 < |items(y.0)| && Ascending(items(x.0))
    ensures (x.0, items(x.0)[x.1]) != (y.0, items(y.0)[y.1])
  {
  }

  lemma {:induction false} ImageCount(xs: set<(Path, nat)>, items: Path -> seq<nat>)
    requires forall x <- xs :: x.1 < |items(x.0)| && Ascending(items(x.0))
    ensures |set x <- xs :: (x.0, items(x.0)[x.1])| == |xs|
  {
    var image := set x <- xs :: (x.0, items(x.0)[x.1]);
    if xs == {} {
      assert image == {};
    } else {
      var y :| y in xs;
      var less := xs - {y};
      ImageCount(less, items);
      var p, fewer := (y.0, items(y.0)[y.1]), set x <- less :: (x.0, items(x.0)[x.1]);
      forall x | x in less ensures (x.0, items(x.0)[x.1]) != p { DistinctImages(x, y, items); }
      assert image == fewer + {p};
    }
  }

  lemma MatchesAreItems(c: Config)
    requires forall e :: Ascending(c.items(e))
    ensures |AllMatches(c)| == |AllItems(c)|
  {
    ImageCount(AllItems(c), c.items);
    var image := set x <- AllItems(c) :: (x.0, c.items(x.0)[x.1]);
    forall m | m in AllMatches(c) ensures m in image {
      var k :| 0 <= k < |c.items(m.0)| && c.items(m.0)[k] == m.1;
      assert (m.0, k) in AllItems(c);
    }
    assert AllMatches(c) == image;
  }

  function Elements<T>(out: seq<T>): set<T> { set x | x in out }

  lemma {:induction false} DistinctCount<T>(out: seq<T>)
    requires forall i, j :: 0 <= i < j < |out| ==> out[i] != out[j]
    ensures |Elements(out)| == |out|
  {
    if |out| > 0 {
      var n := |out| - 1;
      DistinctCount(out[..n]);
      assert Elements(out) == Elements(out[..n]) + {out[n]};
    }
  }

  lemma {:induction false} SubsetOfSameSize<T>(a: set<T>, b: set<T>)
    requires a <= b && |a| == |b|
    ensures a == b
  {
    if a != {} {
      var x :| x in a;
      SubsetOfSameSize(a - {x}, b - {x});
    }
  }

  /** As many distinct members of a set as it has are all of them. */
  lemma EnoughIsAll<T>(out: seq<T>, all: set<T>)
    requires forall i, j :: 0 <= i < j < |out| ==> out[i] != out[j]
    requires (forall x <- out :: x in all) && |out| == |all|
    ensures forall x :: x in out <==> x in all
  {
    DistinctCount(out);
    SubsetOfSameSize(Elements(out), all);
  }

  /** Counts and order do not depend on the schedule: two complete, strictly sorted answers
      are the same answer. */
  lemma {:induction false} CompleteAnswerIsUnique(a: seq<(Path, nat)>, b: seq<(Path, nat)>)
    requires StrictlySorted(a) && StrictlySorted(b) && forall x :: x in a <==> x in b
    ensures a == b
  {
    if |a| > 0 || |b| > 0 {
      assert |a| > 0 ==> a[0] in b;
      assert |b| > 0 ==> b[0] in a;
      assert a[0] == b[0];
      forall x ensures x in a[1..] <==> x in b[1..] {
        TailHolds(a, x);
        TailHolds(b, x);
      }
      CompleteAnswerIsUnique(a[1..], b[1..]);
      assert a == [a[0]] + a[1..] && b == [b[0]] + b[1..];
    }
  }

  lemma TailHolds(out: seq<(Path, nat)>, x: (Path, nat))
    requires StrictlySorted(out) && |out| > 0
    ensures x in out[1..] <==> x in out && x != out[0]
  {
    if x in out && x != out[0] {
      var i :| 0 <= i < |out| && out[i] == x;
      assert out[1..][i - 1] == x;
    }
  }

  /** A reported budget was exceeded, and within all three none is reported. */
  ghost predicate ReasonHolds(c: Config, schedule: seq<Action>, s: State, reason: Option<Reason>) {
    && s.visited <= |c.entries|
    && (reason == Some(VisitedBudget) ==> s.visited > c.maxVisited)
    && (reason == Some(Walltime) ==> exists a <- schedule :: a.ReadClock? && a.over)
    && (reason == None ==> s.visited == |c.entries|)
    && (reason.Some? ==>
          || |c.entries| > c.maxVisited || |AllItems(c)| > c.maxResults
          || exists a <- schedule :: a.ReadClock? && a.over)
  }

  lemma ReasonsHold(c: Config, workers: nat, schedule: seq<Action>)
    requires WellFormed(c) && Finished(Run(c, Init(c, workers), schedule))
    ensures var s := Run(c, Init(c, workers), schedule); ReasonHolds(c, schedule, s, s.slot)
  {
    ReasonIsTrue(c, workers, schedule);
    if |c.entries| <= c.maxVisited && |AllItems(c)| <= c.maxResults && NeverOver(schedule) {
      WithinBudgetsIsComplete(c, workers, schedule);
    }
  }

  /** The whole of grep: after any schedule of any number of workers, the answer is strictly
      sorted by file and line, holds true matches only, and, unless another budget is
      reported, exactly min(cap, matching lines) of them.  A budget is reported only if it
      was exceeded. */
  method Grep(c: Config, workers: nat, ghost schedule: seq<Action>, s: State)
    returns (emitted: seq<(Path, nat)>, reason: Option<Reason>)
    requires c.lockedSink && forall e :: Ascending(c.items(e))
    requires s == Run(c, Init(c, workers), schedule) && Finished(s)
    ensures StrictlySorted(emitted) && TrueMatches(c, emitted)
    ensures reason == s.slot
    ensures reason == None || reason == Some(MaxResults) ==>
      && |emitted| == Min(c.maxResults, |AllItems(c)|)
      && (reason == Some(MaxResults) <==> |AllItems(c)| > c.maxResults)
    ensures |emitted| <= c.maxResults
    ensures reason == None ==> forall e, n :: (e, n) in emitted <==> e in c.entries && n in c.items(e)
    ensures ReasonHolds(c, schedule, s, reason)
  {
    InitInv(c, workers);
    RunKeepsInv(c, Init(c, workers), schedule);
    CollectedWithinCap(c, s);
    forall g | g in s.groups
      ensures Ascending(g.lines) && g.path in c.entries && forall n <- g.lines :: n in c.items(g.path)
    {
      assert GroupOk(c, s, g);
    }
    emitted := EmitMatches(s.groups, c.maxResults);
    reason := s.slot;
    ReasonsHold(c, workers, schedule);
    SortGroupsSorts(s.groups);
    FlattenSorted(SortGroups(s.groups));
    assert emitted == Flatten(SortGroups(s.groups));
    if reason == None || reason == Some(MaxResults) { FinishedWalkIsExact(c, workers, schedule); }
    if reason == None {
      MatchesAreItems(c);
      TrueMatchesListed(c, emitted);
      EnoughIsAll(emitted, AllMatches(c));
      forall e, n ensures (e, n) in emitted <==> e in c.entries && n in c.items(e) { MatchListed(c, e, n); }
    }
  }

  lemma MatchListed(c: Config, e: Path, n: nat)
    ensures (e, n) in AllMatches(c) <==> e in c.entries && n in c.items(e)
  {
  }

  lemma TrueMatchesListed(c: Config, out: seq<(Path, nat)>)
    requires TrueMatches(c, out)
    ensures forall x <- out :: x in AllMatches(c)
  {
    forall x | x in out ensures x in AllMatches(c) {
      var k :| 0 <= k < |c.items(x.0)| && c.items(x.0)[k] == x.1;
    }
  }

  lemma CollectedWithinCap(c: Config, s: State)
    requires Inv(c, s)
    ensures TotalLines(s.groups) <= c.maxResults
  {
    forall x | x in Indices(s.groups) ensures x in s.won {
      IndicesArePushed(s.groups, x.0, x.1);
      assert (x.0, x.1) in s.won;
    }
    CountedWithin(Indices(s.groups), s.won);
    IndicesCount(s.groups);
  }

  // ---- glob: one path per matching entry ----------------------------------------------

  function Paths(groups: seq<Group>): (r: seq<Path>)
    ensures |r| == |groups| && forall i :: 0 <= i < |r| ==> r[i] == groups[i].path
  {
    seq(|groups|, i requires 0 <= i < |groups| => groups[i].path)
  }

  lemma {:induction false} OneLineEach(groups: seq<Group>)
    requires forall g <- groups :: |g.lines| == 1
    ensures TotalLines(groups) == |groups|
  {
    if groups != [] {
      assert groups[0] in groups && forall g <- groups[1..] :: g in groups;
      OneLineEach(groups[1..]);
    }
  }

  function Rendered(ps: seq<Path>, render: Path -> string): seq<string> {
    if ps == [] then [] else [render(ps[0])] + Rendered(ps[1..], render)
  }

  function InsertString(s: string, ss: seq<string>): seq<string> {
    if ss == [] || !Before(ss[0], s) then [s] + ss else [ss[0]] + InsertString(s, ss[1..])
  }

  function SortStrings(ss: seq<string>): seq<string> {
    if ss == [] then [] else InsertString(ss[0], SortStrings(ss[1..]))
  }

  ghost predicate NonDecreasing(ss: seq<string>) {
    forall i, j :: 0 <= i < j < |ss| ==> !Before(ss[j], ss[i])
  }

  lemma {:induction false} InsertStringKeeps(s: string, ss: seq<string>)
    ensures multiset(InsertString(s, ss)) == multiset{s} + multiset(ss)
  {
    if ss != [] {
      assert ss == [ss[0]] + ss[1..];
      InsertStringKeeps(s, ss[1..]);
    }
  }

  lemma {:induction false} InsertStringSorts(s: string, ss: seq<string>)
    requires NonDecreasing(ss)
    ensures NonDecreasing(InsertString(s, ss))
  {
    if ss != [] {
      if Before(ss[0], s) {
        InsertStringSorts(s, ss[1..]);
        InsertStringKeeps(s, ss[1..]);
        BeforeIsTotal(ss[0], s);
        var rest := InsertString(s, ss[1..]);
        forall k | 0 <= k < |rest| ensures !Before(rest[k], ss[0]) {
          assert rest[k] in multiset(rest);
        }
      } else {
        forall k | 0 < k < |ss| ensures !Before(ss[k], s) { NotBefore(s, ss[0], ss[k]); }
      }
    }
  }

  lemma NotBefore(a: string, b: string, c: string)
    requires !Before(b, a) && !Before(c, b)
    ensures !Before(c, a)
  {
    BeforeIsTotal(a, b);
    BeforeIsTotal(b, c);
    BeforeIsTotal(a, c);
    if Before(c, a) {
      if Before(a, b) { BeforeIsTransitive(c, a, b); }
    }
  }

  /** Sorting loses nothing, adds nothing and puts the path strings in order. */
  lemma {:induction false} SortStringsSorts(ss: seq<string>)
    ensures NonDecreasing(SortStrings(ss)) && multiset(SortStrings(ss)) == multiset(ss)
  {
    if ss != [] {
      SortStringsSorts(ss[1..]);
      InsertStringSorts(ss[0], SortStrings(ss[1..]));
      InsertStringKeeps(ss[0], SortStrings(ss[1..]));
      assert ss == [ss[0]] + ss[1..];
    }
  }

  lemma {:induction false} SortedStringsAreUnique(a: seq<string>, b: seq<string>)
    requires NonDecreasing(a) && NonDecreasing(b) && multiset(a) == multiset(b)
    ensures a == b
  {
    if a == [] {
      assert |b| == |multiset(b)| == 0;
    } else {
      SameHead(a, b);
      RestOf(a);
      RestOf(b);
      SortedStringsAreUnique(a[1..], b[1..]);
      assert a == [a[0]] + a[1..] && b == [b[0]] + b[1..];
    }
  }

  lemma RestOf<T>(s: seq<T>)
    requires s != []
    ensures multiset(s[1..]) == multiset(s) - multiset{s[0]}
  {
    assert s == [s[0]] + s[1..];
  }

  lemma SameHead(a: seq<string>, b: seq<string>)
    requires NonDecreasing(a) && NonDecreasing(b) && multiset(a) == multiset(b) && a != []
    ensures b != [] && a[0] == b[0]
  {
    assert |b| == |multiset(b)| == |multiset(a)| == |a|;
    var s, t := a[0], b[0];
    assert s in multiset(b) && t in multiset(a);
    var i :| 0 <= i < |b| && b[i] == s;
    var j :| 0 <= j < |a| && a[j] == t;
    BeforeIsTotal(s, t);
  }

  /** The same distinct paths render to the same strings, however often two of them look alike. */
  lemma {:induction false} RenderedAlike(a: seq<Path>, b: seq<Path>, render: Path -> string)
    requires multiset(a) == multiset(b)
    ensures multiset(Rendered(a, render)) == multiset(Rendered(b, render))
  {
    if a == [] {
      assert |b| == |multiset(b)| == 0;
    } else {
      assert a == [a[0]] + a[1..] && a[0] in multiset(b);
      var k :| 0 <= k < |b| && b[k] == a[0];
      RenderedWithout(b, k, render);
      assert multiset(a[1..]) == multiset(a) - multiset{a[0]};
      RenderedAlike(a[1..], b[..k] + b[k + 1..], render);
    }
  }

  lemma RenderedWithout(b: seq<Path>, k: nat, render: Path -> string)
    requires k < |b|
    ensures multiset(b[..k] + b[k + 1..]) == multiset(b) - multiset{b[k]}
    ensures multiset(Rendered(b, render)) == multiset{render(b[k])} + multiset(Rendered(b[..k] + b[k + 1..], render))
  {
    var front, back := b[..k], b[k + 1..];
    assert b == front + ([b[k]] + back);
    RenderedJoins(front, [b[k]] + back, render);
    RenderedJoins(front, back, render);
    assert Rendered([b[k]] + back, render) == [render(b[k])] + Rendered(back, render);
  }

  lemma {:induction false} RenderedJoins(a: seq<Path>, b: seq<Path>, render: Path -> string)
    ensures Rendered(a + b, render) == Rendered(a, render) + Rendered(b, render)
  {
    if a == [] {
      assert a + b == b;
    } else {
      assert (a + b)[0] == a[0] && (a + b)[1..] == a[1..] + b;
      RenderedJoins(a[1..], b, render);
    }
  }

  lemma {:induction false} DistinctAlike(a: seq<Path>, b: seq<Path>)
    requires forall i, j :: 0 <= i < j < |a| ==> a[i] != a[j]
    requires forall i, j :: 0 <= i < j < |b| ==> b[i] != b[j]
    requires forall p :: p in a <==> p in b
    ensures multiset(a) == multiset(b)
  {
    forall p ensures multiset(a)[p] == multiset(b)[p] {
      CountedOnce(a, p);
      CountedOnce(b, p);
    }
  }

  lemma {:induction false} CountedOnce(a: seq<Path>, p: Path)
    requires forall i, j :: 0 <= i < j < |a| ==> a[i] != a[j]
    ensures multiset(a)[p] == if p in a then 1 else 0
  {
    if a != [] {
      assert a == [a[0]] + a[1..];
      CountedOnce(a[1..], p);
    }
  }

  /** The paths a walk left in the sink, cut at the cap. */
  function Collected(c: Config, s: State): seq<Path> {
    Truncate(Paths(s.groups), c.maxResults)
  }

  lemma GlobCollects(c: Config, workers: nat, schedule: seq<Action>, s: State)
    requires !c.lockedSink && forall e :: c.items(e) == [] || c.items(e) == [0]
    requires s == Run(c, Init(c, workers), schedule) && Finished(s)
    ensures forall i, j :: 0 <= i < j < |Collected(c, s)| ==> Collected(c, s)[i] != Collected(c, s)[j]
    ensures forall p <- Collected(c, s) :: p in c.entries && c.items(p) == [0]
    ensures s.slot == None || s.slot == Some(MaxResults) ==>
      && |Collected(c, s)| == Min(c.maxResults, |AllItems(c)|)
      && (s.slot == Some(MaxResults) <==> |AllItems(c)| > c.maxResults)
    ensures s.slot == None ==> forall p :: p in Collected(c, s) <==> p in MatchingPaths(c)
  {
    InitInv(c, workers);
    RunKeepsInv(c, Init(c, workers), schedule);
    CollectedWithinCap(c, s);
    forall g | g in s.groups ensures |g.lines| == 1 && g.path in c.entries && c.items(g.path) == [0] {
      assert GroupOk(c, s, g);
    }
    OneLineEach(s.groups);
    assert forall i :: 0 <= i < |s.groups| ==> s.groups[i] in s.groups;
    if s.slot == None || s.slot == Some(MaxResults) { FinishedWalkIsExact(c, workers, schedule); }
    if s.slot == None {
      GlobItemsAreMatches(c);
      EnoughIsAll(Collected(c, s), MatchingPaths(c));
    }
  }

  /** An untruncated glob answer is one sequence of strings, whatever the schedules and the
      numbers of workers, and however lossy the rendering. */
  lemma GlobIsScheduleFree(
      c: Config, render: Path -> string, w1: nat, schedule1: seq<Action>, s1: State,
      w2: nat, schedule2: seq<Action>, s2: State)
    requires !c.lockedSink && forall e :: c.items(e) == [] || c.items(e) == [0]
    requires s1 == Run(c, Init(c, w1), schedule1) && Finished(s1) && s1.slot == None
    requires s2 == Run(c, Init(c, w2), schedule2) && Finished(s2) && s2.slot == None
    ensures SortStrings(Rendered(Collected(c, s1), render)) == SortStrings(Rendered(Collected(c, s2), render))
  {
    GlobCollects(c, w1, schedule1, s1);
    GlobCollects(c, w2, schedule2, s2);
    DistinctAlike(Collected(c, s1), Collected(c, s2));
    RenderedAlike(Collected(c, s1), Collected(c, s2), render);
    SortStringsSorts(Rendered(Collected(c, s1), render));
    SortStringsSorts(Rendered(Collected(c, s2), render));
    SortedStringsAreUnique(
      SortStrings(Rendered(Collected(c, s1), render)), SortStrings(Rendered(Collected(c, s2), render)));
  }

  /** The whole of glob: after any schedule the answer is the sorted strings of matching
      paths, none taken twice, and, unless another budget is reported, exactly
      min(cap, matching paths) of them. */
  method Glob(c: Config, render: Path -> string, workers: nat, ghost schedule: seq<Action>, s: State)
    returns (paths: seq<string>, reason: Option<Reason>, ghost collected: seq<Path>)
    requires !c.lockedSink && forall e :: c.items(e) == [] || c.items(e) == [0]
    requires s == Run(c, Init(c, workers), schedule) && Finished(s)
    ensures NonDecreasing(paths)
    ensures exists strings ::
      multiset(paths) == multiset(strings) && Renders(strings, collected, render)
    ensures forall i, j :: 0 <= i < j < |collected| ==> collected[i] != collected[j]
    ensures forall p <- collected :: p in c.entries && c.items(p) == [0]
    ensures collected == Collected(c, s) && reason == s.slot && |paths| == |collected| <= c.maxResults
    ensures reason == None || reason == Some(MaxResults) ==>
      && |paths| == Min(c.maxResults, |AllItems(c)|)
      && (reason == Some(MaxResults) <==> |AllItems(c)| > c.maxResults)
    ensures reason == None ==> forall p :: p in collected <==> p in c.entries && c.items(p) == [0]
    ensures ReasonHolds(c, schedule, s, reason)
  {
    ReasonsHold(c, workers, schedule);
    GlobCollects(c, workers, schedule, s);
    var sink := Paths(s.groups);
    collected := Collected(c, s);
    if |sink| > c.maxResults { sink := sink[..c.maxResults]; }
    SortStringsSorts(Rendered(sink, render));
    RenderedEach(sink, render);
    assert Renders(Rendered(sink, render), sink, render);
    paths := SortStrings(Rendered(sink, render));
    assert |paths| == |multiset(paths)| == |multiset(Rendered(sink, render))|;
    reason := s.slot;
  }

  ghost predicate Renders(strings: seq<string>, ps: seq<Path>, render: Path -> string) {
    |strings| == |ps| && forall i :: 0 <= i < |ps| ==> strings[i] == render(ps[i])
  }

  lemma {:induction false} RenderedEach(ps: seq<Path>, render: Path -> string)
    ensures Renders(Rendered(ps, render), ps, render)
  {
    if ps != [] { RenderedEach(ps[1..], render); }
  }

  function MatchingPaths(c: Config): set<Path> {
    set e <- c.entries | c.items(e) == [0]
  }

  function Pairs(es: set<Path>): set<(Path, nat)> {
    set e <- es :: (e, 0)
  }

  lemma {:induction false} PairsCount(es: set<Path>)
    ensures |Pairs(es)| == |es|
  {
    if es == {} {
      assert Pairs(es) == {};
    } else {
      var e :| e in es;
      PairsCount(es - {e});
      assert Pairs(es) == Pairs(es - {e}) + {(e, 0)};
    }
  }

  /** For glob the items are the matching entries themselves. */
  lemma GlobItemsAreMatches(c: Config)
    requires forall e :: c.items(e) == [] || c.items(e) == [0]
    ensures |AllItems(c)| == |MatchingPaths(c)|
  {
    assert AllItems(c) == Pairs(MatchingPaths(c));
    PairsCount(MatchingPaths(c));
  }
}
