/** Substituting the active preset's llm and capabilities into init.json
    (src/lingtai/kernel/presets.py). */
module PresetMaterialize {
  import opened Common

  /** What the preset loader returns or raises: a preset's llm block is an object, its
      capabilities are an object or missing. */
  datatype Loaded =
    | Preset(llm: map<string, Json>, capabilities: Option<map<string, Json>>)
    | KeyError
    | ValueError

  type Loader = Json -> Loaded

  datatype Outcome = Untouched | Materialised | Missing | Malformed | TypeError

  const SKILLS := "skills"
  const PATHS := "paths"

  function FieldsOf(j: Json): map<string, Json> { if j.Obj? then j.fields else map[] }

  // ---- skills paths ----------------------------------------------------------------

  function AsJson(paths: seq<string>): seq<Json> { seq(|paths|, k requires 0 <= k < |paths| => Str(paths[k])) }

  /** The strings among the items, first occurrences only. */
  function Strings(items: seq<Json>): seq<string> {
    if items == [] then []
    else
      var n := |items| - 1;
      var before := Strings(items[..n]);
      if items[n].Str? && items[n].s !in before then before + [items[n].s] else before
  }

  /** The skills paths of init.json. */
  function InitPaths(caps: map<string, Json>): seq<string> {
    if SKILLS in caps && caps[SKILLS].Get(PATHS).Arr? then Strings(caps[SKILLS].Get(PATHS).items) else []
  }

  /** The paths not already in the preset's list. */
  function Extras(own: seq<Json>, paths: seq<string>): seq<string> {
    if paths == [] then []
    else
      var n := |paths| - 1;
      Extras(own, paths[..n]) + (if Str(paths[n]) in own then [] else [paths[n]])
  }

  predicate Hashable(items: seq<Json>) { forall j <- items :: !j.Arr? && !j.Obj? }

  /** `list(x)` and `set(x)` of `kwargs.get("paths") or []`; `None` when either raises. */
  function OwnPaths(kwargs: map<string, Json>): Option<seq<Json>> {
    var own := Obj(kwargs).Get(PATHS);
    if !Truthy(own) then Some([])
    else if own.Arr? && Hashable(own.items) then Some(own.items)
    else if own.Str? then Some(seq(|own.s|, k requires 0 <= k < |own.s| => Str([own.s[k]])))
    else None
  }

  lemma {:induction false} StringsAreDistinct(items: seq<Json>)
    ensures forall s :: s in Strings(items) <==> Str(s) in items
    ensures Distinct(Strings(items))
  {
    if items != [] {
      var n := |items| - 1;
      StringsAreDistinct(items[..n]);
      assert items == items[..n] + [items[n]];
    }
  }

  /** Exactly the paths not in `own`, in order. */
  lemma {:induction false} ExtrasAreNew(own: seq<Json>, paths: seq<string>)
    ensures forall p :: p in Extras(own, paths) <==> p in paths && Str(p) !in own
    ensures Distinct(paths) ==> Distinct(Extras(own, paths))
  {
    if paths != [] {
      var n := |paths| - 1;
      ExtrasAreNew(own, paths[..n]);
      assert paths == paths[..n] + [paths[n]];
    }
  }

  lemma {:induction false} NoExtras(own: seq<Json>, paths: seq<string>)
    requires forall p <- paths :: Str(p) in own
    ensures Extras(own, paths) == []
  {
    if paths != [] {
      assert paths[|paths| - 1] in paths;
      assert forall p <- paths[..|paths| - 1] :: p in paths;
      NoExtras(own, paths[..|paths| - 1]);
    }
  }

  lemma {:induction false} AllExtras(own: seq<Json>, paths: seq<string>)
    requires forall p <- paths :: Str(p) !in own
    ensures Extras(own, paths) == paths
  {
    if paths != [] {
      assert paths[|paths| - 1] in paths;
      assert forall p <- paths[..|paths| - 1] :: p in paths;
      AllExtras(own, paths[..|paths| - 1]);
    }
  }

  lemma {:induction false} ExtrasConcat(own: seq<Json>, a: seq<string>, b: seq<string>)
    ensures Extras(own, a + b) == Extras(own, a) + Extras(own, b)
  {
    if b == [] {
      assert a + b == a;
    } else {
      assert (a + b)[..|a + b| - 1] == a + b[..|b| - 1];
      ExtrasConcat(own, a, b[..|b| - 1]);
    }
  }

  predicate Distinct(paths: seq<string>) { forall j, k :: 0 <= j < k < |paths| ==> paths[j] != paths[k] }

  lemma StringsGrow(items: seq<Json>, s: string)
    ensures Strings(items + [Str(s)]) == if s in Strings(items) then Strings(items) else Strings(items) + [s]
  {
    assert (items + [Str(s)])[..|items|] == items;
  }

  lemma JoinOneMore(own: seq<Json>, init: seq<string>, last: string)
    requires Strings(own + AsJson(init)) == Strings(own) + init && Str(last) !in own && last !in init
    ensures Strings(own + AsJson(init + [last])) == Strings(own) + init + [last]
  {
    var before := own + AsJson(init);
    assert own + AsJson(init + [last]) == before + [Str(last)];
    StringsGrow(before, last);
    assert last !in Strings(own) by { StringsAreDistinct(own); }
  }

  lemma {:induction false} StringsOfJoin(own: seq<Json>, extras: seq<string>)
    requires (forall p <- extras :: Str(p) !in own) && Distinct(extras)
    ensures Strings(own + AsJson(extras)) == Strings(own) + extras
  {
    if |extras| == 0 {
      assert own + AsJson(extras) == own;
    } else {
      var init, last := extras[..|extras| - 1], extras[|extras| - 1];
      assert last in extras && last !in init && forall p <- init :: p in extras;
      assert extras == init + [last];
      StringsOfJoin(own, init);
      JoinOneMore(own, init, last);
    }
  }

  /** Reading the merged list back and merging again adds the same extras. */
  lemma ExtrasComeBack(own: seq<Json>, extras: seq<string>)
    requires (forall p <- extras :: Str(p) !in own) && Distinct(extras)
    ensures Extras(own, Strings(own + AsJson(extras))) == extras
  {
    StringsOfJoin(own, extras);
    StringsAreDistinct(own);
    ExtrasConcat(own, Strings(own), extras);
    NoExtras(own, Strings(own));
    AllExtras(own, extras);
  }

  // ---- capabilities ----------------------------------------------------------------

  /** One capability the preset enables: init.json's keyword arguments win key by key. */
  function Overridden(name: string, own: Json, init: map<string, Json>): Json {
    if name != SKILLS && own.Obj? && name in init && init[name].Obj? then Obj(own.fields + init[name].fields) else own
  }

  /** Carried over although the preset does not name it. */
  predicate Carried(name: string, caps: map<string, Json>, init: map<string, Json>, core: set<string>) {
    name != SKILLS && name !in caps && name in core && name in init && init[name].Obj?
  }

  function Merged(caps: map<string, Json>, init: map<string, Json>, core: set<string>): map<string, Json> {
    map name | name in caps.Keys + init.Keys && (name in caps || Carried(name, caps, init, core)) ::
      if name in caps then Overridden(name, caps[name], init) else init[name]
  }

  /** The skills entry gets init.json's paths appended; `None` when the paths raise. */
  function WithPaths(merged: map<string, Json>, paths: seq<string>): Option<map<string, Json>> {
    if paths == [] then Some(merged)
    else
      var kwargs := if SKILLS in merged then FieldsOf(merged[SKILLS]) else map[];
      var own := OwnPaths(kwargs);
      if own.None? then None
      else Some(merged[SKILLS := Obj(kwargs[PATHS := Arr(own.value + AsJson(Extras(own.value, paths)))])])
  }

  function Capabilities(preset: Option<map<string, Json>>, init: map<string, Json>, core: set<string>)
    : Option<map<string, Json>>
  {
    var caps := if preset.Some? then preset.value else init;
    WithPaths(Merged(caps, init, core), InitPaths(init))
  }

  // ---- the whole substitution ------------------------------------------------------

  /** The preset used: the active one, or the default when the active one is missing. */
  function Chosen(load: Loader, block: Json): (Json, Loaded) {
    var active, fallback := block.Get("active"), block.Get("default");
    if load(active) == KeyError && fallback.Str? && fallback.s != "" && fallback != active
    then (fallback, load(fallback))
    else (active, load(active))
  }

  /** The outcome, and the manifest it leaves. */
  function Materialisation(load: Loader, core: set<string>, manifest: Json): (Outcome, Json) {
    var block := manifest.Get("preset");
    if !block.Obj? || !Truthy(block.Get("active")) then (Untouched, manifest)
    else
      var (ref, loaded) := Chosen(load, block);
      if loaded == KeyError then (Missing, manifest)
      else if loaded == ValueError then (Malformed, manifest)
      else
        var llm := loaded.llm - {"context_limit"};
        var m := manifest.fields["preset" := Obj(block.fields["active" := ref])]["llm" := Obj(llm)];
        var caps := Capabilities(loaded.capabilities, FieldsOf(manifest.Get("capabilities")), core);
        if caps.None? then (TypeError, Obj(m)) else (Materialised, Obj(m["capabilities" := Obj(caps.value)]))
  }

  /** The loaded init.json, changed in place; `Null` when it has no manifest. */
  class Init {
    var manifest: Json

    constructor (manifest: Json)
      ensures this.manifest == manifest
    {
      this.manifest := manifest;
    }

    method Materialise(load: Loader, core: set<string>) returns (outcome: Outcome)
      modifies this
      ensures (outcome, manifest) == Materialisation(load, core, old(manifest))
      ensures Substituted(load, core, old(manifest), outcome, manifest)
    {
      SubstitutionIsRight(load, core, manifest);
      var block := manifest.Get("preset");
      if !block.Obj? || !Truthy(block.Get("active")) { return Untouched; }
      var ref, preset := LoadChosen(load, block);
      if !preset.Preset? { return if preset == KeyError then Missing else Malformed; }
      var initCaps := FieldsOf(manifest.Get("capabilities"));
      manifest := Obj(manifest.fields["preset" := Obj(block.fields["active" := ref])]);
      manifest := Obj(manifest.fields["llm" := Obj(preset.llm - {"context_limit"})]);
      var caps := MergeAll(preset.capabilities, initCaps, core);
      if caps.None? { return TypeError; }
      manifest := Obj(manifest.fields["capabilities" := Obj(caps.value)]);
      outcome := Materialised;
    }
  }

  method LoadChosen(load: Loader, block: Json) returns (ref: Json, preset: Loaded)
    ensures (ref, preset) == Chosen(load, block) && preset == load(ref)
    // The default steps in only for a missing preset, and a preset counts as missing only
    // when no other default could be loaded.
    ensures ref != block.Get("active") ==>
      load(block.Get("active")) == KeyError && ref == block.Get("default") && Truthy(ref)
    ensures preset == KeyError ==> load(block.Get("active")) == KeyError
    ensures preset == KeyError && block.Get("default").Str? && block.Get("default").s != "" ==>
      load(block.Get("default")) == KeyError
  {
    ref := block.Get("active");
    preset := load(ref);
    if preset == KeyError {
      var fallback := block.Get("default");
      if fallback.Str? && fallback.s != "" && fallback != ref {
        preset := load(fallback);
        ref := fallback;
      }
    }
  }

  method MergeAll(preset: Option<map<string, Json>>, init: map<string, Json>, core: set<string>)
    returns (caps: Option<map<string, Json>>)
    ensures caps == Capabilities(preset, init, core)
  {
    var paths := ReadInitPaths(init);
    var own := if preset.Some? then preset.value else init;
    var merged := OverrideKwargs(own, init);
    merged := CarryForward(merged, own, init, core);
    if SKILLS in init && init[SKILLS].Get(PATHS).Arr? { StringsAreDistinct(init[SKILLS].Get(PATHS).items); }
    caps := AppendPaths(merged, paths);
  }

  method ReadInitPaths(caps: map<string, Json>) returns (paths: seq<string>)
    ensures paths == InitPaths(caps)
  {
    paths := [];
    if SKILLS in caps && caps[SKILLS].Get(PATHS).Arr? {
      var items := caps[SKILLS].Get(PATHS).items;
      for k := 0 to |items|
        invariant paths == Strings(items[..k])
      {
        assert items[..k + 1][..k] == items[..k];
        if items[k].Str? && items[k].s !in paths {
          paths := paths + [items[k].s];
        }
      }
      assert items[..|items|] == items;
    }
  }

  method OverrideKwargs(caps: map<string, Json>, init: map<string, Json>) returns (merged: map<string, Json>)
    ensures merged == map name | name in caps :: Overridden(name, caps[name], init)
  {
    merged := caps;
    var todo := caps.Keys;
    while todo != {}
      invariant todo <= caps.Keys == merged.Keys
      invariant forall n <- caps :: merged[n] == if n in todo then caps[n] else Overridden(n, caps[n], init)
      decreases |todo|
    {
      var name :| name in todo;
      todo := todo - {name};
      if name != SKILLS && name in init && caps[name].Obj? && init[name].Obj? {
        merged := merged[name := Obj(caps[name].fields + init[name].fields)];
      }
    }
  }

  method CarryForward(
      overridden: map<string, Json>, caps: map<string, Json>, init: map<string, Json>, core: set<string>)
    returns (merged: map<string, Json>)
    requires overridden == map name | name in caps :: Overridden(name, caps[name], init)
    ensures merged == Merged(caps, init, core)
  {
    merged := overridden;
    var todo := core;
    while todo != {}
      invariant todo <= core
      invariant forall n :: n in merged <==> n in caps || (Carried(n, caps, init, core) && n !in todo)
      invariant forall n <- merged :: merged[n] == if n in caps then overridden[n] else init[n]
      decreases |todo|
    {
      var name :| name in todo;
      todo := todo - {name};
      if name != SKILLS && name !in caps && name in init && init[name].Obj? {
        merged := merged[name := init[name]];
      }
    }
  }

  method AppendPaths(merged: map<string, Json>, paths: seq<string>) returns (caps: Option<map<string, Json>>)
    requires Distinct(paths)
    ensures caps == WithPaths(merged, paths)
  {
    if paths == [] { return Some(merged); }
    var kwargs := if SKILLS in merged then FieldsOf(merged[SKILLS]) else map[];
    var own := OwnPaths(kwargs);
    if own.None? { return None; }
    var all, seen := own.value, set j <- own.value :: j;
    for i := 0 to |paths|
      invariant all == own.value + AsJson(Extras(own.value, paths[..i]))
      invariant forall p :: Str(p) in seen <==> Str(p) in own.value || p in paths[..i]
    {
      assert paths[..i + 1][..i] == paths[..i] && paths[i] !in paths[..i];
      if Str(paths[i]) !in seen {
        all := all + [Str(paths[i])];
        seen := seen + {Str(paths[i])};
      }
    }
    assert paths[..|paths|] == paths;
    caps := Some(merged[SKILLS := Obj(kwargs[PATHS := Arr(all)])]);
  }

  // ---- what the merge means --------------------------------------------------------

  /** Outside `skills`: the preset and the always-on core decide which capabilities run,
      and where both sides configure one, init.json wins key by key. */
  ghost predicate OwnedRight(
    preset: map<string, Json>, init: map<string, Json>, core: set<string>, caps: map<string, Json>, name: string)
  {
    && (name in caps <==> name in preset || (name in core && name in init && init[name].Obj?))
    && (name in caps && name !in preset ==> caps[name] == init[name])
    && (name in preset && !(preset[name].Obj? && name in init && init[name].Obj?) ==> caps[name] == preset[name])
    && (name in preset && preset[name].Obj? && name in init && init[name].Obj? ==>
          && caps[name].Obj? && caps[name].fields.Keys == preset[name].fields.Keys + init[name].fields.Keys
          && forall key <- caps[name].fields ::
               caps[name].fields[key]
               == if key in init[name].fields then init[name].fields[key] else preset[name].fields[key])
  }

  lemma WhoOwnsACapability(preset: map<string, Json>, init: map<string, Json>, core: set<string>,
                           caps: map<string, Json>, name: string)
    requires Capabilities(Some(preset), init, core) == Some(caps) && name != SKILLS
    ensures OwnedRight(preset, init, core, caps, name)
  {
    assert caps - {SKILLS} == Merged(preset, init, core) - {SKILLS} && name in caps.Keys <==> name in caps;
    assert name in caps <==> name in caps - {SKILLS};
  }

  /** init.json lists the skills path `p`. */
  ghost predicate InitLists(init: map<string, Json>, p: string) {
    "skills" in init && init["skills"].Get("paths").Arr? && Str(p) in init["skills"].Get("paths").items
  }

  /** `list` is the Python list of the skills paths `own`: of nothing, of a list, or the
      characters of a string. */
  ghost predicate ListOf(own: Json, list: seq<Json>) {
    || (!Truthy(own) && list == [])
    || own == Arr(list)
    || (own.Str? && |list| == |own.s| && forall k :: 0 <= k < |list| ==> list[k] == Str([own.s[k]]))
  }

  /** Skills paths that cannot be made a list of hashable items. */
  ghost predicate Unusable(own: Json) {
    Truthy(own) && !own.Str? && (own.Arr? ==> exists j <- own.items :: j.Arr? || j.Obj?)
  }

  /** `x` first occurs in `items` before `y` does. */
  ghost predicate Leads(items: seq<Json>, x: Json, y: Json) {
    exists m :: 0 <= m < |items| && items[m] == x && y !in items[..m]
  }

  /** The preset's list as it is, then the paths of init.json not in it, in init.json's order
      and without repeats; nothing else of the preset's skills entry changes. */
  ghost predicate SkillsRight(preset: map<string, Json>, init: map<string, Json>, caps: map<string, Json>) {
    if forall p :: !InitLists(init, p)
    then ("skills" in caps <==> "skills" in preset) && ("skills" in caps ==> caps["skills"] == preset["skills"])
    else
      var kwargs := if "skills" in preset then FieldsOf(preset["skills"]) else map[];
      "skills" in caps && caps["skills"].Obj? && Appended(kwargs, init, caps["skills"].fields)
  }

  ghost predicate Appended(kwargs: map<string, Json>, init: map<string, Json>, after: map<string, Json>) {
    && after - {"paths"} == kwargs - {"paths"}
    && exists list, extras: seq<string> ::
         && ListOf(Obj(kwargs).Get("paths"), list) && Obj(after).Get("paths") == Arr(list + AsJson(extras))
         && NewPaths(list, init, extras)
  }

  ghost predicate NewPaths(list: seq<Json>, init: map<string, Json>, extras: seq<string>) {
    && (forall p :: p in extras <==> InitLists(init, p) && Str(p) !in list)
    && Distinct(extras)
    && ("skills" in init && init["skills"].Get("paths").Arr? ==>
          InOrder(init["skills"].Get("paths").items, extras))
  }

  ghost predicate InOrder(items: seq<Json>, paths: seq<string>) {
    forall i, j :: 0 <= i < j < |paths| ==> Leads(items, Str(paths[i]), Str(paths[j]))
  }

  lemma InOrderGrows(items: seq<Json>, paths: seq<string>, last: string)
    requires InOrder(items, paths) && forall p <- paths :: Leads(items, Str(p), Str(last))
    ensures InOrder(items, paths + [last])
  {
  }

  lemma LeadsInLonger(items: seq<Json>, n: nat, x: Json, y: Json)
    requires n <= |items| && Leads(items[..n], x, y)
    ensures Leads(items, x, y)
  {
    var before := items[..n];
    var m :| 0 <= m < n && before[m] == x && y !in before[..m];
    assert items[m] == x && before[..m] == items[..m];
  }

  lemma {:induction false} StringsInOrder(items: seq<Json>)
    ensures InOrder(items, Strings(items))
  {
    if items != [] {
      var n := |items| - 1;
      var before := Strings(items[..n]);
      StringsInOrder(items[..n]);
      StringsAreDistinct(items[..n]);
      forall i, j | 0 <= i < j < |before| ensures Leads(items, Str(before[i]), Str(before[j])) {
        LeadsInLonger(items, n, Str(before[i]), Str(before[j]));
      }
      if Strings(items) != before {
        forall p | p in before ensures Leads(items, Str(p), items[n]) { LeadsLast(items, p); }
        InOrderGrows(items, before, items[n].s);
      }
    }
  }

  lemma LeadsLast(items: seq<Json>, p: string)
    requires items != [] && Str(p) in items[..|items| - 1] && items[|items| - 1] !in items[..|items| - 1]
    ensures Leads(items, Str(p), items[|items| - 1])
  {
    var n := |items| - 1;
    var m :| 0 <= m < n && items[..n][m] == Str(p);
    assert items[..m] <= items[..n] && items[n] !in items[..m];
  }

  /** Extras keep the order of the paths they are taken from. */
  lemma {:induction false} ExtrasInOrder(own: seq<Json>, paths: seq<string>, items: seq<Json>)
    requires InOrder(items, paths)
    ensures InOrder(items, Extras(own, paths))
  {
    if paths != [] {
      var n := |paths| - 1;
      ExtrasInOrder(own, paths[..n], items);
      ExtrasAreNew(own, paths[..n]);
      var es := Extras(own, paths[..n]);
      if Str(paths[n]) !in own {
        forall p | p in es ensures Leads(items, Str(p), Str(paths[n])) {
          assert p in paths[..n];
          var a :| 0 <= a < n && paths[a] == p;
        }
        InOrderGrows(items, es, paths[n]);
      }
    }
  }

  lemma SkillsPathsAppend(
      preset: map<string, Json>, init: map<string, Json>, core: set<string>, caps: map<string, Json>)
    requires Capabilities(Some(preset), init, core) == Some(caps)
    ensures SkillsRight(preset, init, caps)
  {
    var paths := InitPaths(init);
    InitPathsAreListed(init);
    if paths != [] {
      PathsAppended(if SKILLS in preset then FieldsOf(preset[SKILLS]) else map[], init);
    }
  }

  lemma PathsAppended(kwargs: map<string, Json>, init: map<string, Json>)
    requires OwnPaths(kwargs).Some? && InitPaths(init) != []
    ensures var own := OwnPaths(kwargs).value;
      Appended(kwargs, init, kwargs[PATHS := Arr(own + AsJson(Extras(own, InitPaths(init))))])
  {
    var own := OwnPaths(kwargs).value;
    ExtrasAreRight(own, init);
    assert ListOf(Obj(kwargs).Get(PATHS), own);
  }

  lemma ExtrasAreRight(own: seq<Json>, init: map<string, Json>)
    requires InitPaths(init) != []
    ensures NewPaths(own, init, Extras(own, InitPaths(init)))
  {
    var items := init[SKILLS].Get(PATHS).items;
    StringsAreDistinct(items);
    StringsInOrder(items);
    ExtrasAreNew(own, Strings(items));
    ExtrasInOrder(own, Strings(items), items);
  }

  lemma InitPathsAreListed(init: map<string, Json>)
    ensures forall p :: p in InitPaths(init) <==> InitLists(init, p)
    ensures InitPaths(init) == [] <==> forall p :: !InitLists(init, p)
  {
    if SKILLS in init && init[SKILLS].Get(PATHS).Arr? { StringsAreDistinct(init[SKILLS].Get(PATHS).items); }
    if InitPaths(init) != [] { assert InitLists(init, InitPaths(init)[0]); }
  }

  /** The merge raises exactly when there are paths to append and the preset's cannot take them. */
  lemma RaisesIff(preset: Option<map<string, Json>>, init: map<string, Json>, core: set<string>)
    ensures var own := if preset.Some? then preset.value else init;
      Capabilities(preset, init, core).None? <==>
        (exists p :: InitLists(init, p)) && "skills" in own && Unusable(own["skills"].Get("paths"))
  {
    InitPathsAreListed(init);
  }

  /** The whole substitution, from what the loader answers and init.json holds. */
  ghost predicate Substituted(load: Loader, core: set<string>, before: Json, outcome: Outcome, after: Json) {
    var block := before.Get("preset");
    var active, fallback := block.Get("active"), block.Get("default");
    var ref := if load(active) == KeyError && fallback.Str? && fallback.s != "" && fallback != active
               then fallback else active;
    if !block.Obj? || !Truthy(active) then outcome == Untouched && after == before
    else match load(ref)
         case KeyError => outcome == Missing && after == before
         case ValueError => outcome == Malformed && after == before
         case Preset(llm, capabilities) =>
           && after.Obj? && after.Get("preset") == Obj(block.fields["active" := ref])
           && after.Get("llm") == Obj(llm - {"context_limit"})
           && after.fields - {"preset", "llm", "capabilities"} == before.fields - {"preset", "llm", "capabilities"}
           && CapabilitiesRight(capabilities, FieldsOf(before.Get("capabilities")), core, outcome,
                                before.Get("capabilities"), after.Get("capabilities"))
  }

  /** A preset without a capabilities block leaves init.json's own capabilities as they are. */
  ghost predicate CapabilitiesRight(
    preset: Option<map<string, Json>>, init: map<string, Json>, core: set<string>, outcome: Outcome,
    before: Json, after: Json)
  {
    var own := if preset.Some? then preset.value else init;
    if (exists p :: InitLists(init, p)) && "skills" in own && Unusable(own["skills"].Get("paths"))
    then outcome == TypeError && after == before
    else
      && outcome == Materialised && after.Obj?
      && if preset.None? then after.fields == init
         else
           && (forall name :: name != "skills" ==> OwnedRight(preset.value, init, core, after.fields, name))
           && SkillsRight(preset.value, init, after.fields)
  }

  lemma CapabilitiesAreRight(
      preset: Option<map<string, Json>>, init: map<string, Json>, core: set<string>, before: Json)
    ensures var caps := Capabilities(preset, init, core);
      if caps.None? then CapabilitiesRight(preset, init, core, TypeError, before, before)
      else CapabilitiesRight(preset, init, core, Materialised, before, Obj(caps.value))
  {
    RaisesIff(preset, init, core);
    var caps := Capabilities(preset, init, core);
    if caps.Some? && preset.None? {
      MergedWithItself(init, core);
      OwnPathsAddNothing(init);
    } else if caps.Some? {
      forall name | name != SKILLS ensures OwnedRight(preset.value, init, core, caps.value, name) {
        WhoOwnsACapability(preset.value, init, core, caps.value, name);
      }
      SkillsPathsAppend(preset.value, init, core, caps.value);
    }
  }

  lemma MergedWithItself(init: map<string, Json>, core: set<string>)
    ensures Merged(init, init, core) == init
  {
    assert forall name <- init | init[name].Obj? :: init[name].fields + init[name].fields == init[name].fields;
  }

  /** Nothing but the llm, the capabilities and the active reference can change; the
      reference only when its preset is missing, and then to the default. */
  lemma RestOfManifestStays(load: Loader, core: set<string>, manifest: Json)
    ensures var (outcome, once) := Materialisation(load, core, manifest);
      if !outcome.Materialised? && !outcome.TypeError? then once == manifest
      else
        var before, after := manifest.Get("preset"), once.Get("preset");
        && once.Obj? && manifest.Obj? && before.Obj? && after.Obj?
        && once.fields - {"preset", "llm", "capabilities"} == manifest.fields - {"preset", "llm", "capabilities"}
        && after.fields - {"active"} == before.fields - {"active"} && load(after.Get("active")).Preset?
        && (after.Get("active") != before.Get("active") ==>
              load(before.Get("active")) == KeyError && after.Get("active") == before.Get("default"))
        && once.Get("llm") == Obj(load(after.Get("active")).llm - {"context_limit"})
        && (outcome.TypeError? ==> once.Get("capabilities") == manifest.Get("capabilities"))
  {
    var (outcome, once) := Materialisation(load, core, manifest);
    if outcome.Materialised? || outcome.TypeError? {
      var block := manifest.Get("preset");
      var (ref, loaded) := Chosen(load, block);
      assert once.Get("preset") == Obj(block.fields["active" := ref]);
      assert loaded == load(ref);
    }
  }

  lemma SubstitutionIsRight(load: Loader, core: set<string>, manifest: Json)
    ensures var (outcome, after) := Materialisation(load, core, manifest);
      Substituted(load, core, manifest, outcome, after)
  {
    var (outcome, after) := Materialisation(load, core, manifest);
    var block := manifest.Get("preset");
    if block.Obj? && Truthy(block.Get("active")) && Chosen(load, block).1.Preset? {
      CapabilitiesAreRight(
        Chosen(load, block).1.capabilities, FieldsOf(manifest.Get("capabilities")), core, manifest.Get("capabilities"));
    }
  }

  // ---- twice is once ---------------------------------------------------------------

  /** The merge only looks at init.json outside `skills`, and finds its own result there. */
  lemma MergedTwice(caps: map<string, Json>, init: map<string, Json>, core: set<string>, after: map<string, Json>)
    requires after - {SKILLS} == Merged(caps, init, core) - {SKILLS}
    ensures Merged(caps, after, core) == Merged(caps, init, core)
  {
    var once, twice := Merged(caps, init, core), Merged(caps, after, core);
    forall name
      ensures name in twice <==> name in once
      ensures name in once ==> twice[name] == once[name]
    {
      assert name != SKILLS ==>
        (name in after <==> name in after - {SKILLS}) && (name in once <==> name in once - {SKILLS});
      if name in once && name != SKILLS {
        assert after[name] == (after - {SKILLS})[name] == once[name];
        if name in caps && caps[name].Obj? && name in init && init[name].Obj? {
          var own, over := caps[name].fields, init[name].fields;
          assert own + (own + over) == own + over;
        }
        if name in caps && caps[name].Obj? {
          assert caps[name].fields + caps[name].fields == caps[name].fields;
        }
      }
    }
  }

  /** Appending a list's own paths to it adds nothing, or raises. */
  lemma OwnPathsAddNothing(caps: map<string, Json>)
    ensures var r := WithPaths(caps, InitPaths(caps));
      if InitPaths(caps) != [] && OwnPaths(caps[SKILLS].fields).None? then r == None else r == Some(caps)
  {
    if InitPaths(caps) != [] {
      var kwargs := caps[SKILLS].fields;
      var own := OwnPaths(kwargs);
      if own.Some? {
        StringsAreDistinct(own.value);
        NoExtras(own.value, InitPaths(caps));
        assert own.value + AsJson([]) == own.value;
        assert kwargs[PATHS := Arr(own.value)] == kwargs && caps[SKILLS := Obj(kwargs)] == caps;
      }
    }
  }

  lemma SomethingToRead(own: seq<Json>, paths: seq<string>)
    requires paths != []
    ensures Strings(own + AsJson(Extras(own, paths))) != []
  {
    var p, extras := paths[0], Extras(own, paths);
    assert p in paths;
    ExtrasAreNew(own, paths);
    StringsAreDistinct(own + AsJson(extras));
    if Str(p) !in own {
      var k :| 0 <= k < |extras| && extras[k] == p;
      assert AsJson(extras)[k] == Str(p);
    }
    assert Str(p) in own + AsJson(extras);
  }

  lemma PathsTwice(merged: map<string, Json>, paths: seq<string>)
    requires paths != [] && Distinct(paths) && WithPaths(merged, paths).Some?
    ensures var once := WithPaths(merged, paths).value;
      WithPaths(merged, InitPaths(once)) == Some(once)
  {
    var kwargs := if SKILLS in merged then FieldsOf(merged[SKILLS]) else map[];
    var own := OwnPaths(kwargs).value;
    var extras := Extras(own, paths);
    var once := WithPaths(merged, paths).value;
    assert InitPaths(once) == Strings(own + AsJson(extras));
    SomethingToRead(own, paths);
    ExtrasAreNew(own, paths);
    ExtrasComeBack(own, extras);
  }

  /** The preset's own skills paths hold a string next to a list or an object, and
      init.json has none: only the second run then looks at them, and raises. */
  predicate RaisesNextTime(preset: Option<map<string, Json>>, init: map<string, Json>) {
    && preset.Some? && InitPaths(init) == [] && InitPaths(preset.value) != []
    && OwnPaths(FieldsOf(preset.value[SKILLS])).None?
  }

  lemma MixedPathsRaise(own: map<string, Json>, init: map<string, Json>, items: seq<Json>)
    requires SKILLS in own && own[SKILLS].Obj? && own[SKILLS].Get(PATHS) == Arr(items) && InitPaths(init) == []
    requires |items| == 2 && items[0].Str? && items[1].Arr?
    ensures RaisesNextTime(Some(own), init)
  {
    StringsAreDistinct(items);
    assert items[0].s in Strings(items) && items[1] in items;
  }

  /** Such a preset: the first run succeeds, the second raises. */
  lemma RepeatCanRaise(load: Loader, manifest: Json)
    requires var items := [Str("a"), Arr([])];
      && load(Str("p.json")) == Preset(
        map["provider" := Str("x"), "model" := Str("y")], Some(map[SKILLS := Obj(map[PATHS := Arr(items)])]))
      && manifest == Obj(map["preset" := Obj(map["active" := Str("p.json")])])
    ensures var (outcome, once) := Materialisation(load, {}, manifest);
      outcome == Materialised && Materialisation(load, {}, once).0 == TypeError
  {
    var block := manifest.Get("preset");
    var own := load(Str("p.json")).capabilities.value;
    var init: map<string, Json> := map[];
    assert Chosen(load, block) == (Str("p.json"), load(Str("p.json")));
    assert FieldsOf(manifest.Get("capabilities")) == init && InitPaths(init) == [];
    MixedPathsRaise(own, init, own[SKILLS].Get(PATHS).items);
    assert Capabilities(Some(own), init, {}) == Some(Merged(own, init, {}));
    CapabilitiesTwice(Some(own), init, {}, Merged(own, init, {}));
    var once := Materialisation(load, {}, manifest).1;
    assert Chosen(load, once.Get("preset")) == (Str("p.json"), load(Str("p.json")));
    assert once.Get("capabilities") == Obj(Merged(own, init, {}));
  }

  lemma CapabilitiesTwice(
      preset: Option<map<string, Json>>, init: map<string, Json>, core: set<string>, caps: map<string, Json>)
    requires Capabilities(preset, init, core) == Some(caps)
    ensures Capabilities(preset, caps, core) == if RaisesNextTime(preset, init) then None else Some(caps)
  {
    if preset.None? {
      MergedTwice(init, init, core, Merged(init, init, core));
      MergedWithItself(init, core);
      OwnPathsAddNothing(init);
    } else {
      var merged, paths := Merged(preset.value, init, core), InitPaths(init);
      assert caps - {SKILLS} == merged - {SKILLS};
      MergedTwice(preset.value, init, core, caps);
      if paths != [] {
        StringsAreDistinct(init[SKILLS].Get(PATHS).items);
        PathsTwice(merged, paths);
      } else {
        OwnPathsAddNothing(merged);
      }
    }
  }

  /** Materialising again changes nothing, whatever the first run came to, except that it
      may raise on a preset's malformed skills paths. */
  lemma TwiceIsOnce(load: Loader, core: set<string>, manifest: Json)
    ensures var (outcome, once) := Materialisation(load, core, manifest);
      Materialisation(load, core, once) == (outcome, once) <==>
        !(outcome == Materialised
          && RaisesNextTime(
               Chosen(load, manifest.Get("preset")).1.capabilities, FieldsOf(manifest.Get("capabilities"))))
  {
    var (outcome, once) := Materialisation(load, core, manifest);
    if outcome == Materialised || outcome == TypeError {
      var block := manifest.Get("preset");
      var (ref, loaded) := Chosen(load, block);
      var again := once.Get("preset");
      assert again == Obj(block.fields["active" := ref]);
      assert Chosen(load, again) == (ref, loaded);
      assert again.fields["active" := ref] == again.fields;
      assert once.Get("llm") == Obj(loaded.llm - {"context_limit"});
      if outcome == Materialised {
        var caps := once.Get("capabilities").fields;
        CapabilitiesTwice(loaded.capabilities, FieldsOf(manifest.Get("capabilities")), core, caps);
        assert once.fields["preset" := again]["llm" := once.Get("llm")]["capabilities" := Obj(caps)] == once.fields;
      } else {
        assert once.Get("capabilities") == manifest.Get("capabilities");
        assert once.fields["preset" := again]["llm" := once.Get("llm")] == once.fields;
      }
    }
  }
}
