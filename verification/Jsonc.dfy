/** The two text passes that turn JSONC into JSON: dropping `//` comments and dropping
    trailing commas (src/lingtai/kernel/config_resolve.py). */
module Jsonc {

  /** Where a scan of JSON text is: between strings, in one (RFC 8259, section 7), right
      after a backslash in one, or in a comment. */
  datatype Mode = Plain | Quoted | Escaped | Comment

  function Step(m: Mode, c: char): Mode {
    match m
    case Plain => if c == '"' then Quoted else Plain
    case Quoted => if c == '\\' then Escaped else if c == '"' then Plain else Quoted
    case Escaped => Quoted
    case Comment => if c == '\n' then Plain else Comment
  }

  /** The mode before character `i` of text without comments. */
  function ModeAt(text: string, i: nat): Mode
    requires i <= |text|
  {
    if i == 0 then Plain else Step(ModeAt(text, i - 1), text[i - 1])
  }

  /** Backslashes in a row right before character `i`, none of them before `from`. */
  function BackslashRun(text: string, from: nat, i: nat): nat
    requires i <= |text|
  {
    if i > from && text[i - 1] == '\\' then 1 + BackslashRun(text, from, i - 1) else 0
  }

  /** After a quote that opens a string, the string goes on up to the first quote with an even
      number of backslashes right before it. */
  lemma {:induction false} StringGoesOn(text: string, open: nat, i: nat)
    requires open < i <= |text| && ModeAt(text, open) == Plain && text[open] == '"'
    requires forall k :: open < k < i && text[k] == '"' ==> BackslashRun(text, open + 1, k) % 2 == 1
    ensures ModeAt(text, i) == if BackslashRun(text, open + 1, i) % 2 == 1 then Escaped else Quoted
  {
    if i > open + 1 { StringGoesOn(text, open, i - 1); }
  }

  /** ... and ends there: what follows is outside, as is whatever follows a character outside
      that is no quote. */
  lemma WhereStringsEnd(text: string, open: nat, i: nat)
    requires open <= i < |text| && ModeAt(text, open) == Plain && text[open] == '"'
    requires forall k :: open < k < i && text[k] == '"' ==> BackslashRun(text, open + 1, k) % 2 == 1
    ensures ModeAt(text, i + 1) == Plain <==>
      i > open && text[i] == '"' && BackslashRun(text, open + 1, i) % 2 == 0
    ensures forall j :: 0 <= j < |text| && ModeAt(text, j) == Plain && text[j] != '"' ==> ModeAt(text, j + 1) == Plain
  {
    if i > open { StringGoesOn(text, open, i); }
  }

  /** Every string literal closes. */
  predicate Closed(text: string) { ModeAt(text, |text|) == Plain }

  // ---- comments --------------------------------------------------------------------

  predicate StartsComment(m: Mode, text: string) {
    m == Plain && |text| >= 2 && text[0] == '/' && text[1] == '/'
  }

  /** The text without its comments, from mode `m` on. */
  function Uncommented(m: Mode, text: string): string
    decreases |text|
  {
    if |text| == 0 then ""
    else if m == Comment && text[0] != '\n' then Uncommented(Comment, text[1..])
    else if StartsComment(m, text) then Uncommented(Comment, text[2..])
    else [text[0]] + Uncommented(Step(m, text[0]), text[1..])
  }

  /** The loop of the pass before character `i`. */
  ghost predicate Stripped(text: string, out: string, m: Mode, i: nat) {
    i <= |text| && out + Uncommented(m, text[i..]) == Uncommented(Plain, text)
  }

  lemma StripStep(text: string, out: string, m: Mode, i: nat)
    requires Stripped(text, out, m, i) && i < |text|
    ensures m == Comment && text[i] != '\n' ==> Stripped(text, out, Comment, i + 1)
    ensures StartsComment(m, text[i..]) ==> Stripped(text, out, Comment, i + 2)
    ensures !(m == Comment && text[i] != '\n') && !StartsComment(m, text[i..]) ==>
      Stripped(text, out + [text[i]], Step(m, text[i]), i + 1)
  {
    var rest := text[i..];
    assert rest[1..] == text[i + 1..] && (|rest| >= 2 ==> rest[2..] == text[i + 2..]);
  }

  method StripComments(text: string) returns (out: string)
    ensures out == Uncommented(Plain, text)
  {
    out := "";
    var inString, escaped, inComment, i := false, false, false, 0;
    assert Stripped(text, out, Plain, 0) by { assert text[0..] == text; }
    while i < |text|
      invariant Stripped(text, out, ModeOf(inString, escaped, inComment), i)
      invariant !(inComment && inString) && (escaped ==> inString)
    {
      var ch := text[i];
      StripStep(text, out, ModeOf(inString, escaped, inComment), i);
      if inComment {
        if ch == '\n' {
          inComment := false;
          out := out + [ch];
        }
        i := i + 1;
      } else if inString {
        out := out + [ch];
        if escaped {
          escaped := false;
        } else if ch == '\\' {
          escaped := true;
        } else if ch == '"' {
          inString := false;
        }
        i := i + 1;
      } else if ch == '"' {
        inString := true;
        out := out + [ch];
        i := i + 1;
      } else if ch == '/' && i + 1 < |text| && text[i + 1] == '/' {
        inComment := true;
        i := i + 2;
      } else {
        out := out + [ch];
        i := i + 1;
      }
    }
    assert text[i..] == "";
  }

  function ModeOf(inString: bool, escaped: bool, inComment: bool): Mode {
    if inComment then Comment else if !inString then Plain else if escaped then Escaped else Quoted
  }

  /** The text cut at its newlines. */
  function Lines(text: string): (r: seq<string>)
    ensures r != []
  {
    if |text| == 0 then [""]
    else
      var rest := Lines(text[1..]);
      if text[0] == '\n' then [""] + rest else [[text[0]] + rest[0]] + rest[1..]
  }

  /** `kept` is the whole line, or what stands before a `//` in it. */
  predicate CutAtComment(kept: string, line: string) { kept == line || kept + "//" <= line }

  ghost predicate LineByLine(m: Mode, kept: seq<string>, lines: seq<string>)
    requires kept != [] && lines != []
  {
    && |kept| == |lines|
    && (if m == Comment then kept[0] == "" else CutAtComment(kept[0], lines[0]))
    && forall k :: 1 <= k < |kept| ==> CutAtComment(kept[k], lines[k])
  }

  function OnFirst(c: char, lines: seq<string>): seq<string>
    requires lines != []
  {
    [[c] + lines[0]] + lines[1..]
  }

  lemma CopiedCharacter(m: Mode, m': Mode, c: char, kept: seq<string>, lines: seq<string>)
    requires kept != [] && lines != [] && m != Comment && m' != Comment && LineByLine(m', kept, lines)
    ensures LineByLine(m, OnFirst(c, kept), OnFirst(c, lines))
  {
    assert kept[0] + "//" <= lines[0] ==> ([c] + kept[0]) + "//" <= [c] + lines[0] by {
      assert ([c] + kept[0]) + "//" == [c] + (kept[0] + "//");
    }
  }

  lemma DroppedComment(kept: seq<string>, lines: seq<string>)
    requires kept != [] && lines != [] && LineByLine(Comment, kept, lines)
    ensures LineByLine(Plain, kept, OnFirst('/', OnFirst('/', lines)))
  {
    assert "" + "//" <= ['/'] + (['/'] + lines[0]);
  }

  /** Every line stays where it was, whole or cut at a `//`, so what is left keeps its line
      number and its column. */
  lemma {:induction false} LinesStayInPlace(m: Mode, text: string)
    ensures LineByLine(m, Lines(Uncommented(m, text)), Lines(text))
    decreases |text|
  {
    if |text| > 0 {
      var c, rest := text[0], text[1..];
      if m == Comment && c != '\n' {
        LinesStayInPlace(Comment, rest);
      } else if StartsComment(m, text) {
        LinesStayInPlace(Comment, text[2..]);
        assert rest[1..] == text[2..];
        DroppedComment(Lines(Uncommented(Comment, text[2..])), Lines(text[2..]));
      } else {
        LinesStayInPlace(Step(m, c), rest);
        var out := Uncommented(m, text);
        assert out[1..] == Uncommented(Step(m, c), rest);
        if c != '\n' { CopiedCharacter(m, Step(m, c), c, Lines(out[1..]), Lines(rest)); }
      }
    }
  }

  /** The characters of string literals, quotes included; a scan aware of comments. */
  function StringText(m: Mode, text: string): string
    decreases |text|
  {
    if |text| == 0 then ""
    else if StartsComment(m, text) then StringText(Comment, text[2..])
    else
      var rest := StringText(Step(m, text[0]), text[1..]);
      if m in {Quoted, Escaped} || Step(m, text[0]) == Quoted then [text[0]] + rest else rest
  }

  function AfterComment(m: Mode): Mode { if m == Comment then Plain else m }

  /** What a comment leaves behind starts at its newline, or is nothing. */
  lemma {:induction false} CommentLeavesNewline(text: string)
    ensures var out := Uncommented(Comment, text); |out| == 0 || out[0] == '\n'
  {
    if |text| > 0 && text[0] != '\n' { CommentLeavesNewline(text[1..]); }
  }

  /** Dropping comments exposes no new one. */
  lemma NoNewComment(m: Mode, text: string)
    requires |text| > 0 && m != Comment && !StartsComment(m, text)
    ensures !StartsComment(m, Uncommented(m, text))
  {
    var rest := text[1..];
    if m == Plain && text[0] == '/' && |rest| > 0 {
      var out := Uncommented(m, text);
      assert out[1..] == Uncommented(Plain, rest);
      assert rest[0] != '/';
    }
  }

  /** String literals survive byte for byte, in order. */
  lemma {:induction false} StringsSurviveComments(m: Mode, text: string)
    ensures StringText(AfterComment(m), Uncommented(m, text)) == StringText(m, text)
    decreases |text|
  {
    if |text| > 0 {
      if m == Comment && text[0] != '\n' {
        StringsSurviveComments(Comment, text[1..]);
      } else if StartsComment(m, text) {
        StringsSurviveComments(Comment, text[2..]);
      } else {
        StringsSurviveComments(Step(m, text[0]), text[1..]);
        var out := Uncommented(m, text);
        assert out[1..] == Uncommented(Step(m, text[0]), text[1..]);
        if m != Comment { NoNewComment(m, text); }
      }
    }
  }

  lemma {:induction false} StripTwice(m: Mode, text: string)
    ensures Uncommented(AfterComment(m), Uncommented(m, text)) == Uncommented(m, text)
    decreases |text|
  {
    if |text| > 0 {
      if m == Comment && text[0] != '\n' {
        StripTwice(Comment, text[1..]);
      } else if StartsComment(m, text) {
        StripTwice(Comment, text[2..]);
      } else {
        StripTwice(Step(m, text[0]), text[1..]);
        var out := Uncommented(m, text);
        assert out[1..] == Uncommented(Step(m, text[0]), text[1..]);
        if m != Comment { NoNewComment(m, text); }
      }
    }
  }

  /** A `//` outside strings starts at `i`. */
  predicate CommentAt(text: string, i: nat)
    requires i <= |text|
  {
    StartsComment(ModeAt(text, i), text[i..])
  }

  lemma {:induction false} UncommentedShrinks(m: Mode, text: string)
    ensures |Uncommented(m, text)| <= |text|
    ensures m != Comment && Uncommented(m, text) != text ==> |Uncommented(m, text)| < |text|
    decreases |text|
  {
    if |text| > 0 {
      if m == Comment && text[0] != '\n' {
        UncommentedShrinks(Comment, text[1..]);
      } else if StartsComment(m, text) {
        UncommentedShrinks(Comment, text[2..]);
      } else {
        UncommentedShrinks(Step(m, text[0]), text[1..]);
        assert text == [text[0]] + text[1..];
      }
    }
  }

  lemma {:induction false} ModeIsNoComment(text: string, i: nat)
    requires i <= |text|
    ensures ModeAt(text, i) != Comment
  {
    if i > 0 { ModeIsNoComment(text, i - 1); }
  }

  lemma {:induction false} UnchangedFrom(text: string, i: nat)
    requires i <= |text|
    ensures Uncommented(ModeAt(text, i), text[i..]) == text[i..]
      <==> forall j :: i <= j <= |text| ==> !CommentAt(text, j)
    decreases |text| - i
  {
    var m, rest := ModeAt(text, i), text[i..];
    ModeIsNoComment(text, i);
    if i < |text| {
      UnchangedFrom(text, i + 1);
      assert rest[1..] == text[i + 1..];
      if CommentAt(text, i) {
        UncommentedShrinks(Comment, rest[2..]);
      } else {
        assert rest == [rest[0]] + rest[1..];
      }
    } else {
      assert !CommentAt(text, i);
    }
  }

  /** The pass leaves a text alone exactly when no `//` stands outside its strings. */
  lemma UnchangedIffNoComment(text: string)
    ensures Uncommented(Plain, text) == text <==> forall i :: 0 <= i <= |text| ==> !CommentAt(text, i)
  {
    UnchangedFrom(text, 0);
    assert text[0..] == text;
  }

  /** On every text, closed strings or not: a second pass changes nothing, so no `//`
      outside strings is left. */
  lemma CommentsAreGone(text: string)
    ensures var out := Uncommented(Plain, text);
      Uncommented(Plain, out) == out && forall i :: 0 <= i <= |out| ==> !CommentAt(out, i)
  {
    StripTwice(Plain, text);
    UnchangedIffNoComment(Uncommented(Plain, text));
  }

  // ---- trailing commas -------------------------------------------------------------

  /** `\s` of a Python text pattern. */
  predicate IsSpace(c: char) {
    || c in " \t\n\r"
    || c in {'\U{0B}', '\U{0C}', '\U{1C}', '\U{1D}', '\U{1E}', '\U{1F}', '\U{85}', '\U{A0}', '\U{1680}'}
    || '\U{2000}' <= c <= '\U{200A}'
    || c in {'\U{2028}', '\U{2029}', '\U{202F}', '\U{205F}', '\U{3000}'}
  }

  predicate IsCloser(c: char) { c == '}' || c == ']' }

  /** The white space and the closing brackets by code point. */
  lemma WhatSpaceIs(c: char)
    ensures IsCloser(c) <==> c as int == 93 || c as int == 125
    ensures IsSpace(c) <==>
      var x := c as int;
      || 9 <= x <= 13 || 28 <= x <= 32 || x == 133 || x == 160 || x == 5760
      || 8192 <= x <= 8202 || x == 8232 || x == 8233 || x == 8239 || x == 8287 || x == 12288
  {
    assert " \t\n\r"[0] == ' ' && " \t\n\r"[1] == '\t' && " \t\n\r"[2] == '\n' && " \t\n\r"[3] == '\r';
  }

  function SkipSpace(text: string): (r: string)
    ensures |r| <= |text|
  {
    if |text| > 0 && IsSpace(text[0]) then SkipSpace(text[1..]) else text
  }

  /** `,\s*[}\]]` matches at the start of the text. */
  predicate Matches(text: string) {
    && |text| > 0 && text[0] == ','
    && var rest := SkipSpace(text[1..]); |rest| > 0 && IsCloser(rest[0])
  }

  /** `re.sub(r',\s*([}\]])', r'\1', text)`. */
  function Substituted(text: string): string
    decreases |text|
  {
    if |text| == 0 then ""
    else if Matches(text) then
      var rest := SkipSpace(text[1..]);
      [rest[0]] + Substituted(rest[1..])
    else [text[0]] + Substituted(text[1..])
  }

  /** The substitution outside strings, everything in them verbatim. */
  function Trimmed(m: Mode, text: string): string
    decreases |text|
  {
    if |text| == 0 then ""
    else if m == Plain && Matches(text) then Trimmed(Plain, SkipSpace(text[1..]))
    else [text[0]] + Trimmed(Step(m, text[0]), text[1..])
  }

  /** Where the last literal before `i` closed. */
  function GapStart(text: string, i: nat): (g: nat)
    requires i <= |text|
    ensures g <= i
  {
    if i == 0 || (ModeAt(text, i - 1) == Quoted && ModeAt(text, i) == Plain) then i else GapStart(text, i - 1)
  }

  /** The state of the pass before character `i`: everything up to `pos` is out, and inside
      a string everything up to `i`. */
  ghost predicate Copied(text: string, out: string, pos: nat, i: nat) {
    && pos <= i <= |text|
    && if ModeAt(text, i) == Plain
       then '"' !in text[pos..i] && out + Trimmed(Plain, text[pos..]) == Trimmed(Plain, text)
       else out + Trimmed(ModeAt(text, i), text[i..]) == Trimmed(Plain, text)
  }

  lemma StepInString(text: string, out: string, pos: nat, i: nat)
    requires i < |text| && Copied(text, out, pos, i) && ModeAt(text, i) in {Quoted, Escaped}
    ensures Copied(text, out + [text[i]], if ModeAt(text, i + 1) == Plain then i + 1 else pos, i + 1)
  {
    assert text[i..][1..] == text[i + 1..];
    assert out + [text[i]] + Trimmed(ModeAt(text, i + 1), text[i + 1..]) == Trimmed(Plain, text);
  }

  lemma GapStartStep(text: string, i: nat)
    requires i < |text|
    ensures ModeAt(text, i + 1) == Step(ModeAt(text, i), text[i])
    ensures GapStart(text, i + 1) == if ModeAt(text, i) == Quoted && text[i] == '"' then i + 1 else GapStart(text, i)
  {
  }

  lemma StepAtQuote(text: string, out: string, pos: nat, i: nat)
    requires i < |text| && Copied(text, out, pos, i) && ModeAt(text, i) == Plain && text[i] == '"'
    ensures Copied(text, out + Substituted(text[pos..i]) + [text[i]], pos, i + 1)
  {
    CutAtQuote(text, pos, i);
    GapThenQuote(out, text[pos..], text[pos..i], text[i + 1..], Trimmed(Plain, text));
  }

  lemma CutAtQuote(text: string, pos: nat, i: nat)
    requires pos <= i < |text| && ModeAt(text, i) == Plain && text[i] == '"'
    ensures ModeAt(text, i + 1) == Quoted && text[pos..] == text[pos..i] + (['"'] + text[i + 1..])
  {
  }

  lemma GapThenQuote(out: string, whole: string, gap: string, rest: string, goal: string)
    requires '"' !in gap && whole == gap + (['"'] + rest) && out + Trimmed(Plain, whole) == goal
    ensures out + Substituted(gap) + ['"'] + Trimmed(Quoted, rest) == goal
  {
    GapThenString(gap, ['"'] + rest);
    assert (['"'] + rest)[1..] == rest;
    Regroup(out, Substituted(gap), ['"'], Trimmed(Quoted, rest));
  }

  lemma Regroup(a: string, b: string, c: string, d: string)
    ensures a + (b + (c + d)) == a + b + c + d
  {
  }

  lemma StepInGap(text: string, out: string, pos: nat, i: nat)
    requires i < |text| && Copied(text, out, pos, i) && ModeAt(text, i) == Plain && text[i] != '"'
    ensures Copied(text, out, pos, i + 1)
  {
    assert text[pos..i + 1] == text[pos..i] + [text[i]];
  }

  /** What the comma pass returns.  When a literal never closes, `pos` still points before it
      and the text from there is appended once more. */
  function CommaPass(text: string): string {
    if Closed(text) then Trimmed(Plain, text) else Trimmed(Plain, text) + Substituted(text[GapStart(text, |text|)..])
  }

  method StripTrailingCommas(text: string) returns (out: string)
    ensures out == CommaPass(text)
  {
    out := "";
    var pos, inString, escaped, i := 0, false, false, 0;
    assert Copied(text, out, pos, i) by { assert text[0..] == text; }
    while i < |text|
      invariant Copied(text, out, pos, i) && pos == GapStart(text, i)
      invariant ModeAt(text, i) == ModeOf(inString, escaped, false) && (escaped ==> inString)
    {
      var ch := text[i];
      GapStartStep(text, i);
      if inString {
        StepInString(text, out, pos, i);
        out := out + [ch];
        if escaped {
          escaped := false;
        } else if ch == '\\' {
          escaped := true;
        } else if ch == '"' {
          inString := false;
          pos := i + 1;
        }
        i := i + 1;
      } else if ch == '"' {
        StepAtQuote(text, out, pos, i);
        out := out + Substituted(text[pos..i]);
        out := out + [ch];
        inString := true;
        i := i + 1;
      } else {
        StepInGap(text, out, pos, i);
        i := i + 1;
      }
    }
    CopiedToEnd(text, out, pos);
    out := out + Substituted(text[pos..]);
  }

  lemma LastGap(text: string, out: string, pos: nat)
    requires Copied(text, out, pos, |text|) && Closed(text)
    ensures out + Substituted(text[pos..]) == Trimmed(Plain, text)
  {
    var gap := text[pos..];
    assert '"' !in gap by { assert text[pos..|text|] == gap; }
    GapThenString(gap, "");
    assert gap + "" == gap && Trimmed(Plain, "") == "";
    assert Substituted(gap) + "" == Substituted(gap);
  }

  lemma CopiedToEnd(text: string, out: string, pos: nat)
    requires Copied(text, out, pos, |text|) && pos == GapStart(text, |text|)
    ensures out + Substituted(text[pos..]) == CommaPass(text)
  {
    if Closed(text) {
      LastGap(text, out, pos);
    } else {
      assert text[|text|..] == "" && out + "" == out;
    }
  }

  lemma {:induction false} SkippedIsSuffix(text: string)
    ensures var r := SkipSpace(text); text[|text| - |r|..] == r && forall c <- text[..|text| - |r|] :: IsSpace(c)
  {
    if |text| > 0 && IsSpace(text[0]) { SkippedIsSuffix(text[1..]); }
  }

  /** Looking for a closer never reaches past the quote that ends the gap. */
  lemma {:induction false} SkipStopsAtQuote(gap: string, tail: string)
    requires |tail| == 0 || tail[0] == '"'
    ensures SkipSpace(gap + tail) == SkipSpace(gap) + tail
  {
    if |gap| == 0 {
      assert gap + tail == tail;
    } else if IsSpace(gap[0]) {
      assert (gap + tail)[1..] == gap[1..] + tail;
      SkipStopsAtQuote(gap[1..], tail);
    }
  }

  lemma MatchStopsAtQuote(gap: string, tail: string)
    requires |gap| > 0 && (|tail| == 0 || tail[0] == '"')
    ensures Matches(gap + tail) == Matches(gap) && SkipSpace((gap + tail)[1..]) == SkipSpace(gap[1..]) + tail
  {
    assert (gap + tail)[1..] == gap[1..] + tail;
    SkipStopsAtQuote(gap[1..], tail);
  }

  /** After a match the scan goes on behind the closer, which starts no match itself. */
  lemma SubstitutedPast(gap: string)
    requires |gap| > 0
    ensures Substituted(gap) == if Matches(gap) then Substituted(SkipSpace(gap[1..]))
                                else [gap[0]] + Substituted(gap[1..])
  {
    if Matches(gap) {
      var rest := SkipSpace(gap[1..]);
      assert !Matches(rest);
    }
  }

  /** A gap can be substituted on its own. */
  lemma {:induction false} GapThenString(gap: string, tail: string)
    requires '"' !in gap && (|tail| == 0 || tail[0] == '"')
    ensures Trimmed(Plain, gap + tail) == Substituted(gap) + Trimmed(Plain, tail)
    decreases |gap|
  {
    if |gap| == 0 {
      assert gap + tail == tail;
    } else {
      MatchStopsAtQuote(gap, tail);
      SubstitutedPast(gap);
      assert (gap + tail)[1..] == gap[1..] + tail;
      var rest := if Matches(gap) then SkipSpace(gap[1..]) else gap[1..];
      assert forall c <- rest :: c in gap by { SkippedIsSuffix(gap[1..]); }
      GapThenString(rest, tail);
    }
  }

  /** Outside strings: a comma at `j`, whitespace, and a closer at `k`. */
  predicate TrailingComma(text: string, j: int, k: int) {
    && 0 <= j < k < |text| && ModeAt(text, j) == Plain && text[j] == ',' && IsCloser(text[k])
    && forall x :: j < x < k ==> IsSpace(text[x])
  }

  ghost predicate Dropped(text: string, i: nat) {
    exists j, k :: j <= i < k && TrailingComma(text, j, k)
  }

  /** The characters from `i` on that are not dropped. */
  ghost function KeptFrom(text: string, i: nat): string
    requires i <= |text|
    decreases |text| - i
  {
    if i == |text| then ""
    else if Dropped(text, i) then KeptFrom(text, i + 1)
    else [text[i]] + KeptFrom(text, i + 1)
  }

  lemma {:induction false} SkipsTo(text: string, i: nat, k: nat)
    requires i <= k < |text| && !IsSpace(text[k]) && forall x :: i <= x < k ==> IsSpace(text[x])
    ensures SkipSpace(text[i..]) == text[k..]
    decreases k - i
  {
    if i < k {
      assert text[i..][1..] == text[i + 1..];
      SkipsTo(text, i + 1, k);
    }
  }

  /** The pattern matches at a trailing comma ... */
  lemma TrailingCommaMatches(text: string, i: nat, k: nat)
    requires TrailingComma(text, i, k)
    ensures Matches(text[i..])
  {
    assert text[i..][1..] == text[i + 1..];
    SkipsTo(text, i + 1, k);
  }

  /** ... and nowhere else outside strings. */
  lemma MatchIsTrailingComma(text: string, i: nat) returns (k: nat)
    requires i < |text| && ModeAt(text, i) == Plain && Matches(text[i..])
    ensures TrailingComma(text, i, k) && text[k..] == SkipSpace(text[i..][1..])
  {
    var rest := text[i + 1..];
    assert text[i..][1..] == rest;
    var n := |rest| - |SkipSpace(rest)|;
    k := i + 1 + n;
    SkippedIsSuffix(rest);
    assert text[k..] == rest[n..];
    assert forall x :: i < x < k ==> text[x] == rest[..n][x - i - 1];
  }

  lemma {:induction false} PlainOverSpaces(text: string, j: nat, k: nat)
    requires TrailingComma(text, j, k)
    ensures ModeAt(text, k) == Plain
  {
    var x := j + 1;
    while x < k
      invariant j < x <= k && ModeAt(text, x) == Plain
    {
      x := x + 1;
    }
  }

  lemma {:induction false} KeptSkipsDropped(text: string, i: nat, k: nat)
    requires i <= k <= |text| && forall x :: i <= x < k ==> Dropped(text, x)
    ensures KeptFrom(text, i) == KeptFrom(text, k)
    decreases k - i
  {
    if i < k {
      assert Dropped(text, i);
      KeptSkipsDropped(text, i + 1, k);
    }
  }

  /** No trailing comma's run spans position `i`. */
  ghost predicate Fresh(text: string, i: nat) {
    forall j, k | TrailingComma(text, j, k) :: !(j < i < k)
  }

  lemma FreshAfterMatch(text: string, i: nat, k: nat)
    requires Fresh(text, i) && TrailingComma(text, i, k)
    ensures Fresh(text, k)
  {
  }

  lemma FreshAfterNoMatch(text: string, i: nat)
    requires i < |text| && Fresh(text, i) && !(ModeAt(text, i) == Plain && Matches(text[i..]))
    ensures !Dropped(text, i) && Fresh(text, i + 1)
  {
    forall j, k | TrailingComma(text, j, k) ensures j != i {
      if j == i { TrailingCommaMatches(text, i, k); }
    }
  }

  lemma {:induction false} TrimmedFrom(text: string, i: nat)
    requires i <= |text| && Fresh(text, i)
    ensures Trimmed(ModeAt(text, i), text[i..]) == KeptFrom(text, i)
    decreases |text| - i
  {
    if i < |text| {
      var m, rest := ModeAt(text, i), text[i..];
      if m == Plain && Matches(rest) {
        var k := MatchIsTrailingComma(text, i);
        PlainOverSpaces(text, i, k);
        assert forall x :: i <= x < k ==> Dropped(text, x);
        KeptSkipsDropped(text, i, k);
        FreshAfterMatch(text, i, k);
        TrimmedFrom(text, k);
      } else {
        FreshAfterNoMatch(text, i);
        TrimmedFrom(text, i + 1);
        assert rest[1..] == text[i + 1..];
      }
    }
  }

  /** The pass drops exactly the commas, with the whitespace after them, that stand right
      before a closer outside strings, and nothing else. */
  lemma OnlyTrailingCommasGo(text: string)
    ensures Trimmed(Plain, text) == KeptFrom(text, 0)
  {
    assert text[0..] == text;
    TrimmedFrom(text, 0);
  }

  lemma {:induction false} SpacesHoldNoString(text: string)
    ensures StringText(Plain, text) == StringText(Plain, SkipSpace(text))
  {
    if |text| > 0 && IsSpace(text[0]) {
      assert !("//" <= text);
      SpacesHoldNoString(text[1..]);
    }
  }

  /** What the substitution copies out of a gap starts as the gap did, or with a closer. */
  lemma TrimmedStarts(m: Mode, text: string)
    ensures var out := Trimmed(m, text);
      if m == Plain && Matches(text) then |out| > 0 && IsCloser(out[0])
      else if |text| == 0 then |out| == 0
      else |out| > 0 && out[0] == text[0] && out[1..] == Trimmed(Step(m, text[0]), text[1..])
  {
  }

  /** String literals survive byte for byte, in order, on a text free of comments. */
  lemma {:induction false} StringsSurviveTrimming(m: Mode, text: string)
    requires m != Comment && Uncommented(m, text) == text
    ensures StringText(m, Trimmed(m, text)) == StringText(m, text)
    ensures Uncommented(m, Trimmed(m, text)) == Trimmed(m, text)
    decreases |text|
  {
    if |text| > 0 {
      NoCommentInFront(m, text);
      if m == Plain && Matches(text) {
        NoCommentAfterSpace(text[1..]);
        StringsSurviveTrimming(Plain, SkipSpace(text[1..]));
        SpacesHoldNoString(text[1..]);
      } else {
        TrimmedStarts(m, text);
        TrimmedStarts(Step(m, text[0]), text[1..]);
        StringsSurviveTrimming(Step(m, text[0]), text[1..]);
        var out := Trimmed(m, text);
      }
    }
  }

  lemma NoCommentInFront(m: Mode, text: string)
    requires |text| > 0 && m != Comment && Uncommented(m, text) == text
    ensures !StartsComment(m, text) && Uncommented(Step(m, text[0]), text[1..]) == text[1..]
  {
    if StartsComment(m, text) {
      UncommentedShrinks(Comment, text[2..]);
    } else {
      assert text == [text[0]] + Uncommented(Step(m, text[0]), text[1..]);
    }
  }

  lemma {:induction false} NoCommentAfterSpace(text: string)
    requires Uncommented(Plain, text) == text
    ensures Uncommented(Plain, SkipSpace(text)) == SkipSpace(text)
  {
    if |text| > 0 && IsSpace(text[0]) {
      NoCommentInFront(Plain, text);
      NoCommentAfterSpace(text[1..]);
    }
  }

  lemma {:induction false} TrimmedShrinks(m: Mode, text: string)
    ensures |Trimmed(m, text)| <= |text| && (Trimmed(m, text) != text ==> |Trimmed(m, text)| < |text|)
    decreases |text|
  {
    if |text| > 0 {
      if m == Plain && Matches(text) {
        TrimmedShrinks(Plain, SkipSpace(text[1..]));
      } else {
        TrimmedShrinks(Step(m, text[0]), text[1..]);
        assert text == [text[0]] + text[1..];
      }
    }
  }

  /** Somewhere outside strings the pattern matches. */
  predicate HasTrailingComma(m: Mode, text: string)
    decreases |text|
  {
    |text| > 0 && ((m == Plain && Matches(text)) || HasTrailingComma(Step(m, text[0]), text[1..]))
  }

  lemma {:induction false} UntrimmedIff(m: Mode, text: string)
    ensures Trimmed(m, text) == text <==> !HasTrailingComma(m, text)
    decreases |text|
  {
    if |text| > 0 {
      if m == Plain && Matches(text) {
        TrimmedShrinks(Plain, SkipSpace(text[1..]));
      } else {
        UntrimmedIff(Step(m, text[0]), text[1..]);
        assert text == [text[0]] + text[1..];
      }
    }
  }

  /** Two commas before a closer, outside strings: `,\s*,\s*[}\]]`. */
  predicate HasDoubleComma(m: Mode, text: string)
    decreases |text|
  {
    && |text| > 0
    && ((m == Plain && text[0] == ',' && Matches(SkipSpace(text[1..]))) || HasDoubleComma(Step(m, text[0]), text[1..]))
  }

  lemma {:induction false} SpacesHoldNoComma(text: string)
    ensures HasDoubleComma(Plain, text) == HasDoubleComma(Plain, SkipSpace(text))
  {
    if |text| > 0 && IsSpace(text[0]) { SpacesHoldNoComma(text[1..]); }
  }

  lemma {:induction false} TrimmedAfterSpace(text: string)
    ensures SkipSpace(Trimmed(Plain, text)) == Trimmed(Plain, SkipSpace(text))
  {
    TrimmedStarts(Plain, text);
    if |text| > 0 && IsSpace(text[0]) { TrimmedAfterSpace(text[1..]); }
  }

  lemma {:induction false} SecondPass(m: Mode, text: string)
    ensures HasTrailingComma(m, Trimmed(m, text)) <==> HasDoubleComma(m, text)
    decreases |text|
  {
    if |text| > 0 {
      if m == Plain && Matches(text) {
        SecondPass(Plain, SkipSpace(text[1..]));
        SpacesHoldNoComma(text[1..]);
      } else {
        var rest := text[1..];
        SecondPass(Step(m, text[0]), rest);
        TrimmedStarts(m, text);
        if m == Plain && text[0] == ',' {
          TrimmedAfterSpace(rest);
          TrimmedStarts(Plain, SkipSpace(rest));
        }
      }
    }
  }

  /** The comma pass is idempotent exactly on texts without a doubled comma before a closer:
      `,,]` becomes `,]`, which a second pass would change again. */
  lemma IdempotentIffNoDoubleComma(text: string)
    ensures var out := Trimmed(Plain, text); Trimmed(Plain, out) == out <==> !HasDoubleComma(Plain, text)
  {
    SecondPass(Plain, text);
    UntrimmedIff(Plain, Trimmed(Plain, text));
  }

  /** The pass does what it is for exactly on texts whose strings all close: otherwise it
      ends with a second copy of the text from the last gap on. */
  lemma DoubledIffUnclosed(text: string)
    ensures CommaPass(text) == Trimmed(Plain, text) <==> Closed(text)
  {
    if !Closed(text) {
      var g := GapStart(text, |text|);
      assert g < |text| && text[g..] != "";
      assert Substituted(text[g..]) != "";
    }
  }

  /** Both shortfalls are real: `,,]` is trimmed twice, and a lone quote comes out doubled. */
  lemma Shortfalls()
    ensures Trimmed(Plain, ",,]") == ",]" && Trimmed(Plain, ",]") == "]"
    ensures GapStart("\"", 1) == 0 && !Closed("\"") && Trimmed(Plain, "\"") + Substituted("\"") == "\"\""
  {
    assert ",,]"[1..] == ",]" && ",]"[1..] == "]" && SkipSpace("]") == "]" && SkipSpace(",]") == ",]";
    assert "]"[1..] == "" && "\""[1..] == "";
  }

  // ---- both passes -----------------------------------------------------------------

  /** The text `parse_jsonc` hands to the JSON parser. */
  method Normalise(text: string) returns (json: string)
    ensures var plain := Uncommented(Plain, text);
      Closed(plain) ==>
        && json == KeptFrom(plain, 0)
        && StringText(Plain, json) == StringText(Plain, text)
        && (forall i :: 0 <= i <= |json| ==> !CommentAt(json, i))
        && (json == text <==> (forall i :: 0 <= i <= |text| ==> !CommentAt(text, i)) && !HasTrailingComma(Plain, text))
  {
    var plain := StripComments(text);
    json := StripTrailingCommas(plain);
    if Closed(plain) {
      CommentsAreGone(text);
      OnlyTrailingCommasGo(plain);
      StringsSurviveComments(Plain, text);
      StringsSurviveTrimming(Plain, plain);
      UnchangedIffNoComment(json);
      UnchangedIffNoComment(text);
      UncommentedShrinks(Plain, text);
      TrimmedShrinks(Plain, plain);
      UntrimmedIff(Plain, plain);
    }
  }
}
