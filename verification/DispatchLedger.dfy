/** The append-only dispatch ledger: backward chunked readers, a forward reader, and a
    sequence allocator that consults only the last record
    (src/lingtai/kernel/daemon_dispatch.py). */
module DispatchLedger {
  import opened Common

  newtype Byte = x: int | 0 <= x < 256
  type Bytes = seq<Byte>

  const NL: Byte := 10
  const LAST_LINE_CHUNK := 8192
  const TAIL_CHUNK := 64 * 1024
  const LEDGER_SCHEMA: string := "lingtai.daemon_dispatch/v1"

  // ---- lines -----------------------------------------------------------------------

  /** `b.split(b"\n")`. */
  function Split(b: Bytes): (r: seq<Bytes>)
    ensures r != []
  {
    if b == [] then [[]]
    else
      var rest := Split(b[1..]);
      if b[0] == NL then [[]] + rest else [[b[0]] + rest[0]] + rest[1..]
  }

  function Count(b: Bytes): nat {
    if b == [] then 0 else (if b[0] == NL then 1 else 0) + Count(b[1..])
  }

  lemma {:induction false} SplitCounts(b: Bytes)
    ensures |Split(b)| == Count(b) + 1
  {
    if b != [] { SplitCounts(b[1..]); }
  }

  /** What iterating over the open file yields, newline stripped, from the front. */
  function Forward(b: Bytes): seq<Bytes>
    decreases |b|
  {
    if b == [] then []
    else
      var k := LineEnd(b);
      if k == |b| then [b] else [b[..k]] + Forward(b[k + 1..])
  }

  /** Index of the first newline, or the length. */
  function LineEnd(b: Bytes): (k: nat)
    ensures k <= |b| && NL !in b[..k] && (k < |b| ==> b[k] == NL)
  {
    if b == [] || b[0] == NL then 0
    else
      assert b[..1 + LineEnd(b[1..])] == [b[0]] + b[1..][..LineEnd(b[1..])];
      1 + LineEnd(b[1..])
  }

  function DropEmptyEnd(lines: seq<Bytes>): seq<Bytes>
    requires lines != []
  {
    if lines[|lines| - 1] == [] then lines[..|lines| - 1] else lines
  }

  function LastN<T>(s: seq<T>, n: nat): seq<T> {
    if |s| <= n then s else s[|s| - n..]
  }

  ghost predicate SameTail(all: seq<Bytes>, some: seq<Bytes>) {
    |all| >= |some| > 0 && all[|all| - |some| + 1..] == some[1..]
  }

  /** Bytes put in front of `blob` change no piece of it but the first. */
  lemma {:induction false} SplitKeepsTail(pre: Bytes, blob: Bytes)
    ensures SameTail(Split(pre + blob), Split(blob))
  {
    if pre == [] {
      assert pre + blob == blob;
    } else {
      assert (pre + blob)[1..] == pre[1..] + blob;
      SplitKeepsTail(pre[1..], blob);
    }
  }

  lemma {:induction false} SplitOfLine(line: Bytes)
    requires NL !in line
    ensures Split(line) == [line]
  {
    if line != [] {
      SplitOfLine(line[1..]);
      assert [line[0]] + line[1..] == line;
    }
  }

  lemma {:induction false} SplitAfterNewline(line: Bytes, b: Bytes)
    requires NL !in line
    ensures Split(line + [NL] + b) == [line] + Split(b)
  {
    var whole := line + [NL] + b;
    if line == [] {
      assert whole[1..] == b;
    } else {
      assert whole[1..] == line[1..] + [NL] + b;
      SplitAfterNewline(line[1..], b);
      assert [line[0]] + line[1..] == line;
    }
  }

  /** The forward reader yields the split pieces, less the empty one after a final newline. */
  lemma {:induction false} ForwardIsSplit(b: Bytes)
    ensures Forward(b) == DropEmptyEnd(Split(b))
    decreases |b|
  {
    if b != [] {
      var k := LineEnd(b);
      if k == |b| {
        assert b[..k] == b;
        SplitOfLine(b);
      } else {
        assert b == b[..k] + [NL] + b[k + 1..];
        SplitAfterNewline(b[..k], b[k + 1..]);
        ForwardIsSplit(b[k + 1..]);
      }
    }
  }

  lemma EndOfConcat(x: seq<Bytes>, y: seq<Bytes>, n: nat)
    requires |y| > n
    ensures LastN(DropEmptyEnd(x + y), n) == LastN(DropEmptyEnd(y), n)
  {
    DropEndOfConcat(x, y);
    LastOfConcat(x, DropEmptyEnd(y), n);
  }

  lemma DropEndOfConcat(x: seq<Bytes>, y: seq<Bytes>)
    requires y != []
    ensures DropEmptyEnd(x + y) == x + DropEmptyEnd(y)
  {
    assert (x + y)[|x + y| - 1] == y[|y| - 1];
    assert (x + y)[..|x + y| - 1] == x + y[..|y| - 1];
  }

  lemma LastOfConcat<T>(x: seq<T>, y: seq<T>, n: nat)
    requires |y| >= n
    ensures LastN(x + y, n) == LastN(y, n)
  {
  }

  lemma TailOfPieces(all: seq<Bytes>, pieces: seq<Bytes>, n: nat)
    requires SameTail(all, pieces) && |pieces| >= n + 2
    ensures LastN(DropEmptyEnd(pieces), n) == LastN(DropEmptyEnd(all), n)
  {
    var front, common := all[..|all| - |pieces| + 1], pieces[1..];
    assert all == front + common;
    EndOfConcat(front, common, n);
    assert pieces == [pieces[0]] + common;
    EndOfConcat([pieces[0]], common, n);
  }

  lemma PiecesOfSuffix(b: Bytes, q: nat)
    requires q <= |b|
    ensures SameTail(Split(b), Split(b[q..]))
  {
    var pre, suf := b[..q], b[q..];
    assert b == pre + suf;
    SplitKeepsTail(pre, suf);
  }

  /** A suffix with more than `n` newlines already shows the last `n` lines. */
  lemma SuffixShowsTail(b: Bytes, q: nat, n: nat)
    requires q <= |b| && (Count(b[q..]) > n || q == 0)
    ensures LastN(DropEmptyEnd(Split(b[q..])), n) == LastN(Forward(b), n)
  {
    ForwardIsSplit(b);
    if q == 0 {
      assert b[0..] == b;
    } else {
      var tail := b[q..];
      SplitCounts(tail);
      PiecesOfSuffix(b, q);
      TailOfPieces(Split(b), Split(tail), n);
    }
  }

  /** The bounded backward reader: whatever the chunking, the last `limit` forward lines. */
  method TailLines(file: Option<Bytes>, limit: int) returns (lines: seq<Bytes>)
    ensures limit < 1 || file.None? ==> lines == []
    ensures limit >= 1 && file.Some? ==> lines == LastN(Forward(file.value), limit)
    ensures limit >= 1 && file.Some? ==>
      var all := Forward(file.value);
      |lines| == (if |all| < limit then |all| else limit) && lines == all[|all| - |lines|..]
  {
    if limit < 1 || file.None? { return []; }
    var b := file.value;
    if |b| == 0 { return []; }
    var position, blob := |b|, [];
    while position > 0 && Count(blob) <= limit
      invariant 0 <= position <= |b| && blob == b[position..]
    {
      var step := if position < TAIL_CHUNK then position else TAIL_CHUNK;
      position := position - step;
      blob := b[position..position + step] + blob;
    }
    SuffixShowsTail(b, position, limit);
    return LastN(DropEmptyEnd(Split(blob)), limit);
  }

  // ---- the last line ---------------------------------------------------------------

  function RStrip(b: Bytes): (r: Bytes)
    ensures r <= b
  {
    if b != [] && b[|b| - 1] == NL then RStrip(b[..|b| - 1]) else b
  }

  /** `b.rsplit(b"\n", 1)[-1]`. */
  function AfterLastNewline(b: Bytes): Bytes {
    if b == [] || b[|b| - 1] == NL then [] else AfterLastNewline(b[..|b| - 1]) + [b[|b| - 1]]
  }

  lemma {:induction false} AfterLastNewlineIs(b: Bytes)
    ensures |AfterLastNewline(b)| <= |b| && AfterLastNewline(b) == b[|b| - |AfterLastNewline(b)|..]
    ensures if NL in b then |AfterLastNewline(b)| < |b| else AfterLastNewline(b) == b
  {
    if b != [] && b[|b| - 1] != NL {
      AfterLastNewlineIs(b[..|b| - 1]);
      assert b == b[..|b| - 1] + [b[|b| - 1]];
    }
  }

  /** The final physical record: a partial final line, or the last line before the
      trailing newlines. */
  function FinalRecord(b: Bytes): Bytes {
    if AfterLastNewline(b) != [] then AfterLastNewline(b) else AfterLastNewline(RStrip(b))
  }

  function TrailingNewlines(b: Bytes): nat {
    |b| - |RStrip(b)|
  }

  /** Whether the final record and the newlines after it fit in one backward chunk. */
  predicate FinalRecordFits(b: Bytes) {
    || TrailingNewlines(b) == 0
    || FinalRecord(b) == []
    || |FinalRecord(b)| + TrailingNewlines(b) <= LAST_LINE_CHUNK
  }

  lemma AfterLastNewlineGrows(b: Bytes, x: Byte)
    ensures AfterLastNewline(b + [x]) == if x == NL then [] else AfterLastNewline(b) + [x]
  {
    assert (b + [x])[..|b|] == b;
  }

  lemma {:induction false} AfterLastNewlineOfConcat(pre: Bytes, suf: Bytes)
    ensures AfterLastNewline(pre + suf) == if NL in suf then AfterLastNewline(suf) else AfterLastNewline(pre) + suf
  {
    if |suf| == 0 {
      assert pre + suf == pre;
    } else {
      var n := |suf| - 1;
      var init, x := suf[..n], suf[n];
      assert suf == init + [x] && pre + suf == (pre + init) + [x];
      AfterLastNewlineOfConcat(pre, init);
      AfterLastNewlineGrows(init, x);
      AfterLastNewlineGrows(pre + init, x);
    }
  }

  lemma AfterLastNewlineOfSuffix(b: Bytes, q: nat)
    requires q <= |b|
    ensures AfterLastNewline(b[q..])
         == if q + |AfterLastNewline(b)| <= |b| then AfterLastNewline(b) else b[q..]
  {
    var pre, suf := b[..q], b[q..];
    assert pre + suf == b;
    AfterLastNewlineOfConcat(pre, suf);
    AfterLastNewlineIs(suf);
  }

  lemma {:induction false} RStripOfSuffix(b: Bytes, q: nat)
    requires q <= |b|
    ensures RStrip(b[q..]) == if q <= |RStrip(b)| then RStrip(b)[q..] else []
  {
    if q < |b| && b[|b| - 1] == NL {
      assert b[q..][..|b[q..]| - 1] == b[..|b| - 1][q..];
      RStripOfSuffix(b[..|b| - 1], q);
    } else if q < |b| {
      assert RStrip(b[q..]) == b[q..];
    }
  }

  lemma FinalRecordOfTerminated(b: Bytes)
    requires b != [] && b[|b| - 1] == NL
    ensures FinalRecord(b) == AfterLastNewline(RStrip(b)) && TrailingNewlines(b) > 0
  {
  }

  lemma SuffixOfSuffix(x: Bytes, p: nat, q: nat)
    requires p <= q <= |x|
    ensures x[q..] == x[p..][q - p..]
  {
  }

  lemma LastLineOfSuffix(x: Bytes, q: nat)
    ensures var rec, found := AfterLastNewline(x), AfterLastNewline(if q <= |x| then x[q..] else []);
      && (found == rec <==> rec == [] || q + |rec| <= |x|)
      && |found| <= |rec| && found == rec[|rec| - |found|..]
  {
    var rec := AfterLastNewline(x);
    AfterLastNewlineIs(x);
    if q <= |x| {
      AfterLastNewlineOfSuffix(x, q);
      if q + |rec| > |x| { SuffixOfSuffix(x, |x| - |rec|, q); }
    }
  }

  /** Reading the final record out of a suffix of a terminated file: right exactly when the
      suffix starts no later than the record does, and a suffix of it in any case. */
  lemma FinalRecordOfSuffix(b: Bytes, q: nat)
    requires q < |b| && b[|b| - 1] == NL
    ensures var rec, found := FinalRecord(b), FinalRecord(b[q..]);
      && |rec| + TrailingNewlines(b) <= |b|
      && (found == rec <==> rec == [] || q + |rec| + TrailingNewlines(b) <= |b|)
      && |found| <= |rec| && found == rec[|rec| - |found|..]
  {
    FinalRecordOfTerminated(b);
    FinalRecordOfTerminated(b[q..]);
    RStripOfSuffix(b, q);
    LastLineOfSuffix(RStrip(b), q);
    AfterLastNewlineIs(RStrip(b));
  }

  lemma {:induction false} RStripIs(b: Bytes)
    ensures b == RStrip(b) + seq(TrailingNewlines(b), _ => 10)
    ensures RStrip(b) != [] ==> RStrip(b)[|RStrip(b)| - 1] != 10
  {
    if b != [] && b[|b| - 1] == NL {
      RStripIs(b[..|b| - 1]);
      assert b == b[..|b| - 1] + [10];
    }
  }

  /** The final record is the last stretch without a newline, ahead of the trailing newlines;
      it is empty only if there is nothing but newlines. */
  lemma WhatTheFinalRecordIs(b: Bytes) returns (before: Bytes)
    ensures b == before + FinalRecord(b) + seq(TrailingNewlines(b), _ => 10)
    ensures 10 !in FinalRecord(b) && (before != [] ==> before[|before| - 1] == 10 && FinalRecord(b) != [])
    ensures FinalRecordFits(b) <==>
      TrailingNewlines(b) == 0 || FinalRecord(b) == [] || |FinalRecord(b)| + TrailingNewlines(b) <= 8192
  {
    RStripIs(b);
    if b != [] && b[|b| - 1] == NL { FinalRecordOfTerminated(b); } else { assert RStrip(b) == b; }
    before := CutAtLastNewline(RStrip(b));
  }

  lemma CutAtLastNewline(x: Bytes) returns (before: Bytes)
    ensures x == before + AfterLastNewline(x) && 10 !in AfterLastNewline(x)
    ensures before != [] ==> before[|before| - 1] == 10
    ensures x != [] && x[|x| - 1] != 10 ==> AfterLastNewline(x) != []
  {
    AfterLastNewlineIs(x);
    AfterLastNewlineEnds(x);
    before := x[..|x| - |AfterLastNewline(x)|];
  }

  lemma {:induction false} AfterLastNewlineEnds(b: Bytes)
    ensures 10 !in AfterLastNewline(b) && |AfterLastNewline(b)| <= |b|
    ensures |AfterLastNewline(b)| < |b| ==> b[|b| - |AfterLastNewline(b)| - 1] == 10
  {
    if b != [] && b[|b| - 1] != NL { AfterLastNewlineEnds(b[..|b| - 1]); }
  }

  ghost predicate ReadAs(b: Bytes, found: Bytes) {
    && (found == FinalRecord(b) <==> FinalRecordFits(b))
    && |found| <= |FinalRecord(b)| && found == FinalRecord(b)[|FinalRecord(b)| - |found|..]
  }

  lemma TerminatedReadAs(b: Bytes, q: nat)
    requires b != [] && b[|b| - 1] == NL
    requires q == if |b| < LAST_LINE_CHUNK then 0 else |b| - LAST_LINE_CHUNK
    ensures ReadAs(b, FinalRecord(b[q..]))
  {
    FinalRecordOfTerminated(b);
    FinalRecordOfSuffix(b, q);
  }

  lemma PartialReadAs(b: Bytes, q: nat)
    requires q < |b| && b[|b| - 1] != NL && (NL in b[q..] || q == 0)
    ensures ReadAs(b, FinalRecord(b[q..]))
  {
    AfterLastNewlineOfSuffix(b, q);
    AfterLastNewlineIs(b[q..]);
    AfterLastNewlineIs(b);
    assert b[q..][|b| - q - 1] == b[|b| - 1];
    assert b[0..] == b;
  }

  /** Reads 8192-byte chunks from the end up to the first one that shows a newline.  The
      result is always a suffix of the final record, and is the final record itself exactly
      when that fits. */
  method LastLine(file: Option<Bytes>) returns (r: Option<Bytes>)
    ensures r.None? <==> file.None? || file.value == []
    ensures r.Some? ==> (r.value == FinalRecord(file.value) <==> FinalRecordFits(file.value))
    ensures r.Some? ==> var rec := FinalRecord(file.value);
      |r.value| <= |rec| && r.value == rec[|rec| - |r.value|..]
  {
    if file.None? || |file.value| == 0 { return None; }
    var b := file.value;
    var position, joined := |b|, [];
    while position > 0
      invariant 0 <= position <= |b| && joined == b[position..] && NL !in joined
      invariant b[|b| - 1] == NL ==> position == |b|
    {
      var step := if position < LAST_LINE_CHUNK then position else LAST_LINE_CHUNK;
      position := position - step;
      joined := b[position..position + step] + joined;
      assert joined == b[position..];
      assert joined[|joined| - 1] == b[|b| - 1];
      if NL in joined {
        if b[|b| - 1] == NL { TerminatedReadAs(b, position); } else { PartialReadAs(b, position); }
        return Some(FinalRecord(joined));
      }
    }
    PartialReadAs(b, 0);
    AfterLastNewlineIs(b);
    r := Some(joined);
  }

  // ---- records and the ledger ------------------------------------------------------

  datatype Record = Record(sequence: int, runId: string, createdAt: string)

  /** JSON text and back. */
  datatype Codec = Codec(encode: Json -> Bytes, decode: Bytes -> Option<Json>)

  /** The text of one record decodes to it, is not empty and holds no newline. */
  ghost predicate RoundTrips(c: Codec, r: Record) {
    c.decode(Encoded(c, r)) == Some(Wire(r)) && Encoded(c, r) != [] && NL !in Encoded(c, r)
  }

  /** ... for every record the ledger can hold. */
  ghost predicate GoodCodec(c: Codec) {
    forall r :: RoundTrips(c, r)
  }

  function Wire(r: Record): Json {
    Obj(map["schema" := Str(LEDGER_SCHEMA), "sequence" := Int(r.sequence),
            "run_id" := Str(r.runId), "created_at" := Str(r.createdAt)])
  }

  /** `_parse_record`: `None` is `DispatchLedgerError`. */
  function ParseRecord(c: Codec, raw: Bytes): Option<Record> {
    var payload := c.decode(raw);
    if payload.None? || !payload.value.Obj? then None
    else
      var sequence, runId, createdAt :=
        payload.value.Get("sequence"), payload.value.Get("run_id"), payload.value.Get("created_at");
      if payload.value.Get("schema") != Str(LEDGER_SCHEMA) || !sequence.Int? || sequence.i < 1
         || !runId.Str? || runId.s == "" || !createdAt.Str? || createdAt.s == ""
      then None
      else Some(Record(sequence.i, runId.s, createdAt.s))
  }

  /** What a ledger line has to decode to. */
  lemma WhatARecordIs(c: Codec, raw: Bytes, r: Record)
    ensures ParseRecord(c, raw) == Some(r) <==>
      && c.decode(raw).Some? && c.decode(raw).value.Obj?
      && (var fields := c.decode(raw).value.fields;
          && "schema" in fields && fields["schema"] == Str("lingtai.daemon_dispatch/v1")
          && "sequence" in fields && fields["sequence"] == Int(r.sequence) && r.sequence >= 1
          && "run_id" in fields && fields["run_id"] == Str(r.runId) && r.runId != ""
          && "created_at" in fields && fields["created_at"] == Str(r.createdAt) && r.createdAt != "")
  {
  }

  function Encoded(c: Codec, r: Record): Bytes {
    c.encode(Wire(r))
  }

  function Text(c: Codec, records: seq<Record>): Bytes {
    if records == [] then []
    else Text(c, records[..|records| - 1]) + Encoded(c, records[|records| - 1]) + [NL]
  }

  /** Sequences 1..k in order, every record well formed and fitting one backward chunk. */
  ghost predicate Numbered(c: Codec, records: seq<Record>) {
    forall i :: 0 <= i < |records| ==>
      && records[i].sequence == i + 1 && records[i].runId != "" && records[i].createdAt != ""
      && Fits(c, records[i])
  }

  lemma ParseOfEncoded(c: Codec, r: Record)
    requires GoodCodec(c) && r.sequence >= 1 && r.runId != "" && r.createdAt != ""
    ensures ParseRecord(c, Encoded(c, r)) == Some(r)
  {
    assert RoundTrips(c, r);
    var w := Wire(r);
    assert "schema"[1] != "sequence"[1] && "run_id"[0] != "created_at"[0];
    assert w.Get("schema") == Str(LEDGER_SCHEMA) && w.Get("sequence") == Int(r.sequence);
    assert w.Get("run_id") == Str(r.runId) && w.Get("created_at") == Str(r.createdAt);
  }

  /** The final record of a well-formed ledger is its last record, and it fits. */
  lemma FinalRecordOfText(c: Codec, records: seq<Record>)
    requires GoodCodec(c) && Numbered(c, records) && records != []
    ensures FinalRecord(Text(c, records)) == Encoded(c, records[|records| - 1])
    ensures FinalRecordFits(Text(c, records))
  {
    var line, before := Encoded(c, records[|records| - 1]), Text(c, records[..|records| - 1]);
    assert RoundTrips(c, records[|records| - 1]);
    TextEndsLines(c, records[..|records| - 1]);
    FinalRecordOfLine(before, line);
    assert Text(c, records) == before + line + [NL];
  }

  lemma FinalRecordOfLine(before: Bytes, line: Bytes)
    requires line != [] && NL !in line && (before == [] || before[|before| - 1] == NL)
    ensures FinalRecord(before + line + [NL]) == line && TrailingNewlines(before + line + [NL]) == 1
  {
    var x := before + line;
    assert (x + [NL])[..|x|] == x && x[|x| - 1] == line[|line| - 1];
    assert RStrip(x + [NL]) == RStrip(x) == x;
    EndsAtNewline(before, line);
  }

  lemma TextEndsLines(c: Codec, records: seq<Record>)
    ensures Text(c, records) == [] || Text(c, records)[|Text(c, records)| - 1] == NL
  {
  }

  lemma {:induction false} EndsAtNewline(before: Bytes, line: Bytes)
    requires NL !in line && (before == [] || before[|before| - 1] == NL)
    ensures AfterLastNewline(before + line) == line
  {
    if line == [] {
      assert before + line == before;
    } else {
      assert (before + line)[..|before + line| - 1] == before + line[..|line| - 1];
      EndsAtNewline(before, line[..|line| - 1]);
      assert line == line[..|line| - 1] + [line[|line| - 1]];
    }
  }

  /** The sequence after the final record; `None` when that is not a record. */
  function NextSequence(c: Codec, file: Option<Bytes>): Option<int> {
    if file.None? || file.value == [] then Some(1)
    else
      var last := ParseRecord(c, FinalRecord(file.value));
      if last.None? then None else Some(last.value.sequence + 1)
  }

  class Ledger {
    var file: Option<Bytes>
    const codec: Codec

    constructor (codec: Codec)
      ensures file == None && this.codec == codec
    {
      file := None;
      this.codec := codec;
    }

    /** The ledger holds exactly `records`. */
    ghost predicate Holds(records: seq<Record>)
      reads this
    {
      && Numbered(codec, records)
      && (file == None ==> records == []) && (file.Some? ==> file.value == Text(codec, records))
    }

    /** One locked append.  `None` is a refusal, which leaves the file as it was. */
    method AppendDispatch(runId: string, createdAt: string, ghost records: seq<Record>)
      returns (r: Option<Record>)
      requires GoodCodec(codec)
      modifies `file
      ensures r.None? ==> file == old(file)
      ensures r.Some? ==>
        file == Some((if old(file).Some? then old(file).value else []) + Encoded(codec, r.value) + [NL])
      ensures r.Some? ==> r.value.runId == runId != "" && r.value.createdAt == createdAt != "" && r.value.sequence >= 1
      ensures runId == "" || createdAt == "" ==> r.None?
      // Whatever the file holds: the final record alone, when in reach, decides the sequence,
      // and blocks the append when it does not parse.
      ensures runId != "" && createdAt != "" && (old(file).Some? ==> FinalRecordFits(old(file).value)) ==>
        var next := NextSequence(codec, old(file));
        r == if next.None? then None else Some(Record(next.value, runId, createdAt))
      // On a well-formed ledger the next sequence is allocated from the last record alone.
      ensures old(Holds(records)) && runId != "" && createdAt != "" ==>
        r == Some(Record(|records| + 1, runId, createdAt))
      ensures old(Holds(records)) && r.Some? && Fits(codec, r.value) ==>
        Holds(records + [r.value])
    {
      if runId == "" || createdAt == "" { return None; }
      var tail := LastLine(file);
      if old(Holds(records)) && records != [] {
        FinalRecordOfText(codec, records);
        ParseOfEncoded(codec, records[|records| - 1]);
      }
      var sequence := 1;
      if tail.Some? {
        var last := ParseRecord(codec, tail.value);
        if last.None? { return None; }
        sequence := last.value.sequence + 1;
      }
      var record := Record(sequence, runId, createdAt);
      var encoded := Encoded(codec, record) + [NL];
      assert (records + [record])[..|records|] == records;
      ghost var before := if file.Some? then file.value else [];
      assert before + encoded == before + Encoded(codec, record) + [NL];
      file := Some((if file.Some? then file.value else []) + encoded);
      r := Some(record);
    }

    /** One more request against a well-formed ledger. */
    method AppendNext(runId: string, createdAt: string, accepted: seq<Record>) returns (all: seq<Record>)
      requires GoodCodec(codec) && Holds(accepted)
      requires Fits(codec, Record(|accepted| + 1, runId, createdAt))
      modifies `file
      ensures Holds(all)
      ensures all == if runId == "" || createdAt == "" then accepted
                     else accepted + [Record(|accepted| + 1, runId, createdAt)]
    {
      var r := AppendDispatch(runId, createdAt, accepted);
      all := if r.Some? then accepted + [r.value] else accepted;
    }

    /** Any interleaving of locked appends by any processes is one sequence of appends. */
    method AppendAll(requests: seq<(string, string)>) returns (accepted: seq<Record>)
      requires GoodCodec(codec) && file == None && AllFit(codec, requests)
      modifies `file
      ensures accepted == Accepted(requests) && Holds(accepted)
    {
      accepted := [];
      for i := 0 to |requests|
        invariant accepted == AcceptedOf(requests, i) && Holds(accepted)
      {
        RequestFits(codec, requests, i, |accepted| + 1);
        AcceptedGrows(requests, i);
        accepted := AppendNext(requests[i].0, requests[i].1, accepted);
      }
    }

    /** Reads without mutation: `limit` counts only when the whole history is not asked for. */
    method ReadDispatches(limit: int, fullHistory: bool) returns (r: LedgerRead)
      ensures var lines := if fullHistory then (if file.None? then [] else Forward(file.value))
                           else if limit < 1 || file.None? then [] else LastN(Forward(file.value), limit);
        && r.records == Valid(codec, lines) && r.invalid == InvalidAt(codec, lines)
        && r.gaps == Gaps(r.records) && r.duplicates == Duplicates(r.records)
        && (r.empty <==> lines == [])
    {
      var lines;
      if fullHistory {
        lines := if file.None? then [] else Forward(file.value);
      } else {
        lines := TailLines(file, limit);
      }
      var records, invalid, _ := ParseLines(codec, lines);
      var gaps, duplicates := Diagnose(records);
      r := LedgerRead(records, invalid, gaps, duplicates, |lines| == 0);
    }
  }

  ghost predicate Ascending(idx: seq<nat>) {
    forall i, j :: 0 <= i < j < |idx| ==> idx[i] < idx[j]
  }

  /** Every line is either a record or reported: `invalid` holds exactly the offsets that do
      not parse, `at` exactly the others, and the records are the parses at `at`, in order. */
  ghost predicate Partitions(c: Codec, lines: seq<Bytes>, records: seq<Record>, invalid: seq<nat>, at: seq<nat>) {
    && Ascending(invalid) && Ascending(at) && |at| == |records|
    && (forall k :: k in invalid <==> 0 <= k < |lines| && ParseRecord(c, lines[k]).None?)
    && (forall k :: k in at <==> 0 <= k < |lines| && ParseRecord(c, lines[k]).Some?)
    && (forall i :: 0 <= i < |at| ==> at[i] in at && ParseRecord(c, lines[at[i]]) == Some(records[i]))
  }

  lemma PartitionGrows(c: Codec, lines: seq<Bytes>, n: nat, records: seq<Record>, invalid: seq<nat>, at: seq<nat>)
    requires n < |lines| && Partitions(c, lines[..n], records, invalid, at)
    ensures var r := ParseRecord(c, lines[n]);
      if r.Some? then Partitions(c, lines[..n + 1], records + [r.value], invalid, at + [n])
      else Partitions(c, lines[..n + 1], records, invalid + [n], at)
  {
    var r := ParseRecord(c, lines[n]);
    assert forall i :: 0 <= i < |invalid| ==> invalid[i] in invalid;
    assert forall i :: 0 <= i < |at| ==> at[i] in at;
  }

  method ParseLines(c: Codec, lines: seq<Bytes>) returns (records: seq<Record>, invalid: seq<nat>, ghost at: seq<nat>)
    ensures Partitions(c, lines, records, invalid, at)
    ensures records == Valid(c, lines) && invalid == InvalidAt(c, lines)
  {
    records, invalid, at := [], [], [];
    for offset := 0 to |lines|
      invariant records == Valid(c, lines[..offset]) && invalid == InvalidAt(c, lines[..offset])
      invariant Partitions(c, lines[..offset], records, invalid, at)
    {
      assert lines[..offset + 1][..offset] == lines[..offset];
      PartitionGrows(c, lines, offset, records, invalid, at);
      var record := ParseRecord(c, lines[offset]);
      if record.Some? {
        records, at := records + [record.value], at + [offset];
      } else {
        invalid := invalid + [offset];
      }
    }
    assert lines[..|lines|] == lines;
  }

  method Diagnose(records: seq<Record>) returns (gaps: seq<int>, duplicates: seq<string>)
    ensures gaps == Gaps(records) && duplicates == Duplicates(records)
  {
    gaps, duplicates := [], [];
    var prior: Option<int>, seen: set<string> := None, {};
    for i := 0 to |records|
      invariant gaps == Gaps(records[..i]) && duplicates == Duplicates(records[..i])
      invariant prior == if i == 0 then None else Some(records[i - 1].sequence)
      invariant forall id :: id in seen <==> HasRun(records[..i], id)
    {
      assert records[..i + 1][..i] == records[..i];
      if prior.Some? && records[i].sequence != prior.value + 1 {
        gaps := gaps + [records[i].sequence];
      }
      prior := Some(records[i].sequence);
      if records[i].runId in seen { duplicates := duplicates + [records[i].runId]; }
      seen := seen + {records[i].runId};
      assert records[..i + 1] == records[..i] + [records[i]];
      forall id { HasRunGrows(records[..i], records[i], id); }
    }
    assert records[..|records|] == records;
  }

  /** The records a run of appends writes: refused requests leave no trace, and the k-th
      accepted one gets sequence k. */
  function Accepted(requests: seq<(string, string)>): seq<Record> { AcceptedOf(requests, |requests|) }

  /** ... of the first `n` requests. */
  function AcceptedOf(requests: seq<(string, string)>, n: nat): (r: seq<Record>)
    requires n <= |requests|
    ensures |r| <= n
  {
    if n == 0 then []
    else
      var before, q := AcceptedOf(requests, n - 1), requests[n - 1];
      if q.0 == "" || q.1 == "" then before else before + [Record(|before| + 1, q.0, q.1)]
  }

  lemma AcceptedGrows(requests: seq<(string, string)>, n: nat)
    requires n < |requests|
    ensures var before, q := AcceptedOf(requests, n), requests[n];
      AcceptedOf(requests, n + 1)
      == if q.0 == "" || q.1 == "" then before else before + [Record(|before| + 1, q.0, q.1)]
  {
  }

  /** Whatever sequence it can get, the record of each request fits one backward chunk. */
  ghost predicate AllFit(c: Codec, requests: seq<(string, string)>) {
    forall i, k | 0 <= i < |requests| && 1 <= k <= i + 1 :: Fits(c, Record(k, requests[i].0, requests[i].1))
  }

  predicate Fits(c: Codec, r: Record) { |Encoded(c, r)| + 1 <= LAST_LINE_CHUNK }

  lemma RequestFits(c: Codec, requests: seq<(string, string)>, i: nat, k: nat)
    requires AllFit(c, requests) && i < |requests| && 1 <= k <= i + 1
    ensures Fits(c, Record(k, requests[i].0, requests[i].1))
  {
  }

  // ---- reading back ----------------------------------------------------------------

  /** Records read, offsets of unparseable lines, sequences that do not follow on, and
      repeated run ids; `empty` is the empty-ledger warning. */
  datatype LedgerRead = LedgerRead(
    records: seq<Record>, invalid: seq<nat>, gaps: seq<int>, duplicates: seq<string>, empty: bool)

  function Valid(c: Codec, lines: seq<Bytes>): seq<Record> {
    if lines == [] then []
    else
      var r := ParseRecord(c, lines[|lines| - 1]);
      Valid(c, lines[..|lines| - 1]) + (if r.Some? then [r.value] else [])
  }

  function InvalidAt(c: Codec, lines: seq<Bytes>): seq<nat> {
    if lines == [] then []
    else InvalidAt(c, lines[..|lines| - 1])
         + (if ParseRecord(c, lines[|lines| - 1]).None? then [|lines| - 1] else [])
  }

  function Gaps(records: seq<Record>): seq<int> {
    if |records| < 2 then []
    else
      var last := records[|records| - 1].sequence;
      Gaps(records[..|records| - 1]) + (if last != records[|records| - 2].sequence + 1 then [last] else [])
  }

  function Duplicates(records: seq<Record>): seq<string> {
    if records == [] then []
    else
      var init, id := records[..|records| - 1], records[|records| - 1].runId;
      Duplicates(init) + (if HasRun(init, id) then [id] else [])
  }

  predicate HasRun(records: seq<Record>, id: string) {
    exists r <- records :: r.runId == id
  }

  lemma HasRunGrows(records: seq<Record>, r: Record, id: string)
    ensures HasRun(records + [r], id) <==> HasRun(records, id) || r.runId == id
  {
    if r.runId == id { assert r in records + [r]; }
    if HasRun(records, id) {
      var x :| x in records && x.runId == id;
      assert x in records + [r];
    }
  }

  predicate Follows(records: seq<Record>, i: int)
    requires 0 < i < |records|
  {
    records[i].sequence == records[i - 1].sequence + 1
  }

  predicate Consecutive(records: seq<Record>) {
    forall i :: 0 < i < |records| ==> Follows(records, i)
  }

  lemma ConsecutiveGrows(records: seq<Record>, n: nat)
    requires n >= 1 && |records| == n + 1
    ensures Consecutive(records) <==> Consecutive(records[..n]) && Follows(records, n)
  {
    forall i | 0 < i < n ensures Follows(records, i) <==> Follows(records[..n], i) {
    }
    if Consecutive(records[..n]) && Follows(records, n) {
      forall i | 0 < i < |records| ensures Follows(records, i) {
        if i < n { assert Follows(records[..n], i); }
      }
    }
  }

  lemma {:induction false} NoGapsIffConsecutive(records: seq<Record>)
    ensures Gaps(records) == [] <==> Consecutive(records)
  {
    if |records| >= 2 {
      NoGapsIffConsecutive(records[..|records| - 1]);
      ConsecutiveGrows(records, |records| - 1);
    }
  }

  /** The sequences reported are, in order, exactly those of the records that do not follow
      the record before them. */
  lemma {:induction false} GapsAreExact(records: seq<Record>) returns (at: seq<nat>)
    ensures Reports(at, Gaps(records), records, SequenceOf) && Ascending(at)
    ensures forall k :: 0 <= k < |records| ==> (Lists(at, k) <==> IsOutOfStep(records, k))
  {
    at := [];
    if |records| >= 2 {
      var n := |records| - 1;
      var init := records[..n];
      at := GapsAreExact(init);
      forall k | 0 <= k < n ensures IsOutOfStep(init, k) <==> IsOutOfStep(records, k) {
      }
      LastGap(records);
      at := ReportsGrow(at, Gaps(init), records, SequenceOf, IsOutOfStep(records, n));
    }
  }

  lemma LastGap(records: seq<Record>)
    requires |records| >= 2
    ensures var n := |records| - 1;
      Gaps(records) == Gaps(records[..n]) + if IsOutOfStep(records, n) then [SequenceOf(records[n])] else []
  {
  }

  ghost predicate IsOutOfStep(records: seq<Record>, k: int)
    requires 0 <= k < |records|
  {
    0 < k && records[k].sequence != records[k - 1].sequence + 1
  }

  function SequenceOf(r: Record): int { r.sequence }

  function RunIdOf(r: Record): string { r.runId }

  /** `reported` shows, in order, what `of` shows of the records at `at`. */
  ghost predicate Reports<T>(at: seq<nat>, reported: seq<T>, records: seq<Record>, of: Record -> T) {
    |at| == |reported| && forall i :: 0 <= i < |at| ==> at[i] < |records| && reported[i] == of(records[at[i]])
  }

  ghost predicate Lists(at: seq<nat>, k: int) {
    exists i :: 0 <= i < |at| && at[i] == k
  }

  lemma ListsGrow(at: seq<nat>, n: nat, k: int)
    ensures Lists(at + [n], k) <==> Lists(at, k) || k == n
  {
    if Lists(at, k) {
      var i :| 0 <= i < |at| && at[i] == k;
      assert (at + [n])[i] == k;
    }
    if k == n { assert (at + [n])[|at|] == k; }
  }

  lemma ReportsGrow<T>(
      at: seq<nat>, reported: seq<T>, records: seq<Record>, of: Record -> T, last: bool) returns (more: seq<nat>)
    requires records != [] && Reports(at, reported, records[..|records| - 1], of) && Ascending(at)
    ensures var n := |records| - 1;
      && Reports(more, reported + (if last then [of(records[n])] else []), records, of) && Ascending(more)
      && (Lists(more, n) <==> last) && forall k :: 0 <= k < n ==> (Lists(more, k) <==> Lists(at, k))
  {
    var n := |records| - 1;
    more := if last then at + [n] else at;
    if last {
      forall k ensures Lists(more, k) <==> Lists(at, k) || k == n { ListsGrow(at, n, k); }
    }
  }

  /** The run ids reported are, in order, exactly those of the records that repeat an
      earlier one's. */
  lemma {:induction false} DuplicatesAreExact(records: seq<Record>) returns (at: seq<nat>)
    ensures Reports(at, Duplicates(records), records, RunIdOf) && Ascending(at)
    ensures forall k :: 0 <= k < |records| ==> (Lists(at, k) <==> RunIsRepeated(records, k))
  {
    at := [];
    if records != [] {
      var n := |records| - 1;
      var init := records[..n];
      at := DuplicatesAreExact(init);
      forall k | 0 <= k < n ensures RunIsRepeated(init, k) <==> RunIsRepeated(records, k) {
        RepeatedInLonger(records, n, k);
      }
      LastIsRepeatedIff(records);
      at := ReportsGrow(at, Duplicates(init), records, RunIdOf, RunIsRepeated(records, n));
    }
  }

  lemma LastIsRepeatedIff(records: seq<Record>)
    requires records != []
    ensures var n := |records| - 1; RunIsRepeated(records, n) <==> HasRun(records[..n], records[n].runId)
  {
    var n := |records| - 1;
    var init := records[..n];
    if RunIsRepeated(records, n) {
      var j :| 0 <= j < n && records[j].runId == records[n].runId;
      assert init[j] in init;
    }
    if HasRun(init, records[n].runId) {
      var j :| 0 <= j < n && init[j].runId == records[n].runId;
      assert records[j].runId == records[n].runId;
    }
  }

  ghost predicate RunIsRepeated(records: seq<Record>, k: int)
    requires 0 <= k < |records|
  {
    exists j :: 0 <= j < k && records[j].runId == records[k].runId
  }

  lemma RepeatedInLonger(records: seq<Record>, n: nat, k: nat)
    requires k < n <= |records|
    ensures RunIsRepeated(records[..n], k) <==> RunIsRepeated(records, k)
  {
    var init := records[..n];
    if RunIsRepeated(records, k) {
      var j :| 0 <= j < k && records[j].runId == records[k].runId;
      assert init[j].runId == init[k].runId;
    }
    if RunIsRepeated(init, k) {
      var j :| 0 <= j < k && init[j].runId == init[k].runId;
      assert records[j].runId == records[k].runId;
    }
  }

  lemma {:induction false} NoDuplicatesIffDistinct(records: seq<Record>)
    ensures Duplicates(records) == [] <==>
      forall i, j :: 0 <= i < j < |records| ==> records[i].runId != records[j].runId
  {
    if records != [] {
      var init := records[..|records| - 1];
      NoDuplicatesIffDistinct(init);
      var id := records[|records| - 1].runId;
      if HasRun(init, id) {
        var i :| 0 <= i < |init| && init[i].runId == id;
        assert records[i].runId == records[|records| - 1].runId;
      } else {
        forall i, j | 0 <= i < j < |records| && Duplicates(init) == [] ensures records[i].runId != records[j].runId {
          assert init[i] in init && init[i].runId != id;
          if j < |init| { assert init[i].runId != init[j].runId; }
        }
        if Duplicates(init) != [] {
          var i, j :| 0 <= i < j < |init| && init[i].runId == init[j].runId;
          assert records[i].runId == records[j].runId;
        }
      }
    }
  }

  function Encodings(c: Codec, records: seq<Record>): (r: seq<Bytes>)
    ensures |r| == |records| && forall i :: 0 <= i < |r| ==> r[i] == Encoded(c, records[i])
  {
    seq(|records|, i requires 0 <= i < |records| => Encoded(c, records[i]))
  }

  lemma {:induction false} TextFromFront(c: Codec, records: seq<Record>)
    requires records != []
    ensures Text(c, records) == Encoded(c, records[0]) + [NL] + Text(c, records[1..])
  {
    if |records| > 1 {
      var init, last := records[..|records| - 1], Encoded(c, records[|records| - 1]) + [NL];
      TextFromFront(c, init);
      assert records[1..][..|records| - 2] == init[1..];
      assert Text(c, records) == Text(c, init) + last;
      assert Text(c, records[1..]) == Text(c, init[1..]) + last;
    }
  }

  lemma LineInFront(line: Bytes, rest: Bytes, lines: seq<Bytes>)
    requires NL !in line && Split(rest) == lines + [[]]
    ensures Split(line + [NL] + rest) == ([line] + lines) + [[]]
  {
    SplitAfterNewline(line, rest);
  }

  lemma {:induction false} SplitOfText(c: Codec, records: seq<Record>)
    requires GoodCodec(c)
    ensures Split(Text(c, records)) == Encodings(c, records) + [[]]
  {
    if records != [] {
      TextFromFront(c, records);
      SplitOfText(c, records[1..]);
      assert RoundTrips(c, records[0]);
      LineInFront(Encoded(c, records[0]), Text(c, records[1..]), Encodings(c, records[1..]));
      assert Encodings(c, records) == [Encoded(c, records[0])] + Encodings(c, records[1..]);
    }
  }

  lemma {:induction false} EncodingsReadBack(c: Codec, records: seq<Record>)
    requires GoodCodec(c)
    requires forall r <- records :: r.sequence >= 1 && r.runId != "" && r.createdAt != ""
    ensures Valid(c, Encodings(c, records)) == records && InvalidAt(c, Encodings(c, records)) == []
  {
    if records != [] {
      var init, last := records[..|records| - 1], records[|records| - 1];
      assert records == init + [last];
      EncodingsReadBack(c, init);
      ParseOfEncoded(c, last);
      EncodingsGrow(c, init, last);
      ReadBackOneMore(c, Encodings(c, init), Encoded(c, last));
    }
  }

  lemma EncodingsGrow(c: Codec, records: seq<Record>, last: Record)
    ensures Encodings(c, records + [last]) == Encodings(c, records) + [Encoded(c, last)]
  {
  }

  lemma ReadBackOneMore(c: Codec, lines: seq<Bytes>, line: Bytes)
    requires ParseRecord(c, line).Some?
    ensures Valid(c, lines + [line]) == Valid(c, lines) + [ParseRecord(c, line).value]
    ensures InvalidAt(c, lines + [line]) == InvalidAt(c, lines)
  {
    assert (lines + [line])[..|lines|] == lines;
  }

  lemma NumberedWindow(c: Codec, records: seq<Record>, n: nat)
    requires Numbered(c, records)
    ensures Consecutive(LastN(records, n))
    ensures forall r <- LastN(records, n) :: r.sequence >= 1 && r.runId != "" && r.createdAt != ""
  {
  }

  lemma ForwardOfText(c: Codec, records: seq<Record>)
    requires GoodCodec(c)
    ensures Forward(Text(c, records)) == Encodings(c, records)
  {
    ForwardIsSplit(Text(c, records));
    SplitOfText(c, records);
  }

  /** Whatever was appended reads back: a full or tail read of a well-formed ledger returns
      exactly its records (or its last `n`), with no invalid line and no sequence gap. */
  lemma LedgerReadsBackClean(c: Codec, records: seq<Record>, n: nat)
    requires GoodCodec(c) && Numbered(c, records)
    ensures var lines, window := LastN(Forward(Text(c, records)), n), LastN(records, n);
      Valid(c, lines) == window && InvalidAt(c, lines) == [] && Gaps(window) == []
    ensures Valid(c, Forward(Text(c, records))) == records
  {
    ForwardOfText(c, records);
    var window := LastN(records, n);
    assert LastN(Encodings(c, records), n) == Encodings(c, window);
    NumberedWindow(c, records, n);
    NumberedWindow(c, records, |records|);
    EncodingsReadBack(c, records);
    EncodingsReadBack(c, window);
    NoGapsIffConsecutive(window);
  }
}
