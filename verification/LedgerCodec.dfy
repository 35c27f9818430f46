/** A codec and a run that meet every hypothesis `DispatchLedger` makes: nothing proved
    there is empty. */
module LedgerCodec {
  import opened Common
  import opened DispatchLedger

  const ZERO: Byte := 0
  const ONE: Byte := 1
  const STOP: Byte := 2

  function Unary(n: nat): Bytes {
    if n == 0 then [ZERO] else [ONE] + Unary(n - 1)
  }

  function ReadUnary(b: Bytes): (r: (nat, Bytes))
    ensures |b| > 0 ==> |r.1| < |b|
  {
    if b == [] then (0, [])
    else if b[0] != ONE then (0, b[1..])
    else
      var (n, rest) := ReadUnary(b[1..]);
      (n + 1, rest)
  }

  lemma {:induction false} UnaryReadsBack(n: nat, rest: Bytes)
    ensures ReadUnary(Unary(n) + rest) == (n, rest)
    ensures |Unary(n)| == n + 1 && NL !in Unary(n) && Unary(n)[0] != STOP
  {
    if n == 0 {
      assert (Unary(0) + rest)[1..] == rest;
    } else {
      assert (Unary(n) + rest)[1..] == Unary(n - 1) + rest;
      UnaryReadsBack(n - 1, rest);
    }
  }

  /** Each character in unary, then a stop byte. */
  function Chars(s: string): Bytes {
    if s == "" then [STOP] else Unary(s[0] as nat) + Chars(s[1..])
  }

  function ToChar(n: nat): char {
    if n < 0xD800 || 0xE000 <= n < 0x11_0000 then n as char else '?'
  }

  function ReadChars(b: Bytes): (string, Bytes)
    decreases |b|
  {
    if b == [] then ("", [])
    else if b[0] == STOP then ("", b[1..])
    else
      var (n, rest) := ReadUnary(b);
      var (s, left) := ReadChars(rest);
      ([ToChar(n)] + s, left)
  }

  lemma {:induction false} CharsReadBack(s: string, rest: Bytes)
    ensures ReadChars(Chars(s) + rest) == (s, rest) && NL !in Chars(s)
  {
    if s == "" {
      assert (Chars(s) + rest)[1..] == rest;
    } else {
      var tail := Chars(s[1..]) + rest;
      assert Chars(s) + rest == Unary(s[0] as nat) + tail;
      UnaryReadsBack(s[0] as nat, tail);
      CharsReadBack(s[1..], rest);
      assert [s[0]] + s[1..] == s;
    }
  }

  function Signed(i: int): nat { if i >= 0 then 2 * i else -2 * i - 1 }

  function Unsigned(n: nat): int { if n % 2 == 0 then n / 2 else -(n / 2) - 1 }

  function WriteRecord(r: Record): Bytes {
    Unary(Signed(r.sequence)) + (Chars(r.runId) + Chars(r.createdAt))
  }

  function ReadRecord(b: Bytes): Record {
    var (n, afterNumber) := ReadUnary(b);
    var (runId, afterId) := ReadChars(afterNumber);
    Record(Unsigned(n), runId, ReadChars(afterId).0)
  }

  function Text(j: Json): string { if j.Str? then j.s else "" }

  function FromWire(j: Json): Record {
    Record(if j.Get("sequence").Int? then j.Get("sequence").i else 0, Text(j.Get("run_id")), Text(j.Get("created_at")))
  }

  ghost predicate IsUnary(c: Codec) {
    && (forall r :: Encoded(c, r) == WriteRecord(r))
    && (forall b :: c.decode(b) == Some(Wire(ReadRecord(b))))
  }

  lemma NoNewline(r: Record)
    ensures WriteRecord(r) != [] && NL !in WriteRecord(r)
  {
    UnaryReadsBack(Signed(r.sequence), []);
    CharsReadBack(r.runId, []);
    CharsReadBack(r.createdAt, []);
  }

  lemma RecordReadsBack(r: Record)
    ensures ReadRecord(WriteRecord(r)) == r && WriteRecord(r) != [] && NL !in WriteRecord(r)
  {
    var last := Chars(r.createdAt);
    var tail := Chars(r.runId) + last;
    assert ReadUnary(WriteRecord(r)) == (Signed(r.sequence), tail) by { UnaryReadsBack(Signed(r.sequence), tail); }
    assert ReadChars(tail) == (r.runId, last) by { CharsReadBack(r.runId, last); }
    assert ReadChars(last).0 == r.createdAt by {
      CharsReadBack(r.createdAt, []);
      assert last + [] == last;
    }
    NoNewline(r);
  }

  lemma WireReadsBack(r: Record)
    ensures FromWire(Wire(r)) == r
  {
    var w := Wire(r);
    assert "schema"[1] != "sequence"[1] && "run_id"[0] != "created_at"[0];
    assert w.Get("sequence") == Int(r.sequence) && w.Get("run_id") == Str(r.runId);
    assert w.Get("created_at") == Str(r.createdAt);
  }

  lemma UnaryIsGood(c: Codec)
    requires IsUnary(c)
    ensures GoodCodec(c)
  {
    forall r ensures RoundTrips(c, r) {
      RecordReadsBack(r);
      assert c.decode(WriteRecord(r)) == Some(Wire(ReadRecord(WriteRecord(r))));
    }
  }

  function EncodeJson(j: Json): Bytes { WriteRecord(FromWire(j)) }

  function DecodeBytes(b: Bytes): Option<Json> { Some(Wire(ReadRecord(b))) }

  lemma EncodeWire(r: Record)
    ensures EncodeJson(Wire(r)) == WriteRecord(r)
  {
    WireReadsBack(r);
  }

  lemma UnaryExists() returns (c: Codec)
    ensures IsUnary(c)
  {
    c := Codec(EncodeJson, DecodeBytes);
    forall r: Record ensures Encoded(c, r) == WriteRecord(r) { EncodeWire(r); }
  }

  predicate Short(s: string) { |s| <= 8 && forall c <- s :: c as nat < 256 }

  lemma {:induction false} CharsLength(s: string)
    requires forall c <- s :: c as nat < 256
    ensures |Chars(s)| <= 256 * |s| + 1
  {
    if s != "" {
      assert s[0] in s && forall c <- s[1..] :: c in s;
      UnaryReadsBack(s[0] as nat, []);
      CharsLength(s[1..]);
    }
  }

  lemma ShortRecordFits(c: Codec, r: Record)
    requires IsUnary(c) && 1 <= r.sequence <= 100 && Short(r.runId) && Short(r.createdAt)
    ensures Fits(c, r)
  {
    assert Encoded(c, r) == WriteRecord(r);
    UnaryReadsBack(Signed(r.sequence), []);
    CharsLength(r.runId);
    CharsLength(r.createdAt);
  }

  /** Any list of up to a hundred requests with short names meets every hypothesis of
      `AppendAll`, with one codec for all of them. */
  lemma ShortRunsMeetTheHypotheses() returns (c: Codec)
    ensures GoodCodec(c)
    ensures forall requests: seq<(string, string)> |
      |requests| <= 100 && forall i :: 0 <= i < |requests| ==> Short(requests[i].0) && Short(requests[i].1) ::
      AllFit(c, requests)
  {
    c := UnaryExists();
    UnaryIsGood(c);
    forall r: Record | 1 <= r.sequence <= 100 && Short(r.runId) && Short(r.createdAt) ensures Fits(c, r) {
      ShortRecordFits(c, r);
    }
  }
}
