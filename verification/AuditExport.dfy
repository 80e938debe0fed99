/**
 The consumer of an audit export: a body of lines is staged event by event and
 accepted only when a terminal receipt confirms it. What a line means (its
 JSON) is a parameter; how lines make up a complete stream is the model.
 */
module AuditExport {
  import opened Common

  type Bytes = seq<bv8>

  const LF: bv8 := 10
  const MAX_LINE_BYTES := 0x100000

  datatype Receipt = Receipt(wellFormed: bool, startedEventId: string, snapshot: string, rows: int, success: bool, recorded: bool, cause: bool)

  /** What a line decodes to; invalid UTF-8 and anything else unusable is malformed. */
  datatype Meaning = Malformed | Event | Terminal(receipt: Receipt)

  datatype Headers = Headers(negotiated: bool, id: string, snapshot: string)

  // ---- Lines -----------------------------------------------------------------------------------------

  /** The length of the first line, its LF included. */
  function FirstLine(body: Bytes): (n: Option<nat>)
    ensures n.None? <==> LF !in body
    ensures n.Some? ==> 0 < n.value <= |body| && body[n.value - 1] == LF && LF !in body[..n.value - 1]
  {
    if body == [] then None
    else if body[0] == LF then Some(1)
    else
      var rest := FirstLine(body[1..]);
      assert body == [body[0]] + body[1..];
      if rest.None? then None else
      assert body[..rest.value] == [body[0]] + body[1..][..rest.value - 1];
      Some(rest.value + 1)
  }

  /** A body as lines; a last line without LF makes it no lines at all. */
  function Lines(body: Bytes): Option<seq<Bytes>>
    decreases |body|
  {
    if body == [] then Some([]) else
    var n := FirstLine(body);
    if n.None? then None else
    var rest := Lines(body[n.value..]);
    if rest.None? then None else Some([body[..n.value]] + rest.value)
  }

  function Join(lines: seq<Bytes>): Bytes {
    if lines == [] then [] else lines[0] + Join(lines[1..])
  }

  lemma {:induction false} JoinAppend(lines: seq<Bytes>, line: Bytes)
    ensures Join(lines + [line]) == Join(lines) + line
  {
    if lines == [] {
      assert lines + [line] == [line];
    } else {
      JoinAppend(lines[1..], line);
      assert (lines + [line])[1..] == lines[1..] + [line];
    }
  }

  lemma {:induction false} FirstLineExtends(a: Bytes, b: Bytes)
    requires FirstLine(a).Some?
    ensures FirstLine(a + b) == FirstLine(a)
  {
    if a[0] != LF {
      assert (a + b)[1..] == a[1..] + b;
      FirstLineExtends(a[1..], b);
    }
  }

  function Behind(lines: seq<Bytes>, rest: Option<seq<Bytes>>): Option<seq<Bytes>> {
    if rest.None? then None else Some(lines + rest.value)
  }

  /** Behind complete lines, more bytes are just more lines. */
  lemma {:induction false} LinesExtend(a: Bytes, b: Bytes)
    requires Lines(a).Some?
    ensures Lines(a + b) == Behind(Lines(a).value, Lines(b))
    decreases |a|
  {
    if a == [] {
      assert a + b == b;
      assert Lines(b).Some? ==> [] + Lines(b).value == Lines(b).value;
    } else {
      FirstLineExtends(a, b);
      var n := FirstLine(a).value;
      assert (a + b)[n..] == a[n..] + b && (a + b)[..n] == a[..n];
      LinesExtend(a[n..], b);
      if Lines(b).Some? {
        assert [a[..n]] + (Lines(a[n..]).value + Lines(b).value) == [a[..n]] + Lines(a[n..]).value + Lines(b).value;
      }
    }
  }

  lemma {:induction false} LinesJoin(body: Bytes)
    requires Lines(body).Some?
    ensures Join(Lines(body).value) == body
    decreases |body|
  {
    if body != [] {
      var n := FirstLine(body).value;
      LinesJoin(body[n..]);
      assert Lines(body).value[1..] == Lines(body[n..]).value;
    }
  }

  // ---- Complete streams ----------------------------------------------------------------------------------

  predicate Confirms(r: Receipt, h: Headers, rows: int) {
    r.wellFormed && r.startedEventId == h.id && r.rows == rows && r.snapshot == h.snapshot && r.success && r.recorded && !r.cause
  }

  predicate EventLine(line: Bytes, meaning: Bytes -> Meaning) {
    |line| <= MAX_LINE_BYTES && meaning(line).Event?
  }

  /** Event lines, and behind them one receipt that confirms their number. */
  ghost predicate Complete(lines: seq<Bytes>, h: Headers, meaning: Bytes -> Meaning) {
    && lines != []
    && (forall i | 0 <= i < |lines| - 1 :: EventLine(lines[i], meaning))
    && var last := lines[|lines| - 1];
       |last| <= MAX_LINE_BYTES && meaning(last).Terminal? && Confirms(meaning(last).receipt, h, |lines| - 1)
  }

  ghost predicate Accepted(body: Bytes, h: Headers, meaning: Bytes -> Meaning) {
    h.negotiated && h.id != "" && h.snapshot != "" && Lines(body).Some? && Complete(Lines(body).value, h, meaning)
  }

  /** No accepted body is a proper prefix of another: a truncated or extended export is never taken for complete. */
  lemma AcceptedBodiesArePrefixFree(a: Bytes, b: Bytes, h: Headers, meaning: Bytes -> Meaning)
    requires Accepted(a, h, meaning) && Accepted(b, h, meaning) && a <= b
    ensures a == b
  {
    var rest := b[|a|..];
    assert b == a + rest;
    LinesExtend(a, rest);
    var la, lr := Lines(a).value, Lines(rest).value;
    assert Lines(b).value == la + lr;
    assert (la + lr)[|la| - 1] == la[|la| - 1];
    LinesJoin(rest);
  }

  // ---- The consumer ------------------------------------------------------------------------------------------

  /** The lines so far: events, all staged, and the receipt once it was seen. */
  ghost predicate Consumed(lines: seq<Bytes>, terminal: bool, rows: nat, staged: Bytes, h: Headers, meaning: Bytes -> Meaning) {
    if terminal then Complete(lines, h, meaning) && rows == |lines| - 1 && staged == Join(lines[..|lines| - 1])
    else (forall i | 0 <= i < |lines| :: EventLine(lines[i], meaning)) && rows == |lines| && staged == Join(lines)
  }

  /** How far a body is read: these lines, and this rest. */
  ghost predicate ReadTo(body: Bytes, lines: seq<Bytes>, rest: Bytes) {
    Lines(body) == Behind(lines, Lines(rest))
  }

  lemma ReadStarts(body: Bytes)
    ensures ReadTo(body, [], body)
  {
    assert Lines(body).Some? ==> [] + Lines(body).value == Lines(body).value;
  }

  lemma ReadOn(body: Bytes, lines: seq<Bytes>, rest: Bytes)
    requires ReadTo(body, lines, rest) && rest != []
    ensures FirstLine(rest).None? ==> Lines(body).None?
    ensures FirstLine(rest).Some? ==>
              var n := FirstLine(rest).value;
              ReadTo(body, lines + [rest[..n]], rest[n..])
  {
    if FirstLine(rest).Some? {
      var n := FirstLine(rest).value;
      var after := Lines(rest[n..]);
      if after.Some? { assert lines + ([rest[..n]] + after.value) == lines + [rest[..n]] + after.value; }
    }
  }

  lemma ReadEnds(body: Bytes, lines: seq<Bytes>)
    requires ReadTo(body, lines, [])
    ensures Lines(body) == Some(lines)
  {
    assert lines + [] == lines;
  }

  /** Nothing that starts with these lines and this next one is complete. */
  lemma BadLine(body: Bytes, lines: seq<Bytes>, line: Bytes, rest: Bytes, terminal: bool, rows: nat, staged: Bytes, h: Headers, meaning: Bytes -> Meaning)
    requires Consumed(lines, terminal, rows, staged, h, meaning) && ReadTo(body, lines + [line], rest)
    requires terminal || !(|line| <= MAX_LINE_BYTES && (meaning(line).Event? || (meaning(line).Terminal? && Confirms(meaning(line).receipt, h, rows))))
    ensures !Accepted(body, h, meaning)
  {
    if Lines(rest).Some? {
      var all := lines + [line] + Lines(rest).value;
      assert all[|lines|] == line;
      if terminal { assert all[|lines| - 1] == lines[|lines| - 1]; }
    }
  }

  lemma NextLine(lines: seq<Bytes>, line: Bytes, rows: nat, staged: Bytes, h: Headers, meaning: Bytes -> Meaning)
    requires Consumed(lines, false, rows, staged, h, meaning) && |line| <= MAX_LINE_BYTES
    ensures meaning(line).Event? ==> Consumed(lines + [line], false, rows + 1, staged + line, h, meaning)
    ensures meaning(line).Terminal? && Confirms(meaning(line).receipt, h, rows) ==> Consumed(lines + [line], true, rows, staged, h, meaning)
  {
    JoinAppend(lines, line);
    assert (lines + [line])[..|lines|] == lines;
  }

  lemma EndDecides(body: Bytes, lines: seq<Bytes>, terminal: bool, rows: nat, staged: Bytes, h: Headers, meaning: Bytes -> Meaning)
    requires Consumed(lines, terminal, rows, staged, h, meaning) && ReadTo(body, lines, [])
    requires h.negotiated && h.id != "" && h.snapshot != ""
    ensures terminal <==> Accepted(body, h, meaning)
    ensures terminal ==> var all := Lines(body).value;
              rows == |all| - 1 && staged == Join(all[..rows]) && meaning(all[rows]).receipt.rows == rows
  {
    ReadEnds(body, lines);
  }

  /** Accepts exactly the complete bodies whose events could all be staged, and then has staged exactly those. */
  method Consume(body: Bytes, h: Headers, meaning: Bytes -> Meaning, writes: nat -> bool)
    returns (accepted: bool, staged: Bytes, rows: nat)
    ensures accepted ==> Accepted(body, h, meaning)
    ensures Accepted(body, h, meaning) && (forall i: nat :: writes(i)) ==> accepted
    ensures accepted ==> var lines := Lines(body).value;
              rows == |lines| - 1 && staged == Join(lines[..rows]) && meaning(lines[rows]).receipt.rows == rows
  {
    staged, rows := [], 0;
    if !h.negotiated || h.id == "" || h.snapshot == "" { return false, staged, rows; }
    var rest, terminal := body, false;
    ghost var lines: seq<Bytes> := [];
    ReadStarts(body);
    while rest != []
      invariant Consumed(lines, terminal, rows, staged, h, meaning) && ReadTo(body, lines, rest)
      decreases |rest|
    {
      var n := FirstLine(rest);
      ReadOn(body, lines, rest);
      if n.None? { return false, staged, rows; }
      var line := rest[..n.value];
      rest := rest[n.value..];
      if |line| > MAX_LINE_BYTES || terminal || meaning(line).Malformed? ||
         (meaning(line).Terminal? && !Confirms(meaning(line).receipt, h, rows)) {
        BadLine(body, lines, line, rest, terminal, rows, staged, h, meaning);
        return false, staged, rows;
      }
      NextLine(lines, line, rows, staged, h, meaning);
      lines := lines + [line];
      if meaning(line).Terminal? {
        terminal := true;
      } else {
        if !writes(rows) { return false, staged, rows; }
        staged, rows := staged + line, rows + 1;
      }
    }
    EndDecides(body, lines, terminal, rows, staged, h, meaning);
    return terminal, staged, rows;
  }
}
