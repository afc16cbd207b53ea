/**
 * Model of app/monitoring/log_watcher.py: `VRChatLogWatcher`.
 *
 * A file is the sequence of lines `readline` would return from its current
 * content, each with the position just after it (`f.tell()`); the file may
 * grow between reads, so every read is given the content at that moment.
 * The clocks, the sink's success and the directory listing are inputs. One
 * call of `Poll` is one iteration of the `while True` read loop of
 * `watch_file`, `WatchFile` is that loop over successive inputs, and the
 * supervisor's scan is one pass of `run`'s `for` loop.
 */
module Watcher {
  import opened Wrappers
  import opened Estimator
  import opened Parser

  /** `timedelta(hours=1)` in microseconds. */
  const IDLE_LIMIT: int := 3_600_000_000
  const LOG_NAME_PREFIX: string := "output_log_"
  const LOG_NAME_SUFFIX: string := ".txt"

  /** One line of the file: its raw text, the position after it, and what
      the parsing libraries make of its stripped text. */
  datatype Line = Line(text: string, end: nat, decoded: Decoded)

  /** Line end positions grow strictly along the file. */
  predicate WellFormed(lines: seq<Line>) {
    forall i, j :: 0 <= i < j < |lines| ==> lines[i].end < lines[j].end
  }

  /** The position `f.seek(0, 2)` moves to. */
  function EndOfFile(lines: seq<Line>): nat {
    if |lines| == 0 then 0 else lines[|lines| - 1].end
  }

  /** The first read position: the stored offset for `fname`, else end of file. */
  function StartPosition(offsets: map<string, nat>, fname: string, lines: seq<Line>): nat {
    if fname in offsets then offsets[fname] else EndOfFile(lines)
  }

  function NextLineFrom(lines: seq<Line>, pos: nat, i: nat): (r: Option<nat>)
    requires i <= |lines|
    ensures r.Some? ==> i <= r.value < |lines| && lines[r.value].end > pos
    decreases |lines| - i
  {
    if i == |lines| then None
    else if lines[i].end > pos then Some(i)
    else NextLineFrom(lines, pos, i + 1)
  }

  /** The index of the line `readline` returns at position `pos`: the first
      line ending after `pos`; `None` for the empty read at end of file. */
  function NextLine(lines: seq<Line>, pos: nat): (r: Option<nat>)
    ensures r.Some? ==> r.value < |lines| && lines[r.value].end > pos
  {
    NextLineFrom(lines, pos, 0)
  }

  /** The characters `str.strip()` removes (the ASCII and Latin-1 ones). */
  predicate IsSpace(c: char) {
    c == ' ' || c == '\t' || c == '\n' || c == '\r' || c == '\U{000B}' || c == '\U{000C}' ||
    ('\U{001C}' <= c <= '\U{001F}') || c == '\U{0085}' || c == '\U{00A0}'
  }

  /** Every character of `s[from..to]` is whitespace. */
  predicate AllSpace(s: string, from: nat, to: nat)
    requires from <= to <= |s|
  {
    forall k :: from <= k < to ==> IsSpace(s[k])
  }

  /** The first position at or after `i` that does not hold whitespace, or `|s|`. */
  function SkipSpace(s: string, i: nat): (r: nat)
    requires i <= |s|
    ensures i <= r <= |s| && AllSpace(s, i, r)
    ensures r == |s| || !IsSpace(s[r])
    decreases |s| - i
  {
    if i < |s| && IsSpace(s[i]) then SkipSpace(s, i + 1) else i
  }

  /** The end left once the whitespace before `j` is removed, going no lower than `lo`. */
  function TrimEnd(s: string, lo: nat, j: nat): (r: nat)
    requires lo <= j <= |s|
    ensures lo <= r <= j && AllSpace(s, r, j)
    ensures r == lo || !IsSpace(s[r - 1])
    decreases j
  {
    if lo < j && IsSpace(s[j - 1]) then TrimEnd(s, lo, j - 1) else j
  }

  /** `line.strip()`: the infix of `s` left once the whitespace at both ends
      is removed; only whitespace is removed, and none remains at either end. */
  function Strip(s: string): (r: string)
    ensures exists a, b :: 0 <= a <= b <= |s| && r == s[a..b] && AllSpace(s, 0, a) && AllSpace(s, b, |s|)
    ensures r == [] || (!IsSpace(r[0]) && !IsSpace(r[|r| - 1]))
  {
    var a := SkipSpace(s, 0);
    var b := TrimEnd(s, a, |s|);
    s[a..b]
  }

  /** Stripping twice is stripping once. */
  lemma StripIdempotent(s: string)
    ensures Strip(Strip(s)) == Strip(s)
  {
    var r := Strip(s);
    assert SkipSpace(r, 0) == 0;
    assert TrimEnd(r, 0, |r|) == |r|;
    assert r[0..|r|] == r;
  }

  /** What one iteration of the read loop did. A write failure or an
      exception from `parse_line` propagates out of `watch_file` and ends it. */
  datatype PollEvent =
    | Waited                    // empty read, under an hour idle
    | Retired                   // empty read, over an hour idle: the loop breaks
    | Skipped                   // a line that yields no record
    | Sent(record: Record)      // a record the sink accepted
    | WriteFailed(record: Record)
    | ParseFailed

  predicate Ends(e: PollEvent) {
    e.Retired? || e.WriteFailed? || e.ParseFailed?
  }

  predicate ConsumesLine(e: PollEvent) {
    !e.Waited? && !e.Retired?
  }

  /** The state of one running `watch_file`: the file position, `last_activity`
      and its parser's state. */
  datatype Tail = Tail(pos: nat, lastActivity: int, parser: ParserState)

  datatype PollOut = PollOut(tail: Tail, offsets: map<string, nat>, event: PollEvent)

  /** One iteration of `watch_file`'s loop for file `fname`: `now` is
      `datetime.now()` (after the sleep on an empty read), `utcNow` the clock
      `parse_line` falls back to, `sinkOk` whether the sink accepts a write. */
  function PollStep(t: Tail, offsets: map<string, nat>, fname: string, lines: seq<Line>,
                    now: int, utcNow: int, sinkOk: bool): (o: PollOut)
    ensures ConsumesLine(o.event) ==> o.tail.pos > t.pos && o.offsets == offsets[fname := o.tail.pos]
    ensures !ConsumesLine(o.event) ==> o.tail == t && o.offsets == offsets
  {
    match NextLine(lines, t.pos)
    case None =>
      PollOut(t, offsets, if now - t.lastActivity > IDLE_LIMIT then Retired else Waited)
    case Some(i) =>
      AfterRead(offsets, fname, lines[i], now, ParseStep(t.parser, Strip(lines[i].text), lines[i].decoded, utcNow), sinkOk)
  }

  /** An iteration that reads line `i` is `AfterRead` of that line's parse. */
  lemma PollStepOnRead(t: Tail, offsets: map<string, nat>, fname: string, lines: seq<Line>,
                       now: int, utcNow: int, sinkOk: bool, i: nat, r: ParseResult)
    requires NextLine(lines, t.pos) == Some(i)
    requires r == ParseStep(t.parser, Strip(lines[i].text), lines[i].decoded, utcNow)
    ensures PollStep(t, offsets, fname, lines, now, utcNow, sinkOk) == AfterRead(offsets, fname, lines[i], now, r, sinkOk)
  {
  }

  /** The rest of an iteration once `line` has been read and `parse_line`
      has given `r`: the offset and activity are recorded first, then a
      record, if any, is written. */
  function AfterRead(offsets: map<string, nat>, fname: string, line: Line, now: int,
                     r: ParseResult, sinkOk: bool): (o: PollOut)
    ensures o.tail == Tail(line.end, now, r.state) && o.offsets == offsets[fname := line.end]
    ensures ConsumesLine(o.event)
    ensures Ends(o.event) <==> r.outcome.Raised? || (r.outcome.Emit? && !sinkOk)
    ensures (o.event.Sent? || o.event.WriteFailed?) <==> r.outcome.Emit?
    ensures (o.event.Sent? || o.event.WriteFailed?) ==> o.event.record == r.outcome.record
    ensures o.event.Sent? ==> sinkOk
  {
    var t' := Tail(line.end, now, r.state);
    var offsets' := offsets[fname := line.end];
    match r.outcome
    case NoRecord => PollOut(t', offsets', Skipped)
    case Raised => PollOut(t', offsets', ParseFailed)
    case Emit(rec) => PollOut(t', offsets', if sinkOk then Sent(rec) else WriteFailed(rec))
  }

  /** One `watch_file` task: its file name, parser, file position and activity. */
  class FileWatch {
    const fname: string
    const parser: MppLogParser
    var pos: nat
    var lastActivity: int
    var finished: bool

    constructor (fname: string, parser: MppLogParser, pos: nat, now: int)
      ensures this.fname == fname && this.parser == parser
      ensures this.pos == pos && lastActivity == now && !finished
    {
      this.fname := fname;
      this.parser := parser;
      this.pos := pos;
      lastActivity := now;
      finished := false;
    }

    function State(): Tail
      reads this, parser, parser.creditCalc
    {
      Tail(pos, lastActivity, parser.State())
    }
  }

  /** Class `VRChatLogWatcher`: the shared offset map and the per-file parsers. */
  class LogWatcher {
    var offsets: map<string, nat>
    var parsers: map<string, MppLogParser>

    constructor (offsets: map<string, nat>)
      ensures this.offsets == offsets && parsers == map[]
    {
      this.offsets := offsets;
      parsers := map[];
    }

    /** The start of `watch_file`: `parsers.setdefault`, the offset lookup and the seek. */
    method StartWatch(fname: string, lines: seq<Line>, now: int) returns (w: FileWatch)
      modifies this
      ensures fresh(w) && w.fname == fname && !w.finished
      ensures offsets == old(offsets)
      ensures w.pos == StartPosition(old(offsets), fname, lines) && w.lastActivity == now
      ensures fname in old(parsers) ==>
        parsers == old(parsers) && w.parser == old(parsers[fname]) &&
        w.parser.State() == old(parsers[fname].State())
      ensures fname !in old(parsers) ==>
        fresh(w.parser) && parsers == old(parsers)[fname := w.parser] &&
        w.parser.State() == ParserState(None, [])
    {
      var candidate := new MppLogParser(fname);
      if fname !in parsers {
        parsers := parsers[fname := candidate];
      }
      var parser := parsers[fname];
      var start: nat;
      if fname in offsets {
        start := offsets[fname];
      } else {
        start := EndOfFile(lines);
      }
      w := new FileWatch(fname, parser, start, now);
    }

    /** One iteration of the read loop of `watch_file`. */
    method Poll(w: FileWatch, lines: seq<Line>, now: int, utcNow: int, sinkOk: bool) returns (e: PollEvent)
      requires !w.finished
      modifies this, w, w.parser, w.parser.creditCalc
      ensures var out := PollStep(old(w.State()), old(offsets), w.fname, lines, now, utcNow, sinkOk);
        w.State() == out.tail && offsets == out.offsets && e == out.event
      ensures w.finished <==> Ends(e)
      ensures parsers == old(parsers)
    {
      ghost var before := w.State();
      var next := NextLine(lines, w.pos);
      if next.None? {
        if now - w.lastActivity > IDLE_LIMIT {
          w.finished := true;
          return Retired;
        }
        return Waited;
      }
      var line := lines[next.value];
      ghost var offsets0 := offsets;
      offsets := offsets[w.fname := line.end];
      w.pos := line.end;
      w.lastActivity := now;
      var point := w.parser.ParseLine(Strip(line.text), line.decoded, utcNow);
      ghost var r := ParseResult(w.parser.State(), point);
      ghost var out := AfterRead(offsets0, w.fname, line, now, r, sinkOk);
      PollStepOnRead(before, offsets0, w.fname, lines, now, utcNow, sinkOk, next.value, r);
      match point {
        case NoRecord =>
          e := Skipped;
        case Raised =>
          w.finished := true;
          e := ParseFailed;
        case Emit(rec) =>
          if sinkOk {
            e := Sent(rec);
          } else {
            w.finished := true;
            e := WriteFailed(rec);
          }
      }
      assert w.State() == out.tail && offsets == out.offsets && e == out.event;
    }

    /** `Poll` on one input, seen through what the read loop needs: whether a
        line was read, where the file position and the offset map go, the
        activity time, and whether the task ended. The parser state and the
        record are left to `Poll`'s own contract. */
    method Advance(w: FileWatch, inp: PollInput) returns (e: PollEvent)
      requires !w.finished
      modifies this, w, w.parser, w.parser.creditCalc
      ensures w.finished <==> Ends(e)
      ensures ConsumesLine(e) <==> NextLine(inp.lines, old(w.pos)).Some?
      ensures ConsumesLine(e) ==>
        w.pos == inp.lines[NextLine(inp.lines, old(w.pos)).value].end && w.pos > old(w.pos) &&
        w.lastActivity == inp.now && offsets == old(offsets)[w.fname := w.pos]
      ensures !ConsumesLine(e) ==>
        w.State() == old(w.State()) && offsets == old(offsets) &&
        (e.Retired? <==> inp.now - old(w.lastActivity) > IDLE_LIMIT)
      ensures PollFits(inp, old(w.pos), old(w.lastActivity), e)
      ensures w.pos == PosAfter(inp, old(w.pos)) && w.lastActivity == ActAfter(inp, old(w.pos), old(w.lastActivity))
      ensures parsers == old(parsers)
    {
      e := Poll(w, inp.lines, inp.now, inp.utcNow, inp.sinkOk);
    }

    /** The read loop of `watch_file` over successive inputs: one poll per
        input until the task ends, so the loop stops exactly at the first
        event that ends it or when the inputs run out. `starts[k]` and
        `acts[k]` are the file position and `last_activity` at the `k`-th
        poll: each poll reads a line iff `readline` at its position returns
        one, retires iff it does not and the watcher has been idle over an
        hour, and leaves the position and activity that the next poll starts
        from. The positions after the lines consumed ascend from the start
        position, so no line is read twice and nothing before a resumed
        offset is read again; the file position ends at the last of them,
        and once a line has been consumed that is the file's stored offset,
        while every other key of the offset map is as before. */
    method WatchFile(w: FileWatch, inputs: seq<PollInput>)
      returns (events: seq<PollEvent>, consumed: seq<nat>, ghost starts: seq<nat>, ghost acts: seq<int>)
      requires !w.finished
      modifies this, w, w.parser, w.parser.creditCalc
      ensures |events| <= |inputs| && |starts| == |events| && |acts| == |events|
      ensures forall k :: 0 <= k < |events| - 1 ==> !Ends(events[k])
      ensures |events| < |inputs| ==> |events| > 0 && Ends(events[|events| - 1])
      ensures w.finished <==> |events| > 0 && Ends(events[|events| - 1])
      ensures |events| > 0 ==> starts[0] == old(w.pos) && acts[0] == old(w.lastActivity)
      ensures forall k :: 0 <= k < |events| ==> PollFits(inputs[k], starts[k], acts[k], events[k])
      ensures forall k :: 0 < k < |events| ==>
        starts[k] == PosAfter(inputs[k - 1], starts[k - 1]) &&
        acts[k] == ActAfter(inputs[k - 1], starts[k - 1], acts[k - 1])
      ensures |events| == 0 ==> w.pos == old(w.pos) && w.lastActivity == old(w.lastActivity)
      ensures |events| > 0 ==>
        w.pos == PosAfter(inputs[|events| - 1], starts[|events| - 1]) &&
        w.lastActivity == ActAfter(inputs[|events| - 1], starts[|events| - 1], acts[|events| - 1])
      ensures |consumed| == CountConsuming(events)
      ensures Ascending(old(w.pos), consumed)
      ensures forall k :: 0 <= k < |consumed| ==> old(w.pos) < consumed[k]
      ensures forall k :: 0 < k < |consumed| ==> consumed[k - 1] < consumed[k]
      ensures w.pos == LastOr(old(w.pos), consumed)
      ensures offsets == if |consumed| == 0 then old(offsets) else old(offsets)[w.fname := w.pos]
      ensures parsers == old(parsers)
    {
      events, consumed, starts, acts := [], [], [], [];
      while |events| < |inputs| && !w.finished
        invariant |events| <= |inputs| && |starts| == |events| && |acts| == |events|
        invariant forall k :: 0 <= k < |events| - 1 ==> !Ends(events[k])
        invariant w.finished <==> |events| > 0 && Ends(events[|events| - 1])
        invariant Trace(inputs, old(w.pos), old(w.lastActivity), events, starts, acts)
        invariant |events| == 0 ==> w.pos == old(w.pos) && w.lastActivity == old(w.lastActivity)
        invariant |events| > 0 ==>
          w.pos == PosAfter(inputs[|events| - 1], starts[|events| - 1]) &&
          w.lastActivity == ActAfter(inputs[|events| - 1], starts[|events| - 1], acts[|events| - 1])
        invariant |consumed| == CountConsuming(events)
        invariant Ascending(old(w.pos), consumed)
        invariant w.pos == LastOr(old(w.pos), consumed)
        invariant offsets == if |consumed| == 0 then old(offsets) else old(offsets)[w.fname := w.pos]
        invariant parsers == old(parsers)
        decreases |inputs| - |events|
      {
        var p, a := w.pos, w.lastActivity;
        var e := Advance(w, inputs[|events|]);
        TraceAppend(inputs, old(w.pos), old(w.lastActivity), events, starts, acts, e, p, a);
        if ConsumesLine(e) {
          AscendingAppend(old(w.pos), consumed, w.pos);
          consumed := consumed + [w.pos];
        }
        assert (events + [e])[..|events|] == events;
        events, starts, acts := events + [e], starts + [p], acts + [a];
      }
      TraceStart(inputs, old(w.pos), old(w.lastActivity), events, starts, acts);
      TraceFits(inputs, old(w.pos), old(w.lastActivity), events, starts, acts);
      TracePositions(inputs, old(w.pos), old(w.lastActivity), events, starts, acts);
      TraceActivity(inputs, old(w.pos), old(w.lastActivity), events, starts, acts);
      AscendingMeans(old(w.pos), consumed);
    }
  }

  // ---------------------------------------------------------------------------
  // Reading and offsets

  lemma {:induction false} NextLineFromIsFirst(lines: seq<Line>, pos: nat, i: nat)
    requires i <= |lines|
    requires forall k :: 0 <= k < i ==> lines[k].end <= pos
    ensures NextLineFrom(lines, pos, i).None? <==> forall k :: 0 <= k < |lines| ==> lines[k].end <= pos
    ensures NextLineFrom(lines, pos, i).Some? ==>
      var n := NextLineFrom(lines, pos, i).value;
      n < |lines| && lines[n].end > pos && forall k :: 0 <= k < n ==> lines[k].end <= pos
    decreases |lines| - i
  {
    if i < |lines| && lines[i].end <= pos {
      NextLineFromIsFirst(lines, pos, i + 1);
    }
  }

  /** `readline` at `pos` returns the first line ending after `pos`, and the
      empty string exactly when no line ends after `pos`. */
  lemma NextLineIsFirst(lines: seq<Line>, pos: nat)
    ensures NextLine(lines, pos).None? <==> forall k :: 0 <= k < |lines| ==> lines[k].end <= pos
    ensures NextLine(lines, pos).Some? ==>
      var n := NextLine(lines, pos).value;
      n < |lines| && lines[n].end > pos && forall k :: 0 <= k < n ==> lines[k].end <= pos
  {
    NextLineFromIsFirst(lines, pos, 0);
  }

  /** Resuming reads from the stored offset; without one, the watcher starts
      at end of file and none of the content already there is ever read. */
  lemma StartSkipsExistingContent(offsets: map<string, nat>, fname: string, lines: seq<Line>)
    requires WellFormed(lines)
    ensures fname in offsets ==> StartPosition(offsets, fname, lines) == offsets[fname]
    ensures fname !in offsets ==> NextLine(lines, StartPosition(offsets, fname, lines)).None?
  {
    if fname !in offsets {
      NextLineIsFirst(lines, EndOfFile(lines));
      forall k | 0 <= k < |lines|
        ensures lines[k].end <= EndOfFile(lines)
      {
        if k < |lines| - 1 {
          assert lines[k].end < lines[|lines| - 1].end;
        }
      }
    }
  }

  /** An empty read changes neither the offsets, nor the position, nor
      `last_activity`, nor the parser; it retires the watcher exactly when more
      than an hour has passed since the last line. */
  lemma EmptyReadChangesNothing(t: Tail, offsets: map<string, nat>, fname: string, lines: seq<Line>,
                                now: int, utcNow: int, sinkOk: bool)
    requires NextLine(lines, t.pos).None?
    ensures var out := PollStep(t, offsets, fname, lines, now, utcNow, sinkOk);
      out.tail == t && out.offsets == offsets && !ConsumesLine(out.event) &&
      (out.event.Retired? <==> now - t.lastActivity > IDLE_LIMIT)
  {
  }

  /** A watcher retires only after an empty read more than an hour after its
      last line. */
  lemma RetiresOnlyWhenIdle(t: Tail, offsets: map<string, nat>, fname: string, lines: seq<Line>,
                            now: int, utcNow: int, sinkOk: bool)
    ensures PollStep(t, offsets, fname, lines, now, utcNow, sinkOk).event.Retired? <==>
      (forall k :: 0 <= k < |lines| ==> lines[k].end <= t.pos) && now - t.lastActivity > IDLE_LIMIT
  {
    NextLineIsFirst(lines, t.pos);
  }

  /** A non-empty read records the position after the line under `fname`
      (the same as the new file position) before the line is parsed or
      written, so also when parsing raises or the write fails; it marks the
      activity time, and no other key of the offset map changes. */
  lemma LineReadRecordsOffset(t: Tail, offsets: map<string, nat>, fname: string, lines: seq<Line>,
                              now: int, utcNow: int, sinkOk: bool)
    requires NextLine(lines, t.pos).Some?
    ensures var out := PollStep(t, offsets, fname, lines, now, utcNow, sinkOk);
      var n := NextLine(lines, t.pos).value;
      n < |lines| && ConsumesLine(out.event) &&
      out.offsets == offsets[fname := lines[n].end] &&
      out.tail.pos == lines[n].end > t.pos &&
      out.tail.lastActivity == now
  {
    NextLineIsFirst(lines, t.pos);
  }

  /** Only the watched file's offset can change. */
  lemma OtherOffsetsUnchanged(t: Tail, offsets: map<string, nat>, fname: string, lines: seq<Line>,
                              now: int, utcNow: int, sinkOk: bool, other: string)
    requires other != fname
    ensures var out := PollStep(t, offsets, fname, lines, now, utcNow, sinkOk);
      (other in out.offsets <==> other in offsets) &&
      (other in offsets ==> out.offsets[other] == offsets[other])
  {
  }

  /** A record goes to the sink exactly when `parse_line` returns one for the
      line read; the loop goes on only after a successful write or no record. */
  lemma ForwardsOnlyParsedRecords(t: Tail, offsets: map<string, nat>, fname: string, lines: seq<Line>,
                                  now: int, utcNow: int, sinkOk: bool, rec: Record)
    ensures var out := PollStep(t, offsets, fname, lines, now, utcNow, sinkOk);
      (out.event == Sent(rec) || out.event == WriteFailed(rec)) <==>
        (NextLine(lines, t.pos).Some? &&
         var n := NextLine(lines, t.pos).value;
         n < |lines| &&
         ParseStep(t.parser, Strip(lines[n].text), lines[n].decoded, utcNow).outcome == Emit(rec))
    ensures var out := PollStep(t, offsets, fname, lines, now, utcNow, sinkOk);
      out.event.Sent? ==> sinkOk
  {
    NextLineIsFirst(lines, t.pos);
  }

  /** A line whose write failed has its offset recorded, so a watcher that
      is restarted on the same file (and one that keeps going) never reads it
      again: the record is not resent. */
  lemma FailedWriteIsNotRetried(t: Tail, offsets: map<string, nat>, fname: string, lines: seq<Line>,
                                now: int, utcNow: int, rec: Record)
    requires WellFormed(lines)
    requires PollStep(t, offsets, fname, lines, now, utcNow, false).event == WriteFailed(rec)
    ensures var out := PollStep(t, offsets, fname, lines, now, utcNow, false);
      var n := NextLine(lines, t.pos).value;
      var restart := StartPosition(out.offsets, fname, lines);
      restart == lines[n].end &&
      (NextLine(lines, restart).Some? ==> NextLine(lines, restart).value > n)
  {
    var out := PollStep(t, offsets, fname, lines, now, utcNow, false);
    assert NextLine(lines, t.pos).Some?;
    var n := NextLine(lines, t.pos).value;
    assert out.offsets == offsets[fname := lines[n].end];
  }

  // ---------------------------------------------------------------------------
  // The read loop

  datatype PollInput = PollInput(lines: seq<Line>, now: int, utcNow: int, sinkOk: bool)

  /** The file position after a poll of `inp` from `pos`: the end of the line read, if any. */
  function PosAfter(inp: PollInput, pos: nat): nat {
    match NextLine(inp.lines, pos)
    case None => pos
    case Some(i) => inp.lines[i].end
  }

  /** `last_activity` after a poll of `inp` from `pos`: its `now` if a line was read. */
  function ActAfter(inp: PollInput, pos: nat, act: int): int {
    if NextLine(inp.lines, pos).Some? then inp.now else act
  }

  /** A poll of `inp` from position `pos` with `last_activity` `act` that gave
      `e`: it read a line iff `readline` returned one, and it retired iff it
      did not and the watcher had been idle more than an hour. */
  predicate PollFits(inp: PollInput, pos: nat, act: int, e: PollEvent) {
    (ConsumesLine(e) <==> NextLine(inp.lines, pos).Some?) &&
    (e.Retired? <==> NextLine(inp.lines, pos).None? && inp.now - act > IDLE_LIMIT)
  }

  /** `events` came from polling `inputs` in order, starting at position `pos`
      with `last_activity` `act`: `starts[k]` and `acts[k]` are the position
      and activity at the `k`-th poll, each one what the poll before left. */
  predicate Trace(inputs: seq<PollInput>, pos: nat, act: int, events: seq<PollEvent>, starts: seq<nat>, acts: seq<int>)
    decreases |events|
  {
    |starts| == |events| && |acts| == |events| && |events| <= |inputs| &&
    (|events| > 0 ==>
       var n := |events| - 1;
       Trace(inputs, pos, act, events[..n], starts[..n], acts[..n]) &&
       PollFits(inputs[n], starts[n], acts[n], events[n]) &&
       starts[n] == (if n == 0 then pos else PosAfter(inputs[n - 1], starts[n - 1])) &&
       acts[n] == (if n == 0 then act else ActAfter(inputs[n - 1], starts[n - 1], acts[n - 1])))
  }

  /** One more poll extends a trace. */
  lemma TraceAppend(inputs: seq<PollInput>, pos: nat, act: int, events: seq<PollEvent>,
                    starts: seq<nat>, acts: seq<int>, e: PollEvent, p: nat, a: int)
    requires Trace(inputs, pos, act, events, starts, acts) && |events| < |inputs|
    requires PollFits(inputs[|events|], p, a, e)
    requires |events| == 0 ==> p == pos && a == act
    requires |events| > 0 ==>
      p == PosAfter(inputs[|events| - 1], starts[|events| - 1]) &&
      a == ActAfter(inputs[|events| - 1], starts[|events| - 1], acts[|events| - 1])
    ensures Trace(inputs, pos, act, events + [e], starts + [p], acts + [a])
  {
    assert (events + [e])[..|events|] == events;
    assert (starts + [p])[..|events|] == starts;
    assert (acts + [a])[..|events|] == acts;
  }

  /** The first poll of a trace starts where the trace does. */
  lemma {:induction false} TraceStart(inputs: seq<PollInput>, pos: nat, act: int, events: seq<PollEvent>,
                                      starts: seq<nat>, acts: seq<int>)
    requires Trace(inputs, pos, act, events, starts, acts)
    ensures |events| > 0 ==> starts[0] == pos && acts[0] == act
    decreases |events|
  {
    if |events| > 1 {
      var n := |events| - 1;
      TraceStart(inputs, pos, act, events[..n], starts[..n], acts[..n]);
      assert starts[..n][0] == starts[0] && acts[..n][0] == acts[0];
    }
  }

  /** Every poll of a trace fits its input. */
  lemma {:induction false} TraceFits(inputs: seq<PollInput>, pos: nat, act: int, events: seq<PollEvent>,
                                     starts: seq<nat>, acts: seq<int>)
    requires Trace(inputs, pos, act, events, starts, acts)
    ensures forall k :: 0 <= k < |events| ==> PollFits(inputs[k], starts[k], acts[k], events[k])
    decreases |events|
  {
    if |events| > 0 {
      var n := |events| - 1;
      TraceFits(inputs, pos, act, events[..n], starts[..n], acts[..n]);
      assert forall k :: 0 <= k < n ==> events[..n][k] == events[k] && starts[..n][k] == starts[k] && acts[..n][k] == acts[k];
    }
  }

  /** Every poll of a trace but the first starts at the position the one before left. */
  lemma {:induction false} TracePositions(inputs: seq<PollInput>, pos: nat, act: int, events: seq<PollEvent>,
                                          starts: seq<nat>, acts: seq<int>)
    requires Trace(inputs, pos, act, events, starts, acts)
    ensures forall k :: 0 < k < |events| ==> starts[k] == PosAfter(inputs[k - 1], starts[k - 1])
    decreases |events|
  {
    if |events| > 0 {
      var n := |events| - 1;
      TracePositions(inputs, pos, act, events[..n], starts[..n], acts[..n]);
      assert forall k :: 0 <= k < n ==> starts[..n][k] == starts[k];
    }
  }

  /** Every poll of a trace but the first starts with the activity time the one before left. */
  lemma {:induction false} TraceActivity(inputs: seq<PollInput>, pos: nat, act: int, events: seq<PollEvent>,
                                         starts: seq<nat>, acts: seq<int>)
    requires Trace(inputs, pos, act, events, starts, acts)
    ensures forall k :: 0 < k < |events| ==> acts[k] == ActAfter(inputs[k - 1], starts[k - 1], acts[k - 1])
    decreases |events|
  {
    if |events| > 0 {
      var n := |events| - 1;
      TraceActivity(inputs, pos, act, events[..n], starts[..n], acts[..n]);
      assert forall k :: 0 <= k < n ==> starts[..n][k] == starts[k] && acts[..n][k] == acts[k];
    }
  }

  /** How many of `events` read a line. */
  function CountConsuming(events: seq<PollEvent>): nat
    decreases |events|
  {
    if |events| == 0 then 0
    else CountConsuming(events[..|events| - 1]) + (if ConsumesLine(events[|events| - 1]) then 1 else 0)
  }

  /** `s` is strictly increasing and starts above `start`. */
  predicate Ascending(start: nat, s: seq<nat>)
    decreases |s|
  {
    |s| == 0 || (start < s[0] && Ascending(s[0], s[1..]))
  }

  /** The last element of `s`, or `start` when `s` is empty. */
  function LastOr(start: nat, s: seq<nat>): nat {
    if |s| == 0 then start else s[|s| - 1]
  }

  /** What `Ascending` means: every element exceeds `start` and each exceeds
      the one before it, so no position is visited twice. */
  lemma {:induction false} AscendingMeans(start: nat, s: seq<nat>)
    requires Ascending(start, s)
    ensures forall k :: 0 <= k < |s| ==> start < s[k]
    ensures forall k :: 0 < k < |s| ==> s[k - 1] < s[k]
    decreases |s|
  {
    if |s| > 0 {
      AscendingMeans(s[0], s[1..]);
      assert forall k :: 0 < k < |s| ==> s[k] == s[1..][k - 1];
    }
  }

  /** An ascending sequence stays ascending when a position beyond its last
      one is appended. */
  lemma {:induction false} AscendingAppend(start: nat, s: seq<nat>, p: nat)
    requires Ascending(start, s) && LastOr(start, s) < p
    ensures Ascending(start, s + [p])
    decreases |s|
  {
    if |s| == 0 {
      assert ([] + [p])[1..] == [];
    } else {
      AscendingAppend(s[0], s[1..], p);
      assert (s + [p])[1..] == s[1..] + [p];
    }
  }

  // ---------------------------------------------------------------------------
  // The supervisor: one scan of `run`

  /** An entry of the watched directory. */
  datatype DirEntry = DirEntry(name: string, isFile: bool)

  /** The registry's view of a task: running, or `done()`. */
  datatype TaskState = Running | Done

  /** The glob `output_log_*.txt`. */
  predicate MatchesLogPattern(name: string) {
    |name| >= |LOG_NAME_PREFIX| + |LOG_NAME_SUFFIX| &&
    LOG_NAME_PREFIX <= name && name[|name| - |LOG_NAME_SUFFIX|..] == LOG_NAME_SUFFIX
  }

  /** A scan starts a task for a name with no task or a finished one. */
  predicate NeedsTask(tasks: map<string, TaskState>, name: string) {
    name !in tasks || tasks[name] == Done
  }

  predicate Eligible(e: DirEntry) {
    MatchesLogPattern(e.name) && e.isFile
  }

  datatype ScanOut = ScanOut(tasks: map<string, TaskState>, started: seq<string>)

  function ScanFrom(entries: seq<DirEntry>, tasks: map<string, TaskState>): ScanOut
    decreases |entries|
  {
    if |entries| == 0 then ScanOut(tasks, [])
    else if Eligible(entries[0]) && NeedsTask(tasks, entries[0].name) then
      var r := ScanFrom(entries[1..], tasks[entries[0].name := Running]);
      ScanOut(r.tasks, [entries[0].name] + r.started)
    else ScanFrom(entries[1..], tasks)
  }

  /** One pass over the directory listing: the new registry and the names
      for which a watcher task is created, in listing order. */
  method Scan(entries: seq<DirEntry>, tasks: map<string, TaskState>) returns (tasks': map<string, TaskState>, started: seq<string>)
    ensures ScanOut(tasks', started) == ScanFrom(entries, tasks)
    ensures forall n :: n in tasks && tasks[n] == Running ==> n in tasks' && tasks'[n] == Running && n !in started
    ensures forall i :: 0 <= i < |entries| && Eligible(entries[i]) ==>
      entries[i].name in tasks' && tasks'[entries[i].name] == Running
    ensures forall k :: 0 <= k < |started| ==>
      NeedsTask(tasks, started[k]) && exists i :: 0 <= i < |entries| && entries[i].name == started[k] && Eligible(entries[i])
    ensures Distinct(started)
    ensures forall n :: n !in started ==> (n in tasks' <==> n in tasks) && (n in tasks ==> tasks'[n] == tasks[n])
  {
    tasks' := tasks;
    started := [];
    for i := 0 to |entries|
      invariant ScanFrom(entries, tasks) ==
        var r := ScanFrom(entries[i..], tasks'); ScanOut(r.tasks, started + r.started)
    {
      var e := entries[i];
      assert entries[i..][1..] == entries[i + 1..];
      if !MatchesLogPattern(e.name) || !e.isFile {
        continue;
      }
      if NeedsTask(tasks', e.name) {
        tasks' := tasks'[e.name := Running];
        started := started + [e.name];
      }
    }
    assert ScanFrom(entries[|entries|..], tasks') == ScanOut(tasks', []);
    assert started + [] == started;
    forall n | n in tasks && tasks[n] == Running
      ensures n in tasks' && tasks'[n] == Running && n !in started
    {
      ScanKeepsRunning(entries, tasks, n);
    }
    forall i | 0 <= i < |entries| && Eligible(entries[i])
      ensures entries[i].name in tasks' && tasks'[entries[i].name] == Running
    {
      ScanCoversEligible(entries, tasks, i);
    }
    forall k | 0 <= k < |started|
      ensures NeedsTask(tasks, started[k]) &&
        exists i :: 0 <= i < |entries| && entries[i].name == started[k] && Eligible(entries[i])
    {
      ScanStartsOnlyNeeded(entries, tasks, k);
    }
    ScanStartsOnce(entries, tasks);
    forall n | n !in started
      ensures (n in tasks' <==> n in tasks) && (n in tasks ==> tasks'[n] == tasks[n])
    {
      ScanLeavesOthers(entries, tasks, n);
    }
  }

  /** A running task is never replaced: it stays running and its name is
      not started again. */
  lemma {:induction false} ScanKeepsRunning(entries: seq<DirEntry>, tasks: map<string, TaskState>, n: string)
    requires n in tasks && tasks[n] == Running
    ensures var r := ScanFrom(entries, tasks);
      n in r.tasks && r.tasks[n] == Running && n !in r.started
    decreases |entries|
  {
    if |entries| > 0 {
      if Eligible(entries[0]) && NeedsTask(tasks, entries[0].name) {
        ScanKeepsRunning(entries[1..], tasks[entries[0].name := Running], n);
      } else {
        ScanKeepsRunning(entries[1..], tasks, n);
      }
    }
  }

  /** After a scan every eligible entry (a regular file matching the
      pattern) has a running task. */
  lemma {:induction false} ScanCoversEligible(entries: seq<DirEntry>, tasks: map<string, TaskState>, i: nat)
    requires i < |entries| && Eligible(entries[i])
    ensures var r := ScanFrom(entries, tasks);
      entries[i].name in r.tasks && r.tasks[entries[i].name] == Running
    decreases |entries|
  {
    var e := entries[0];
    var tasks1 := if Eligible(e) && NeedsTask(tasks, e.name) then tasks[e.name := Running] else tasks;
    if i == 0 {
      ScanKeepsRunning(entries[1..], tasks1, e.name);
    } else {
      assert entries[1..][i - 1] == entries[i];
      ScanCoversEligible(entries[1..], tasks1, i - 1);
    }
  }

  /** A task is started only for an eligible entry whose name had no task
      or a finished one. */
  lemma {:induction false} ScanStartsOnlyNeeded(entries: seq<DirEntry>, tasks: map<string, TaskState>, k: nat)
    requires k < |ScanFrom(entries, tasks).started|
    ensures var n := ScanFrom(entries, tasks).started[k];
      NeedsTask(tasks, n) && exists i :: 0 <= i < |entries| && entries[i].name == n && Eligible(entries[i])
    decreases |entries|
  {
    var e := entries[0];
    var rest := entries[1..];
    if Eligible(e) && NeedsTask(tasks, e.name) {
      if k == 0 {
        assert entries[0].name == ScanFrom(entries, tasks).started[0];
      } else {
        var tasks1 := tasks[e.name := Running];
        ScanStartsOnlyNeeded(rest, tasks1, k - 1);
        var n := ScanFrom(rest, tasks1).started[k - 1];
        var i :| 0 <= i < |rest| && rest[i].name == n && Eligible(rest[i]);
        assert entries[i + 1] == rest[i];
      }
    } else {
      ScanStartsOnlyNeeded(rest, tasks, k);
      var n := ScanFrom(rest, tasks).started[k];
      var i :| 0 <= i < |rest| && rest[i].name == n && Eligible(rest[i]);
      assert entries[i + 1] == rest[i];
    }
  }

  /** No name occurs twice in `s`. */
  predicate Distinct(s: seq<string>) {
    forall j, k :: 0 <= j < k < |s| ==> s[j] != s[k]
  }

  /** No name is started twice in one scan. */
  lemma {:induction false} ScanStartsOnce(entries: seq<DirEntry>, tasks: map<string, TaskState>)
    ensures Distinct(ScanFrom(entries, tasks).started)
    decreases |entries|
  {
    if |entries| > 0 {
      var e := entries[0];
      if Eligible(e) && NeedsTask(tasks, e.name) {
        var tasks1 := tasks[e.name := Running];
        ScanStartsOnce(entries[1..], tasks1);
        ScanKeepsRunning(entries[1..], tasks1, e.name);
        var r := ScanFrom(entries[1..], tasks1);
        var started := [e.name] + r.started;
        forall j, k | 0 <= j < k < |started|
          ensures started[j] != started[k]
        {
          assert started[k] == r.started[k - 1];
          if j > 0 {
            assert started[j] == r.started[j - 1];
          }
        }
      } else {
        ScanStartsOnce(entries[1..], tasks);
      }
    }
  }

  /** A name for which no task is started keeps its registry entry, or
      its absence. */
  lemma {:induction false} ScanLeavesOthers(entries: seq<DirEntry>, tasks: map<string, TaskState>, n: string)
    requires n !in ScanFrom(entries, tasks).started
    ensures var r := ScanFrom(entries, tasks);
      (n in r.tasks <==> n in tasks) && (n in tasks ==> r.tasks[n] == tasks[n])
    decreases |entries|
  {
    if |entries| > 0 {
      var e := entries[0];
      if Eligible(e) && NeedsTask(tasks, e.name) {
        assert n != e.name;
        ScanLeavesOthers(entries[1..], tasks[e.name := Running], n);
      } else {
        ScanLeavesOthers(entries[1..], tasks, n);
      }
    }
  }
}
