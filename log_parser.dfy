/**
 * Model of app/analysis/log_parser.py: `MppLogParser`, one per log file.
 *
 * URL splitting, percent-decoding, JSON decoding and `strptime` with the
 * time-zone conversion are library calls; their results for a line are an
 * input (`Decoded`). The decoded JSON object is the sequence of its
 * (key, value) items in the dict's iteration order. The record (an
 * influxdb `Point`) is modelled by its measurement name, `user` tag,
 * timestamp and fields in the order they were added.
 */
module Parser {
  import opened Wrappers
  import opened Estimator

  const SAVEDATA_URL_PREFIX: string := "https://push.trap.games/api/v3/data"
  const TIMESTAMP_PREFIX: string := "[DSM SaveURL] Generated URL"
  const MEASUREMENT: string := "mpp-savedata"
  const CREDIT_KEY: string := "credit_all"
  const DELTA_FIELD: string := "credit_all_delta_1m"
  const NESTED_PREFIX: string := "dc_"

  /** A decoded JSON value. */
  datatype Json =
    | JInt(i: int)
    | JFloat(f: real)
    | JBool(b: bool)
    | JStr(s: string)
    | JNull
    | JList(items: seq<Json>)
    | JObj(members: seq<(string, Json)>)

  /** The value of a record field: what `Point.field` is given. */
  datatype FieldValue = FInt(i: int) | FFloat(f: real) | FBool(b: bool) | FStr(s: string)

  type Field = (string, FieldValue)

  /** A `Point("mpp-savedata").tag("user", user).time(time)` with its fields. */
  datatype Record = Record(measurement: string, user: string, time: int, fields: seq<Field>)

  /** What the libraries make of one line: the instant (UTC microseconds) that
      `strptime` and the zone conversion give for its leading `YYYY.MM.DD
      HH:MM:SS` text (`None` when they raise); the JSON object decoded from the
      `data` query parameter, `{}` when it is absent (`None` when `json.loads`
      raises `JSONDecodeError`); and the `user_id` query parameter, `""` when absent. */
  datatype Decoded = Decoded(stamp: Option<int>, data: Option<seq<(string, Json)>>, userId: string)

  /** `parse_line` returns `None`, returns a record, or raises (the estimator's TypeError). */
  datatype ParseOutcome = NoRecord | Emit(record: Record) | Raised

  /** The parser's mutable state: `last_timestamp` and the estimator's history. */
  datatype ParserState = ParserState(lastTimestamp: Option<int>, history: seq<Sample>)

  datatype ParseResult = ParseResult(state: ParserState, outcome: ParseOutcome)

  /** Python's `sub in s` on strings. */
  predicate Contains(s: string, sub: string)
    decreases |s|
  {
    sub <= s || (|s| > 0 && Contains(s[1..], sub))
  }

  predicate IsDigit(c: char) {
    '0' <= c <= '9'
  }

  predicate DigitsAt(s: string, from: nat, n: nat)
    requires from + n <= |s|
  {
    forall k :: from <= k < from + n ==> IsDigit(s[k])
  }

  /** The regular expression `^(\d{4}\.\d{2}\.\d{2} \d{2}:\d{2}:\d{2})`. */
  predicate TimestampShape(line: string) {
    |line| >= 19 &&
    DigitsAt(line, 0, 4) && line[4] == '.' &&
    DigitsAt(line, 5, 2) && line[7] == '.' &&
    DigitsAt(line, 8, 2) && line[10] == ' ' &&
    DigitsAt(line, 11, 2) && line[13] == ':' &&
    DigitsAt(line, 14, 2) && line[16] == ':' &&
    DigitsAt(line, 17, 2)
  }

  /** `last_timestamp` after `_parse_timestamp_line(line)`, where `stamp` is
      what `strptime` and the zone conversion make of the matched text. */
  function NextTimestamp(last: Option<int>, line: string, stamp: Option<int>): (r: Option<int>)
    ensures r != last ==> TimestampShape(line) && r == stamp && stamp.Some?
    ensures TimestampShape(line) && stamp.Some? ==> r == stamp
  {
    if !TimestampShape(line) then last
    else match stamp
      case Some(_) => stamp
      case None => last
  }

  /** `isinstance(v, (int, float, str))` (a Python bool is an int) and the field value it yields. */
  function ScalarField(v: Json): Option<FieldValue> {
    match v
    case JInt(i) => Some(FInt(i))
    case JFloat(f) => Some(FFloat(f))
    case JBool(b) => Some(FBool(b))
    case JStr(s) => Some(FStr(s))
    case _ => None
  }

  /** The fields contributed by the scalar children of a `dc_` object `k`. */
  function NestedFields(k: string, children: seq<(string, Json)>): seq<Field>
    decreases |children|
  {
    if |children| == 0 then []
    else
      (match ScalarField(children[0].1)
       case Some(fv) => [(k + "_" + children[0].0, fv)]
       case None => [])
      + NestedFields(k, children[1..])
  }

  /** The fields contributed by one top-level item. */
  function EntryFields(k: string, v: Json): seq<Field> {
    match ScalarField(v)
    case Some(fv) => [(k, fv)]
    case None => if v.JObj? && NESTED_PREFIX <= k then NestedFields(k, v.members) else []
  }

  /** The field-building loop over `data.items()`. */
  function BuildFields(data: seq<(string, Json)>): seq<Field>
    decreases |data|
  {
    if |data| == 0 then [] else EntryFields(data[0].0, data[0].1) + BuildFields(data[1..])
  }

  /** `data.get(key)`: the value under the first item with that key. */
  function Lookup(data: seq<(string, Json)>, key: string): Option<Json>
    decreases |data|
  {
    if |data| == 0 then None
    else if data[0].0 == key then Some(data[0].1)
    else Lookup(data[1..], key)
  }

  /** The credit handed to `credit_calc.add`, `None` when `credit_all` is
      absent or null (then `add` is not called). */
  function CreditOf(data: seq<(string, Json)>): Option<Credit> {
    match Lookup(data, CREDIT_KEY)
    case None => None
    case Some(v) =>
      match v
      case JNull => None
      case JInt(i) => Some(Num(i as real))
      case JFloat(f) => Some(Num(f))
      case JBool(b) => Some(Num(if b then 1.0 else 0.0))
      case _ => Some(NonNumeric)
  }

  /** `data.get(key)` finds a value exactly when some item has that key, and
      then it is the value of the first such item. */
  lemma {:induction false} LookupFindsFirst(data: seq<(string, Json)>, key: string)
    ensures Lookup(data, key).None? <==> forall i :: 0 <= i < |data| ==> data[i].0 != key
    ensures Lookup(data, key).Some? ==>
      exists i :: 0 <= i < |data| && data[i] == (key, Lookup(data, key).value) &&
        forall j :: 0 <= j < i ==> data[j].0 != key
    decreases |data|
  {
    if |data| > 0 && data[0].0 != key {
      LookupFindsFirst(data[1..], key);
      assert forall i :: 0 < i < |data| ==> data[i] == data[1..][i - 1];
      if Lookup(data, key).Some? {
        var i :| 0 <= i < |data[1..]| && data[1..][i] == (key, Lookup(data, key).value) &&
          forall j :: 0 <= j < i ==> data[1..][j].0 != key;
        assert data[i + 1] == data[1..][i];
      }
    }
  }

  /** The estimator is fed exactly when `credit_all` is present and not
      null; an int, float or bool is a number, a string, list or object is not. */
  lemma CreditFedWhenPresent(data: seq<(string, Json)>)
    ensures CreditOf(data).None? <==>
      (forall i :: 0 <= i < |data| ==> data[i].0 != CREDIT_KEY) || Lookup(data, CREDIT_KEY) == Some(JNull)
    ensures CreditOf(data).Some? ==>
      (CreditOf(data).value.Num? <==> ScalarField(Lookup(data, CREDIT_KEY).value).Some? && !Lookup(data, CREDIT_KEY).value.JStr?)
  {
    LookupFindsFirst(data, CREDIT_KEY);
  }

  /** `self.last_timestamp or datetime.now(tz=UTC)`. */
  function RecordTime(last: Option<int>, utcNow: int): int {
    match last
    case Some(t) => t
    case None => utcNow
  }

  /** One `parse_line(line)` on state `s`, `utcNow` being the wall clock. */
  function ParseStep(s: ParserState, line: string, dec: Decoded, utcNow: int): ParseResult {
    if Contains(line, TIMESTAMP_PREFIX) then
      ParseResult(s.(lastTimestamp := NextTimestamp(s.lastTimestamp, line, dec.stamp)), NoRecord)
    else if !Contains(line, SAVEDATA_URL_PREFIX) then
      ParseResult(s, NoRecord)
    else match dec.data
      case None => ParseResult(s, NoRecord)
      case Some(data) =>
        var time := RecordTime(s.lastTimestamp, utcNow);
        var fields := BuildFields(data);
        match CreditOf(data)
        case None => ParseResult(s, Emit(Record(MEASUREMENT, dec.userId, time, fields)))
        case Some(c) =>
          var h := Retained(s.history, c, time);
          match Outcome(h, c, time)
          case NoDelta => ParseResult(s.(history := h), Emit(Record(MEASUREMENT, dec.userId, time, fields)))
          case Delta(d) =>
            ParseResult(s.(history := h), Emit(Record(MEASUREMENT, dec.userId, time, fields + [(DELTA_FIELD, FInt(d))])))
          case TypeError => ParseResult(s.(history := h), Raised)
  }

  /** Class `MppLogParser`: `last_timestamp` and the estimator `credit_calc`. */
  class MppLogParser {
    const fname: string
    const creditCalc: CreditSpeed
    var lastTimestamp: Option<int>

    function State(): ParserState
      reads this, creditCalc
    {
      ParserState(lastTimestamp, creditCalc.history)
    }

    constructor (fname: string)
      ensures this.fname == fname && fresh(creditCalc)
      ensures State() == ParserState(None, [])
    {
      this.fname := fname;
      creditCalc := new CreditSpeed();
      lastTimestamp := None;
    }

    /** `_parse_timestamp_line`. */
    method ParseTimestampLine(line: string, stamp: Option<int>)
      modifies this
      ensures lastTimestamp == NextTimestamp(old(lastTimestamp), line, stamp)
    {
      if !TimestampShape(line) {
        return;
      }
      match stamp {
        case Some(t) => lastTimestamp := Some(t);
        case None =>
      }
    }

    /** `parse_line`. */
    method ParseLine(line: string, dec: Decoded, utcNow: int) returns (p: ParseOutcome)
      modifies this, creditCalc
      ensures ParseResult(State(), p) == ParseStep(old(State()), line, dec, utcNow)
    {
      if Contains(line, TIMESTAMP_PREFIX) {
        ParseTimestampLine(line, dec.stamp);
        return NoRecord;
      }
      if !Contains(line, SAVEDATA_URL_PREFIX) {
        return NoRecord;
      }
      if dec.data.None? {
        return NoRecord;
      }
      var data := dec.data.value;
      var creditAll := CreditOf(data);
      var timestamp := if lastTimestamp.Some? then lastTimestamp.value else utcNow;
      var fields := BuildFields(data);
      if creditAll.Some? {
        var delta := creditCalc.Add(creditAll.value, timestamp);
        match delta {
          case Delta(d) => fields := fields + [(DELTA_FIELD, FInt(d))];
          case TypeError => return Raised;
          case NoDelta =>
        }
      }
      p := Emit(Record(MEASUREMENT, dec.userId, timestamp, fields));
    }
  }

  // ---------------------------------------------------------------------------
  // Field flattening

  /** Independent statement of which fields an item yields: a scalar under
      its own key, or a scalar child of a `dc_` object under `{k}_{sub_k}`. */
  ghost predicate FieldFromEntry(e: (string, Json), f: Field) {
    (ScalarField(e.1) == Some(f.1) && f.0 == e.0) ||
    (e.1.JObj? && NESTED_PREFIX <= e.0 &&
     exists j :: 0 <= j < |e.1.members| &&
       ScalarField(e.1.members[j].1) == Some(f.1) && f.0 == e.0 + "_" + e.1.members[j].0)
  }

  lemma {:induction false} NestedFieldsMembers(k: string, children: seq<(string, Json)>, f: Field)
    ensures f in NestedFields(k, children) <==>
      exists j :: 0 <= j < |children| && ScalarField(children[j].1) == Some(f.1) && f.0 == k + "_" + children[j].0
    decreases |children|
  {
    if |children| > 0 {
      NestedFieldsMembers(k, children[1..], f);
      assert forall j :: 0 < j < |children| ==> children[j] == children[1..][j - 1];
      if exists j :: 0 <= j < |children| && ScalarField(children[j].1) == Some(f.1) && f.0 == k + "_" + children[j].0 {
        var j :| 0 <= j < |children| && ScalarField(children[j].1) == Some(f.1) && f.0 == k + "_" + children[j].0;
        if j > 0 {
          assert children[1..][j - 1] == children[j];
        }
      }
    }
  }

  /** A field is in the result exactly when some item of `data` yields it:
      top-level scalars keep their key, scalar children of `dc_` objects are
      named `{k}_{sub_k}`, and nothing else (other objects, lists, nulls,
      non-scalar children) yields a field. */
  lemma {:induction false} FieldsAreFlattening(data: seq<(string, Json)>, f: Field)
    ensures f in BuildFields(data) <==> exists i :: 0 <= i < |data| && FieldFromEntry(data[i], f)
    decreases |data|
  {
    if |data| > 0 {
      FieldsAreFlattening(data[1..], f);
      var e := data[0];
      if e.1.JObj? {
        NestedFieldsMembers(e.0, e.1.members, f);
      }
      assert f in EntryFields(e.0, e.1) <==> FieldFromEntry(e, f);
      assert forall i :: 0 < i < |data| ==> data[i] == data[1..][i - 1];
      if exists i :: 0 <= i < |data| && FieldFromEntry(data[i], f) {
        var i :| 0 <= i < |data| && FieldFromEntry(data[i], f);
        if i > 0 {
          assert FieldFromEntry(data[1..][i - 1], f);
        }
      }
    }
  }

  /** Fields come out in item order: the fields of a concatenation are the
      concatenation of the fields. */
  lemma {:induction false} BuildFieldsAppend(a: seq<(string, Json)>, b: seq<(string, Json)>)
    ensures BuildFields(a + b) == BuildFields(a) + BuildFields(b)
    decreases |a|
  {
    if |a| > 0 {
      assert (a + b)[1..] == a[1..] + b;
      BuildFieldsAppend(a[1..], b);
    } else {
      assert a + b == b;
    }
  }

  /** The payload `{"credit_all": 50, "dc_x": {"a": 1, "b": "s"}, "skip": {"c": 2}}`
      yields `credit_all=50, dc_x_a=1, dc_x_b="s"` and nothing from `skip`. */
  lemma FlatteningExample()
    ensures BuildFields([("credit_all", JInt(50)),
                         ("dc_x", JObj([("a", JInt(1)), ("b", JStr("s"))])),
                         ("skip", JObj([("c", JInt(2))]))])
         == [("credit_all", FInt(50)), ("dc_x_a", FInt(1)), ("dc_x_b", FStr("s"))]
  {
    var data := [("credit_all", JInt(50)),
                 ("dc_x", JObj([("a", JInt(1)), ("b", JStr("s"))])),
                 ("skip", JObj([("c", JInt(2))]))];
    assert NESTED_PREFIX <= "dc_x";
    assert "skip"[0] != NESTED_PREFIX[0];
    assert data[1..] == [data[1], data[2]];
    assert data[1..][1..] == [data[2]];
    assert [data[2]][1..] == [];
    assert [("a", JInt(1)), ("b", JStr("s"))][1..] == [("b", JStr("s"))];
    assert [("b", JStr("s"))][1..] == [];
    assert "dc_x" + "_" + "a" == "dc_x_a";
    assert "dc_x" + "_" + "b" == "dc_x_b";
    assert NestedFields("dc_x", [("b", JStr("s"))]) == [("dc_x_b", FStr("s"))];
    assert NestedFields("dc_x", [("a", JInt(1)), ("b", JStr("s"))]) == [("dc_x_a", FInt(1)), ("dc_x_b", FStr("s"))];
  }

  // ---------------------------------------------------------------------------
  // parse_line

  /** A line with the timestamp marker never yields a record and never
      touches the estimator, even when it also holds the save-data URL;
      `last_timestamp` changes only to a successfully parsed leading timestamp. */
  lemma TimestampLineNeverEmits(s: ParserState, line: string, dec: Decoded, utcNow: int)
    requires Contains(line, TIMESTAMP_PREFIX)
    ensures var r := ParseStep(s, line, dec, utcNow);
      r.outcome == NoRecord && r.state.history == s.history &&
      (r.state.lastTimestamp != s.lastTimestamp ==> TimestampShape(line) && r.state.lastTimestamp == dec.stamp) &&
      (!TimestampShape(line) || dec.stamp.None? ==> r.state == s)
  {
  }

  /** A line with neither marker is ignored: no record, state unchanged. */
  lemma UnrecognisedLineIgnored(s: ParserState, line: string, dec: Decoded, utcNow: int)
    requires !Contains(line, TIMESTAMP_PREFIX) && !Contains(line, SAVEDATA_URL_PREFIX)
    ensures ParseStep(s, line, dec, utcNow) == ParseResult(s, NoRecord)
  {
  }

  /** A save-data line whose JSON fails to decode is dropped and `add` is not called. */
  lemma DecodeFailureDropsLine(s: ParserState, line: string, dec: Decoded, utcNow: int)
    requires !Contains(line, TIMESTAMP_PREFIX) && Contains(line, SAVEDATA_URL_PREFIX)
    requires dec.data.None?
    ensures ParseStep(s, line, dec, utcNow) == ParseResult(s, NoRecord)
  {
  }

  /** For a decoded save-data line: `last_timestamp` is kept; the estimator is
      fed (at the record's instant) exactly when `credit_all` is present and not
      null; the record carries the `user_id`, the last captured timestamp or else
      the wall clock, the flattened data fields, and after them one
      `credit_all_delta_1m` field exactly when the estimator returned a delta;
      there is no record only when the estimator raised. */
  lemma EventLineRecord(s: ParserState, line: string, dec: Decoded, utcNow: int)
    requires !Contains(line, TIMESTAMP_PREFIX) && Contains(line, SAVEDATA_URL_PREFIX)
    requires dec.data.Some?
    ensures var r := ParseStep(s, line, dec, utcNow);
      var data := dec.data.value;
      var time := if s.lastTimestamp.Some? then s.lastTimestamp.value else utcNow;
      r.state.lastTimestamp == s.lastTimestamp && !r.outcome.NoRecord? &&
      (CreditOf(data).None? ==> r.state.history == s.history && r.outcome.Emit?) &&
      (CreditOf(data).Some? ==> r.state.history == Retained(s.history, CreditOf(data).value, time)) &&
      (r.outcome.Raised? <==>
         (CreditOf(data).Some? && Outcome(r.state.history, CreditOf(data).value, time).TypeError?)) &&
      (r.outcome.Emit? ==>
         var rec := r.outcome.record;
         rec.measurement == MEASUREMENT && rec.user == dec.userId && rec.time == time &&
         rec.fields[..|BuildFields(data)|] == BuildFields(data) &&
         (|rec.fields| == |BuildFields(data)| + 1 <==>
            CreditOf(data).Some? && Outcome(r.state.history, CreditOf(data).value, time).Delta?) &&
         (|rec.fields| == |BuildFields(data)| + 1 ==>
            rec.fields[|rec.fields| - 1] ==
              (DELTA_FIELD, FInt(Outcome(r.state.history, CreditOf(data).value, time).delta))) &&
         (|rec.fields| != |BuildFields(data)| + 1 ==> rec.fields == BuildFields(data)))
  {
  }

  /** With numeric credits only, a decoded save-data line always yields a record. */
  lemma NumericEventAlwaysEmits(s: ParserState, line: string, dec: Decoded, utcNow: int)
    requires !Contains(line, TIMESTAMP_PREFIX) && Contains(line, SAVEDATA_URL_PREFIX)
    requires dec.data.Some? && AllNumeric(s.history)
    requires CreditOf(dec.data.value).None? || CreditOf(dec.data.value).value.Num?
    ensures ParseStep(s, line, dec, utcNow).outcome.Emit?
  {
    var data := dec.data.value;
    if CreditOf(data).Some? {
      NumericDelta(s.history, CreditOf(data).value.amount, RecordTime(s.lastTimestamp, utcNow));
    }
  }
}
