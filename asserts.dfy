/** The assertion evaluator (src/output/asserts.rs): a boolean expression tree
    over a table, read from a one-key JSON object, evaluated to (passed, errors,
    description), and the `output::asserts` driver that records one line per
    failed assertion in the node's results sink. */
module Asserts {
  import opened Wrappers
  import opened Text
  import opened Json
  import opened Data
  import opened PipelineState

  datatype AssertState =
    | Empty
    | RowsCountLessThan(count: nat)
    | RowsCountEqual(count: nat)
    | HasField(field: string)
    | Not(state: AssertState)
    | Or(states: seq<AssertState>)
    | And(states: seq<AssertState>)

  /** What `check` returns. */
  datatype Outcome = Outcome(passed: bool, errors: seq<string>, description: seq<string>)

  const UnwrapNone := "called `Option::unwrap()` on a `None` value"

  // ---------------------------------------------------------------------------
  // Parsing
  // ---------------------------------------------------------------------------

  /** `AssertState::parse`: only the object's first entry is read; its key picks
      the node kind. A missing or ill-typed operand, or any other key, aborts. */
  function Parse(v: Json): Result<AssertState>
    decreases v
  {
    if !v.JObject? || v.entries == [] then Err(UnwrapNone)
    else
      var e := v.entries[0];
      assert e in v.entries;
      var key, sub := e.0, e.1;
      if key == "empty" then Ok(Empty)
      else if key == "has-field" then
        (if sub.JString? then Ok(HasField(sub.s)) else Err(UnwrapNone))
      else if key == "rows-count-less-than" then
        (match AsU64(sub) case Some(n) => Ok(RowsCountLessThan(n)) case None => Err(UnwrapNone))
      else if key == "rows-count-equal" then
        (match AsU64(sub) case Some(n) => Ok(RowsCountEqual(n)) case None => Err(UnwrapNone))
      else if key == "or" || key == "and" then
        if !sub.JArray? then Err(UnwrapNone)
        else
          var items := sub.items;
          var parsed := seq(|items|, k requires 0 <= k < |items| => Parse(items[k]));
          match Collect(parsed)
          case Err(msg) => Err(msg)
          case Ok(states) => Ok(if key == "or" then Or(states) else And(states))
      else if key == "not" then
        match Parse(sub)
        case Err(msg) => Err(msg)
        case Ok(state) => Ok(Not(state))
      else Err("unexpected state")
  }

  /** The document an assertion is written as. */
  function Document(s: AssertState): Json
    decreases s
  {
    match s
    case Empty => JObject([("empty", JString(""))])
    case RowsCountLessThan(n) => JObject([("rows-count-less-than", JInt(n))])
    case RowsCountEqual(n) => JObject([("rows-count-equal", JInt(n))])
    case HasField(f) => JObject([("has-field", JString(f))])
    case Not(c) => JObject([("not", Document(c))])
    case Or(cs) => JObject([("or", JArray(seq(|cs|, k requires 0 <= k < |cs| => Document(cs[k]))))])
    case And(cs) => JObject([("and", JArray(seq(|cs|, k requires 0 <= k < |cs| => Document(cs[k]))))])
  }

  /** Every count is one `as_u64` can return. */
  predicate CountsFit(s: AssertState)
    decreases s
  {
    match s
    case RowsCountLessThan(n) => n < U64Bound
    case RowsCountEqual(n) => n < U64Bound
    case Not(c) => CountsFit(c)
    case Or(cs) => forall k :: 0 <= k < |cs| ==> CountsFit(cs[k])
    case And(cs) => forall k :: 0 <= k < |cs| ==> CountsFit(cs[k])
    case _ => true
  }

  /** Each of the seven keys reads back as its own node kind, recursively. */
  lemma {:induction false} ParseDocument(s: AssertState)
    requires CountsFit(s)
    ensures Parse(Document(s)) == Ok(s)
    decreases s
  {
    match s
    case Not(c) => ParseDocument(c);
    case Or(cs) => ParseDocuments(cs);
    case And(cs) => ParseDocuments(cs);
    case _ =>
  }

  lemma {:induction false} ParseDocuments(cs: seq<AssertState>)
    requires forall k :: 0 <= k < |cs| ==> CountsFit(cs[k])
    ensures var items := seq(|cs|, k requires 0 <= k < |cs| => Document(cs[k]));
            Collect(seq(|items|, k requires 0 <= k < |items| => Parse(items[k]))) == Ok(cs)
    decreases cs
  {
    var items := seq(|cs|, k requires 0 <= k < |cs| => Document(cs[k]));
    var parsed := seq(|items|, k requires 0 <= k < |items| => Parse(items[k]));
    forall k | 0 <= k < |cs| ensures parsed[k] == Ok(cs[k]) {
      ParseDocument(cs[k]);
    }
    assert Collect(parsed).value == cs;
  }

  /** Any key other than the seven aborts the parse. */
  lemma ParseUnknownKey(key: string, sub: Json, rest: seq<(string, Json)>)
    requires key !in {"empty", "has-field", "rows-count-less-than", "rows-count-equal", "or", "and", "not"}
    ensures Parse(JObject([(key, sub)] + rest)) == Err("unexpected state")
  {
  }

  /** Entries after the first are never looked at. */
  lemma ParseReadsFirstEntryOnly(e: (string, Json), rest: seq<(string, Json)>)
    ensures Parse(JObject([e] + rest)) == Parse(JObject([e]))
  {
    assert ([e] + rest)[0] == e;
  }

  // ---------------------------------------------------------------------------
  // Evaluation
  // ---------------------------------------------------------------------------

  predicate AllHaveField(records: seq<Record>, field: string) {
    forall i :: 0 <= i < |records| ==> field in records[i].fields
  }

  /** The fold `or`/`and` apply to their children's outcomes, left to right:
      the flag combined with `||` or `&&`, errors and descriptions concatenated. */
  function Fold(outs: seq<Outcome>, conj: bool): Outcome
    decreases |outs|
  {
    if outs == [] then Outcome(conj, [], [if conj then "and" else "or"])
    else
      var acc := Fold(outs[..|outs| - 1], conj);
      var o := outs[|outs| - 1];
      Outcome(if conj then acc.passed && o.passed else acc.passed || o.passed,
              acc.errors + o.errors, acc.description + o.description)
  }

  /** `check`: the node's own result, then the top-level masking that empties
      the error list of every passing node. */
  function Check(s: AssertState, t: Table): (r: Outcome)
    ensures r.passed ==> r.errors == []
    decreases s
  {
    var raw := match s
      case Empty =>
        Outcome(|t.records| == 0, ["table is not empty"], ["to be empty"])
      case RowsCountLessThan(n) =>
        Outcome(|t.records| < n, ["table has more rows than expected"], ["to have less than " + NatText(n) + " rows"])
      case RowsCountEqual(n) =>
        Outcome(|t.records| == n, ["table has different number of rows than expected"],
                ["to have exactly " + NatText(n) + " rows"])
      case HasField(f) =>
        var d := "to have field " + f;
        if AllHaveField(t.records, f) then Outcome(true, [], [d])
        else Outcome(false, ["table does not have field " + f], [d])
      case Not(c) =>
        var o := Check(c, t);
        var d2 := ["not"] + o.description;
        if o.passed then Outcome(false, ["not (" + Join(o.description, ", ") + ")"], d2)
        else Outcome(true, [], d2)
      case Or(cs) => Fold(seq(|cs|, k requires 0 <= k < |cs| => Check(cs[k], t)), false)
      case And(cs) => Fold(seq(|cs|, k requires 0 <= k < |cs| => Check(cs[k], t)), true);
    if raw.passed then Outcome(true, [], raw.description) else raw
  }

  function Checks(cs: seq<AssertState>, t: Table): (outs: seq<Outcome>) {
    seq(|cs|, k requires 0 <= k < |cs| => Check(cs[k], t))
  }

  /** What an assertion means, independently of how `check` reports it. */
  predicate Holds(s: AssertState, t: Table)
    decreases s
  {
    match s
    case Empty => |t.records| == 0
    case RowsCountLessThan(n) => |t.records| < n
    case RowsCountEqual(n) => |t.records| == n
    case HasField(f) => forall r :: r in t.records ==> f in r.fields
    case Not(c) => !Holds(c, t)
    case Or(cs) => exists k :: 0 <= k < |cs| && Holds(cs[k], t)
    case And(cs) => forall k :: 0 <= k < |cs| ==> Holds(cs[k], t)
  }

  /** The errors of the given outcomes, in order. */
  function AllErrors(outs: seq<Outcome>): seq<string>
    decreases |outs|
  {
    if outs == [] then [] else AllErrors(outs[..|outs| - 1]) + outs[|outs| - 1].errors
  }

  function AllDescriptions(outs: seq<Outcome>): seq<string>
    decreases |outs|
  {
    if outs == [] then [] else AllDescriptions(outs[..|outs| - 1]) + outs[|outs| - 1].description
  }

  /** `and` passes iff every outcome passed (so on none), `or` iff some did
      (so never on none). */
  lemma {:induction false} FoldPassed(outs: seq<Outcome>, conj: bool)
    ensures conj ==> (Fold(outs, conj).passed <==> forall k :: 0 <= k < |outs| ==> outs[k].passed)
    ensures !conj ==> (Fold(outs, conj).passed <==> exists k :: 0 <= k < |outs| && outs[k].passed)
    decreases |outs|
  {
    if outs != [] {
      var init := outs[..|outs| - 1];
      FoldPassed(init, conj);
      assert forall k :: 0 <= k < |init| ==> init[k] == outs[k];
    }
  }

  /** The fold concatenates the children's errors and descriptions after the "and"/"or" head. */
  lemma {:induction false} FoldTexts(outs: seq<Outcome>, conj: bool)
    ensures Fold(outs, conj).errors == AllErrors(outs)
    ensures Fold(outs, conj).description == [if conj then "and" else "or"] + AllDescriptions(outs)
    decreases |outs|
  {
    if outs != [] {
      FoldTexts(outs[..|outs| - 1], conj);
    }
  }

  /** `check` passes exactly when the assertion holds. */
  lemma {:induction false} CheckMeansHolds(s: AssertState, t: Table)
    ensures Check(s, t).passed == Holds(s, t)
    decreases s
  {
    match s
    case Not(c) => CheckMeansHolds(c, t);
    case Or(cs) =>
      forall k | 0 <= k < |cs| ensures Check(cs[k], t).passed == Holds(cs[k], t) {
        CheckMeansHolds(cs[k], t);
      }
      AndOrErrors(cs, t);
    case And(cs) =>
      forall k | 0 <= k < |cs| ensures Check(cs[k], t).passed == Holds(cs[k], t) {
        CheckMeansHolds(cs[k], t);
      }
      AndOrErrors(cs, t);
    case HasField(f) =>
      assert AllHaveField(t.records, f) <==> forall r :: r in t.records ==> f in r.fields;
    case _ =>
  }

  /** The four leaf kinds fail with their one fixed message. */
  lemma LeafMessages(s: AssertState, t: Table)
    ensures s == Empty ==> (Check(s, t) ==
      if |t.records| == 0 then Outcome(true, [], ["to be empty"])
      else Outcome(false, ["table is not empty"], ["to be empty"]))
    ensures s.RowsCountLessThan? && !Check(s, t).passed ==>
      |t.records| >= s.count && Check(s, t).errors == ["table has more rows than expected"]
    ensures s.RowsCountEqual? && !Check(s, t).passed ==>
      |t.records| != s.count && Check(s, t).errors == ["table has different number of rows than expected"]
    ensures s.HasField? && !Check(s, t).passed ==>
      (exists r :: r in t.records && s.field !in r.fields) &&
      Check(s, t).errors == ["table does not have field " + s.field]
  {
  }

  /** `not` inverts its child; when it fails it reports the child's description,
      not the child's errors. */
  lemma NotOutcome(c: AssertState, t: Table)
    ensures Check(Not(c), t).passed == !Check(c, t).passed
    ensures Check(Not(c), t).errors ==
      if Check(c, t).passed then ["not (" + Join(Check(c, t).description, ", ") + ")"] else []
    ensures Check(Not(c), t).description == ["not"] + Check(c, t).description
  {
  }

  /** A failing `and`/`or` reports all its children's (already masked) errors in
      order; a passing one reports none. */
  lemma AndOrErrors(cs: seq<AssertState>, t: Table)
    ensures Check(And(cs), t).passed <==> forall k :: 0 <= k < |cs| ==> Check(cs[k], t).passed
    ensures Check(Or(cs), t).passed <==> exists k :: 0 <= k < |cs| && Check(cs[k], t).passed
    ensures !Check(And(cs), t).passed ==> Check(And(cs), t).errors == AllErrors(Checks(cs, t))
    ensures !Check(Or(cs), t).passed ==> Check(Or(cs), t).errors == AllErrors(Checks(cs, t))
    ensures Check(And(cs), t).description == ["and"] + AllDescriptions(Checks(cs, t))
  {
    var outs := Checks(cs, t);
    assert forall k :: 0 <= k < |cs| ==> outs[k] == Check(cs[k], t);
    FoldPassed(outs, true);
    FoldPassed(outs, false);
    FoldTexts(outs, true);
    FoldTexts(outs, false);
    assert Check(And(cs), t).passed == Fold(outs, true).passed;
    assert Check(Or(cs), t).passed == Fold(outs, false).passed;
  }

  lemma {:induction false} AllErrorsEmpty(outs: seq<Outcome>)
    ensures AllErrors(outs) == [] <==> forall k :: 0 <= k < |outs| ==> outs[k].errors == []
    decreases |outs|
  {
    if outs != [] {
      var init := outs[..|outs| - 1];
      AllErrorsEmpty(init);
      assert forall k :: 0 <= k < |init| ==> init[k] == outs[k];
    }
  }

  /** No `or` with an empty child list anywhere in the tree. */
  predicate NoEmptyOr(s: AssertState)
    decreases s
  {
    match s
    case Not(c) => NoEmptyOr(c)
    case Or(cs) => cs != [] && forall k :: 0 <= k < |cs| ==> NoEmptyOr(cs[k])
    case And(cs) => forall k :: 0 <= k < |cs| ==> NoEmptyOr(cs[k])
    case _ => true
  }

  /** Every failure carries at least one error, unless an empty `or` is involved. */
  lemma {:induction false} FailureHasErrors(s: AssertState, t: Table)
    requires NoEmptyOr(s)
    ensures !Check(s, t).passed ==> Check(s, t).errors != []
    decreases s
  {
    match s
    case Or(cs) =>
      if !Check(s, t).passed {
        AndOrErrors(cs, t);
        FailureHasErrors(cs[0], t);
        assert Checks(cs, t)[0] == Check(cs[0], t);
        AllErrorsEmpty(Checks(cs, t));
      }
    case And(cs) =>
      if !Check(s, t).passed {
        AndOrErrors(cs, t);
        var k :| 0 <= k < |cs| && !Check(cs[k], t).passed;
        FailureHasErrors(cs[k], t);
        assert Checks(cs, t)[k] == Check(cs[k], t);
        AllErrorsEmpty(Checks(cs, t));
      }
    case _ =>
  }

  /** An empty `or` fails without saying why. */
  lemma EmptyOrFailsSilently(t: Table)
    ensures Check(Or([]), t) == Outcome(false, [], ["or"])
  {
  }

  /** Masking: `not empty` on a table with rows passes with no errors, although
      its child failed with one. */
  lemma MaskingExample(t: Table)
    requires |t.records| > 0
    ensures !Check(Empty, t).passed && Check(Empty, t).errors != []
    ensures Check(Not(Empty), t) == Outcome(true, [], ["not", "to be empty"])
  {
  }

  // ---------------------------------------------------------------------------
  // The `output::asserts` driver
  // ---------------------------------------------------------------------------

  datatype Assert = Assert(table: string, state: AssertState)

  datatype OutputAsserts = OutputAsserts(nodeName: string, asserts: seq<Assert>)

  function ParseAssert(v: Json): Result<Assert> {
    match Get(v, "table")
    case None => Err(UnwrapNone)
    case Some(table) =>
      if !table.JString? then Err(UnwrapNone)
      else
        match Get(v, "state")
        case None => Err(UnwrapNone)
        case Some(doc) =>
          match Parse(doc)
          case Err(msg) => Err(msg)
          case Ok(state) => Ok(Assert(table.s, state))
  }

  /** `OutputAsserts::from_config`: the `asserts` array, each element with a
      string `table` and an assertion document `state`. */
  function FromConfig(nodeName: string, config: seq<(string, Json)>): (r: Result<OutputAsserts>)
    ensures var a := Lookup(config, "asserts");
            r.Ok? <==> a.Some? && a.value.JArray? && forall i :: 0 <= i < |a.value.items| ==> ParseAssert(a.value.items[i]).Ok?
    ensures var a := Lookup(config, "asserts");
            a.None? || !a.value.JArray? ==> r == Err(UnwrapNone)
    ensures var a := Lookup(config, "asserts");
            r.Err? && a.Some? && a.value.JArray? ==>
              exists i :: 0 <= i < |a.value.items| && ParseAssert(a.value.items[i]) == Err(r.msg) &&
                          forall j :: 0 <= j < i ==> ParseAssert(a.value.items[j]).Ok?
    ensures r.Ok? ==> r.value.nodeName == nodeName
    ensures r.Ok? ==> exists items :: Lookup(config, "asserts") == Some(JArray(items)) &&
                                      |r.value.asserts| == |items| &&
                                      forall i :: 0 <= i < |items| ==> ParseAssert(items[i]) == Ok(r.value.asserts[i])
  {
    match Lookup(config, "asserts")
    case None => Err(UnwrapNone)
    case Some(v) =>
      if !v.JArray? then Err(UnwrapNone)
      else
        var items := v.items;
        var parsed := seq(|items|, i requires 0 <= i < |items| => ParseAssert(items[i]));
        assert forall i :: 0 <= i < |items| ==> parsed[i] == ParseAssert(items[i]);
        match Collect(parsed)
        case Err(msg) => Err(msg)
        case Ok(asserts) => Ok(OutputAsserts(nodeName, asserts))
  }

  /** Rust's `{:?}` of a string's characters: quote, backslash, `\n`, `\r`,
      `\t` and `\0` get their short escapes, and every other ASCII control
      character its `\u{..}` escape. */
  function DebugEscape(s: string): string
    decreases |s|
  {
    if s == [] then ""
    else
      var c := s[0];
      var e := if c == '"' then "\\\"" else if c == '\\' then "\\\\" else if c == '\n' then "\\n"
               else if c == '\r' then "\\r" else if c == '\t' then "\\t" else if c == '\0' then "\\0"
               else if c < ' ' || c as int == 0x7F then "\\u{" + HexText(c as nat) + "}"
               else [c];
      e + DebugEscape(s[1..])
  }

  /** Lower-case hexadecimal text of a byte value, without leading zeros. */
  function HexText(n: nat): string
    requires n < 256
  {
    if n < 16 then [HexDigit(n)] else [HexDigit(n / 16), HexDigit(n % 16)]
  }

  function HexDigit(d: nat): char
    requires d < 16
  {
    if d < 10 then ('0' as int + d) as char else ('a' as int + d - 10) as char
  }

  /** Rust's `{:?}` of a `Vec<String>`. */
  function DebugList(xs: seq<string>): string {
    "[" + Join(seq(|xs|, k requires 0 <= k < |xs| => "\"" + DebugEscape(xs[k]) + "\""), ", ") + "]"
  }

  function FailureLine(table: string, errors: seq<string>): string {
    "table " + table + " failed assert: " + DebugList(errors)
  }

  function ResultsName(nodeName: string): string {
    nodeName + "_results.txt"
  }

  /** The lines the driver collects for the first `|asserts|` assertions; an
      assertion naming a missing table aborts. */
  function FailureLines(asserts: seq<Assert>, tables: seq<Table>): (r: Result<seq<string>>)
    ensures r.Err? ==> r == Err(UnwrapNone)
    decreases |asserts|
  {
    if asserts == [] then Ok([])
    else
      AddOutcome(FailureLines(asserts[..|asserts| - 1], tables), asserts[|asserts| - 1], tables)
  }

  /** One loop iteration of the driver: unless it has already aborted, look up
      the table, check, and keep the line of a failure. */
  function AddOutcome(lines: Result<seq<string>>, a: Assert, tables: seq<Table>): Result<seq<string>> {
    if lines.Err? then lines
    else
      match Data.FindTable(tables, a.table)
      case None => Err(UnwrapNone)
      case Some(t) =>
        var o := Check(a.state, t);
        Ok(if o.passed then lines.value else lines.value + [FailureLine(a.table, o.errors)])
  }

  predicate TablesPresent(asserts: seq<Assert>, tables: seq<Table>) {
    forall i :: 0 <= i < |asserts| ==> Data.FindTable(tables, asserts[i].table).Some?
  }

  /** Whether one assertion holds on the table it names. */
  predicate Passes(a: Assert, tables: seq<Table>)
    requires Data.FindTable(tables, a.table).Some?
  {
    Holds(a.state, Data.FindTable(tables, a.table).value)
  }

  /** Failing assertions, in order, counted. */
  function FailingCount(asserts: seq<Assert>, tables: seq<Table>): nat
    requires TablesPresent(asserts, tables)
    decreases |asserts|
  {
    if asserts == [] then 0
    else FailingCount(asserts[..|asserts| - 1], tables) + if Passes(asserts[|asserts| - 1], tables) then 0 else 1
  }

  /** The driver aborts exactly when an assertion names a missing table. */
  lemma {:induction false} FailureLinesOk(asserts: seq<Assert>, tables: seq<Table>)
    ensures FailureLines(asserts, tables).Ok? <==> TablesPresent(asserts, tables)
    decreases |asserts|
  {
    if asserts != [] {
      var init := asserts[..|asserts| - 1];
      FailureLinesOk(init, tables);
      assert forall i :: 0 <= i < |init| ==> init[i] == asserts[i];
    }
  }

  /** Otherwise it writes one line per failing assertion. */
  lemma {:induction false} FailureLinesCount(asserts: seq<Assert>, tables: seq<Table>)
    requires TablesPresent(asserts, tables)
    ensures FailureLines(asserts, tables).Ok?
    ensures |FailureLines(asserts, tables).value| == FailingCount(asserts, tables)
    decreases |asserts|
  {
    FailureLinesOk(asserts, tables);
    if asserts != [] {
      var init := asserts[..|asserts| - 1];
      var a := asserts[|asserts| - 1];
      assert forall i :: 0 <= i < |init| ==> init[i] == asserts[i];
      FailureLinesCount(init, tables);
      CheckMeansHolds(a.state, Data.FindTable(tables, a.table).value);
    }
  }

  /** So no line at all exactly when every assertion holds. */
  lemma {:induction false} FailingCountZero(asserts: seq<Assert>, tables: seq<Table>)
    requires TablesPresent(asserts, tables)
    ensures FailingCount(asserts, tables) == 0 <==> forall i :: 0 <= i < |asserts| ==> Passes(asserts[i], tables)
    decreases |asserts|
  {
    if asserts != [] {
      var init := asserts[..|asserts| - 1];
      assert forall i :: 0 <= i < |init| ==> init[i] == asserts[i];
      FailingCountZero(init, tables);
    }
  }

  /** `OutputAsserts::run`: checks every assertion in order, then writes the
      collected lines (possibly none) to the sink `<node>_results.txt`. A missing
      table aborts before anything is written. */
  method Run(node: OutputAsserts, st: State) returns (r: Result<seq<string>>)
    modifies st.writer
    ensures r == FailureLines(node.asserts, st.tables)
    ensures r.Ok? ==> st.writer.results == old(st.writer.results)[ResultsName(node.nodeName) := r.value]
    ensures r.Err? ==> st.writer.results == old(st.writer.results)
    ensures st.tables == old(st.tables) && st.plan == old(st.plan)
  {
    r := CollectFailures(node.asserts, st);
    if r.Ok? {
      st.WriteFile(ResultsName(node.nodeName), r.value);
    }
  }

  /** The loop of `OutputAsserts::run`, which only reads the state. */
  method CollectFailures(asserts: seq<Assert>, st: State) returns (r: Result<seq<string>>)
    ensures r == FailureLines(asserts, st.tables)
  {
    var errors: seq<string> := [];
    var i := 0;
    while i < |asserts|
      invariant 0 <= i <= |asserts|
      invariant FailureLines(asserts[..i], st.tables) == Ok(errors)
    {
      FailureLinesStep(asserts, i, st.tables);
      var next := CheckOne(errors, asserts[i], st);
      if next.Err? {
        FailurePropagates(asserts, i + 1, st.tables);
        return next;
      }
      errors := next.value;
      i := i + 1;
    }
    assert asserts[..i] == asserts;
    return Ok(errors);
  }

  /** One iteration: look the table up, check, and append the line of a failure. */
  method CheckOne(errors: seq<string>, a: Assert, st: State) returns (r: Result<seq<string>>)
    ensures r == AddOutcome(Ok(errors), a, st.tables)
  {
    var t := st.FindTable(a.table);
    if t.None? {
      return Err(UnwrapNone);
    }
    var o := Check(a.state, t.value);
    if o.passed {
      return Ok(errors);
    }
    return Ok(errors + [FailureLine(a.table, o.errors)]);
  }

  /** One more assertion: the prefix's lines, extended by that assertion's outcome. */
  lemma FailureLinesStep(asserts: seq<Assert>, i: nat, tables: seq<Table>)
    requires i < |asserts|
    ensures FailureLines(asserts[..i + 1], tables) == AddOutcome(FailureLines(asserts[..i], tables), asserts[i], tables)
  {
    var s := asserts[..i + 1];
    assert s[..|s| - 1] == asserts[..i] && s[|s| - 1] == asserts[i];
  }

  /** Once a prefix aborts, so does the whole list. */
  lemma {:induction false} FailurePropagates(asserts: seq<Assert>, n: nat, tables: seq<Table>)
    requires n <= |asserts|
    requires FailureLines(asserts[..n], tables).Err?
    ensures FailureLines(asserts, tables) == Err(UnwrapNone)
    decreases |asserts| - n
  {
    if n < |asserts| {
      assert asserts[..n + 1][..n] == asserts[..n];
      FailurePropagates(asserts, n + 1, tables);
    } else {
      assert asserts[..n] == asserts;
    }
  }

  /** `{:?}` leaves a string of printable ASCII other than quote and backslash as it is. */
  lemma {:induction false} DebugEscapePlain(s: string)
    requires forall k :: 0 <= k < |s| ==> s[k] != '"' && s[k] != '\\' && ' ' <= s[k] && (s[k] as int) < 0x7F
    ensures DebugEscape(s) == s
    decreases |s|
  {
    if s != [] {
      DebugEscapePlain(s[1..]);
    }
  }

  lemma DebugSingle(s: string)
    requires forall k :: 0 <= k < |s| ==> s[k] != '"' && s[k] != '\\' && ' ' <= s[k] && (s[k] as int) < 0x7F
    ensures DebugList([s]) == "[\"" + s + "\"]"
  {
    DebugEscapePlain(s);
  }

  /** A single assertion on a present table yields its failure line, or none. */
  lemma SingleAssert(a: Assert, tables: seq<Table>)
    requires Data.FindTable(tables, a.table).Some?
    ensures FailureLines([a], tables).Ok?
    ensures var o := Check(a.state, Data.FindTable(tables, a.table).value);
            FailureLines([a], tables).value == if o.passed then [] else [FailureLine(a.table, o.errors)]
  {
    var single := [a];
    assert single[..0] == [] && single[0] == a;
  }

  /** The first scenario of the driver's tests: `{"empty": ""}` passes on an
      empty table and fails with its one message on a table with rows. */
  lemma EmptyScenario(r: Record)
    ensures FailureLines([Assert("table1", Empty)], [Table("table1", [])]) == Ok([])
    ensures Check(Empty, Table("table1", [r])) == Outcome(false, ["table is not empty"], ["to be empty"])
  {
    SingleAssert(Assert("table1", Empty), [Table("table1", [])]);
  }

  lemma FoldPair(o1: Outcome, o2: Outcome, conj: bool)
    ensures Fold([o1, o2], conj) ==
            Outcome(if conj then o1.passed && o2.passed else o1.passed || o2.passed,
                    o1.errors + o2.errors, [if conj then "and" else "or"] + o1.description + o2.description)
  {
    var tag := if conj then "and" else "or";
    assert [o1, o2][..1] == [o1] && [o1][..0] == [];
    assert Fold([o1], conj) == Outcome(if conj then o1.passed else o1.passed, [] + o1.errors, [tag] + o1.description);
  }

  /** `not(empty)` on an empty table fails, quoting the description of `empty`. */
  lemma NotEmptyScenario()
    ensures Check(Not(Empty), Table("table1", [])) == Outcome(false, ["not (to be empty)"], ["not", "to be empty"])
  {
    assert Join(["to be empty"], ", ") == "to be empty";
    assert "not (" + "to be empty" + ")" == "not (to be empty)";
  }

  /** `and(not(empty), rows-count-less-than 2)` on an empty table fails with the
      `not`'s own message, the description listing the whole tree. */
  lemma NotEmptyAndLessThanScenario()
    ensures Check(And([Not(Empty), RowsCountLessThan(2)]), Table("table1", [])) ==
            Outcome(false, ["not (to be empty)"], ["and", "not", "to be empty", "to have less than 2 rows"])
  {
    var cs := [Not(Empty), RowsCountLessThan(2)];
    var t := Table("table1", []);
    NotEmptyScenario();
    assert NatText(2) == "2";
    assert "to have less than " + "2" + " rows" == "to have less than 2 rows";
    var o1 := Outcome(false, ["not (to be empty)"], ["not", "to be empty"]);
    var o2 := Outcome(true, [], ["to have less than 2 rows"]);
    assert Check(cs[1], t) == o2;
    assert Checks(cs, t) == [o1, o2];
    FoldPair(o1, o2, true);
  }
}
