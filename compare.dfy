/** The table differ (src/output/compare.rs): both tables are put in ascending
    order of their identity field's display text, then merged like a sorted
    merge-join, emitting one line per record found on one side only and, for
    records found on both, one line per differing field. */
module Compare {
  import opened Wrappers
  import opened Text
  import opened Json
  import opened Numbers
  import opened Variants
  import opened Data
  import opened PipelineState
  import Factory

  datatype OutputCompare = OutputCompare(nodeName: string, input1: string, input2: string,
                                         path: string, identityField: string)

  const NoEntry := "no entry found for key"

  /** `OutputCompare::from_config`: four string fields, each required. */
  function FromConfig(nodeName: string, config: seq<(string, Json)>): (r: Result<OutputCompare>)
    ensures r.Ok? <==> (Factory.ReadConfigField(config, "input1").Ok? && Factory.ReadConfigField(config, "input2").Ok? &&
                        Factory.ReadConfigField(config, "path").Ok? && Factory.ReadConfigField(config, "identity_field").Ok?)
    ensures r.Ok? ==> r.value.nodeName == nodeName &&
                      Lookup(config, "input1") == Some(JString(r.value.input1)) &&
                      Lookup(config, "input2") == Some(JString(r.value.input2)) &&
                      Lookup(config, "path") == Some(JString(r.value.path)) &&
                      Lookup(config, "identity_field") == Some(JString(r.value.identityField))
  {
    var input1 :- Factory.ReadConfigField(config, "input1");
    var input2 :- Factory.ReadConfigField(config, "input2");
    var path :- Factory.ReadConfigField(config, "path");
    var identityField :- Factory.ReadConfigField(config, "identity_field");
    Ok(OutputCompare(nodeName, input1, input2, path, identityField))
  }

  // ---------------------------------------------------------------------------
  // Sort keys and the stable sort
  // ---------------------------------------------------------------------------

  /** A record with the display text of its identity field. */
  datatype Keyed = Keyed(key: string, rec: Record)

  /** `record.fields[id].to_string()`: aborts when the field is missing or its
      value has no JSON text. */
  function KeyOf(r: Record, id: string): (k: Result<string>)
    ensures k.Ok? <==> id in r.fields && Serializable(r.fields[id])
    ensures k.Ok? ==> Display(r.fields[id]) == k
  {
    if id !in r.fields then Err(NoEntry) else Display(r.fields[id])
  }

  /** Every record with its key, in table order; aborts if any record has no key. */
  function KeyAll(rs: seq<Record>, id: string): (r: Result<seq<Keyed>>)
    ensures r.Ok? <==> forall i :: 0 <= i < |rs| ==> KeyOf(rs[i], id).Ok?
    ensures r.Ok? ==> |r.value| == |rs| &&
                      forall i :: 0 <= i < |rs| ==> r.value[i] == Keyed(KeyOf(rs[i], id).value, rs[i])
  {
    var keys := seq(|rs|, i requires 0 <= i < |rs| => KeyOf(rs[i], id));
    assert forall i :: 0 <= i < |rs| ==> keys[i] == KeyOf(rs[i], id);
    match Collect(keys)
    case Err(msg) => Err(msg)
    case Ok(ks) => Ok(seq(|rs|, i requires 0 <= i < |rs| => Keyed(ks[i], rs[i])))
  }

  /** Inserting in front of the first element whose key is not smaller. */
  function Insert(x: Keyed, s: seq<Keyed>): seq<Keyed>
    decreases |s|
  {
    if s == [] || LexLeq(x.key, s[0].key) then [x] + s else [s[0]] + Insert(x, s[1..])
  }

  /** `sorted_by` on the key text: a stable sort, here by insertion. */
  function SortByKey(s: seq<Keyed>): seq<Keyed>
    decreases |s|
  {
    if s == [] then [] else Insert(s[0], SortByKey(s[1..]))
  }

  predicate SortedByKey(s: seq<Keyed>) {
    forall i, j :: 0 <= i < j < |s| ==> LexLeq(s[i].key, s[j].key)
  }

  /** The elements with key `k`, in order. */
  function WithKey(s: seq<Keyed>, k: string): seq<Keyed>
    decreases |s|
  {
    if s == [] then [] else (if s[0].key == k then [s[0]] else []) + WithKey(s[1..], k)
  }

  lemma LexLeqTransitive(a: string, b: string, c: string)
    requires LexLeq(a, b) && LexLeq(b, c)
    ensures LexLeq(a, c)
  {
    if LexLess(a, b) && LexLess(b, c) { LexTransitive(a, b, c); }
  }

  lemma {:induction false} InsertSorted(x: Keyed, s: seq<Keyed>)
    requires SortedByKey(s)
    ensures SortedByKey(Insert(x, s))
    ensures multiset(Insert(x, s)) == multiset(s) + multiset{x}
    decreases |s|
  {
    if s == [] || LexLeq(x.key, s[0].key) {
      var r := [x] + s;
      forall i, j | 0 <= i < j < |r| ensures LexLeq(r[i].key, r[j].key) {
        if i == 0 && j > 1 { LexLeqTransitive(x.key, s[0].key, s[j - 1].key); }
      }
      assert multiset(r) == multiset{x} + multiset(s);
    } else {
      var rest := Insert(x, s[1..]);
      InsertSorted(x, s[1..]);
      assert s == [s[0]] + s[1..];
      LexTotal(x.key, s[0].key);
      var r := [s[0]] + rest;
      forall i, j | 0 <= i < j < |r| ensures LexLeq(r[i].key, r[j].key) {
        if i == 0 {
          assert r[j] in multiset(rest);
          if r[j] == x {
          } else {
            assert r[j] in multiset(s[1..]);
            var m :| 0 <= m < |s[1..]| && s[1..][m] == r[j];
            assert s[m + 1] == r[j];
          }
        }
      }
    }
  }

  /** The sort's result is ascending and a permutation of its input. */
  lemma {:induction false} SortByKeySorted(s: seq<Keyed>)
    ensures SortedByKey(SortByKey(s))
    ensures multiset(SortByKey(s)) == multiset(s)
    decreases |s|
  {
    if s != [] {
      SortByKeySorted(s[1..]);
      InsertSorted(s[0], SortByKey(s[1..]));
      assert s == [s[0]] + s[1..];
    }
  }

  lemma {:induction false} InsertStable(x: Keyed, s: seq<Keyed>, k: string)
    ensures WithKey(Insert(x, s), k) == (if x.key == k then [x] else []) + WithKey(s, k)
    decreases |s|
  {
    if s == [] || LexLeq(x.key, s[0].key) {
      assert ([x] + s)[1..] == s;
    } else {
      InsertStable(x, s[1..], k);
      assert ([s[0]] + Insert(x, s[1..]))[1..] == Insert(x, s[1..]);
    }
  }

  /** Stability: records with equal keys keep their table order. */
  lemma {:induction false} SortByKeyStable(s: seq<Keyed>, k: string)
    ensures WithKey(SortByKey(s), k) == WithKey(s, k)
    decreases |s|
  {
    if s != [] {
      SortByKeyStable(s[1..], k);
      InsertStable(s[0], SortByKey(s[1..]), k);
    }
  }

  // ---------------------------------------------------------------------------
  // The merge
  // ---------------------------------------------------------------------------

  /** One iteration of the merge loop. `exhausted` tells whether the other side
      had run out (suffix `c`/`d`) or merely had a larger key (suffix `a`/`b`). */
  datatype Step =
    | Extra1(rec: Keyed, exhausted: bool)
    | Extra2(rec: Keyed, exhausted: bool)
    | Pair(left: Keyed, right: Keyed)

  /** The steps the merge loop takes on two sorted sequences. */
  function Steps(s1: seq<Keyed>, s2: seq<Keyed>): seq<Step>
    decreases |s1| + |s2|
  {
    if s1 == [] && s2 == [] then []
    else if s2 == [] then [Extra1(s1[0], true)] + Steps(s1[1..], s2)
    else if s1 == [] then [Extra2(s2[0], true)] + Steps(s1, s2[1..])
    else if LexLess(s1[0].key, s2[0].key) then [Extra1(s1[0], false)] + Steps(s1[1..], s2)
    else if LexLess(s2[0].key, s1[0].key) then [Extra2(s2[0], false)] + Steps(s1, s2[1..])
    else [Pair(s1[0], s2[0])] + Steps(s1[1..], s2[1..])
  }

  /** The records one step consumes from side 1, and from side 2. */
  function Took1(st: Step): seq<Keyed> {
    match st case Extra1(r, _) => [r] case Pair(a, _) => [a] case Extra2(_, _) => []
  }

  function Took2(st: Step): seq<Keyed> {
    match st case Extra2(r, _) => [r] case Pair(_, b) => [b] case Extra1(_, _) => []
  }

  /** The records a run of steps consumes from side 1, and from side 2. */
  function Side1(steps: seq<Step>): seq<Keyed>
    decreases |steps|
  {
    if steps == [] then [] else Took1(steps[0]) + Side1(steps[1..])
  }

  function Side2(steps: seq<Step>): seq<Keyed>
    decreases |steps|
  {
    if steps == [] then [] else Took2(steps[0]) + Side2(steps[1..])
  }

  function CountPairs(steps: seq<Step>): nat
    decreases |steps|
  {
    if steps == [] then 0 else (if steps[0].Pair? then 1 else 0) + CountPairs(steps[1..])
  }

  /** The first step on two sequences not both empty, and the sequences the
      rest of the steps run on. */
  function FirstStep(s1: seq<Keyed>, s2: seq<Keyed>): (r: (Step, seq<Keyed>, seq<Keyed>))
    requires s1 != [] || s2 != []
    ensures Steps(s1, s2) == [r.0] + Steps(r.1, r.2)
  {
    if s2 == [] then (Extra1(s1[0], true), s1[1..], s2)
    else if s1 == [] then (Extra2(s2[0], true), s1, s2[1..])
    else if LexLess(s1[0].key, s2[0].key) then (Extra1(s1[0], false), s1[1..], s2)
    else if LexLess(s2[0].key, s1[0].key) then (Extra2(s2[0], false), s1, s2[1..])
    else (Pair(s1[0], s2[0]), s1[1..], s2[1..])
  }

  /** What the first step consumes is what it leaves out of the rest. */
  lemma FirstStepTakes(s1: seq<Keyed>, s2: seq<Keyed>)
    requires s1 != [] || s2 != []
    ensures var (st, r1, r2) := FirstStep(s1, s2);
            Took1(st) + r1 == s1 && Took2(st) + r2 == s2 &&
            |r1| + |r2| + (if st.Pair? then 2 else 1) == |s1| + |s2|
  {
    assert s1 != [] ==> s1 == [s1[0]] + s1[1..];
    assert s2 != [] ==> s2 == [s2[0]] + s2[1..];
  }

  /** Every record of each side is consumed exactly once and in order; so the
      loop runs `|s1| + |s2| - pairs` times, no more than `|s1| + |s2|`. */
  lemma {:induction false} StepsConsume(s1: seq<Keyed>, s2: seq<Keyed>)
    ensures Side1(Steps(s1, s2)) == s1 && Side2(Steps(s1, s2)) == s2
    ensures |Steps(s1, s2)| + CountPairs(Steps(s1, s2)) == |s1| + |s2|
    decreases |s1| + |s2|
  {
    if s1 != [] || s2 != [] {
      var (st, r1, r2) := FirstStep(s1, s2);
      FirstStepTakes(s1, s2);
      StepsConsume(r1, r2);
      var steps := Steps(s1, s2);
      assert steps[0] == st && steps[1..] == Steps(r1, r2);
    }
  }

  /** Paired records have the same key; records of one side are only ever
      paired with or reported against records of the other. */
  lemma {:induction false} StepsShape(s1: seq<Keyed>, s2: seq<Keyed>)
    ensures forall st :: st in Steps(s1, s2) && st.Pair? ==> st.left.key == st.right.key
    ensures forall st :: st in Steps(s1, s2) && (st.Extra1? || st.Pair?) ==> (if st.Pair? then st.left else st.rec) in s1
    ensures forall st :: st in Steps(s1, s2) && (st.Extra2? || st.Pair?) ==> (if st.Pair? then st.right else st.rec) in s2
    decreases |s1| + |s2|
  {
    if s1 == [] && s2 == [] {
    } else if s2 == [] || (s1 != [] && LexLess(s1[0].key, s2[0].key)) {
      StepsShape(s1[1..], s2);
      assert forall x :: x in s1[1..] ==> x in s1;
    } else if s1 == [] || LexLess(s2[0].key, s1[0].key) {
      StepsShape(s1, s2[1..]);
      assert forall x :: x in s2[1..] ==> x in s2;
    } else {
      LexTotalEq(s1[0].key, s2[0].key);
      StepsShape(s1[1..], s2[1..]);
      assert forall x :: x in s1[1..] ==> x in s1;
      assert forall x :: x in s2[1..] ==> x in s2;
    }
  }

  lemma LexTotalEq(a: string, b: string)
    requires !LexLess(a, b) && !LexLess(b, a)
    ensures a == b
  {
    if a != b { LexTotal(a, b); }
  }

  predicate StrictKeys(s: seq<Keyed>) {
    forall i, j :: 0 <= i < j < |s| ==> LexLess(s[i].key, s[j].key)
  }

  function KeysOf(s: seq<Keyed>): set<string> {
    set x | x in s :: x.key
  }

  /** On a sequence with strictly ascending keys, a key below the first is below all. */
  lemma BelowAll(k: string, s: seq<Keyed>)
    requires StrictKeys(s) && s != [] && LexLess(k, s[0].key)
    ensures forall x :: x in s ==> LexLess(k, x.key)
    ensures k !in KeysOf(s)
  {
    forall x | x in s ensures LexLess(k, x.key) {
      var m :| 0 <= m < |s| && s[m] == x;
      if m > 0 { LexTransitive(k, s[0].key, x.key); }
    }
    forall x | x in s ensures x.key != k {
      LexIrreflexive(k);
    }
  }

  lemma StrictTail(s: seq<Keyed>)
    requires StrictKeys(s) && s != []
    ensures StrictKeys(s[1..])
    ensures KeysOf(s) == {s[0].key} + KeysOf(s[1..])
    ensures s[0].key !in KeysOf(s[1..])
  {
    assert s == [s[0]] + s[1..];
    forall x | x in s[1..] ensures x.key != s[0].key {
      var m :| 0 <= m < |s[1..]| && s[1..][m] == x;
      assert s[m + 1] == x;
      LexIrreflexive(s[0].key);
    }
  }

  /** On keys that are unique and ascending on each side (the merge-join's
      precondition), a record is reported as extra exactly when its key is
      absent from the other side. */
  lemma {:induction false} MergeJoinExtras(s1: seq<Keyed>, s2: seq<Keyed>)
    requires StrictKeys(s1) && StrictKeys(s2)
    ensures forall st :: st in Steps(s1, s2) && st.Extra1? ==> st.rec.key !in KeysOf(s2)
    ensures forall st :: st in Steps(s1, s2) && st.Extra2? ==> st.rec.key !in KeysOf(s1)
    decreases |s1| + |s2|
  {
    if s1 == [] && s2 == [] {
    } else if s2 == [] {
      StrictTail(s1);
      StepsShape(s1, s2);
    } else if s1 == [] {
      StrictTail(s2);
      StepsShape(s1, s2);
    } else if LexLess(s1[0].key, s2[0].key) {
      StrictTail(s1);
      MergeJoinExtras(s1[1..], s2);
      BelowAll(s1[0].key, s2);
      StepsShape(s1[1..], s2);
    } else if LexLess(s2[0].key, s1[0].key) {
      StrictTail(s2);
      MergeJoinExtras(s1, s2[1..]);
      BelowAll(s2[0].key, s1);
      StepsShape(s1, s2[1..]);
    } else {
      LexTotalEq(s1[0].key, s2[0].key);
      StrictTail(s1);
      StrictTail(s2);
      MergeJoinExtras(s1[1..], s2[1..]);
      StepsShape(s1[1..], s2[1..]);
    }
  }

  lemma {:induction false} Side1Member(steps: seq<Step>, x: Keyed)
    requires x in Side1(steps)
    ensures exists st :: st in steps && ((st.Extra1? && st.rec == x) || (st.Pair? && st.left == x))
    decreases |steps|
  {
    if (steps[0].Extra1? && steps[0].rec == x) || (steps[0].Pair? && steps[0].left == x) {
      assert steps[0] in steps;
    } else {
      Side1Member(steps[1..], x);
      var st :| st in steps[1..] && ((st.Extra1? && st.rec == x) || (st.Pair? && st.left == x));
      assert st in steps;
    }
  }

  lemma {:induction false} Side2Member(steps: seq<Step>, x: Keyed)
    requires x in Side2(steps)
    ensures exists st :: st in steps && ((st.Extra2? && st.rec == x) || (st.Pair? && st.right == x))
    decreases |steps|
  {
    if (steps[0].Extra2? && steps[0].rec == x) || (steps[0].Pair? && steps[0].right == x) {
      assert steps[0] in steps;
    } else {
      Side2Member(steps[1..], x);
      var st :| st in steps[1..] && ((st.Extra2? && st.rec == x) || (st.Pair? && st.right == x));
      assert st in steps;
    }
  }

  /** And every record of either side whose key the other side also has is paired. */
  lemma MergeJoinPairs(s1: seq<Keyed>, s2: seq<Keyed>, x: Keyed)
    requires StrictKeys(s1) && StrictKeys(s2)
    ensures x in s1 && x.key in KeysOf(s2) ==> exists st :: st in Steps(s1, s2) && st.Pair? && st.left == x
    ensures x in s2 && x.key in KeysOf(s1) ==> exists st :: st in Steps(s1, s2) && st.Pair? && st.right == x
  {
    StepsConsume(s1, s2);
    MergeJoinExtras(s1, s2);
    if x in s1 {
      Side1Member(Steps(s1, s2), x);
    }
    if x in s2 {
      Side2Member(Steps(s1, s2), x);
    }
  }

  // ---------------------------------------------------------------------------
  // The difference lines
  // ---------------------------------------------------------------------------

  function ExtraLine(input: string, key: string, suffix: string): string {
    "Extra in " + input + ": " + key + " - " + suffix
  }

  function MismatchLine(c: OutputCompare, id: string, field: string, text1: string, text2: string): string {
    "Mismatch: id: " + id + ", field: " + field + ", (" + c.input1 + ") " + text1 + " != (" + c.input2 + ") " + text2
  }

  function MissingLine(input: string, id: string, field: string): string {
    "Missing field in " + input + ": id: " + id + ", field: " + field
  }

  /** The lines of `a` followed by those of `b`; the first abort wins. */
  function Then(a: Result<seq<string>>, b: Result<seq<string>>): Result<seq<string>> {
    if a.Err? then a else if b.Err? then b else Ok(a.value + b.value)
  }

  /** What the first field loop emits for field `k` of `r1`. Displaying a value
      aborts when it has no JSON text. */
  function FieldLine(c: OutputCompare, id: string, k: string, f1: map<string, Variant>,
                     f2: map<string, Variant>): Result<seq<string>>
    requires k in f1
  {
    if k !in f2 then Ok([MissingLine(c.input2, id, k)])
    else if Eq(f2[k], f1[k]) then Ok([])
    else
      match (Display(f1[k]), Display(f2[k]))
      case (Err(e), _) => Err(e)
      case (_, Err(e)) => Err(e)
      case (Ok(t1), Ok(t2)) => Ok([MismatchLine(c, id, k, t1, t2)])
  }

  /** The first field loop, over the fields `ks` of `r1`. */
  function FirstSideLines(c: OutputCompare, id: string, ks: seq<string>, f1: map<string, Variant>,
                          f2: map<string, Variant>): Result<seq<string>>
    requires forall i :: 0 <= i < |ks| ==> ks[i] in f1
    decreases |ks|
  {
    if ks == [] then Ok([]) else Then(FieldLine(c, id, ks[0], f1, f2), FirstSideLines(c, id, ks[1..], f1, f2))
  }

  /** The second field loop, over the fields `ks` of `r2`. */
  function SecondSideLines(c: OutputCompare, id: string, ks: seq<string>, f1: map<string, Variant>): seq<string>
    decreases |ks|
  {
    if ks == [] then []
    else AbsentLine(c, id, ks[0], f1) + SecondSideLines(c, id, ks[1..], f1)
  }

  /** What the second field loop emits for field `k` of `r2`. */
  function AbsentLine(c: OutputCompare, id: string, k: string, f1: map<string, Variant>): seq<string> {
    if k !in f1 then [MissingLine(c.input1, id, k)] else []
  }

  /** The lines for two records with the same key, fields visited in ascending
      name order. */
  function PairLines(c: OutputCompare, a: Keyed, b: Keyed): Result<seq<string>> {
    var f1, f2 := a.rec.fields, b.rec.fields;
    Then(FirstSideLines(c, a.key, SortedNames(f1.Keys), f1, f2),
         Ok(SecondSideLines(c, b.key, SortedNames(f2.Keys), f1)))
  }

  function StepLines(c: OutputCompare, st: Step): Result<seq<string>> {
    match st
    case Extra1(r, ex) => Ok([ExtraLine(c.input1, r.key, if ex then "c" else "a")])
    case Extra2(r, ex) => Ok([ExtraLine(c.input2, r.key, if ex then "d" else "b")])
    case Pair(a, b) => PairLines(c, a, b)
  }

  function RenderSteps(c: OutputCompare, steps: seq<Step>): Result<seq<string>>
    decreases |steps|
  {
    if steps == [] then Ok([]) else Then(StepLines(c, steps[0]), RenderSteps(c, steps[1..]))
  }

  function Need(t: Option<Table>): Result<Table> {
    match t
    case None => Err(UnwrapNone)
    case Some(v) => Ok(v)
  }

  /** What `OutputCompare::run` writes to `path`. */
  function CompareOutput(c: OutputCompare, tables: seq<Table>): Result<string> {
    var t1 :- Need(Data.FindTable(tables, c.input1));
    var t2 :- Need(Data.FindTable(tables, c.input2));
    var k1 :- KeyAll(t1.records, c.identityField);
    var k2 :- KeyAll(t2.records, c.identityField);
    var lines :- RenderSteps(c, Steps(SortByKey(k1), SortByKey(k2)));
    Ok(Join(lines, "\n"))
  }

  // ---------------------------------------------------------------------------
  // The loops
  // ---------------------------------------------------------------------------

  lemma FirstSideAt(c: OutputCompare, id: string, names: seq<string>, i: nat, f1: map<string, Variant>, f2: map<string, Variant>)
    requires i < |names| && forall j :: 0 <= j < |names| ==> names[j] in f1
    ensures FirstSideLines(c, id, names[i..], f1, f2) ==
            Then(FieldLine(c, id, names[i], f1, f2), FirstSideLines(c, id, names[i + 1..], f1, f2))
  {
    assert names[i..][0] == names[i] && names[i..][1..] == names[i + 1..];
  }

  /** One iteration of the first field loop. */
  method CompareField(c: OutputCompare, id: string, k: string, f1: map<string, Variant>, f2: map<string, Variant>)
    returns (r: Result<seq<string>>)
    requires k in f1
    ensures r == FieldLine(c, id, k, f1, f2)
  {
    if k !in f2 {
      return Ok([MissingLine(c.input2, id, k)]);
    }
    if Eq(f2[k], f1[k]) {
      return Ok([]);
    }
    var t1 := Display(f1[k]);
    if t1.Err? {
      return Err(t1.msg);
    }
    var t2 := Display(f2[k]);
    if t2.Err? {
      return Err(t2.msg);
    }
    return Ok([MismatchLine(c, id, k, t1.value, t2.value)]);
  }

  /** The first field loop: fields of `r1`, visited in the order `names`,
      missing from or different in `r2`. */
  method FirstSide(c: OutputCompare, id: string, names: seq<string>, f1: map<string, Variant>, f2: map<string, Variant>)
    returns (r: Result<seq<string>>)
    requires forall j :: 0 <= j < |names| ==> names[j] in f1
    ensures r == FirstSideLines(c, id, names, f1, f2)
  {
    var lines: seq<string> := [];
    var i := 0;
    assert names[0..] == names;
    ThenUnit(FirstSideLines(c, id, names, f1, f2));
    while i < |names|
      invariant 0 <= i <= |names|
      invariant FirstSideLines(c, id, names, f1, f2) == Then(Ok(lines), FirstSideLines(c, id, names[i..], f1, f2))
    {
      FirstSideAt(c, id, names, i, f1, f2);
      ghost var rest := FirstSideLines(c, id, names[i + 1..], f1, f2);
      var next := CompareField(c, id, names[i], f1, f2);
      if next.Err? {
        return Err(next.msg);
      }
      ThenAssoc(lines, next.value, rest);
      lines := lines + next.value;
      i := i + 1;
    }
    assert names[i..] == [];
    assert lines + [] == lines;
    return Ok(lines);
  }

  /** The second field loop: fields of `r2`, visited in the order `names`,
      missing from `r1`. */
  method SecondSide(c: OutputCompare, id: string, names: seq<string>, f1: map<string, Variant>)
    returns (lines: seq<string>)
    ensures lines == SecondSideLines(c, id, names, f1)
  {
    lines := [];
    var j := 0;
    assert names[0..] == names;
    while j < |names|
      invariant 0 <= j <= |names|
      invariant SecondSideLines(c, id, names, f1) == lines + SecondSideLines(c, id, names[j..], f1)
    {
      var next: seq<string> := [];
      if names[j] !in f1 {
        next := [MissingLine(c.input1, id, names[j])];
      }
      SecondSideAt(c, id, names, j, f1, lines, next);
      lines := lines + next;
      j := j + 1;
    }
    assert names[j..] == [];
    assert lines + [] == lines;
  }

  lemma SecondSideAt(c: OutputCompare, id: string, names: seq<string>, j: nat, f1: map<string, Variant>,
                     lines: seq<string>, next: seq<string>)
    requires j < |names| && next == AbsentLine(c, id, names[j], f1)
    ensures lines + SecondSideLines(c, id, names[j..], f1) == (lines + next) + SecondSideLines(c, id, names[j + 1..], f1)
  {
    assert names[j..][0] == names[j] && names[j..][1..] == names[j + 1..];
  }

  /** Both field loops of the equal-keys branch. */
  method FieldDifferences(c: OutputCompare, a: Keyed, b: Keyed) returns (r: Result<seq<string>>)
    ensures r == PairLines(c, a, b)
  {
    var first := FirstSide(c, a.key, SortedNames(a.rec.fields.Keys), a.rec.fields, b.rec.fields);
    if first.Err? {
      return Err(first.msg);
    }
    var second := SecondSide(c, b.key, SortedNames(b.rec.fields.Keys), a.rec.fields);
    return Ok(first.value + second);
  }

  lemma ThenUnit(x: Result<seq<string>>)
    ensures Then(Ok([]), x) == x
  {
    if x.Ok? { assert [] + x.value == x.value; }
  }

  lemma ThenAssoc(done: seq<string>, next: seq<string>, rest: Result<seq<string>>)
    ensures Then(Ok(done), Then(Ok(next), rest)) == Then(Ok(done + next), rest)
  {
    if rest.Ok? { assert done + (next + rest.value) == (done + next) + rest.value; }
  }

  /** Rendering the steps of two sequences not both empty: the first step's lines, then the rest's. */
  lemma RenderFirst(c: OutputCompare, s1: seq<Keyed>, s2: seq<Keyed>)
    requires s1 != [] || s2 != []
    ensures var (st, r1, r2) := FirstStep(s1, s2);
            RenderSteps(c, Steps(s1, s2)) == Then(StepLines(c, st), RenderSteps(c, Steps(r1, r2)))
  {
    var (st, r1, r2) := FirstStep(s1, s2);
    var steps := Steps(s1, s2);
    assert steps[0] == st && steps[1..] == Steps(r1, r2);
  }

  /** One iteration of the merge loop at positions `i` and `j`: the lines of
      the first remaining step and the positions after it. */
  method MergeStep(c: OutputCompare, s1: seq<Keyed>, s2: seq<Keyed>, i: nat, j: nat)
    returns (next: Result<seq<string>>, i2: nat, j2: nat)
    requires i <= |s1| && j <= |s2| && (i < |s1| || j < |s2|)
    ensures i2 <= |s1| && j2 <= |s2| && i + j < i2 + j2
    ensures var (st, r1, r2) := FirstStep(s1[i..], s2[j..]);
            next == StepLines(c, st) && r1 == s1[i2..] && r2 == s2[j2..]
  {
    assert i < |s1| ==> s1[i..][0] == s1[i] && s1[i..][1..] == s1[i + 1..];
    assert j < |s2| ==> s2[j..][0] == s2[j] && s2[j..][1..] == s2[j + 1..];
    if i < |s1| && j < |s2| {
      var k1, k2 := s1[i].key, s2[j].key;
      if LexLess(k1, k2) {
        return Ok([ExtraLine(c.input1, k1, "a")]), i + 1, j;
      } else if LexLess(k2, k1) {
        return Ok([ExtraLine(c.input2, k2, "b")]), i, j + 1;
      } else {
        next := FieldDifferences(c, s1[i], s2[j]);
        return next, i + 1, j + 1;
      }
    } else if i < |s1| {
      return Ok([ExtraLine(c.input1, s1[i].key, "c")]), i + 1, j;
    } else {
      return Ok([ExtraLine(c.input2, s2[j].key, "d")]), i, j + 1;
    }
  }

  /** The merge loop over two key-sorted sequences. */
  method Merge(c: OutputCompare, s1: seq<Keyed>, s2: seq<Keyed>) returns (r: Result<seq<string>>)
    ensures r == RenderSteps(c, Steps(s1, s2))
  {
    var differences: seq<string> := [];
    var i, j := 0, 0;
    assert s1[0..] == s1 && s2[0..] == s2;
    ThenUnit(RenderSteps(c, Steps(s1, s2)));
    while i < |s1| || j < |s2|
      invariant 0 <= i <= |s1| && 0 <= j <= |s2|
      invariant RenderSteps(c, Steps(s1, s2)) == Then(Ok(differences), RenderSteps(c, Steps(s1[i..], s2[j..])))
      decreases |s1| - i + |s2| - j
    {
      RenderFirst(c, s1[i..], s2[j..]);
      var next, i2, j2 := MergeStep(c, s1, s2, i, j);
      if next.Err? {
        return Err(next.msg);
      }
      ThenAssoc(differences, next.value, RenderSteps(c, Steps(s1[i2..], s2[j2..])));
      differences := differences + next.value;
      i, j := i2, j2;
    }
    assert s1[i..] == [] && s2[j..] == [];
    assert differences + [] == differences;
    return Ok(differences);
  }

  /** `OutputCompare::run`: returns the text it writes to `path`. */
  method Run(node: OutputCompare, st: State) returns (r: Result<string>)
    ensures r == CompareOutput(node, st.tables)
  {
    var t1 := st.FindTable(node.input1);
    if t1.None? {
      return Err(UnwrapNone);
    }
    var t2 := st.FindTable(node.input2);
    if t2.None? {
      return Err(UnwrapNone);
    }
    var k1 := KeyAll(t1.value.records, node.identityField);
    if k1.Err? {
      return Err(k1.msg);
    }
    var k2 := KeyAll(t2.value.records, node.identityField);
    if k2.Err? {
      return Err(k2.msg);
    }
    var sorted1 := SortByKey(k1.value);
    var sorted2 := SortByKey(k2.value);
    var lines := Merge(node, sorted1, sorted2);
    if lines.Err? {
      return Err(lines.msg);
    }
    return Ok(Join(lines.value, "\n"));
  }

  // ---------------------------------------------------------------------------
  // What the lines say
  // ---------------------------------------------------------------------------

  /** The first field loop is silent exactly when every field of `r1` is in `r2`
      with an equal value. */
  lemma {:induction false} FirstSideQuiet(c: OutputCompare, id: string, ks: seq<string>,
                                          f1: map<string, Variant>, f2: map<string, Variant>)
    requires forall i :: 0 <= i < |ks| ==> ks[i] in f1
    ensures FirstSideLines(c, id, ks, f1, f2) == Ok([]) <==> forall k :: k in ks ==> k in f2 && Eq(f2[k], f1[k])
    decreases |ks|
  {
    if ks != [] {
      FirstSideQuiet(c, id, ks[1..], f1, f2);
      assert ks == [ks[0]] + ks[1..];
      var head := FieldLine(c, id, ks[0], f1, f2);
      var rest := FirstSideLines(c, id, ks[1..], f1, f2);
      assert head == Ok([]) <==> ks[0] in f2 && Eq(f2[ks[0]], f1[ks[0]]);
      if head.Ok? && rest.Ok? {
        assert head.value + rest.value == [] <==> head.value == [] && rest.value == [];
      }
    }
  }

  /** It aborts exactly when a differing value has no JSON text. */
  lemma {:induction false} FirstSideOk(c: OutputCompare, id: string, ks: seq<string>,
                                       f1: map<string, Variant>, f2: map<string, Variant>)
    requires forall i :: 0 <= i < |ks| ==> ks[i] in f1
    ensures FirstSideLines(c, id, ks, f1, f2).Ok? <==>
              forall k :: k in ks && k in f2 && !Eq(f2[k], f1[k]) ==> Serializable(f1[k]) && Serializable(f2[k])
    decreases |ks|
  {
    if ks != [] {
      FirstSideOk(c, id, ks[1..], f1, f2);
      assert ks == [ks[0]] + ks[1..];
    }
  }

  /** Both field loops are silent exactly when the two field maps have the same
      names and equal values. */
  lemma PairQuiet(c: OutputCompare, id1: string, id2: string, f1: map<string, Variant>, f2: map<string, Variant>)
    ensures (FirstSideLines(c, id1, SortedNames(f1.Keys), f1, f2) == Ok([]) &&
             SecondSideLines(c, id2, SortedNames(f2.Keys), f1) == []) <==>
            (f1.Keys == f2.Keys && forall k :: k in f1 && k in f2 ==> Eq(f1[k], f2[k]))
  {
    var n1, n2 := SortedNames(f1.Keys), SortedNames(f2.Keys);
    FirstSideQuiet(c, id1, n1, f1, f2);
    SecondSideLinesAre(c, id2, n2, f1);
    forall k | k in f1 && k in f2 ensures Eq(f1[k], f2[k]) <==> Eq(f2[k], f1[k]) {
      EqSymmetric(f1[k], f2[k]);
    }
  }

  /** Every field of `r1` missing from `r2` and every differing field gets its line,
      and every line is one of those. */
  lemma {:induction false} FirstSideLinesAre(c: OutputCompare, id: string, ks: seq<string>,
                                             f1: map<string, Variant>, f2: map<string, Variant>)
    requires forall i :: 0 <= i < |ks| ==> ks[i] in f1
    requires FirstSideLines(c, id, ks, f1, f2).Ok?
    ensures forall k :: k in ks && k !in f2 ==> MissingLine(c.input2, id, k) in FirstSideLines(c, id, ks, f1, f2).value
    ensures forall k :: k in ks && k in f2 && !Eq(f2[k], f1[k]) ==>
              Display(f1[k]).Ok? && Display(f2[k]).Ok? &&
              MismatchLine(c, id, k, Display(f1[k]).value, Display(f2[k]).value) in FirstSideLines(c, id, ks, f1, f2).value
    ensures forall l :: l in FirstSideLines(c, id, ks, f1, f2).value ==>
              exists k :: k in ks && ((k !in f2 && l == MissingLine(c.input2, id, k)) ||
                                      (k in f2 && !Eq(f2[k], f1[k]) && Display(f1[k]).Ok? && Display(f2[k]).Ok? &&
                                       l == MismatchLine(c, id, k, Display(f1[k]).value, Display(f2[k]).value)))
    ensures |FirstSideLines(c, id, ks, f1, f2).value| <= |ks|
    decreases |ks|
  {
    if ks != [] {
      FirstSideLinesAre(c, id, ks[1..], f1, f2);
      assert ks == [ks[0]] + ks[1..];
      forall l | l in FirstSideLines(c, id, ks[1..], f1, f2).value
        ensures exists k :: k in ks && ((k !in f2 && l == MissingLine(c.input2, id, k)) ||
                                      (k in f2 && !Eq(f2[k], f1[k]) && Display(f1[k]).Ok? && Display(f2[k]).Ok? &&
                                       l == MismatchLine(c, id, k, Display(f1[k]).value, Display(f2[k]).value)))
      {
        var k :| k in ks[1..] && ((k !in f2 && l == MissingLine(c.input2, id, k)) ||
                                 (k in f2 && !Eq(f2[k], f1[k]) && Display(f1[k]).Ok? && Display(f2[k]).Ok? &&
                                  l == MismatchLine(c, id, k, Display(f1[k]).value, Display(f2[k]).value)));
        assert k in ks;
      }
    }
  }

  /** The second field loop reports exactly the fields of `r2` missing from `r1`. */
  lemma {:induction false} SecondSideLinesAre(c: OutputCompare, id: string, ks: seq<string>, f1: map<string, Variant>)
    ensures forall k :: k in ks && k !in f1 ==> MissingLine(c.input1, id, k) in SecondSideLines(c, id, ks, f1)
    ensures forall l :: l in SecondSideLines(c, id, ks, f1) ==>
              exists k :: k in ks && k !in f1 && l == MissingLine(c.input1, id, k)
    ensures SecondSideLines(c, id, ks, f1) == [] <==> forall k :: k in ks ==> k in f1
    decreases |ks|
  {
    if ks != [] {
      SecondSideLinesAre(c, id, ks[1..], f1);
      assert ks == [ks[0]] + ks[1..];
      forall l | l in SecondSideLines(c, id, ks[1..], f1)
        ensures exists k :: k in ks && k !in f1 && l == MissingLine(c.input1, id, k)
      {
        var k :| k in ks[1..] && k !in f1 && l == MissingLine(c.input1, id, k);
        assert k in ks;
      }
    }
  }

  /** Two records with the same key produce no line exactly when they have the
      same fields with equal values. */
  lemma PairLinesEmpty(c: OutputCompare, a: Keyed, b: Keyed)
    ensures PairLines(c, a, b) == Ok([]) <==>
              a.rec.fields.Keys == b.rec.fields.Keys &&
              forall k :: k in a.rec.fields && k in b.rec.fields ==> Eq(a.rec.fields[k], b.rec.fields[k])
  {
    var f1, f2 := a.rec.fields, b.rec.fields;
    PairQuiet(c, a.key, b.key, f1, f2);
    var first := FirstSideLines(c, a.key, SortedNames(f1.Keys), f1, f2);
    var second := SecondSideLines(c, b.key, SortedNames(f2.Keys), f1);
    assert PairLines(c, a, b) == Then(first, Ok(second));
    if first.Ok? {
      assert first.value + second == [] <==> first.value == [] && second == [];
    }
  }

  /** Two records with the same key abort exactly when a differing value has no JSON text. */
  lemma PairLinesOk(c: OutputCompare, a: Keyed, b: Keyed)
    ensures PairLines(c, a, b).Ok? <==>
              forall k :: k in a.rec.fields && k in b.rec.fields && !Eq(a.rec.fields[k], b.rec.fields[k]) ==>
                Serializable(a.rec.fields[k]) && Serializable(b.rec.fields[k])
  {
    var f1, f2 := a.rec.fields, b.rec.fields;
    var n1 := SortedNames(f1.Keys);
    assert PairLines(c, a, b).Ok? == FirstSideLines(c, a.key, n1, f1, f2).Ok?;
    FirstSideOk(c, a.key, n1, f1, f2);
    forall k | k in f1 && k in f2 ensures Eq(f2[k], f1[k]) <==> Eq(f1[k], f2[k]) {
      EqSymmetric(f1[k], f2[k]);
    }
  }

  /** For two records with the same key, one line per field present on one side
      only or differing. */
  lemma PairLinesAre(c: OutputCompare, a: Keyed, b: Keyed)
    requires PairLines(c, a, b).Ok?
    ensures forall k :: k in a.rec.fields && k !in b.rec.fields ==>
              MissingLine(c.input2, a.key, k) in PairLines(c, a, b).value
    ensures forall k :: k in b.rec.fields && k !in a.rec.fields ==>
              MissingLine(c.input1, b.key, k) in PairLines(c, a, b).value
    ensures forall k :: k in a.rec.fields && k in b.rec.fields && !Eq(a.rec.fields[k], b.rec.fields[k]) ==>
              Display(a.rec.fields[k]).Ok? && Display(b.rec.fields[k]).Ok? &&
              MismatchLine(c, a.key, k, Display(a.rec.fields[k]).value, Display(b.rec.fields[k]).value)
                in PairLines(c, a, b).value
  {
    var f1, f2 := a.rec.fields, b.rec.fields;
    var n1, n2 := SortedNames(f1.Keys), SortedNames(f2.Keys);
    var first := FirstSideLines(c, a.key, n1, f1, f2);
    var second := SecondSideLines(c, b.key, n2, f1);
    assert PairLines(c, a, b) == Ok(first.value + second);
    FirstSideLinesAre(c, a.key, n1, f1, f2);
    SecondSideLinesAre(c, b.key, n2, f1);
    forall k | k in f1 && k in f2 ensures Eq(f2[k], f1[k]) <==> Eq(f1[k], f2[k]) {
      EqSymmetric(f1[k], f2[k]);
    }
  }

  /** And a pair has no other line: each is the `Missing field` line of a field
      on one side only, or the `Mismatch` line of a differing field. */
  lemma PairLinesOnly(c: OutputCompare, a: Keyed, b: Keyed, l: string)
    requires PairLines(c, a, b).Ok? && l in PairLines(c, a, b).value
    ensures (exists k :: k in a.rec.fields && k !in b.rec.fields && l == MissingLine(c.input2, a.key, k)) ||
            (exists k :: k in b.rec.fields && k !in a.rec.fields && l == MissingLine(c.input1, b.key, k)) ||
            (exists k :: k in a.rec.fields && k in b.rec.fields && !Eq(a.rec.fields[k], b.rec.fields[k]) &&
                         Display(a.rec.fields[k]).Ok? && Display(b.rec.fields[k]).Ok? &&
                         l == MismatchLine(c, a.key, k, Display(a.rec.fields[k]).value, Display(b.rec.fields[k]).value))
  {
    var f1, f2 := a.rec.fields, b.rec.fields;
    var n1, n2 := SortedNames(f1.Keys), SortedNames(f2.Keys);
    var first := FirstSideLines(c, a.key, n1, f1, f2);
    var second := SecondSideLines(c, b.key, n2, f1);
    assert PairLines(c, a, b) == Ok(first.value + second);
    if l in first.value {
      FirstSideLinesAre(c, a.key, n1, f1, f2);
      var k :| k in n1 && ((k !in f2 && l == MissingLine(c.input2, a.key, k)) ||
                           (k in f2 && !Eq(f2[k], f1[k]) && Display(f1[k]).Ok? && Display(f2[k]).Ok? &&
                            l == MismatchLine(c, a.key, k, Display(f1[k]).value, Display(f2[k]).value)));
      if k in f2 {
        EqSymmetric(f1[k], f2[k]);
      }
    } else {
      SecondSideLinesAre(c, b.key, n2, f1);
    }
  }

  /** A pair has exactly one line per field of `r1` that `r2` lacks or holds
      differently, plus one per field that only `r2` has. */
  lemma PairLinesCount(c: OutputCompare, a: Keyed, b: Keyed)
    requires PairLines(c, a, b).Ok?
    ensures |PairLines(c, a, b).value| ==
              |set k | k in a.rec.fields && (k !in b.rec.fields || !Eq(a.rec.fields[k], b.rec.fields[k]))| +
              |set k | k in b.rec.fields && k !in a.rec.fields|
  {
    var f1, f2 := a.rec.fields, b.rec.fields;
    var n1, n2 := SortedNames(f1.Keys), SortedNames(f2.Keys);
    var first := FirstSideLines(c, a.key, n1, f1, f2);
    var second := SecondSideLines(c, b.key, n2, f1);
    assert PairLines(c, a, b) == Ok(first.value + second);
    AscendingDistinct(n1);
    AscendingDistinct(n2);
    FirstSideCount(c, a.key, n1, f1, f2);
    SecondSideCount(c, b.key, n2, f1);
    DifferingNames(f1, f2);
    AbsentNames(f1, f2);
  }

  /** The fields of `r1` that `r2` lacks or holds differently, among `ks`. */
  function DifferingIn(ks: seq<string>, f1: map<string, Variant>, f2: map<string, Variant>): set<string> {
    set k | k in ks && Differs(k, f1, f2)
  }

  /** The fields of `r2` that `r1` lacks, among `ks`. */
  function AbsentIn(ks: seq<string>, f1: map<string, Variant>): set<string> {
    set k | k in ks && k !in f1
  }

  lemma DifferingNames(f1: map<string, Variant>, f2: map<string, Variant>)
    ensures DifferingIn(SortedNames(f1.Keys), f1, f2) ==
              set k | k in f1 && (k !in f2 || !Eq(f1[k], f2[k]))
  {
    forall k | k in f1 && k in f2 ensures Eq(f2[k], f1[k]) <==> Eq(f1[k], f2[k]) {
      EqSymmetric(f1[k], f2[k]);
    }
  }

  lemma AbsentNames(f1: map<string, Variant>, f2: map<string, Variant>)
    ensures AbsentIn(SortedNames(f2.Keys), f1) == set k | k in f2 && k !in f1
  {
  }

  lemma DifferingCons(ks: seq<string>, f1: map<string, Variant>, f2: map<string, Variant>)
    requires ks != [] && ks[0] !in ks[1..]
    ensures |DifferingIn(ks, f1, f2)| == |DifferingIn(ks[1..], f1, f2)| + if Differs(ks[0], f1, f2) then 1 else 0
  {
    var all, tail := DifferingIn(ks, f1, f2), DifferingIn(ks[1..], f1, f2);
    assert forall k :: k in ks <==> k == ks[0] || k in ks[1..];
    if Differs(ks[0], f1, f2) {
      assert all == tail + {ks[0]};
    } else {
      assert all == tail;
    }
  }

  lemma AbsentCons(ks: seq<string>, f1: map<string, Variant>)
    requires ks != [] && ks[0] !in ks[1..]
    ensures |AbsentIn(ks, f1)| == |AbsentIn(ks[1..], f1)| + if ks[0] !in f1 then 1 else 0
  {
    var all, tail := AbsentIn(ks, f1), AbsentIn(ks[1..], f1);
    assert forall k :: k in ks <==> k == ks[0] || k in ks[1..];
    if ks[0] !in f1 {
      assert all == tail + {ks[0]};
    } else {
      assert all == tail;
    }
  }

  predicate Distinct(ks: seq<string>) {
    forall i, j :: 0 <= i < j < |ks| ==> ks[i] != ks[j]
  }

  lemma AscendingDistinct(ks: seq<string>)
    requires StrictlyAscending(ks)
    ensures Distinct(ks)
  {
    forall i, j | 0 <= i < j < |ks| ensures ks[i] != ks[j] {
      LexIrreflexive(ks[i]);
    }
  }

  lemma DistinctTail(ks: seq<string>)
    requires ks != [] && Distinct(ks)
    ensures Distinct(ks[1..]) && ks[0] !in ks[1..]
  {
    forall i | 0 <= i < |ks| - 1 ensures ks[1..][i] != ks[0] {
      assert ks[1..][i] == ks[i + 1];
    }
  }

  /** Field `k` of `r1` is missing from `r2` or holds a different value there. */
  predicate Differs(k: string, f1: map<string, Variant>, f2: map<string, Variant>) {
    k in f1 && (k !in f2 || !Eq(f2[k], f1[k]))
  }

  lemma FieldLineLength(c: OutputCompare, id: string, k: string, f1: map<string, Variant>, f2: map<string, Variant>)
    requires k in f1 && FieldLine(c, id, k, f1, f2).Ok?
    ensures |FieldLine(c, id, k, f1, f2).value| == if Differs(k, f1, f2) then 1 else 0
  {
  }

  /** On distinct names, the first loop emits one line per name that is missing
      from `r2` or holds a different value there. */
  lemma {:induction false} FirstSideCount(c: OutputCompare, id: string, ks: seq<string>,
                                          f1: map<string, Variant>, f2: map<string, Variant>)
    requires forall i :: 0 <= i < |ks| ==> ks[i] in f1
    requires Distinct(ks) && FirstSideLines(c, id, ks, f1, f2).Ok?
    ensures |FirstSideLines(c, id, ks, f1, f2).value| == |DifferingIn(ks, f1, f2)|
    decreases |ks|
  {
    if ks == [] {
      assert DifferingIn(ks, f1, f2) == {};
    } else {
      var head := FieldLine(c, id, ks[0], f1, f2);
      assert FirstSideLines(c, id, ks, f1, f2) == Then(head, FirstSideLines(c, id, ks[1..], f1, f2));
      DistinctTail(ks);
      FirstSideCount(c, id, ks[1..], f1, f2);
      FieldLineLength(c, id, ks[0], f1, f2);
      DifferingCons(ks, f1, f2);
    }
  }

  /** On distinct names, the second loop emits one line per name missing from `r1`. */
  lemma {:induction false} SecondSideCount(c: OutputCompare, id: string, ks: seq<string>, f1: map<string, Variant>)
    requires Distinct(ks)
    ensures |SecondSideLines(c, id, ks, f1)| == |AbsentIn(ks, f1)|
    decreases |ks|
  {
    if ks == [] {
      assert AbsentIn(ks, f1) == {};
    } else {
      DistinctTail(ks);
      SecondSideCount(c, id, ks[1..], f1);
      AbsentCons(ks, f1);
    }
  }

  /** A record consumed as an extra yields its one `Extra` line and nothing else. */
  lemma ExtraLines(c: OutputCompare, st: Step)
    requires !st.Pair?
    ensures |StepLines(c, st).value| == 1
    ensures StepLines(c, st).value[0] ==
              ExtraLine(if st.Extra1? then c.input1 else c.input2, st.rec.key,
                        if st.Extra1? then (if st.exhausted then "c" else "a") else (if st.exhausted then "d" else "b"))
  {
  }

  // ---------------------------------------------------------------------------
  // Comparing a table with itself
  // ---------------------------------------------------------------------------

  predicate NoNaN(r: Record) {
    forall k :: k in r.fields ==> r.fields[k] != Float(NaN)
  }

  lemma {:induction false} StepsSelf(s: seq<Keyed>)
    ensures Steps(s, s) == seq(|s|, i requires 0 <= i < |s| => Pair(s[i], s[i]))
    decreases |s|
  {
    if s != [] {
      LexIrreflexive(s[0].key);
      StepsSelf(s[1..]);
    }
  }

  /** A record paired with itself yields no line unless it holds a NaN. */
  lemma PairSelf(c: OutputCompare, a: Keyed)
    requires NoNaN(a.rec)
    ensures PairLines(c, a, a) == Ok([])
  {
    var f := a.rec.fields;
    forall k | k in f && k in f ensures Eq(f[k], f[k]) {
      assert f[k] != Float(NaN);
    }
    PairLinesEmpty(c, a, a);
  }

  lemma {:induction false} RenderPairsSelf(c: OutputCompare, s: seq<Keyed>)
    requires forall i :: 0 <= i < |s| ==> NoNaN(s[i].rec)
    ensures RenderSteps(c, seq(|s|, i requires 0 <= i < |s| => Pair(s[i], s[i]))) == Ok([])
    decreases |s|
  {
    if s != [] {
      var steps := seq(|s|, i requires 0 <= i < |s| => Pair(s[i], s[i]));
      assert steps[1..] == seq(|s| - 1, i requires 0 <= i < |s| - 1 => Pair(s[1..][i], s[1..][i]));
      RenderPairsSelf(c, s[1..]);
      PairSelf(c, s[0]);
      assert StepLines(c, steps[0]) == Ok([]);
      assert RenderSteps(c, steps) == Then(StepLines(c, steps[0]), RenderSteps(c, steps[1..]));
    }
  }

  /** A table compared with itself yields an empty file, provided every record
      has a displayable identity field and no NaN value (NaN is unequal to itself). */
  lemma CompareSelf(c: OutputCompare, tables: seq<Table>)
    requires c.input1 == c.input2
    requires Data.FindTable(tables, c.input1).Some?
    requires var t := Data.FindTable(tables, c.input1).value;
             KeyAll(t.records, c.identityField).Ok? && forall i :: 0 <= i < |t.records| ==> NoNaN(t.records[i])
    ensures CompareOutput(c, tables) == Ok("")
  {
    var t := Data.FindTable(tables, c.input1).value;
    var k := KeyAll(t.records, c.identityField).value;
    var s := SortByKey(k);
    SortByKeySorted(k);
    forall i | 0 <= i < |s| ensures NoNaN(s[i].rec) {
      assert s[i] in multiset(k);
      var m :| 0 <= m < |k| && k[m] == s[i];
    }
    StepsSelf(s);
    RenderPairsSelf(c, s);
  }

  lemma MergeOneAgainstTwo(a: Keyed, b: Keyed)
    requires LexLess(a.key, b.key)
    ensures Steps(SortByKey([a]), SortByKey([a, b])) == [Pair(a, a), Extra2(b, true)]
  {
    assert SortByKey([a]) == [a];
    assert SortByKey([a, b]) == [a, b] by {
      assert [a, b][1..] == [b];
      assert SortByKey([b]) == [b];
    }
    LexIrreflexive(a.key);
    assert [a][1..] == [] && [a, b][1..] == [b];
    assert Steps([], [b]) == [Extra2(b, true)];
  }

  lemma RenderPairThenExtra(c: OutputCompare, a: Keyed, b: Keyed)
    requires NoNaN(a.rec)
    ensures RenderSteps(c, [Pair(a, a), Extra2(b, true)]) == Ok([ExtraLine(c.input2, b.key, "d")])
  {
    PairSelf(c, a);
    var steps := [Pair(a, a), Extra2(b, true)];
    var line := ExtraLine(c.input2, b.key, "d");
    assert steps[1..] == [Extra2(b, true)] && steps[1..][1..] == [];
    assert RenderSteps(c, steps[1..]) == Then(Ok([line]), Ok([]));
    assert [line] + [] == [line];
    assert RenderSteps(c, steps) == Then(Ok([]), Ok([line]));
    assert [] + [line] == [line];
  }

  /** The differ's worked example: `{id: 1}` against `{id: 1}, {id: 2}` yields the
      single line reporting record 2 as extra in the second table, once the first
      is exhausted. */
  lemma ExtraInSecondScenario(c: OutputCompare, tables: seq<Table>)
    requires c.identityField == "id" && c.input1 != c.input2
    requires tables == [Table(c.input1, [Record(map["id" := Int(1)])]),
                        Table(c.input2, [Record(map["id" := Int(1)]), Record(map["id" := Int(2)])])]
    ensures CompareOutput(c, tables) == Ok(ExtraLine(c.input2, "2", "d"))
  {
    var r1, r2 := Record(map["id" := Int(1)]), Record(map["id" := Int(2)]);
    assert Data.FindTable(tables, c.input1) == Some(tables[0]);
    assert Data.FindTable(tables, c.input2) == Some(tables[1]);
    DisplayForms(Int(1));
    DisplayForms(Int(2));
    assert NatText(1) == "1" && NatText(2) == "2";
    assert KeyOf(r1, "id") == Ok("1");
    assert KeyOf(r2, "id") == Ok("2");
    var a, b := Keyed("1", r1), Keyed("2", r2);
    var k1 := KeyAll([r1], "id");
    assert k1.Ok? && |k1.value| == 1 && k1.value[0] == a;
    assert k1.value == [a];
    var k2 := KeyAll([r1, r2], "id");
    assert KeyOf([r1, r2][1], "id") == Ok("2");
    assert k2.Ok? && |k2.value| == 2 && k2.value[0] == a && k2.value[1] == b;
    assert k2.value == [a, b];
    assert LexLess("1", "2");
    MergeOneAgainstTwo(a, b);
    RenderPairThenExtra(c, a, b);
    assert Join([ExtraLine(c.input2, "2", "d")], "\n") == ExtraLine(c.input2, "2", "d");
  }
}
