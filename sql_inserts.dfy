/** The SQL insert generator (src/output/sql_inserts.rs): one
    `insert into T (cols) values (vals);` command per record of the input table,
    columns in ascending name order, the commands joined by line breaks. */
module SqlInserts {
  import opened Wrappers
  import opened Text
  import opened Json
  import opened Variants
  import opened Data
  import opened PipelineState
  import Factory

  datatype OutputSqlInserts = OutputSqlInserts(nodeName: string, input: string, path: string, tableName: string)

  /** `OutputSqlInserts::from_config`: three string fields, each required. */
  function FromConfig(nodeName: string, config: seq<(string, Json)>): (r: Result<OutputSqlInserts>)
    ensures r.Ok? <==> (Factory.ReadConfigField(config, "input").Ok? && Factory.ReadConfigField(config, "path").Ok? &&
                        Factory.ReadConfigField(config, "table-name").Ok?)
    ensures r.Ok? ==> r.value.nodeName == nodeName &&
                      Lookup(config, "input") == Some(JString(r.value.input)) &&
                      Lookup(config, "path") == Some(JString(r.value.path)) &&
                      Lookup(config, "table-name") == Some(JString(r.value.tableName))
  {
    var input :- Factory.ReadConfigField(config, "input");
    var path :- Factory.ReadConfigField(config, "path");
    var tableName :- Factory.ReadConfigField(config, "table-name");
    Ok(OutputSqlInserts(nodeName, input, path, tableName))
  }

  /** `join`: the items separated by `joiner`, a comma when none is given. */
  function JoinItems(items: seq<string>, joiner: Option<string>): string {
    Join(items, joiner.GetOr(","))
  }

  /** With a one-character separator no item contains, the items can be read back. */
  lemma JoinItemsSplit(items: seq<string>, c: char)
    requires items != []
    requires forall i :: 0 <= i < |items| ==> c !in items[i]
    ensures Split(JoinItems(items, Some([c])), c) == items
    ensures c == ',' ==> Split(JoinItems(items, None), c) == items
  {
    SplitJoin(items, c);
  }

  function Backticked(names: seq<string>): (r: seq<string>)
    ensures |r| == |names|
  {
    seq(|names|, i requires 0 <= i < |names| => "`" + names[i] + "`")
  }

  /** The display texts of the given fields, in order; aborts at the first value
      with no JSON text. */
  function ValueTexts(fields: map<string, Variant>, names: seq<string>): (r: Result<seq<string>>)
    requires forall i :: 0 <= i < |names| ==> names[i] in fields
    ensures r.Ok? <==> forall i :: 0 <= i < |names| ==> Serializable(fields[names[i]])
    ensures r.Ok? ==> |r.value| == |names| &&
                      forall i :: 0 <= i < |names| ==> Display(fields[names[i]]) == Ok(r.value[i])
  {
    var texts := seq(|names|, i requires 0 <= i < |names| => Display(fields[names[i]]));
    assert forall i :: 0 <= i < |names| ==> texts[i] == Display(fields[names[i]]);
    Collect(texts)
  }

  /** The command for one record. */
  function InsertCommand(tableName: string, record: Record): (r: Result<string>)
    ensures r.Ok? <==> forall k :: k in record.fields ==> Serializable(record.fields[k])
  {
    var names := SortedNames(record.fields.Keys);
    var texts :- ValueTexts(record.fields, names);
    Ok("insert into " + tableName + " (" + JoinItems(Backticked(names), None) + ") values (" +
       JoinItems(texts, None) + ");")
  }

  /** One command per record, in record order. */
  function Commands(tableName: string, records: seq<Record>): (r: Result<seq<string>>)
    ensures r.Ok? <==> forall i :: 0 <= i < |records| ==> InsertCommand(tableName, records[i]).Ok?
    ensures r.Ok? ==> |r.value| == |records| &&
                      forall i :: 0 <= i < |records| ==> InsertCommand(tableName, records[i]) == Ok(r.value[i])
    ensures r.Err? ==> exists i :: 0 <= i < |records| && InsertCommand(tableName, records[i]) == Err(r.msg) &&
                                   forall j :: 0 <= j < i ==> InsertCommand(tableName, records[j]).Ok?
  {
    Collect(CommandResults(tableName, records))
  }

  function CommandResults(tableName: string, records: seq<Record>): (r: seq<Result<string>>)
    ensures |r| == |records| && forall i :: 0 <= i < |records| ==> r[i] == InsertCommand(tableName, records[i])
  {
    seq(|records|, i requires 0 <= i < |records| => InsertCommand(tableName, records[i]))
  }

  /** What `OutputSqlInserts::run` writes to `path`. */
  function SqlOutput(node: OutputSqlInserts, tables: seq<Table>): Result<string> {
    match Data.FindTable(tables, node.input)
    case None => Err(UnwrapNone)
    case Some(t) =>
      var cmds :- Commands(node.tableName, t.records);
      Ok(JoinItems(cmds, Some("\n")))
  }

  /** `OutputSqlInserts::run`: returns the text it writes to `path`. */
  method Run(node: OutputSqlInserts, st: State) returns (r: Result<string>)
    ensures r == SqlOutput(node, st.tables)
  {
    var t := st.FindTable(node.input);
    if t.None? {
      return Err(UnwrapNone);
    }
    var records := t.value.records;
    var commands: seq<string> := [];
    var i := 0;
    while i < |records|
      invariant 0 <= i <= |records|
      invariant |commands| == i
      invariant forall j :: 0 <= j < i ==> InsertCommand(node.tableName, records[j]) == Ok(commands[j])
    {
      var command := InsertCommand(node.tableName, records[i]);
      if command.Err? {
        CommandsFirstFailure(node.tableName, records, i);
        return Err(command.msg);
      }
      commands := commands + [command.value];
      i := i + 1;
    }
    CommandsAllOk(node.tableName, records, commands);
    return Ok(JoinItems(commands, Some("\n")));
  }

  lemma CommandsFirstFailure(tableName: string, records: seq<Record>, i: nat)
    requires i < |records|
    requires forall j :: 0 <= j < i ==> InsertCommand(tableName, records[j]).Ok?
    requires InsertCommand(tableName, records[i]).Err?
    ensures Commands(tableName, records) == Err(InsertCommand(tableName, records[i]).msg)
  {
    var r := Commands(tableName, records);
    var k :| 0 <= k < |records| && InsertCommand(tableName, records[k]) == Err(r.msg) &&
             forall j :: 0 <= j < k ==> InsertCommand(tableName, records[j]).Ok?;
    assert k == i;
  }

  lemma CommandsAllOk(tableName: string, records: seq<Record>, commands: seq<string>)
    requires |commands| == |records|
    requires forall j :: 0 <= j < |records| ==> InsertCommand(tableName, records[j]) == Ok(commands[j])
    ensures Commands(tableName, records) == Ok(commands)
  {
    assert Commands(tableName, records).value == commands;
  }

  /** The shape of a command: the record's field names in ascending order, each
      in backticks, and the display texts of their values in the same order. */
  lemma CommandShape(tableName: string, record: Record)
    requires InsertCommand(tableName, record).Ok?
    ensures var names := SortedNames(record.fields.Keys);
            StrictlyAscending(names) && (forall k :: k in names <==> k in record.fields) &&
            exists texts: seq<string> ::
              |texts| == |names| &&
              (forall i :: 0 <= i < |names| ==> Display(record.fields[names[i]]) == Ok(texts[i])) &&
              InsertCommand(tableName, record).value ==
                "insert into " + tableName + " (" + JoinItems(Backticked(names), None) + ") values (" +
                JoinItems(texts, None) + ");"
  {
    var names := SortedNames(record.fields.Keys);
    var texts := ValueTexts(record.fields, names).value;
    assert forall i :: 0 <= i < |names| ==> Display(record.fields[names[i]]) == Ok(texts[i]);
    assert InsertCommand(tableName, record).value ==
           "insert into " + tableName + " (" + JoinItems(Backticked(names), None) + ") values (" +
           JoinItems(texts, None) + ");";
  }

  /** The column list reads back as the backticked names when no name holds a comma. */
  lemma ColumnsReadBack(names: seq<string>)
    requires names != []
    requires forall i :: 0 <= i < |names| ==> ',' !in names[i]
    ensures Split(JoinItems(Backticked(names), None), ',') == Backticked(names)
  {
    var cols := Backticked(names);
    forall i | 0 <= i < |cols| ensures ',' !in cols[i] {
      assert cols[i] == "`" + names[i] + "`";
    }
    JoinItemsSplit(cols, ',');
  }

  lemma {:induction false} JoinAvoids(xs: seq<string>, sep: string, c: char)
    requires c !in sep
    requires forall i :: 0 <= i < |xs| ==> c !in xs[i]
    ensures c !in Join(xs, sep)
    decreases |xs|
  {
    if |xs| > 1 {
      JoinAvoids(xs[1..], sep, c);
    }
  }

  /** A command holds no line break when the table and field names hold none. */
  lemma CommandSingleLine(tableName: string, record: Record)
    requires InsertCommand(tableName, record).Ok?
    requires '\n' !in tableName
    requires forall k :: k in record.fields ==> '\n' !in k
    ensures '\n' !in InsertCommand(tableName, record).value
  {
    var names := SortedNames(record.fields.Keys);
    var texts := ValueTexts(record.fields, names).value;
    var cols := Backticked(names);
    forall i | 0 <= i < |cols| ensures '\n' !in cols[i] {
      assert names[i] in record.fields;
      assert cols[i] == "`" + names[i] + "`";
    }
    JoinAvoids(cols, ",", '\n');
    forall i | 0 <= i < |texts| ensures '\n' !in texts[i] {
      DisplayPrintable(record.fields[names[i]]);
    }
    JoinAvoids(texts, ",", '\n');
  }

  /** The file splits back into the commands, one per line, when no name holds a
      line break (displayed values never do). */
  lemma OutputLines(node: OutputSqlInserts, tables: seq<Table>)
    requires SqlOutput(node, tables).Ok?
    requires '\n' !in node.tableName
    requires var t := Data.FindTable(tables, node.input).value;
             t.records != [] && forall i, k :: 0 <= i < |t.records| && k in t.records[i].fields ==> '\n' !in k
    ensures var t := Data.FindTable(tables, node.input).value;
            Split(SqlOutput(node, tables).value, '\n') == Commands(node.tableName, t.records).value
  {
    var t := Data.FindTable(tables, node.input).value;
    var cmds := Commands(node.tableName, t.records).value;
    forall i | 0 <= i < |cmds| ensures '\n' !in cmds[i] {
      CommandSingleLine(node.tableName, t.records[i]);
    }
    JoinItemsSplit(cmds, '\n');
  }
}
