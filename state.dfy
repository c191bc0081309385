/** The pipeline state (src/state/state.rs): the working set of tables, the plan
    of nodes still to run, and the in-memory results sink and input source. */
module PipelineState {
  import opened Wrappers
  import opened Json
  import opened Data

  /** `MemoryWriter`: results kept in a map from sink name to lines. */
  class MemoryWriter {
    var results: map<string, seq<string>>

    constructor ()
      ensures results == map[]
    {
      results := map[];
    }

    /** Replaces what `name` holds with `rows`; every other sink keeps its lines. */
    method Write(name: string, rows: seq<string>)
      modifies this
      ensures results == old(results)[name := rows]
      ensures forall n :: n != name ==> (n in results <==> n in old(results))
      ensures forall n :: n != name && n in results ==> results[n] == old(results)[n]
    {
      results := results[name := rows];
    }

    /** The rows of the last write to `name`, if there was one. */
    function TestPeek(name: string): (r: Option<seq<string>>)
      reads this
      ensures r.Some? <==> name in results
      ensures r.Some? ==> r.value == results[name]
    {
      if name in results then Some(results[name]) else None
    }
  }

  /** `MemoryReader`: input files kept in a map from name to lines. */
  class MemoryReader {
    var files: map<string, seq<string>>

    constructor ()
      ensures files == map[]
    {
      files := map[];
    }

    /** The stored lines of `name`; a name never stored aborts the run. */
    function Read(name: string): (r: Result<seq<string>>)
      reads this
      ensures r.Ok? <==> name in files
      ensures r.Ok? ==> r.value == files[name]
    {
      if name in files then Ok(files[name]) else Err("called `Option::unwrap()` on a `None` value")
    }
  }

  class State {
    var tables: seq<Table>
    var plan: seq<(string, Json)>
    const writer: MemoryWriter
    const reader: MemoryReader

    /** `State::new`: no tables and nothing planned. */
    constructor (writer: MemoryWriter, reader: MemoryReader)
      ensures tables == [] && plan == []
      ensures this.writer == writer && this.reader == reader
    {
      tables := [];
      plan := [];
      this.writer := writer;
      this.reader := reader;
    }

    /** `State::make`: the plan is every entry of the pipeline object, in its
        iteration order (the `config` entry included); a pipeline that is not an
        object aborts the run. */
    static method Make(pipeline: Json, writer: MemoryWriter, reader: MemoryReader) returns (r: Result<State>)
      ensures r.Ok? <==> pipeline.JObject?
      ensures r.Ok? ==> fresh(r.value) && r.value.tables == [] && r.value.plan == pipeline.entries
      ensures r.Ok? ==> r.value.writer == writer && r.value.reader == reader
    {
      if !pipeline.JObject? {
        return Err("called `Option::unwrap()` on a `None` value");
      }
      var state := new State(writer, reader);
      var entries := pipeline.entries;
      var i := 0;
      while i < |entries|
        invariant 0 <= i <= |entries|
        invariant state.plan == entries[..i] && state.tables == []
        invariant state.writer == writer && state.reader == reader
      {
        state.plan := state.plan + [entries[i]];
        i := i + 1;
      }
      assert entries[..i] == entries;
      return Ok(state);
    }

    /** `find_table`: the first table with the given name; `None` exactly when
        no table has it. */
    function FindTable(name: string): (r: Option<Table>)
      reads this
      ensures r.Some? ==> r.value.name == name && r.value in tables
      ensures r.None? <==> forall t :: t in tables ==> t.name != name
    {
      Data.FindTable(tables, name)
    }

    /** `write_file`: hands the rows to the results writer; tables and plan stay. */
    method WriteFile(name: string, rows: seq<string>)
      modifies writer
      ensures writer.results == old(writer.results)[name := rows]
      ensures tables == old(tables) && plan == old(plan)
    {
      writer.Write(name, rows);
    }

    /** `read_file`: the lines the input reader holds for `name`. */
    function ReadFile(name: string): (r: Result<seq<string>>)
      reads this, reader
      ensures r.Ok? <==> name in reader.files
      ensures r.Ok? ==> r.value == reader.files[name]
    {
      reader.Read(name)
    }
  }
}
