/** Records and tables of the working set (src/state/data.rs). */
module Data {
  import opened Wrappers
  import opened Variants

  /** One row: field name to value. A map, so each name occurs once. */
  datatype Record = Record(fields: map<string, Variant>)

  /** A named table; records keep the order the producing node gave them. */
  datatype Table = Table(name: string, records: seq<Record>)

  /** `find_table`: the first table with the given name. */
  function FindTable(tables: seq<Table>, name: string): (r: Option<Table>)
    ensures r.Some? ==> r.value.name == name
    ensures r.Some? ==> exists i :: 0 <= i < |tables| && tables[i] == r.value &&
                                   forall j :: 0 <= j < i ==> tables[j].name != name
    ensures r.None? <==> forall i :: 0 <= i < |tables| ==> tables[i].name != name
    decreases |tables|
  {
    if tables == [] then None
    else if tables[0].name == name then Some(tables[0])
    else
      var r := FindTable(tables[1..], name);
      assert forall i :: 1 <= i < |tables| ==> tables[i] == tables[1..][i - 1];
      r
  }

  /** Tables added after the first one with a name do not change what is found. */
  lemma {:induction false} FindTableAppend(tables: seq<Table>, more: seq<Table>, name: string)
    requires FindTable(tables, name).Some?
    ensures FindTable(tables + more, name) == FindTable(tables, name)
    decreases |tables|
  {
    if tables[0].name != name {
      assert (tables + more)[1..] == tables[1..] + more;
      FindTableAppend(tables[1..], more, name);
    }
  }
}
