/** The plugin registry (src/state/factory.rs): driver names mapped to node
    constructors, and the template merge that fills gaps in a node's
    configuration before its driver is looked up. */
module Factory {
  import opened Wrappers
  import opened Json

  /** A registered node constructor. Constructors are closures in the program;
      here each is known only by a tag. */
  datatype Constructor = Constructor(tag: nat)

  /** What a constructor is invoked with: the node name and the merged configuration. */
  datatype Node = Node(ctor: Constructor, nodeName: string, config: seq<(string, Json)>)

  const NotAString := "called `Option::unwrap()` on a `None` value"

  /** `read_config_field`: the string stored under `name`; a missing key or a
      value that is not a string aborts the run. */
  function ReadConfigField(config: seq<(string, Json)>, name: string): (r: Result<string>)
    ensures r.Ok? <==> Lookup(config, name).Some? && Lookup(config, name).value.JString?
    ensures r.Ok? ==> Lookup(config, name) == Some(JString(r.value))
  {
    match Lookup(config, name)
    case None => Err("no entry found for key")
    case Some(v) => if v.JString? then Ok(v.s) else Err(NotAString)
  }

  lemma {:induction false} LookupAppend(entries: seq<(string, Json)>, e: (string, Json), k: string)
    ensures Lookup(entries + [e], k) ==
            if k in Keys(entries) then Lookup(entries, k) else if e.0 == k then Some(e.1) else None
    decreases |entries|
  {
    if entries != [] && entries[0].0 != k {
      assert (entries + [e])[1..] == entries[1..] + [e];
      LookupAppend(entries[1..], e, k);
    }
  }

  /** The configuration after the template's entries are copied in, in the
      template's order, each one only if its key is not there yet. */
  function MergeTemplate(config: seq<(string, Json)>, template: seq<(string, Json)>): (m: seq<(string, Json)>)
    decreases |template|
  {
    if template == [] then config
    else
      var e := template[0];
      MergeTemplate(if e.0 in Keys(config) then config else config + [e], template[1..])
  }

  lemma KeysCons(entries: seq<(string, Json)>)
    requires entries != []
    ensures Keys(entries) == {entries[0].0} + Keys(entries[1..])
    ensures forall k :: Lookup(entries, k) == if entries[0].0 == k then Some(entries[0].1) else Lookup(entries[1..], k)
  {
    assert forall i :: 1 <= i < |entries| ==> entries[i] == entries[1..][i - 1];
  }

  /** Config wins, the template fills gaps: a key the configuration has keeps
      its value, any other key has the template's value, copied whole. */
  lemma {:induction false} MergeLookup(config: seq<(string, Json)>, template: seq<(string, Json)>, k: string)
    ensures Lookup(MergeTemplate(config, template), k) ==
            if k in Keys(config) then Lookup(config, k) else Lookup(template, k)
    decreases |template|
  {
    if template != [] {
      var e := template[0];
      var next := if e.0 in Keys(config) then config else config + [e];
      if next != config { LookupAppend(config, e, k); }
      KeysCons(template);
      MergeLookup(next, template[1..], k);
    }
  }

  /** No key appears that neither the configuration nor the template has. */
  lemma {:induction false} MergeKeys(config: seq<(string, Json)>, template: seq<(string, Json)>)
    ensures Keys(MergeTemplate(config, template)) == Keys(config) + Keys(template)
    decreases |template|
  {
    if template != [] {
      var e := template[0];
      var next := if e.0 in Keys(config) then config else config + [e];
      if next != config { KeysAppend(config, e); }
      KeysCons(template);
      MergeKeys(next, template[1..]);
    }
  }

  /** The configuration's own entries are kept unchanged (first, in this
      association-list model of a JSON object), and a configuration with
      distinct keys stays so. */
  lemma {:induction false} MergeKeepsConfig(config: seq<(string, Json)>, template: seq<(string, Json)>)
    ensures |MergeTemplate(config, template)| >= |config|
    ensures MergeTemplate(config, template)[..|config|] == config
    ensures DistinctKeys(config) ==> DistinctKeys(MergeTemplate(config, template))
    decreases |template|
  {
    if template != [] {
      var e := template[0];
      var next := if e.0 in Keys(config) then config else config + [e];
      MergeKeepsConfig(next, template[1..]);
      var m := MergeTemplate(next, template[1..]);
      assert m[..|config|] == m[..|next|][..|config|];
    }
  }

  /** The configuration a node is built from: its own entries, merged with the
      template it names under `template`, if any. A template name that is not a
      string, not among the templates, or whose template is not an object aborts. */
  function EffectiveConfig(templates: seq<(string, Json)>, config: seq<(string, Json)>): (r: Result<seq<(string, Json)>>)
    ensures "template" !in Keys(config) ==> r == Ok(config)
    ensures "template" in Keys(config) && r.Ok? ==>
              exists name, t :: Lookup(config, "template") == Some(JString(name)) &&
                                Lookup(templates, name) == Some(JObject(t)) &&
                                r.value == MergeTemplate(config, t)
    ensures ("template" in Keys(config) && Lookup(config, "template").value.JString? &&
             Lookup(templates, Lookup(config, "template").value.s).None?) ==> r == Err("Unknown template")
    ensures var n := Lookup(config, "template");
            n.Some? && n.value.JString? && Lookup(templates, n.value.s).Some? ==>
              var t := Lookup(templates, n.value.s).value;
              r == if t.JObject? then Ok(MergeTemplate(config, t.entries)) else Err(NotAString)
    ensures var n := Lookup(config, "template");
            n.Some? && !n.value.JString? ==> r == Err(NotAString)
  {
    match Lookup(config, "template")
    case None => Ok(config)
    case Some(name) =>
      if !name.JString? then Err(NotAString)
      else
        match Lookup(templates, name.s)
        case None => Err("Unknown template")
        case Some(t) => if t.JObject? then Ok(MergeTemplate(config, t.entries)) else Err(NotAString)
  }

  /** The driver step of `create_node`: no `driver` key skips the node; a
      driver that is not a string, or not registered, aborts; otherwise the
      registered constructor is applied to the node name and the configuration. */
  function SelectDriver(registry: map<string, Constructor>, nodeName: string, config: seq<(string, Json)>): (r: Result<Option<Node>>)
    ensures r == Ok(None) <==> "driver" !in Keys(config)
    ensures r.Ok? && r.value.Some? <==>
              exists d :: Lookup(config, "driver") == Some(JString(d)) && d in registry
    ensures r.Ok? && r.value.Some? ==>
              r.value.value == Node(registry[Lookup(config, "driver").value.s], nodeName, config)
    ensures Lookup(config, "driver").Some? && Lookup(config, "driver").value.JString? &&
            Lookup(config, "driver").value.s !in registry ==>
              r == Err("Unknown driver " + Lookup(config, "driver").value.s)
  {
    match Lookup(config, "driver")
    case None => Ok(None)
    case Some(d) =>
      if !d.JString? then Err("driver field must be a string")
      else if d.s !in registry then Err("Unknown driver " + d.s)
      else Ok(Some(Node(registry[d.s], nodeName, config)))
  }

  class Factory {
    var registry: map<string, Constructor>
    const templates: seq<(string, Json)>

    /** `Factory::new` with the template document already read. */
    constructor (templates: seq<(string, Json)>)
      ensures registry == map[] && this.templates == templates
    {
      registry := map[];
      this.templates := templates;
    }

    /** `register_process`: `name` now builds with `ctor`; a second registration
        of a name replaces the first, and other names keep their constructors. */
    method RegisterProcess(name: string, ctor: Constructor)
      modifies this
      ensures registry == old(registry)[name := ctor]
      ensures forall n :: n != name && n in old(registry) ==> n in registry && registry[n] == old(registry)[n]
    {
      registry := registry[name := ctor];
    }

    /** `create_node`. */
    method CreateNode(nodeName: string, config: Json) returns (r: Result<Option<Node>>)
      ensures !config.JObject? ==> r.Err?
      ensures config.JObject? ==>
                r == match EffectiveConfig(templates, config.entries)
                     case Err(e) => Err(e)
                     case Ok(merged) => SelectDriver(registry, nodeName, merged)
    {
      if !config.JObject? {
        return Err(NotAString);
      }
      var cfg := config.entries;
      var templateName := Lookup(cfg, "template");
      if templateName.Some? {
        if !templateName.value.JString? {
          return Err(NotAString);
        }
        var template := Lookup(templates, templateName.value.s);
        if template.None? {
          return Err("Unknown template");
        }
        if !template.value.JObject? {
          return Err(NotAString);
        }
        var entries := template.value.entries;
        var i := 0;
        while i < |entries|
          invariant 0 <= i <= |entries|
          invariant MergeTemplate(cfg, entries[i..]) == MergeTemplate(config.entries, entries)
        {
          var (key, value) := entries[i];
          if key !in Keys(cfg) {
            cfg := cfg + [(key, value)];
          }
          assert entries[i..][1..] == entries[i + 1..];
          i := i + 1;
        }
        assert entries[i..] == [];
      }
      var driver := Lookup(cfg, "driver");
      if driver.None? {
        return Ok(None);
      }
      if !driver.value.JString? {
        return Err("driver field must be a string");
      }
      if driver.value.s !in registry {
        return Err("Unknown driver " + driver.value.s);
      }
      return Ok(Some(Node(registry[driver.value.s], nodeName, cfg)));
    }
  }

  /** A template may supply the driver of a node whose own configuration has none. */
  lemma TemplateSuppliesDriver(registry: map<string, Constructor>, templates: seq<(string, Json)>,
                               nodeName: string, config: seq<(string, Json)>, name: string,
                               t: seq<(string, Json)>, d: string)
    requires Lookup(config, "template") == Some(JString(name))
    requires Lookup(templates, name) == Some(JObject(t))
    requires "driver" !in Keys(config) && Lookup(t, "driver") == Some(JString(d)) && d in registry
    ensures EffectiveConfig(templates, config) == Ok(MergeTemplate(config, t))
    ensures SelectDriver(registry, nodeName, MergeTemplate(config, t)) ==
            Ok(Some(Node(registry[d], nodeName, MergeTemplate(config, t))))
  {
    MergeLookup(config, t, "driver");
  }

  /** A driver named in the configuration wins over the template's. */
  lemma ConfigDriverWins(config: seq<(string, Json)>, t: seq<(string, Json)>, d: string)
    requires Lookup(config, "driver") == Some(JString(d))
    ensures Lookup(MergeTemplate(config, t), "driver") == Some(JString(d))
  {
    MergeLookup(config, t, "driver");
  }
}
