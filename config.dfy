/** `Config::from` (src/state/config.rs): the checkpoint and template file names,
    read from the pipeline's `config` entry with fixed fallbacks. */
module PipelineConfig {
  import opened Wrappers
  import opened Json

  datatype Config = Config(stateFile: string, templateFile: string)

  const DefaultStateFile := "state.json"
  const DefaultTemplateFile := "template.json"

  /** `pipeline["config"][key]` when that is a string. */
  function ConfigString(pipeline: Json, key: string): Option<string> {
    AsStr(Index(Index(pipeline, "config"), key))
  }

  /** Never fails: each name is the string under `config` or its default. */
  function ConfigFrom(pipeline: Json): (c: Config)
    ensures ConfigString(pipeline, "state_file").Some? ==> c.stateFile == ConfigString(pipeline, "state_file").value
    ensures ConfigString(pipeline, "state_file").None? ==> c.stateFile == DefaultStateFile
    ensures ConfigString(pipeline, "template_file").Some? ==> c.templateFile == ConfigString(pipeline, "template_file").value
    ensures ConfigString(pipeline, "template_file").None? ==> c.templateFile == DefaultTemplateFile
  {
    Config(
      ConfigString(pipeline, "state_file").GetOr(DefaultStateFile),
      ConfigString(pipeline, "template_file").GetOr(DefaultTemplateFile))
  }

  /** A pipeline object with no `config` entry gets both defaults. */
  lemma NoConfigEntry(entries: seq<(string, Json)>)
    requires "config" !in Keys(entries)
    ensures ConfigFrom(JObject(entries)) == Config(DefaultStateFile, DefaultTemplateFile)
  {
  }

  /** A `config` entry that is an object with a string `state_file` and no
      `template_file` gives that state file and the default template file. */
  lemma StateFileOnly(entries: seq<(string, Json)>, cfg: seq<(string, Json)>, s: string)
    requires Lookup(entries, "config") == Some(JObject(cfg))
    requires Lookup(cfg, "state_file") == Some(JString(s))
    requires "template_file" !in Keys(cfg)
    ensures ConfigFrom(JObject(entries)) == Config(s, DefaultTemplateFile)
  {
  }

  /** A non-string value falls back to the default rather than failing. */
  lemma NonStringFallsBack(entries: seq<(string, Json)>, cfg: seq<(string, Json)>, n: int)
    requires Lookup(entries, "config") == Some(JObject(cfg))
    requires Lookup(cfg, "state_file") == Some(JInt(n))
    ensures ConfigFrom(JObject(entries)).stateFile == DefaultStateFile
  {
  }
}
