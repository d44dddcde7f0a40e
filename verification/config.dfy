/**
 * Loading the JSON configuration: a missing file is replaced by the defaults;
 * an existing one gets every default key it lacks, and is saved back only when
 * that added something. Values are kept abstract (`V`).
 */
module Config {
  import opened Wrappers

  /** The loop over the defaults: add each missing key with its default value. */
  method MergeDefaults<V>(data: map<string, V>, defaults: map<string, V>) returns (merged: map<string, V>, changed: bool)
    ensures merged.Keys == data.Keys + defaults.Keys
    ensures forall k | k in data :: merged[k] == data[k]
    ensures forall k | k in defaults && k !in data :: merged[k] == defaults[k]
    ensures changed <==> !(defaults.Keys <= data.Keys)
  {
    merged := data;
    changed := false;
    var todo := defaults.Keys;
    while todo != {}
      invariant todo <= defaults.Keys
      invariant merged.Keys == data.Keys + (defaults.Keys - todo)
      invariant forall k | k in data :: merged[k] == data[k]
      invariant forall k | k in merged && k !in data :: merged[k] == defaults[k]
      invariant changed <==> exists k | k in defaults.Keys - todo :: k !in data
      decreases todo
    {
      var k :| k in todo;
      if k !in merged {
        merged := merged[k := defaults[k]];
        changed := true;
      }
      todo := todo - {k};
    }
  }

  /** The merge is the defaults overridden by what the file holds. */
  lemma MergeIsOverride<V>(data: map<string, V>, defaults: map<string, V>, merged: map<string, V>)
    requires merged.Keys == data.Keys + defaults.Keys
    requires forall k | k in data :: merged[k] == data[k]
    requires forall k | k in defaults && k !in data :: merged[k] == defaults[k]
    ensures merged == defaults + data
  {
  }

  /**
   * `load_config`: `file` is the parsed file, None when it does not exist.
   * Returns the configuration and what was written back, if anything.
   */
  method LoadConfig<V>(file: Option<map<string, V>>, defaults: map<string, V>)
    returns (config: map<string, V>, saved: Option<map<string, V>>)
    ensures file.None? ==> config == defaults && saved == Some(defaults)
    ensures file.Some? ==> config == defaults + file.value
    ensures file.Some? ==> (saved.Some? <==> !(defaults.Keys <= file.value.Keys))
    ensures saved.Some? ==> saved.value == config
  {
    if file.None? {
      return defaults, Some(defaults);
    }
    var changed;
    config, changed := MergeDefaults(file.value, defaults);
    MergeIsOverride(file.value, defaults, config);
    saved := if changed then Some(config) else None;
  }
}
