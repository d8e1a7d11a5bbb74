/** Reading a transform from the configuration (transform/transform.go,
    `ParseSecretTransformFromConfig`). */
module TransformConfig {
  import opened Transform

  /** A decoded configuration value. */
  datatype Config = String(s: string) | Object(fields: map<string, Config>) | List(items: seq<Config>) | Scalar

  datatype ConfigError =
    | TransformNotObject
    | ModeNotString
    | InvalidMode(mode: string)
    | MappingsNotList
    | MappingNotObject(i: nat)
    | FromOrToMissing(i: nat)
    | FromNotString(i: nat)
    | ToNotString(i: nat)

  datatype Parsed = Ok(mappings: seq<KeyMapping>, mode: Mode) | Err(error: ConfigError)

  predicate IsMapping(entry: Config) {
    && entry.Object? && "from" in entry.fields && "to" in entry.fields
    && entry.fields["from"].String? && entry.fields["to"].String?
  }

  function MappingOf(entry: Config): KeyMapping
    requires IsMapping(entry)
  {
    KeyMapping(entry.fields["from"].s, entry.fields["to"].s)
  }

  /** Why an entry of the mapping list is refused. */
  ghost predicate Refuses(entry: Config, i: nat, error: ConfigError) {
    match error
    case MappingNotObject(n) => n == i && !entry.Object?
    case FromOrToMissing(n) => n == i && entry.Object? && !({"from", "to"} <= entry.fields.Keys)
    case FromNotString(n) =>
      n == i && entry.Object? && {"from", "to"} <= entry.fields.Keys && !entry.fields["from"].String?
    case ToNotString(n) =>
      && n == i && entry.Object? && {"from", "to"} <= entry.fields.Keys
      && entry.fields["from"].String? && !entry.fields["to"].String?
    case _ => false
  }

  predicate ModeAccepted(transform: map<string, Config>) {
    "mode" in transform ==> transform["mode"].String? && transform["mode"].s in {"keep_all", "transformed_only"}
  }

  function ModeOf(transform: map<string, Config>): Mode {
    if "mode" in transform && transform["mode"] == String("transformed_only") then TransformedOnly else KeepAll
  }

  /** The configurations the parser accepts. */
  ghost predicate Accepted(config: map<string, Config>) {
    "transform" in config ==>
      && config["transform"].Object?
      && ModeAccepted(config["transform"].fields)
      && ("key_mappings" in config["transform"].fields ==>
            && config["transform"].fields["key_mappings"].List?
            && forall entry :: entry in config["transform"].fields["key_mappings"].items ==> IsMapping(entry))
  }

  /** The mapping list of an accepted configuration, in the order written. */
  ghost predicate Lists(config: map<string, Config>, mappings: seq<KeyMapping>)
    requires Accepted(config)
  {
    if "transform" in config && "key_mappings" in config["transform"].fields then
      var items := config["transform"].fields["key_mappings"].items;
      && |mappings| == |items|
      && forall i :: 0 <= i < |items| ==> IsMapping(items[i]) && mappings[i] == MappingOf(items[i])
    else mappings == []
  }

  /** The error names the first thing wrong, in the order the parser looks. */
  ghost predicate Explains(config: map<string, Config>, error: ConfigError) {
    && "transform" in config
    && if !config["transform"].Object? then error == TransformNotObject
       else
         var transform := config["transform"].fields;
         if !ModeAccepted(transform) then
           error == if transform["mode"].String? then InvalidMode(transform["mode"].s) else ModeNotString
         else
           && "key_mappings" in transform
           && if !transform["key_mappings"].List? then error == MappingsNotList
              else FirstRefusal(transform["key_mappings"].items, error)
  }

  ghost predicate FirstRefusal(items: seq<Config>, error: ConfigError) {
    exists i :: 0 <= i < |items| && Refuses(items[i], i, error) && forall j :: 0 <= j < i ==> IsMapping(items[j])
  }

  /** What the parser must answer. */
  ghost predicate ParsesTo(config: map<string, Config>, r: Parsed) {
    && (r.Ok? <==> Accepted(config))
    && (r.Ok? ==> Lists(config, r.mappings))
    && (r.Ok? ==> r.mode == if "transform" in config then ModeOf(config["transform"].fields) else KeepAll)
    && (r.Err? ==> Explains(config, r.error))
  }

  function Written(mapping: KeyMapping): Config {
    Object(map["from" := String(mapping.from), "to" := String(mapping.to)])
  }

  /** A transform as the documentation has it written. */
  function WrittenOut(mappings: seq<KeyMapping>, mode: Mode): map<string, Config> {
    map["transform" := Object(map[
      "mode" := String(if mode.KeepAll? then "keep_all" else "transformed_only"),
      "key_mappings" := List(seq(|mappings|, i requires 0 <= i < |mappings| => Written(mappings[i])))])]
  }

  /** A transform that is written out is read back, and nothing written means none. */
  lemma WrittenParses(mappings: seq<KeyMapping>, mode: Mode, r: Parsed)
    requires ParsesTo(WrittenOut(mappings, mode), r)
    ensures r == Ok(mappings, mode)
  {
    var config := WrittenOut(mappings, mode);
    var items := config["transform"].fields["key_mappings"].items;
    assert forall i :: 0 <= i < |items| ==> items[i] == Written(mappings[i]) && IsMapping(items[i]);
    assert Accepted(config);
    assert r.mappings == mappings;
  }

  /** What is left out has its default: no mappings, keep_all. */
  lemma Defaults(config: map<string, Config>, r: Parsed)
    requires ParsesTo(config, r)
    ensures "transform" !in config ==> r == Ok([], KeepAll)
    ensures r.Ok? && "transform" in config && "mode" !in config["transform"].fields ==> r.mode == KeepAll
    ensures r.Ok? && "transform" in config && "key_mappings" !in config["transform"].fields ==> r.mappings == []
  {}

  /** Accepts exactly the well-formed configurations and keeps their mappings in
      order; otherwise reports the first thing wrong. */
  method Parse(config: map<string, Config>) returns (r: Parsed)
    ensures ParsesTo(config, r)
  {
    var mappings := [];
    var mode := KeepAll;
    if "transform" !in config {
      return Ok(mappings, mode);
    }
    if !config["transform"].Object? {
      return Err(TransformNotObject);
    }
    var transform := config["transform"].fields;
    if "mode" in transform {
      if !transform["mode"].String? {
        return Err(ModeNotString);
      }
      match transform["mode"].s
      case "keep_all" => mode := KeepAll;
      case "transformed_only" => mode := TransformedOnly;
      case other => return Err(InvalidMode(other));
    }
    if "key_mappings" !in transform {
      return Ok(mappings, mode);
    }
    if !transform["key_mappings"].List? {
      return Err(MappingsNotList);
    }
    var items := transform["key_mappings"].items;
    for i := 0 to |items|
      invariant |mappings| == i
      invariant forall j :: 0 <= j < i ==> IsMapping(items[j]) && mappings[j] == MappingOf(items[j])
    {
      var entry := items[i];
      assert entry in items;
      if !entry.Object? {
        return Err(MappingNotObject(i));
      }
      if "from" !in entry.fields || "to" !in entry.fields {
        return Err(FromOrToMissing(i));
      }
      if !entry.fields["from"].String? {
        return Err(FromNotString(i));
      }
      if !entry.fields["to"].String? {
        return Err(ToNotString(i));
      }
      mappings := mappings + [KeyMapping(entry.fields["from"].s, entry.fields["to"].s)];
    }
    return Ok(mappings, mode);
  }
}
