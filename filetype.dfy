/** Which parser reads a document: the explicit `--file_type`, or else the
    file name's suffix (`load_file` and `main`). */
module FileType {
  import opened Wrappers

  datatype Format = Json | Yaml

  datatype FormatError =
    | CannotInfer   // no explicit type and no known suffix
    | InvalidType   // an explicit type other than "json" or "yaml"

  /** `s.endswith(suffix)`. */
  predicate EndsWith(s: string, suffix: string)
  {
    |suffix| <= |s| && s[|s| - |suffix|..] == suffix
  }

  /** The name the command line and `load_file` use for a format. */
  function FormatName(f: Format): string
  {
    match f
    case Json => "json"
    case Yaml => "yaml"
  }

  /** The suffix rule: `.json` is JSON, `.yaml` and `.yml` are YAML, and any
      other name cannot be inferred. */
  function InferFormat(path: string): (r: Result<Format, FormatError>)
    ensures r == Ok(Json) <==> EndsWith(path, ".json")
    ensures r == Ok(Yaml) <==> EndsWith(path, ".yaml") || EndsWith(path, ".yml")
    ensures r.Err? <==> !EndsWith(path, ".json") && !EndsWith(path, ".yaml") && !EndsWith(path, ".yml")
    ensures r.Err? ==> r.error == CannotInfer
  {
    if EndsWith(path, ".json") then
      assert path[|path| - 1] == 'n';
      Ok(Json)
    else if EndsWith(path, ".yaml") || EndsWith(path, ".yml") then
      assert path[|path| - 1] == 'l';
      Ok(Yaml)
    else Err(CannotInfer)
  }

  /** An explicit file type: "json" or "yaml", anything else is refused. */
  function ParseFormatName(name: string): (r: Result<Format, FormatError>)
    ensures r.Ok? <==> name == "json" || name == "yaml"
    ensures r.Ok? ==> FormatName(r.value) == name
    ensures r.Err? ==> r.error == InvalidType
  {
    if name == "json" then Ok(Json)
    else if name == "yaml" then Ok(Yaml)
    else Err(InvalidType)
  }

  /** The parser `load_file` picks: the explicit type when one is given,
      whatever the file is called, and the suffix rule otherwise. */
  function ResolveFormat(path: string, requested: Option<string>): (r: Result<Format, FormatError>)
    ensures requested.Some? ==> (r.Ok? <==> requested.value == "json" || requested.value == "yaml")
    ensures requested.Some? && r.Ok? ==> FormatName(r.value) == requested.value
    ensures requested.None? ==> (r.Ok? <==> EndsWith(path, ".json") || EndsWith(path, ".yaml") || EndsWith(path, ".yml"))
    ensures requested.None? ==> (r == Ok(Json) <==> EndsWith(path, ".json"))
    ensures requested.None? ==> (r == Ok(Yaml) <==> EndsWith(path, ".yaml") || EndsWith(path, ".yml"))
  {
    match requested
    case None => InferFormat(path)
    case Some(name) => ParseFormatName(name)
  }

  /** The type `main` settles on before loading anything: the `--file_type`
      option (which the command line restricts to the two formats), else the
      suffix rule applied to the configuration file's name. */
  function MainFormat(configPath: string, requested: Option<Format>): (r: Result<Format, FormatError>)
    ensures requested.Some? ==> r == Ok(requested.value)
    ensures requested.None? ==> (r.Ok? <==> EndsWith(configPath, ".json") || EndsWith(configPath, ".yaml") || EndsWith(configPath, ".yml"))
    ensures requested.None? ==> (r == Ok(Json) <==> EndsWith(configPath, ".json"))
    ensures requested.None? ==> (r == Ok(Yaml) <==> EndsWith(configPath, ".yaml") || EndsWith(configPath, ".yml"))
  {
    match requested
    case Some(f) => Ok(f)
    case None => InferFormat(configPath)
  }

  /** A format's name is read back as that format. */
  lemma FormatNameRoundTrip(f: Format)
    ensures ParseFormatName(FormatName(f)) == Ok(f)
  {
  }

  /** `main` hands the type it settled on to `load_file` for both documents:
      the template is parsed in the configuration's format whatever its own
      name, and for the configuration this agrees with what `load_file`'s own
      suffix rule would have chosen. */
  lemma MainAndLoaderAgree(configPath: string, templatePath: string, requested: Option<Format>)
    requires MainFormat(configPath, requested).Ok?
    ensures var f := MainFormat(configPath, requested).value;
      && ResolveFormat(configPath, Some(FormatName(f))) == Ok(f)
      && ResolveFormat(templatePath, Some(FormatName(f))) == Ok(f)
      && (requested.None? ==> ResolveFormat(configPath, None) == Ok(f))
  {
    FormatNameRoundTrip(MainFormat(configPath, requested).value);
  }
}
