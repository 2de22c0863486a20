/** First-pass validation of an anonymization configuration (`parse_config`).

    The configuration is the mapping read from the configuration file. The
    checks run in a fixed order: `source` must be truthy, then `dest`; then a
    warning is issued when `include` is falsy; then `source.get('type')` and
    `dest.get('type')` must be truthy. A truthy `source` or `dest` that is not
    a mapping has no `get` method, and Python raises `AttributeError` there.
 */
module ConfigParse {
  import opened Dicts
  import opened PyValues

  /** Why a configuration is refused. The first four are `ConfigParserError`s
      with their own messages; `NoGetMethod` is Python's `AttributeError`. */
  datatype ConfigError =
    | SourceNotDefined
    | DestNotDefined
    | SourceTypeNotDefined
    | DestTypeNotDefined
    | NoGetMethod(typeName: string)

  /** The text of the exception raised for `e`. */
  function Message(e: ConfigError): string {
    match e
    case SourceNotDefined => "source error: source not defined. Please check config."
    case DestNotDefined => "destination error: dest not defined. Please check config."
    case SourceTypeNotDefined => "source error: source type not defined. Please check config."
    case DestTypeNotDefined => "destination error: dest type not defined. Please check config."
    case NoGetMethod(t) => "'" + t + "' object has no attribute 'get'"
  }

  /** The `Config` named tuple: seven fields, in this order. */
  datatype Config = Config(
    source: Value,
    dest: Value,
    anonymizationType: Value,
    maskedFields: Value,
    suppressedFields: Value,
    includeRest: Value,
    sensitive: Value)

  /** The outcome of `parse_config`: whether the "no masked fields" warning was
      issued, and the record or the exception. */
  datatype Parsed = Parsed(warned: bool, result: Result<Config, ConfigError>)

  /** The method call `v.get(k)`: only mappings have it. */
  function CallGet(v: Value, k: string): Result<Value, ConfigError> {
    if v.Map? then Ok(Get(v.entries, k)) else Err(NoGetMethod(TypeName(v)))
  }

  function ParseConfig(config: seq<(string, Value)>): (p: Parsed)
    ensures p.result.Ok? ==> p.result.value == Config(
      Get(config, "source"), Get(config, "dest"), Get(config, "anonymization"),
      Get(config, "include"), Get(config, "exclude"), Get(config, "include_rest"),
      Get(config, "sensitive"))
  {
    var source := Get(config, "source");
    var dest := Get(config, "dest");
    var masked := Get(config, "include");
    var record := Config(source, dest, Get(config, "anonymization"), masked,
                         Get(config, "exclude"), Get(config, "include_rest"),
                         Get(config, "sensitive"));
    if !Truthy(source) then Parsed(false, Err(SourceNotDefined))
    else if !Truthy(dest) then Parsed(false, Err(DestNotDefined))
    else
      var warned := !Truthy(masked);
      match CallGet(source, "type")
      case Err(e) => Parsed(warned, Err(e))
      case Ok(readerType) =>
        match CallGet(dest, "type")
        case Err(e) => Parsed(warned, Err(e))
        case Ok(writerType) =>
          if !Truthy(readerType) then Parsed(warned, Err(SourceTypeNotDefined))
          else if !Truthy(writerType) then Parsed(warned, Err(DestTypeNotDefined))
          else Parsed(warned, Ok(record))
  }

  /** The type a section declares, if the section is a mapping. */
  function SectionType(section: Value): Value {
    if section.Map? then Get(section.entries, "type") else Scalar(Null)
  }

  /** A section is usable when it is a non-empty mapping with a truthy `type`. */
  predicate Usable(section: Value) {
    section.Map? && section.entries != [] && Truthy(SectionType(section))
  }

  /** The configuration is accepted exactly when both sections are usable. */
  lemma AcceptedIff(config: seq<(string, Value)>)
    ensures ParseConfig(config).result.Ok? <==>
              Usable(Get(config, "source")) && Usable(Get(config, "dest"))
  {
  }

  /** Which check fails first, in source order: each failure names its own cause. */
  lemma FirstFailure(config: seq<(string, Value)>)
    ensures var source, dest := Get(config, "source"), Get(config, "dest");
            var r := ParseConfig(config).result;
            && (r == Err(SourceNotDefined) <==> !Truthy(source))
            && (r == Err(DestNotDefined) <==> Truthy(source) && !Truthy(dest))
            && (r == Err(SourceTypeNotDefined) <==>
                  Truthy(source) && Truthy(dest) && source.Map? && dest.Map? && !Truthy(SectionType(source)))
            && (r == Err(DestTypeNotDefined) <==>
                  Truthy(source) && Truthy(dest) && source.Map? && dest.Map?
                  && Truthy(SectionType(source)) && !Truthy(SectionType(dest)))
            && (r.Err? && r.error.NoGetMethod? <==>
                  Truthy(source) && Truthy(dest) && (!source.Map? || !dest.Map?))
  {
  }

  /** The warning is issued exactly when `include` is absent or falsy and the
      checks of `source` and `dest` were passed to reach it. */
  lemma WarnedIff(config: seq<(string, Value)>)
    ensures ParseConfig(config).warned <==>
              Truthy(Get(config, "source")) && Truthy(Get(config, "dest")) && !Truthy(Get(config, "include"))
  {
  }

  /** Failure depends on `source` and `dest` alone: the warning, and every other
      key, never decide it. */
  lemma WarningNeverFails(c1: seq<(string, Value)>, c2: seq<(string, Value)>)
    requires Get(c1, "source") == Get(c2, "source") && Get(c1, "dest") == Get(c2, "dest")
    ensures ParseConfig(c1).result.Err? <==> ParseConfig(c2).result.Err?
    ensures ParseConfig(c1).result.Err? ==> ParseConfig(c1).result.error == ParseConfig(c2).result.error
  {
  }

  /** Every failure has its own message: the four `ConfigParserError`s differ
      from one another, and the `AttributeError` names the offending type. */
  lemma MessagesDistinct(e1: ConfigError, e2: ConfigError)
    requires e1.NoGetMethod? == e2.NoGetMethod?
    ensures Message(e1) == Message(e2) ==> e1 == e2
  {
    var m1, m2 := Message(e1), Message(e2);
    if e1.NoGetMethod? {
      assert m1[1..|m1| - 31] == e1.typeName && m2[1..|m2| - 31] == e2.typeName;
    }
  }
}
