/**
 * The server's configuration record: its fields, their defaults, how a structural
 * document is read into it, and the naming rule its field names keep.
 */
module RuntimeConfig {
  import opened Wrappers
  import opened Strings
  import opened Documents
  import opened Parsers
  import opened Urls
  import Defaults

  /**
   * A nested sub-configuration whose own deserializer is not part of this model:
   * either its type's default, or the document it is read from.
   */
  datatype Nested = DefaultInstance | Supplied(raw: Document)

  datatype Config = Config(
    customScalars: Option<string>,
    endpoint: Url,
    graphos: Nested,
    headers: HeaderMap,
    introspection: Nested,
    logging: Nested,
    operations: Nested,
    overrides: Nested,
    schema: Nested,
    transport: Nested)

  /** The top-level fields, in declaration order. */
  datatype Field =
    | CustomScalarsField | EndpointField | GraphosField | HeadersField | IntrospectionField
    | LoggingField | OperationsField | OverridesField | SchemaField | TransportField

  /** The value of one field, tagged with the field it belongs to. */
  datatype FieldValue =
    | CustomScalars(path: Option<string>)
    | Endpoint(url: Url)
    | Graphos(nested: Nested)
    | Headers(headers: HeaderMap)
    | Introspection(nested: Nested)
    | Logging(nested: Nested)
    | Operations(nested: Nested)
    | Overrides(nested: Nested)
    | Schema(nested: Nested)
    | Transport(nested: Nested)

  datatype ConfigError =
    /** The document is not a mapping. */
    | NotAStruct(found: Kind)
    /** A recognised field appears twice. */
    | DuplicateField(key: string)
    /** A field that is read from a string got something else. */
    | NotAString(key: string, found: Kind)
    /** The endpoint string is not a URL. */
    | MalformedEndpoint(text: string)
    /** The headers field was rejected by its deserializer. */
    | MalformedHeaders(cause: HeaderError)

  /** The name of a field, as documents and the schema spell it. */
  function Key(f: Field): (k: string)
    ensures |k| > 0 && forall i :: 0 <= i < |k| ==> ('a' <= k[i] <= 'z') || k[i] == '_'
  {
    match f
    case CustomScalarsField => "custom_scalars"
    case EndpointField => "endpoint"
    case GraphosField => "graphos"
    case HeadersField => "headers"
    case IntrospectionField => "introspection"
    case LoggingField => "logging"
    case OperationsField => "operations"
    case OverridesField => "overrides"
    case SchemaField => "schema"
    case TransportField => "transport"
  }

  /** The field a document key names, if any: the inverse of `Key`. */
  function FieldOfKey(key: string): (r: Option<Field>)
    ensures r.Some? ==> Key(r.value) == key
    ensures r.None? ==> forall f :: Key(f) != key
  {
    if key == "custom_scalars" then Some(CustomScalarsField)
    else if key == "endpoint" then Some(EndpointField)
    else if key == "graphos" then Some(GraphosField)
    else if key == "headers" then Some(HeadersField)
    else if key == "introspection" then Some(IntrospectionField)
    else if key == "logging" then Some(LoggingField)
    else if key == "operations" then Some(OperationsField)
    else if key == "overrides" then Some(OverridesField)
    else if key == "schema" then Some(SchemaField)
    else if key == "transport" then Some(TransportField)
    else None
  }

  /** Every field's own name leads back to it. */
  lemma KeyRoundTrip(f: Field)
    ensures FieldOfKey(Key(f)) == Some(f)
  {
  }

  /** The field a value belongs to. */
  function FieldOf(fv: FieldValue): Field {
    match fv
    case CustomScalars(_) => CustomScalarsField
    case Endpoint(_) => EndpointField
    case Graphos(_) => GraphosField
    case Headers(_) => HeadersField
    case Introspection(_) => IntrospectionField
    case Logging(_) => LoggingField
    case Operations(_) => OperationsField
    case Overrides(_) => OverridesField
    case Schema(_) => SchemaField
    case Transport(_) => TransportField
  }

  /** The record that every absent field falls back to. */
  function DefaultConfig(): (r: Config)
    ensures r.customScalars == None && r.headers == map[]
    ensures r.endpoint == Url("http", "127.0.0.1:4000")
  {
    Config(
      customScalars := None,
      endpoint := Defaults.Endpoint(),
      graphos := DefaultInstance,
      headers := map[],
      introspection := DefaultInstance,
      logging := DefaultInstance,
      operations := DefaultInstance,
      overrides := DefaultInstance,
      schema := DefaultInstance,
      transport := DefaultInstance)
  }

  /** Every field that holds a nested section defaults to that section's own default. */
  lemma NestedFieldsDefault(f: Field)
    requires f != CustomScalarsField && f != EndpointField && f != HeadersField
    ensures Project(DefaultConfig(), f).nested == DefaultInstance
  {
  }

  /** Field `f` of `c`. */
  function Project(c: Config, f: Field): FieldValue {
    match f
    case CustomScalarsField => CustomScalars(c.customScalars)
    case EndpointField => Endpoint(c.endpoint)
    case GraphosField => Graphos(c.graphos)
    case HeadersField => Headers(c.headers)
    case IntrospectionField => Introspection(c.introspection)
    case LoggingField => Logging(c.logging)
    case OperationsField => Operations(c.operations)
    case OverridesField => Overrides(c.overrides)
    case SchemaField => Schema(c.schema)
    case TransportField => Transport(c.transport)
  }

  /** Overrides one field of `c`; every other field is left as it was. */
  function Set(c: Config, fv: FieldValue): (r: Config)
    ensures Project(r, FieldOf(fv)) == fv
    ensures forall f :: f != FieldOf(fv) ==> Project(r, f) == Project(c, f)
  {
    match fv
    case CustomScalars(p) => c.(customScalars := p)
    case Endpoint(u) => c.(endpoint := u)
    case Graphos(n) => c.(graphos := n)
    case Headers(h) => c.(headers := h)
    case Introspection(n) => c.(introspection := n)
    case Logging(n) => c.(logging := n)
    case Operations(n) => c.(operations := n)
    case Overrides(n) => c.(overrides := n)
    case Schema(n) => c.(schema := n)
    case Transport(n) => c.(transport := n)
  }

  /**
   * Reads one field from its document, each through its own type's deserializer:
   * `custom_scalars` takes null or a path string, `endpoint` a string that parses as a
   * URL, `headers` whatever the header-map deserializer accepts, and each nested
   * section keeps its document for its own deserializer.
   */
  function ParseFieldValue(f: Field, d: Document): (r: Result<FieldValue, ConfigError>)
    ensures r.Success? ==> FieldOf(r.value) == f
    ensures f == CustomScalarsField ==> (r.Success? <==> d.Null? || d.Str?)
    ensures f == CustomScalarsField && d.Null? ==> r == Success(CustomScalars(None))
    ensures f == CustomScalarsField && d.Str? ==> r == Success(CustomScalars(Some(d.s)))
    ensures f == EndpointField ==> (r.Success? <==> d.Str? && ParseUrl(d.s).Some?)
    ensures f == EndpointField && d.Str? && ParseUrl(d.s).Some? ==> r == Success(Endpoint(ParseUrl(d.s).value))
    ensures f == EndpointField && d.Str? && ParseUrl(d.s).None? ==> r == Failure(MalformedEndpoint(d.s))
    ensures ((f == CustomScalarsField && !d.Null?) || f == EndpointField) && !d.Str? ==>
      r == Failure(NotAString(Key(f), KindOf(d)))
    ensures f == HeadersField && d.Mapping? ==> (r.Success? <==> ParseEntries(d.entries).Success?)
    ensures f == HeadersField && d.Mapping? && r.Success? ==> r.value == Headers(ParseEntries(d.entries).value)
    ensures f == HeadersField && d.Mapping? && r.Failure? ==> r.error == MalformedHeaders(ParseEntries(d.entries).error)
    ensures f == HeadersField && !d.Mapping? ==> r == Failure(MalformedHeaders(InvalidType(KindOf(d), Expecting)))
    ensures f != CustomScalarsField && f != EndpointField && f != HeadersField ==>
      r.Success? && r.value.nested == Supplied(d)
  {
    match f
    case CustomScalarsField =>
      (match d
       case Null => Success(CustomScalars(None))
       case Str(path) => Success(CustomScalars(Some(path)))
       case _ => Failure(NotAString(Key(f), KindOf(d))))
    case EndpointField =>
      (match d
       case Str(text) =>
         (match ParseUrl(text)
          case None => Failure(MalformedEndpoint(text))
          case Some(u) => Success(Endpoint(u)))
       case _ => Failure(NotAString(Key(f), KindOf(d))))
    case HeadersField =>
      (match HeaderField(d)
       case Failure(e) => Failure(MalformedHeaders(e))
       case Success(h) => Success(Headers(h)))
    case GraphosField => Success(Graphos(Supplied(d)))
    case IntrospectionField => Success(Introspection(Supplied(d)))
    case LoggingField => Success(Logging(Supplied(d)))
    case OperationsField => Success(Operations(Supplied(d)))
    case OverridesField => Success(Overrides(Supplied(d)))
    case SchemaField => Success(Schema(Supplied(d)))
    case TransportField => Success(Transport(Supplied(d)))
  }

  /**
   * The derived record visitor: entries in order, unknown keys skipped, a repeated
   * field rejected, each field read and set over the defaults.
   */
  function Collect(es: seq<(string, Document)>, c: Config, seen: set<Field>): (r: Result<Config, ConfigError>)
    ensures r.Success? ==> forall f :: f in seen ==> Project(r.value, f) == Project(c, f)
    ensures r.Failure? ==> !r.error.NotAStruct?
    decreases |es|
  {
    if |es| == 0 then Success(c)
    else
      match FieldOfKey(es[0].0)
      case None => Collect(es[1..], c, seen)
      case Some(f) =>
        if f in seen then Failure(DuplicateField(es[0].0))
        else
          match ParseFieldValue(f, es[0].1)
          case Failure(e) => Failure(e)
          case Success(fv) => Collect(es[1..], Set(c, fv), seen + {f})
  }

  /** Reads a document into a `Config`: defaults first, then every field the document supplies. */
  function ParseConfig(d: Document): (r: Result<Config, ConfigError>)
    ensures r.Failure? && r.error.NotAStruct? <==> !d.Mapping?
    ensures d == Mapping([]) ==> r == Success(DefaultConfig())
  {
    match d
    case Mapping(es) => Collect(es, DefaultConfig(), {})
    case _ => Failure(NotAStruct(KindOf(d)))
  }

  // Defaults.

  /** The empty document gives the all-defaults record, with the default endpoint parsed from its text. */
  lemma EmptyDocumentYieldsDefaults()
    ensures ParseConfig(Mapping([])) == Success(DefaultConfig())
    ensures var c := DefaultConfig();
      && c.customScalars == None
      && ParseUrl(Defaults.EndpointText) == Some(c.endpoint)
      && c.headers == map[]
      && c.graphos == c.introspection == c.logging == c.operations == DefaultInstance
      && c.overrides == c.schema == c.transport == DefaultInstance
  {
  }

  lemma {:induction false} CollectKeepsAbsentField(es: seq<(string, Document)>, c: Config, seen: set<Field>, f: Field)
    requires forall i :: 0 <= i < |es| ==> es[i].0 != Key(f)
    requires Collect(es, c, seen).Success?
    ensures Project(Collect(es, c, seen).value, f) == Project(c, f)
    decreases |es|
  {
    if |es| > 0 {
      forall i | 0 <= i < |es[1..]| ensures es[1..][i].0 != Key(f) {
        assert es[1..][i] == es[i + 1];
      }
      match FieldOfKey(es[0].0)
      case None =>
        CollectKeepsAbsentField(es[1..], c, seen, f);
      case Some(g) =>
        var fv := ParseFieldValue(g, es[0].1).value;
        CollectKeepsAbsentField(es[1..], Set(c, fv), seen + {g}, f);
    }
  }

  /** A field the document does not mention takes its declared default. */
  lemma AbsentFieldTakesDefault(es: seq<(string, Document)>, f: Field, c: Config)
    requires forall i :: 0 <= i < |es| ==> es[i].0 != Key(f)
    requires ParseConfig(Mapping(es)) == Success(c)
    ensures Project(c, f) == Project(DefaultConfig(), f)
  {
    CollectKeepsAbsentField(es, DefaultConfig(), {}, f);
  }

  lemma {:induction false} CollectSetsPresentField(es: seq<(string, Document)>, c: Config, seen: set<Field>, i: nat, f: Field)
    requires i < |es| && es[i].0 == Key(f)
    requires forall j :: 0 <= j < |es| && j != i ==> es[j].0 != Key(f)
    requires Collect(es, c, seen).Success?
    ensures ParseFieldValue(f, es[i].1) == Success(Project(Collect(es, c, seen).value, f))
    decreases |es|
  {
    KeyRoundTrip(f);
    if i == 0 {
      var fv := ParseFieldValue(f, es[0].1).value;
      forall j | 0 <= j < |es[1..]| ensures es[1..][j].0 != Key(f) {
        assert es[1..][j] == es[j + 1];
      }
      CollectKeepsAbsentField(es[1..], Set(c, fv), seen + {f}, f);
    } else {
      forall j | 0 <= j < |es[1..]| && j != i - 1 ensures es[1..][j].0 != Key(f) {
        assert es[1..][j] == es[j + 1];
      }
      assert es[1..][i - 1] == es[i];
      match FieldOfKey(es[0].0)
      case None =>
        CollectSetsPresentField(es[1..], c, seen, i - 1, f);
      case Some(g) =>
        var fv := ParseFieldValue(g, es[0].1).value;
        CollectSetsPresentField(es[1..], Set(c, fv), seen + {g}, i - 1, f);
    }
  }

  /** A field the document supplies once holds what that field's deserializer read from it. */
  lemma PresentFieldIsParsed(es: seq<(string, Document)>, i: nat, f: Field, c: Config)
    requires i < |es| && es[i].0 == Key(f)
    requires forall j :: 0 <= j < |es| && j != i ==> es[j].0 != Key(f)
    requires ParseConfig(Mapping(es)) == Success(c)
    ensures ParseFieldValue(f, es[i].1) == Success(Project(c, f))
  {
    CollectSetsPresentField(es, DefaultConfig(), {}, i, f);
  }

  lemma {:induction false} CollectSkipsUnknownKey(
    before: seq<(string, Document)>, after: seq<(string, Document)>,
    key: string, d: Document, c: Config, seen: set<Field>)
    requires FieldOfKey(key).None?
    ensures Collect(before + [(key, d)] + after, c, seen) == Collect(before + after, c, seen)
    decreases |before|
  {
    var es := before + [(key, d)] + after;
    if |before| == 0 {
      assert es[1..] == after;
      assert before + after == after;
    } else {
      assert es[0] == (before + after)[0] == before[0];
      assert es[1..] == before[1..] + [(key, d)] + after;
      assert (before + after)[1..] == before[1..] + after;
      match FieldOfKey(before[0].0)
      case None =>
        CollectSkipsUnknownKey(before[1..], after, key, d, c, seen);
      case Some(g) =>
        if g !in seen {
          match ParseFieldValue(g, before[0].1)
          case Failure(_) =>
          case Success(fv) => CollectSkipsUnknownKey(before[1..], after, key, d, Set(c, fv), seen + {g});
        }
    }
  }

  /** A key that names no field is ignored, wherever it appears. */
  lemma UnknownKeyIgnored(before: seq<(string, Document)>, after: seq<(string, Document)>, key: string, d: Document)
    requires FieldOfKey(key).None?
    ensures ParseConfig(Mapping(before + [(key, d)] + after)) == ParseConfig(Mapping(before + after))
  {
    CollectSkipsUnknownKey(before, after, key, d, DefaultConfig(), {});
  }

  lemma {:induction false} CollectSuccessHasNoRepeats(es: seq<(string, Document)>, c: Config, seen: set<Field>)
    requires Collect(es, c, seen).Success?
    ensures forall i :: 0 <= i < |es| && FieldOfKey(es[i].0).Some? ==> FieldOfKey(es[i].0).value !in seen
    ensures forall i, j :: 0 <= i < j < |es| && FieldOfKey(es[i].0).Some? ==> es[i].0 != es[j].0
    decreases |es|
  {
    if |es| > 0 {
      match FieldOfKey(es[0].0)
      case None =>
        CollectSuccessHasNoRepeats(es[1..], c, seen);
      case Some(g) =>
        var fv := ParseFieldValue(g, es[0].1).value;
        CollectSuccessHasNoRepeats(es[1..], Set(c, fv), seen + {g});
      forall i | 0 <= i < |es| && FieldOfKey(es[i].0).Some? ensures FieldOfKey(es[i].0).value !in seen {
        if i > 0 {
          assert es[i] == es[1..][i - 1];
        }
      }
      forall i, j | 0 <= i < j < |es| && FieldOfKey(es[i].0).Some? ensures es[i].0 != es[j].0 {
        assert es[j] == es[1..][j - 1];
        if i > 0 {
          assert es[i] == es[1..][i - 1];
        }
      }
    }
  }

  /** A document that reads successfully names no field twice. */
  lemma SuccessMeansNoRepeatedField(es: seq<(string, Document)>, c: Config)
    requires ParseConfig(Mapping(es)) == Success(c)
    ensures forall i, j :: 0 <= i < j < |es| && FieldOfKey(es[i].0).Some? ==> es[i].0 != es[j].0
  {
    CollectSuccessHasNoRepeats(es, DefaultConfig(), {});
  }

  lemma {:induction false} CollectSucceeds(es: seq<(string, Document)>, c: Config, seen: set<Field>)
    requires forall i, j :: 0 <= i < j < |es| && FieldOfKey(es[i].0).Some? ==> es[i].0 != es[j].0
    requires forall i :: 0 <= i < |es| && FieldOfKey(es[i].0).Some? ==>
      FieldOfKey(es[i].0).value !in seen && ParseFieldValue(FieldOfKey(es[i].0).value, es[i].1).Success?
    ensures Collect(es, c, seen).Success?
    decreases |es|
  {
    if |es| > 0 {
      var rest := es[1..];
      forall i, j | 0 <= i < j < |rest| && FieldOfKey(rest[i].0).Some? ensures rest[i].0 != rest[j].0 {
        assert rest[i] == es[i + 1] && rest[j] == es[j + 1];
      }
      match FieldOfKey(es[0].0)
      case None =>
        forall i | 0 <= i < |rest| && FieldOfKey(rest[i].0).Some?
          ensures FieldOfKey(rest[i].0).value !in seen && ParseFieldValue(FieldOfKey(rest[i].0).value, rest[i].1).Success?
        {
          assert rest[i] == es[i + 1];
        }
        CollectSucceeds(rest, c, seen);
      case Some(g) =>
        var fv := ParseFieldValue(g, es[0].1).value;
        forall i | 0 <= i < |rest| && FieldOfKey(rest[i].0).Some?
          ensures FieldOfKey(rest[i].0).value !in seen + {g} && ParseFieldValue(FieldOfKey(rest[i].0).value, rest[i].1).Success?
        {
          assert rest[i] == es[i + 1];
          assert es[0].0 != es[i + 1].0;
        }
        CollectSucceeds(rest, Set(c, fv), seen + {g});
    }
  }

  /**
   * A document that names each field at most once, with a value that field's reader
   * accepts, reads successfully: each named field holds what its reader produced, and
   * every other field keeps its default.
   */
  lemma ValidFieldsParse(es: seq<(string, Document)>)
    requires forall i, j :: 0 <= i < j < |es| && FieldOfKey(es[i].0).Some? ==> es[i].0 != es[j].0
    requires forall i :: 0 <= i < |es| && FieldOfKey(es[i].0).Some? ==>
      ParseFieldValue(FieldOfKey(es[i].0).value, es[i].1).Success?
    ensures ParseConfig(Mapping(es)).Success?
    ensures forall i :: 0 <= i < |es| && FieldOfKey(es[i].0).Some? ==>
      ParseFieldValue(FieldOfKey(es[i].0).value, es[i].1)
        == Success(Project(ParseConfig(Mapping(es)).value, FieldOfKey(es[i].0).value))
    ensures forall f :: (forall i :: 0 <= i < |es| ==> es[i].0 != Key(f)) ==>
      Project(ParseConfig(Mapping(es)).value, f) == Project(DefaultConfig(), f)
  {
    CollectSucceeds(es, DefaultConfig(), {});
    var c := ParseConfig(Mapping(es)).value;
    forall i | 0 <= i < |es| && FieldOfKey(es[i].0).Some?
      ensures ParseFieldValue(FieldOfKey(es[i].0).value, es[i].1) == Success(Project(c, FieldOfKey(es[i].0).value))
    {
      var f := FieldOfKey(es[i].0).value;
      forall j | 0 <= j < |es| && j != i ensures es[j].0 != Key(f) {
        if j > i {
          assert es[i].0 != es[j].0;
        } else {
          KeyRoundTrip(f);
          assert es[i].0 == Key(f);
          assert FieldOfKey(es[j].0).Some? ==> es[j].0 != es[i].0;
        }
      }
      PresentFieldIsParsed(es, i, f, c);
    }
    forall f | forall i :: 0 <= i < |es| ==> es[i].0 != Key(f)
      ensures Project(c, f) == Project(DefaultConfig(), f)
    {
      AbsentFieldTakesDefault(es, f, c);
    }
  }

  /** `{"endpoint": "not a url"}` is rejected, naming the offending text. */
  lemma MalformedEndpointRejected()
    ensures ParseConfig(Mapping([("endpoint", Str("not a url"))])) == Failure(MalformedEndpoint("not a url"))
  {
    var es := [("endpoint", Str("not a url"))];
    KeyRoundTrip(EndpointField);
    assert FieldOfKey(es[0].0) == Some(EndpointField);
    NotAUrlRejected();
    assert ParseFieldValue(EndpointField, es[0].1) == Failure(MalformedEndpoint("not a url"));
  }

  /** A `headers` field that is not a mapping is rejected with the visitor's expectation. */
  lemma HeadersMustBeAMapping(d: Document)
    requires !d.Mapping?
    ensures ParseConfig(Mapping([("headers", d)]))
         == Failure(MalformedHeaders(InvalidType(KindOf(d), "a map of header string keys and values")))
  {
    var es := [("headers", d)];
    KeyRoundTrip(HeadersField);
    assert FieldOfKey(es[0].0) == Some(HeadersField);
    assert HeaderField(d) == Failure(InvalidType(KindOf(d), Expecting));
    assert ParseFieldValue(HeadersField, d) == Failure(MalformedHeaders(InvalidType(KindOf(d), Expecting)));
  }

  // The naming rule.

  /**
   * A field name usable as the first segment of an override key: it holds no `"__"`
   * and does not end in `_` (which would merge with a following delimiter).
   */
  predicate OverrideSafe(name: string) {
    !Contains(name, "__") && |name| > 0 && name[|name| - 1] != '_'
  }

  lemma UnderscoreFreeIsSafe(name: string)
    requires '_' !in name && |name| > 0
    ensures OverrideSafe(name)
  {
    NoUnderscoreNoDouble(name);
  }

  /** No top-level field name contains `"__"`, and none ends in `_`. */
  lemma FieldNamesAreOverrideSafe()
    ensures forall f :: OverrideSafe(Key(f))
  {
    forall f ensures OverrideSafe(Key(f)) {
      if f == CustomScalarsField {
        UnderscoreJoinNoDouble("custom", "scalars");
        assert "custom" + "_" + "scalars" == Key(f);
      } else {
        UnderscoreFreeIsSafe(Key(f));
      }
    }
  }

  /**
   * Why the rule matters: an override key made of a field name, the delimiter `"__"`
   * and a nested path splits into that field name first, then the nested path's segments.
   */
  lemma OverrideKeyReachesField(f: Field, nested: string)
    ensures SplitOn(Key(f) + "__" + nested, "__") == [Key(f)] + SplitOn(nested, "__")
  {
    FieldNamesAreOverrideSafe();
    SplitAfterSegment(Key(f), nested);
  }
}
