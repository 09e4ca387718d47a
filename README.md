# Server configuration model: header map parser, defaults and the field-naming rule

This project models the core of the MCP server's runtime configuration
(`crates/apollo-mcp-server/src/runtime/config.rs`) and proves properties of that model:

- **The `headers` field deserializer** (`parsers::map_from_str` and its visitor). It reads a
  structural mapping of string keys to string values, in the order the format backend yields
  them. Each key must be an HTTP field name and each value an HTTP field value. Each valid pair
  is `insert`ed into a header map, replacing any earlier value for the same name. The first
  invalid entry aborts the whole field. Any input that is not a mapping is refused with the expectation
  "a map of header string keys and values".
  - `Parsers.ParseEntries` is the specification: a fold over the entries.
  - `Parsers.VisitMap` is the loop itself, a method with a local map accumulator, proved equal to
    that fold.
- **The `Config` record and its defaults.** A document is read field by field over an
  all-defaults record. Absent fields keep their defaults: no custom scalars, endpoint
  `http://127.0.0.1:4000`, no headers, the default instance of each nested sub-configuration.
  The empty document gives exactly the defaults. The default endpoint text is proved to parse.
- **The naming rule.** No top-level field name contains `"__"`. The environment-override reader
  splits keys on `"__"` to address nested fields, and `RuntimeConfig.OverrideKeyReachesField`
  proves that an override key built from any field name splits back to that name.

Modules, one per file:

| file | module | models |
|---|---|---|
| `wrappers.dfy` | `Wrappers` | `Option` and `Result` |
| `strings.dfy` | `Strings` | character classes; substring search (`Find`, `Contains`); splitting on a delimiter (`SplitOn`) |
| `documents.dfy` | `Documents` | the structural document a self-describing format backend produces |
| `header_syntax.dfy` | `HeaderSyntax` | `HeaderName::from_str` and `HeaderValue::from_str` |
| `parsers.dfy` | `Parsers` | `map_from_str`, `visit_map`, `expecting` |
| `urls.dfy` | `Urls` | absolute URLs, as far as the endpoint field needs them |
| `defaults.dfy` | `Defaults` | `defaults::endpoint` |
| `config.dfy` | `RuntimeConfig` | `Config`, its field table, reading a document into it, the naming rule |

Assumptions. The model fixes the rules of three libraries that are not part of it:

- `HeaderName::from_str` accepts exactly the `token`s of sections 5.1 and 5.6.2 of RFC 9110 and
  stores them lower-cased. So keys that differ only in case name the same header, and the later
  one wins.
- `HeaderValue::from_str` accepts exactly the strings made of HTAB, SP, VCHAR and obs-text
  (section 5.5 of RFC 9110). That means any character except the ASCII controls other than HTAB,
  and DEL. Leading and trailing whitespace in a value is accepted like any other SP or HTAB.
- `Url::parse` accepts `scheme "://" rest`. The scheme is as in section 3.1 of RFC 3986, the rest
  is non-empty, and there is no ASCII space, ASCII control character or DEL anywhere; every
  character beyond ASCII is allowed.

Three choices follow the code directly:

- Header errors carry no payload. The code passes on only the library error's message
  (`e.to_string()`, lines 107 and 109), so `InvalidHeaderName` and `InvalidHeaderValue` name
  neither the key nor the value.
- The header map holds one value per name, because only `insert` is called (line 111). So
  `Parsers.HeaderMap` is a `map`.
- The naming rule is stated for the top-level fields, the only ones this file defines.

The naming rule as the test states it (`!schema.contains("__")`) is not quite enough for the
split to work. A field name ending in `_` would also merge with the following delimiter.
`RuntimeConfig.OverrideSafe` adds that condition, and every current field name meets it.

## Model

| member | source | states |
|---|---|---|
| `Parsers.VisitMap` | crates/apollo-mcp-server/src/runtime/config.rs:97-115 | The loop's result is exactly `ParseEntries(entries)`: the filled map when every entry is valid, otherwise the error of the first bad entry. With no entries the loop body never runs and the result is the empty map. |
| `Parsers.MapFromStr` | crates/apollo-mcp-server/src/runtime/config.rs:85-119 | A mapping goes to the visitor. Any other document (string, number, boolean, null, sequence) fails with `InvalidType`, carrying its kind and the text "a map of header string keys and values". |
| `Parsers.FailureIsFinal` | crates/apollo-mcp-server/src/runtime/config.rs:105-109 | Once a prefix of the entries fails, the whole parse returns that same failure, so later entries cannot change it. |
| `Parsers.ParseFailsIffSomeEntryInvalid` | crates/apollo-mcp-server/src/runtime/config.rs:105-109 | The parse fails if and only if at least one entry is invalid. |
| `Parsers.ParseReportsFirstInvalidEntry` | crates/apollo-mcp-server/src/runtime/config.rs:105-109 | The error returned is the error of the first invalid entry. |
| `Parsers.FailFastIgnoresRest` | crates/apollo-mcp-server/src/runtime/config.rs:105-109 | Input with an invalid entry fails, and whatever follows that entry gives the same result as cutting the input after it. No partial map is ever returned. |
| `Parsers.ParseKeysAreInputNames` | crates/apollo-mcp-server/src/runtime/config.rs:105-111 | On success, every input key's parsed name is in the map, and every name in the map is the parsed name of some input key. |
| `Parsers.ParseLastEntryWins` | crates/apollo-mcp-server/src/runtime/config.rs:105-111 | On success, a name maps to the value of the last entry that parses to that name (`insert` replaces instead of appending). |
| `Parsers.ParseStoresValidPairs` | crates/apollo-mcp-server/src/runtime/config.rs:106-111 | On success, every stored name is a lower-case token and every stored value is a valid field value. The map has no more names than there were entries. |
| `Parsers.TwoHeadersParse` | crates/apollo-mcp-server/src/runtime/config.rs:105-114 | `{"x-a": "1", "x-b": "2"}` gives exactly those two headers. |
| `Parsers.SpaceInNameRejected` | crates/apollo-mcp-server/src/runtime/config.rs:106-107 | `{"bad header name": "v"}` fails with `InvalidHeaderName`. |
| `Parsers.LineFeedInValueRejected` | crates/apollo-mcp-server/src/runtime/config.rs:108-109 | `{"x-a": "line1\nline2"}` fails with `InvalidHeaderValue`. |
| `Parsers.DuplicateNameLastWins` | crates/apollo-mcp-server/src/runtime/config.rs:106-111 | `x-a: first` followed by `X-A: second` gives the single header `x-a: second`. |
| `Parsers.ParseEntry` | crates/apollo-mcp-server/src/runtime/config.rs:105-109 | An entry is accepted if and only if its value is a string, its key is a token and its value is a field value. It then yields the lower-cased name and the unchanged value, both valid. A non-string value fails with `EntryNotString` and its kind. A string value fails with `InvalidHeaderName` when the key is not a token, and otherwise with `InvalidHeaderValue`, so the name is checked before the value. |
| `HeaderSyntax.ParseName` | crates/apollo-mcp-server/src/runtime/config.rs:106 | A key parses if and only if it is a token. The parsed name is the key's lower-case form, and it is a valid name. |
| `HeaderSyntax.ParseNameCaseInsensitive` | crates/apollo-mcp-server/src/runtime/config.rs:106 | Two keys with the same lower-case form parse to the same result, so they are duplicates of each other. |
| `HeaderSyntax.ParseNameRoundTrip` | crates/apollo-mcp-server/src/runtime/config.rs:106 | Every valid name parses back to itself. |
| `HeaderSyntax.ParseValue` | crates/apollo-mcp-server/src/runtime/config.rs:108 | A value parses if and only if it is a field value, and it is stored unchanged. |
| `HeaderSyntax.ParseValueRoundTrip` | crates/apollo-mcp-server/src/runtime/config.rs:108 | Every valid value parses back to itself. |
| `Defaults.EndpointTextParses` | crates/apollo-mcp-server/src/runtime/config.rs:61-66 | `"http://127.0.0.1:4000"` parses as a URL with scheme `http` and rest `127.0.0.1:4000`. |
| `Defaults.Endpoint` | crates/apollo-mcp-server/src/runtime/config.rs:61-66 | The default endpoint is the parse of its text. The unwrap can never fail, and the scheme is `http`. |
| `Urls.ParseUrl` | crates/apollo-mcp-server/src/runtime/config.rs:20-22 | A parsed URL has a valid scheme that does not contain `"://"`, and a non-empty rest. None of its characters is an ASCII space, an ASCII control character or DEL; characters beyond ASCII are allowed. Text without `"://"` never parses. |
| `Urls.ParseThenSerialize` | crates/apollo-mcp-server/src/runtime/config.rs:20-22 | Printing a parsed endpoint gives back the text it was parsed from. |
| `Urls.SerializeThenParse` | crates/apollo-mcp-server/src/runtime/config.rs:20-22 | Every well-formed URL value survives printing and parsing again. |
| `Urls.NotAUrlRejected` | crates/apollo-mcp-server/src/runtime/config.rs:20-22 | `"not a url"` does not parse. |
| `RuntimeConfig.Key` | crates/apollo-mcp-server/src/runtime/config.rs:16-56 | Fixes the ten field names of `struct Config`. Each is non-empty and made of lower-case letters and `_` only. |
| `RuntimeConfig.FieldOfKey` | crates/apollo-mcp-server/src/runtime/config.rs:16-56 | Maps a document key to the field with that name, or to none when no field has that name. |
| `RuntimeConfig.KeyRoundTrip` | crates/apollo-mcp-server/src/runtime/config.rs:16-56 | Every field's own name leads back to that field. |
| `RuntimeConfig.Set` | crates/apollo-mcp-server/src/runtime/config.rs:16-56 | Setting one field changes that field only. |
| `RuntimeConfig.ParseFieldValue` | crates/apollo-mcp-server/src/runtime/config.rs:16-56 | Each field is read by its own type's deserializer. `custom_scalars` accepts exactly null (giving none) or a string (giving that path). `endpoint` accepts exactly a string that parses as a URL: it holds that URL, a string that does not parse fails with `MalformedEndpoint` of the text, and any other document with `NotAString`. `headers` succeeds exactly when the header-map deserializer does, holding its map, and otherwise fails with `MalformedHeaders` of its error, including the invalid-type error for a non-mapping. Every nested section takes its document as supplied. A success is always tagged with the field that was read. |
| `RuntimeConfig.DefaultConfig` | crates/apollo-mcp-server/src/runtime/config.rs:18-31 | The fallback record has no custom scalars, no headers, and the endpoint `http` / `127.0.0.1:4000`, the parse of `defaults::endpoint`'s text (lines 61-66). |
| `RuntimeConfig.NestedFieldsDefault` | crates/apollo-mcp-server/src/runtime/config.rs:24-55 | Every `#[serde(default)]` nested field of the fallback record is that type's default instance. |
| `RuntimeConfig.Collect` | crates/apollo-mcp-server/src/runtime/config.rs:15-56 | Reading the remaining entries never overwrites a field already read, and it never fails with `NotAStruct`. |
| `RuntimeConfig.ParseConfig` | crates/apollo-mcp-server/src/runtime/config.rs:15-56 | A document fails with `NotAStruct` if and only if it is not a mapping. The empty mapping reads into exactly the defaults. |
| `RuntimeConfig.ValidFieldsParse` | crates/apollo-mcp-server/src/runtime/config.rs:15-56 | A mapping that names each field at most once, each with a value that field's reader accepts, reads successfully. Each named field holds what its reader produced, and every unnamed field keeps its default. |
| `RuntimeConfig.EmptyDocumentYieldsDefaults` | crates/apollo-mcp-server/src/runtime/config.rs:127-128 | `{}` reads successfully into the all-defaults record: no custom scalars, the endpoint parsed from `"http://127.0.0.1:4000"`, no headers, every nested sub-configuration at its default. |
| `RuntimeConfig.AbsentFieldTakesDefault` | crates/apollo-mcp-server/src/runtime/config.rs:16-56 | A field the document does not mention keeps its declared default. |
| `RuntimeConfig.PresentFieldIsParsed` | crates/apollo-mcp-server/src/runtime/config.rs:16-56 | A field the document supplies once holds what that field's deserializer read from it. |
| `RuntimeConfig.UnknownKeyIgnored` | crates/apollo-mcp-server/src/runtime/config.rs:15-16 | A key that names no field changes nothing, wherever it appears. |
| `RuntimeConfig.SuccessMeansNoRepeatedField` | crates/apollo-mcp-server/src/runtime/config.rs:15-16 | A document that reads successfully names no field twice. |
| `RuntimeConfig.MalformedEndpointRejected` | crates/apollo-mcp-server/src/runtime/config.rs:20-22 | `{"endpoint": "not a url"}` fails with `MalformedEndpoint("not a url")`. |
| `RuntimeConfig.HeadersMustBeAMapping` | crates/apollo-mcp-server/src/runtime/config.rs:28-31 | A `headers` value that is not a mapping fails the whole document. The error is the visitor's invalid-type error, carrying the value's kind and "a map of header string keys and values". |
| `RuntimeConfig.FieldNamesAreOverrideSafe` | crates/apollo-mcp-server/src/runtime/config.rs:132-145 | No top-level field name contains `"__"`. None is empty, and none ends in `_`. |
| `Strings.Contains` | crates/apollo-mcp-server/src/runtime/config.rs:144 | The substring test: true if and only if the delimiter occurs at some position of the text. |
| `RuntimeConfig.OverrideKeyReachesField` | crates/apollo-mcp-server/src/runtime/config.rs:133-138 | For every field, splitting `name + "__" + nested` on `"__"` gives that field name, then the segments of `nested`. |

## Left out

- Parsing the `HeaderName` and `HeaderValue` strings is done by a library that is not part of
  this model. The RFC 9110 rules stated above are an assumption. Any length limit the library
  imposes is not modelled.
- `HeaderMap` is modelled as a `map`, without the library's iteration order or its
  multi-value storage. Only `insert` is used, so each name holds one value.
- Error message texts are not modelled: neither the library errors' `to_string()` nor serde's
  formatting of "invalid type" errors. Errors carry their kind, plus the expectation text where
  the source states it.
- The capacity limit of `HeaderMap` is not modelled. `HeaderMap::with_capacity` (line 101)
  panics when the size hint exceeds the library's maximum (about 24 576 entries), and `insert`
  panics once the map reaches its maximum size (32 768). The library is not part of this model.
- Parsers.VisitMap: returns `Success` for any number of entries, where the source panics instead
  of returning a map for a very large mapping (see the capacity limit above).
- Parsers.ParseEntries: likewise has no bound on the number of entries.
- The `deserialize_str` hint at line 118 is not modelled. Its effect depends on the format
  backend, and the model assumes a self-describing backend that calls `visit_map` for a mapping.
- `next_entry` failures other than a non-string value are not modelled. That covers non-string
  keys and strings a backend cannot lend, because document keys are strings in this model.
- Floating-point documents are not modelled.
- `Url::parse` (the WHATWG URL Standard) is approximated as described above. Its normalisation
  (lower-casing the scheme, the trailing `/` it adds) is not modelled.
- `GraphOSConfig`, `Introspection`, `Logging`, `OperationSource`, `Overrides`, `SchemaSource` and
  `Transport` are defined in files that are not part of this model. Each is an opaque `Nested`
  value: its default instance, or the raw document it would be read from. Its own parse errors
  are not modelled.
- Schema generation and the textual search of the serialized schema are not modelled. The naming
  rule is proved for the top-level field names only. Proving it for the descriptions and type
  names the schema also carries, and for the nested types' fields, is left out.
- RuntimeConfig.FieldNamesAreOverrideSafe: weaker than the test, which searches the whole
  serialized schema, because only the top-level field names are modelled.
- Reading a struct from a sequence (serde's positional form) is not modelled. A document that is
  not a mapping is simply refused with `NotAStruct`.
- Reading the configuration file and expanding environment variables (`runtime::read_config`) are
  I/O and are not modelled. `Strings.SplitOn` stands in for the override reader's
  split on `"__"`.
