/**
 * The structural document a self-describing format backend hands to the
 * deserializer: nested mappings, sequences and scalars.
 */
module Documents {

  datatype Document =
    | Null
    | Bool(b: bool)
    | Int(i: int)
    | Str(s: string)
    | Sequence(items: seq<Document>)
    /** A mapping, its entries in the order the format backend yields them; a format may or may not admit repeated keys. */
    | Mapping(entries: seq<(string, Document)>)

  /** The shape of a document, as an "invalid type" error reports it. */
  datatype Kind = NullKind | BoolKind | IntKind | StrKind | SequenceKind | MappingKind

  function KindOf(d: Document): Kind {
    match d
    case Null => NullKind
    case Bool(_) => BoolKind
    case Int(_) => IntKind
    case Str(_) => StrKind
    case Sequence(_) => SequenceKind
    case Mapping(_) => MappingKind
  }
}
