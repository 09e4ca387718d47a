/**
 * The custom deserializer of the `headers` field: a structural mapping of string keys
 * to string values becomes a header map, validated entry by entry and failing on the
 * first bad entry.
 */
module Parsers {
  import opened Wrappers
  import opened Documents
  import opened HeaderSyntax

  /** Only `insert` is ever used, so each name holds exactly one value. */
  type HeaderMap = map<HeaderName, HeaderValue>

  /** What the visitor says it expects, quoted in the "invalid type" error. */
  const Expecting: string := "a map of header string keys and values"

  datatype HeaderError =
    /** The document is not a mapping; only the mapping visit is provided. */
    | InvalidType(found: Kind, expected: string)
    /** An entry's value is not a string, so the entry cannot be read as a pair of strings. */
    | EntryNotString(found: Kind)
    /** The key is not a header name; the message names neither the key nor its position. */
    | InvalidHeaderName
    /** The value is not a header value; the message names neither the value nor its position. */
    | InvalidHeaderValue

  /** `next_entry` read as strings, then `HeaderName::from_str`, then `HeaderValue::from_str`. */
  function ParseEntry(e: (string, Document)): (r: Result<(HeaderName, HeaderValue), HeaderError>)
    ensures r.Success? <==> e.1.Str? && IsToken(e.0) && IsFieldValue(e.1.s)
    ensures r.Success? ==> r.value == (HeaderName(Lower(e.0)), HeaderValue(e.1.s))
    ensures r.Success? ==> ValidName(r.value.0) && ValidValue(r.value.1)
    ensures r.Failure? && !e.1.Str? ==> r.error == EntryNotString(KindOf(e.1))
    ensures r.Failure? && e.1.Str? ==> r.error == (if IsToken(e.0) then InvalidHeaderValue else InvalidHeaderName)
  {
    match e.1
    case Str(text) =>
      (match ParseName(e.0)
       case None => Failure(InvalidHeaderName)
       case Some(name) =>
         match ParseValue(text)
         case None => Failure(InvalidHeaderValue)
         case Some(value) => Success((name, value)))
    case _ => Failure(EntryNotString(KindOf(e.1)))
  }

  /** The name an entry parses to, if the entry is valid. */
  function EntryName(e: (string, Document)): Option<HeaderName> {
    match ParseEntry(e)
    case Success(p) => Some(p.0)
    case Failure(_) => None
  }

  /**
   * The fold the visitor performs: entries in order, each valid pair inserted
   * (replacing an earlier value of the same name), the first bad entry ending it.
   */
  function ParseEntries(es: seq<(string, Document)>): Result<HeaderMap, HeaderError>
    decreases |es|
  {
    if |es| == 0 then Success(map[])
    else
      match ParseEntries(es[..|es| - 1])
      case Failure(err) => Failure(err)
      case Success(m) =>
        match ParseEntry(es[|es| - 1])
        case Failure(err) => Failure(err)
        case Success(p) => Success(m[p.0 := p.1])
  }

  /** The field deserializer on any document: only a mapping is accepted. */
  function HeaderField(d: Document): Result<HeaderMap, HeaderError> {
    match d
    case Mapping(es) => ParseEntries(es)
    case _ => Failure(InvalidType(KindOf(d), Expecting))
  }

  /** `visit_map`: the loop that fills a fresh header map. */
  method VisitMap(entries: seq<(string, Document)>) returns (r: Result<HeaderMap, HeaderError>)
    ensures r == ParseEntries(entries)
  {
    var parsed: HeaderMap := map[];
    var i := 0;
    while i < |entries|
      invariant 0 <= i <= |entries|
      invariant ParseEntries(entries[..i]) == Success(parsed)
    {
      var (key, value) := entries[i];
      assert entries[..i + 1][..i] == entries[..i];
      if !value.Str? {
        FailureIsFinal(entries, i + 1);
        return Failure(EntryNotString(KindOf(value)));
      }
      var name := ParseName(key);
      if name.None? {
        FailureIsFinal(entries, i + 1);
        return Failure(InvalidHeaderName);
      }
      var v := ParseValue(value.s);
      if v.None? {
        FailureIsFinal(entries, i + 1);
        return Failure(InvalidHeaderValue);
      }
      parsed := parsed[name.value := v.value];
      i := i + 1;
    }
    assert entries[..i] == entries;
    return Success(parsed);
  }

  /** `map_from_str`: hands the document to the visitor, which accepts only a mapping. */
  method MapFromStr(d: Document) returns (r: Result<HeaderMap, HeaderError>)
    ensures r == HeaderField(d)
  {
    match d {
      case Mapping(es) =>
        r := VisitMap(es);
      case _ =>
        r := Failure(InvalidType(KindOf(d), Expecting));
    }
  }

  // Properties of the fold.

  /** A failure on a prefix is the result of the whole parse: later entries are never looked at. */
  lemma {:induction false} FailureIsFinal(es: seq<(string, Document)>, k: nat)
    requires k <= |es|
    requires ParseEntries(es[..k]).Failure?
    ensures ParseEntries(es) == ParseEntries(es[..k])
    decreases |es|
  {
    if k == |es| {
      assert es[..k] == es;
    } else {
      var init := es[..|es| - 1];
      assert init[..k] == es[..k];
      FailureIsFinal(init, k);
    }
  }

  /** The parse fails exactly when some entry is invalid. */
  lemma {:induction false} ParseFailsIffSomeEntryInvalid(es: seq<(string, Document)>)
    ensures ParseEntries(es).Failure? <==> exists i :: 0 <= i < |es| && ParseEntry(es[i]).Failure?
    decreases |es|
  {
    if |es| > 0 {
      var init := es[..|es| - 1];
      ParseFailsIffSomeEntryInvalid(init);
      if ParseEntries(init).Failure? {
        var i :| 0 <= i < |init| && ParseEntry(init[i]).Failure?;
        assert es[i] == init[i];
      } else if ParseEntry(es[|es| - 1]).Success? {
        forall i | 0 <= i < |es| ensures ParseEntry(es[i]).Success? {
          if i < |init| {
            assert es[i] == init[i];
          }
        }
      }
    }
  }

  /** On failure the error is that of the first invalid entry, whatever follows it. */
  lemma ParseReportsFirstInvalidEntry(es: seq<(string, Document)>, i: nat)
    requires i < |es| && ParseEntry(es[i]).Failure?
    requires forall j :: 0 <= j < i ==> ParseEntry(es[j]).Success?
    ensures ParseEntries(es) == Failure(ParseEntry(es[i]).error)
  {
    var before := es[..i];
    forall j | 0 <= j < |before| ensures ParseEntry(before[j]).Success? {
      assert before[j] == es[j];
    }
    ParseFailsIffSomeEntryInvalid(before);
    assert es[..i + 1][..i] == before;
    FailureIsFinal(es, i + 1);
  }

  /** Fail-fast: once an invalid entry is reached, the entries after it do not change the result. */
  lemma FailFastIgnoresRest(before: seq<(string, Document)>, bad: (string, Document), rest: seq<(string, Document)>)
    requires ParseEntry(bad).Failure?
    ensures ParseEntries(before + [bad] + rest) == ParseEntries(before + [bad])
    ensures ParseEntries(before + [bad]).Failure?
  {
    var es := before + [bad] + rest;
    var upTo := before + [bad];
    assert upTo[..|upTo| - 1] == before;
    assert es[..|upTo|] == upTo;
    FailureIsFinal(es, |upTo|);
  }

  /** On success, the names in the map are exactly the names the input keys parse to. */
  lemma {:induction false} ParseKeysAreInputNames(es: seq<(string, Document)>, m: HeaderMap)
    requires ParseEntries(es) == Success(m)
    ensures forall i :: 0 <= i < |es| ==> EntryName(es[i]).Some? && EntryName(es[i]).value in m
    ensures forall n :: n in m ==> exists i :: 0 <= i < |es| && EntryName(es[i]) == Some(n)
    decreases |es|
  {
    if |es| > 0 {
      var init := es[..|es| - 1];
      var m' := ParseEntries(init).value;
      ParseKeysAreInputNames(init, m');
      var last := ParseEntry(es[|es| - 1]).value;
      assert m == m'[last.0 := last.1];
      forall i | 0 <= i < |es| ensures EntryName(es[i]).Some? && EntryName(es[i]).value in m {
        if i < |init| {
          assert es[i] == init[i];
        }
      }
      forall n | n in m ensures exists i :: 0 <= i < |es| && EntryName(es[i]) == Some(n) {
        if n == last.0 {
          assert EntryName(es[|es| - 1]) == Some(n);
        } else {
          var i :| 0 <= i < |init| && EntryName(init[i]) == Some(n);
          assert es[i] == init[i];
        }
      }
    }
  }

  /** On success, a name holds the value of the last entry that parses to that name. */
  lemma {:induction false} ParseLastEntryWins(es: seq<(string, Document)>, m: HeaderMap, i: nat, n: HeaderName, v: HeaderValue)
    requires ParseEntries(es) == Success(m)
    requires i < |es| && ParseEntry(es[i]) == Success((n, v))
    requires forall j :: i < j < |es| ==> EntryName(es[j]) != Some(n)
    ensures n in m && m[n] == v
    decreases |es|
  {
    var init := es[..|es| - 1];
    var m' := ParseEntries(init).value;
    var last := ParseEntry(es[|es| - 1]).value;
    assert m == m'[last.0 := last.1];
    if i < |es| - 1 {
      assert EntryName(es[|es| - 1]) != Some(n);
      forall j | i < j < |init| ensures EntryName(init[j]) != Some(n) {
        assert init[j] == es[j];
      }
      assert init[i] == es[i];
      ParseLastEntryWins(init, m', i, n, v);
    }
  }

  /** On success, every stored name and value satisfies its syntax. */
  lemma {:induction false} ParseStoresValidPairs(es: seq<(string, Document)>, m: HeaderMap)
    requires ParseEntries(es) == Success(m)
    ensures forall n :: n in m ==> ValidName(n) && ValidValue(m[n])
    ensures |m| <= |es|
    decreases |es|
  {
    if |es| > 0 {
      var init := es[..|es| - 1];
      var m' := ParseEntries(init).value;
      ParseStoresValidPairs(init, m');
      var last := ParseEntry(es[|es| - 1]).value;
      assert m == m'[last.0 := last.1];
      assert m.Keys == m'.Keys + {last.0};
    }
  }

  // Concrete inputs.

  /** `{"x-a": "1", "x-b": "2"}` yields exactly those two headers. */
  lemma TwoHeadersParse()
    ensures ParseEntries([("x-a", Str("1")), ("x-b", Str("2"))])
         == Success(map[HeaderName("x-a") := HeaderValue("1"), HeaderName("x-b") := HeaderValue("2")])
  {
    assert Lower("x-a") == "x-a";
    assert Lower("x-b") == "x-b";
  }

  /** A space is not a token character, so `{"bad header name": "v"}` is rejected. */
  lemma SpaceInNameRejected()
    ensures ParseEntries([("bad header name", Str("v"))]) == Failure(InvalidHeaderName)
  {
    assert !IsTokenChar("bad header name"[3]);
  }

  /** A line feed is a control character, so `{"x-a": "line1\nline2"}` is rejected. */
  lemma LineFeedInValueRejected()
    ensures ParseEntries([("x-a", Str("line1\nline2"))]) == Failure(InvalidHeaderValue)
  {
    assert Lower("x-a") == "x-a";
    assert !IsFieldValueChar("line1\nline2"[5]);
  }

  /** Keys that differ only in case name the same header; the later value replaces the earlier. */
  lemma DuplicateNameLastWins()
    ensures ParseEntries([("x-a", Str("first")), ("X-A", Str("second"))])
         == Success(map[HeaderName("x-a") := HeaderValue("second")])
  {
    var es := [("x-a", Str("first")), ("X-A", Str("second"))];
    assert Lower("x-a") == "x-a";
    assert Lower("X-A") == "x-a";
    assert ParseEntry(es[1]) == Success((HeaderName("x-a"), HeaderValue("second")));
    var first := map[HeaderName("x-a") := HeaderValue("first")];
    assert ParseEntries(es[..1]) == Success(first);
    assert first[HeaderName("x-a") := HeaderValue("second")] == map[HeaderName("x-a") := HeaderValue("second")];
  }
}
