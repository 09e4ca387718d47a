/**
 * Header field names and values, as the HTTP library's `from_str` parsers accept them.
 * The library is not part of this model; its rules are taken to be those of RFC 9110:
 * a name is a `token` (sections 5.1 and 5.6.2), stored lower-cased; a value is made of
 * the characters section 5.5 allows in a field value (HTAB, SP, VCHAR, obs-text).
 */
module HeaderSyntax {
  import opened Wrappers
  import opened Strings

  datatype HeaderName = HeaderName(text: string)

  datatype HeaderValue = HeaderValue(text: string)

  /** `tchar` of section 5.6.2 of RFC 9110. */
  predicate IsTokenChar(c: char) {
    IsAlpha(c) || IsDigit(c) || c in "!#$%&'*+-.^_`|~"
  }

  /** `token = 1*tchar`. */
  predicate IsToken(s: string) {
    |s| > 0 && forall i :: 0 <= i < |s| ==> IsTokenChar(s[i])
  }

  function LowerChar(c: char): char {
    if 'A' <= c <= 'Z' then (c as int + 32) as char else c
  }

  function Lower(s: string): string {
    seq(|s|, i requires 0 <= i < |s| => LowerChar(s[i]))
  }

  /**
   * HTAB, SP, VCHAR, or obs-text (every character beyond ASCII, whose UTF-8 bytes are all
   * at least 0x80): any character except the ASCII controls other than HTAB, and DEL.
   */
  predicate IsFieldValueChar(c: char) {
    c == '\t' || (' ' <= c && c as int != 0x7F)
  }

  predicate IsFieldValue(s: string) {
    forall i :: 0 <= i < |s| ==> IsFieldValueChar(s[i])
  }

  /** A name as stored in a header map: a token in lower case. */
  predicate ValidName(n: HeaderName) {
    IsToken(n.text) && Lower(n.text) == n.text
  }

  predicate ValidValue(v: HeaderValue) {
    IsFieldValue(v.text)
  }

  /** `HeaderName::from_str`: accepts exactly the tokens and normalises them to lower case. */
  function ParseName(s: string): (r: Option<HeaderName>)
    ensures r.Some? <==> IsToken(s)
    ensures r.Some? ==> ValidName(r.value) && r.value == HeaderName(Lower(s))
  {
    if IsToken(s) then
      var lower := Lower(s);
      assert forall i :: 0 <= i < |lower| ==> IsTokenChar(lower[i]) by {
        forall i | 0 <= i < |lower| ensures IsTokenChar(lower[i]) {
          assert lower[i] == LowerChar(s[i]);
        }
      }
      assert Lower(lower) == lower;
      Some(HeaderName(lower))
    else None
  }

  /** `HeaderValue::from_str`: accepts exactly the field values, unchanged. */
  function ParseValue(s: string): (r: Option<HeaderValue>)
    ensures r.Some? <==> IsFieldValue(s)
    ensures r.Some? ==> ValidValue(r.value) && r.value.text == s
  {
    if IsFieldValue(s) then Some(HeaderValue(s)) else None
  }

  /** Names are case-insensitive: two spellings that lower-case alike parse to the same name. */
  lemma ParseNameCaseInsensitive(s: string, t: string)
    requires Lower(s) == Lower(t)
    ensures ParseName(s) == ParseName(t)
  {
    assert |s| == |t|;
    if IsToken(s) && !IsToken(t) {
      var i :| 0 <= i < |t| && !IsTokenChar(t[i]);
      assert Lower(s)[i] == LowerChar(s[i]) && Lower(t)[i] == LowerChar(t[i]);
      assert IsTokenChar(s[i]);
    } else if IsToken(t) && !IsToken(s) {
      var i :| 0 <= i < |s| && !IsTokenChar(s[i]);
      assert Lower(s)[i] == LowerChar(s[i]) && Lower(t)[i] == LowerChar(t[i]);
      assert IsTokenChar(t[i]);
    }
  }

  /** Every stored name parses back to itself. */
  lemma ParseNameRoundTrip(n: HeaderName)
    requires ValidName(n)
    ensures ParseName(n.text) == Some(n)
  {
  }

  /** Every stored value parses back to itself. */
  lemma ParseValueRoundTrip(v: HeaderValue)
    requires ValidValue(v)
    ensures ParseValue(v.text) == Some(v)
  {
  }
}
