/**
 * Absolute URLs, as far as this model needs them. The URL library is not part of
 * the model; an absolute URL is taken to be `scheme "://" rest`, with a scheme as in
 * section 3.1 of RFC 3986, a non-empty rest, and no ASCII space, ASCII control character
 * or DEL anywhere; every character beyond ASCII is allowed.
 */
module Urls {
  import opened Wrappers
  import opened Strings

  datatype Url = Url(scheme: string, rest: string)

  /** `ALPHA *( ALPHA / DIGIT / "+" / "-" / "." )` */
  predicate IsScheme(t: string) {
    |t| > 0 && IsAlpha(t[0]) &&
    forall i :: 0 <= i < |t| ==> IsAlpha(t[i]) || IsDigit(t[i]) || t[i] in "+-."
  }

  /** Anything but an ASCII space, an ASCII control character or DEL; every character beyond ASCII is allowed. */
  predicate IsUrlChar(c: char) {
    '!' <= c && c as int != 0x7F
  }

  predicate AllUrlChars(s: string) {
    forall k :: 0 <= k < |s| ==> IsUrlChar(s[k])
  }

  /** `Url::parse` as assumed here: the scheme ends at the first `"://"`. */
  function ParseUrl(s: string): (r: Option<Url>)
    ensures r.Some? ==> IsScheme(r.value.scheme) && |r.value.rest| > 0 && AllUrlChars(r.value.rest)
    ensures r.Some? ==> AllUrlChars(s) && !Contains(r.value.scheme, "://")
    ensures !Contains(s, "://") ==> r.None?
  {
    match Find(s, "://")
    case None => None
    case Some(i) =>
      if IsScheme(s[..i]) && i + 3 < |s| && AllUrlChars(s)
      then
        var scheme, rest := s[..i], s[i + 3..];
        assert forall k :: 0 <= k < |rest| ==> rest[k] == s[i + 3 + k];
        forall j: nat ensures !OccursAt(scheme, "://", j) {
          if j + 3 <= |scheme| {
            assert scheme[j..j + 3][0] == scheme[j];
          }
        }
        Some(Url(scheme, rest))
      else None
  }

  function Serialize(u: Url): string {
    u.scheme + "://" + u.rest
  }

  /** What a URL parses to, printed again, is the text it was parsed from. */
  lemma ParseThenSerialize(s: string, u: Url)
    requires ParseUrl(s) == Some(u)
    ensures Serialize(u) == s
  {
    var i := Find(s, "://").value;
    assert s[i..i + 3] == "://";
    assert s == s[..i] + s[i..i + 3] + s[i + 3..];
  }

  /** Every well-formed URL value survives printing and parsing. */
  lemma SerializeThenParse(u: Url)
    requires IsScheme(u.scheme) && |u.rest| > 0
    requires AllUrlChars(u.rest)
    ensures ParseUrl(Serialize(u)) == Some(u)
  {
    var s := Serialize(u);
    var n := |u.scheme|;
    assert s[n..n + 3] == "://";
    forall j: nat | j < n ensures !OccursAt(s, "://", j) {
      assert s[j] == u.scheme[j];
    }
    FindIsFirstOccurrence(s, "://", n);
    assert s[..n] == u.scheme;
    assert s[n + 3..] == u.rest;
    forall k | 0 <= k < |s| ensures IsUrlChar(s[k]) {
      if k < n {
        assert s[k] == u.scheme[k];
      } else if k >= n + 3 {
        assert s[k] == u.rest[k - n - 3];
      }
    }
  }

  /** Text with a space in it is never a URL. */
  lemma NotAUrlRejected()
    ensures ParseUrl("not a url") == None
  {
    assert !IsUrlChar("not a url"[3]);
  }
}
