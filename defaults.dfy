/** Defaults that are not their type's own default. */
module Defaults {
  import opened Wrappers
  import opened Urls
  import Strings

  const EndpointText: string := "http://127.0.0.1:4000"

  /** The default endpoint text is a URL with scheme `http`. */
  lemma EndpointTextParses()
    ensures ParseUrl(EndpointText) == Some(Url("http", "127.0.0.1:4000"))
  {
    var u := Url("http", "127.0.0.1:4000");
    assert Serialize(u) == EndpointText;
    assert IsScheme(u.scheme) by {
      assert forall i :: 0 <= i < 4 ==> Strings.IsAlpha(u.scheme[i]);
    }
    assert AllUrlChars(u.rest);
    SerializeThenParse(u);
  }

  /** The default endpoint: parsing its text never fails, so unwrapping it never panics. */
  function Endpoint(): (u: Url)
    ensures ParseUrl(EndpointText) == Some(u)
    ensures u == Url("http", "127.0.0.1:4000")
  {
    EndpointTextParses();
    ParseUrl(EndpointText).value
  }
}
