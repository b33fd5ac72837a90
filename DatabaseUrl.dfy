/** The backend's rewrite of the `DATABASE_URL` environment variable before
    the engine is created: a URL with the bare `mysql://` scheme gets the
    PyMySQL driver named in its scheme. */
module DatabaseUrl {
  import opened Text

  const Bare := "mysql://"
  const WithDriver := "mysql+pymysql://"

  /** The URL the engine is created with, from the variable's value (`None` when it is unset). */
  function EngineUrl(url: Option<string>): (r: Option<string>)
    ensures r.None? <==> url.None?
  {
    if url.Some? && url.value != [] && StartsWith(url.value, Bare) then
      Some(ReplaceFirst(url.value, Bare, WithDriver))
    else url
  }

  /** A URL with the bare scheme gets the driver's scheme, followed by the rest of the URL unchanged; it grows by 8 characters. */
  lemma {:induction false} RewritesScheme(url: string)
    requires StartsWith(url, Bare)
    ensures EngineUrl(Some(url)) == Some(WithDriver + url[|Bare|..])
    ensures |EngineUrl(Some(url)).value| == |url| + 8
  {
    assert url != [];
    assert OccursAt(url, Bare, 0);
    assert IndexOf(url, Bare) == Some(0);
    assert url[..0] + WithDriver + url[0 + |Bare|..] == WithDriver + url[|Bare|..];
  }

  /** Any other value, including an unset or empty variable, is left unchanged. */
  lemma {:induction false} LeavesOthers(url: Option<string>)
    requires url.None? || !StartsWith(url.value, Bare)
    ensures EngineUrl(url) == url
  {
  }

  /** The result never has the bare scheme, so rewriting twice is rewriting once. */
  lemma {:induction false} Idempotent(url: Option<string>)
    ensures EngineUrl(url).None? || !StartsWith(EngineUrl(url).value, Bare)
    ensures EngineUrl(EngineUrl(url)) == EngineUrl(url)
  {
    if url.Some? && StartsWith(url.value, Bare) {
      RewritesScheme(url.value);
      var r := EngineUrl(url).value;
      assert r[5] == '+';
    }
  }

  /** An illustration of the count of one in the replacement, on one URL: the
      leading scheme is rewritten and a later "mysql://" is left alone. The
      general statement is RewritesScheme. */
  lemma {:induction false} LaterOccurrenceSurvives()
    ensures EngineUrl(Some("mysql://host/mysql://")) == Some("mysql+pymysql://host/mysql://")
  {
    var rest := "host/mysql://";
    assert Bare + rest == "mysql://host/mysql://";
    assert WithDriver + rest == "mysql+pymysql://host/mysql://";
    SchemeThen(rest);
  }

  /** The bare scheme followed by anything becomes the driver's scheme followed by the same text. */
  lemma {:induction false} SchemeThen(rest: string)
    ensures EngineUrl(Some(Bare + rest)) == Some(WithDriver + rest)
  {
    var url := Bare + rest;
    assert url[..|Bare|] == Bare && url[|Bare|..] == rest;
    RewritesScheme(url);
  }
}
