/** The request gate of the `/api` route: the `url` query parameter must be
    present and non-empty, and must start with the profile prefix; only then
    is a scrape started. */
module Gate {
  import opened Wrappers

  /** What the anchored, fully escaped regular expression of the route
      accepts as the start of a URL. */
  const ProfilePrefix: string := "https://scholar.google.com/citations?user="

  datatype GateError = UrlRequired | InvalidFormat

  function Message(e: GateError): (m: string)
    ensures m != ""
  {
    match e
    case UrlRequired => "Google Scholar URL is required"
    case InvalidFormat => "Invalid URL format. Please provide a valid Google Scholar URL."
  }

  /** The regular expression's `test`: a plain prefix test, since every
      metacharacter of the pattern is escaped and the pattern is anchored. */
  predicate MatchesProfileUrl(url: string) {
    ProfilePrefix <= url
  }

  /** The gate. `query` is the `url` query parameter, `None` when absent.
      A missing or empty parameter is falsy in JavaScript and is rejected
      first; a URL without the prefix is rejected next; every other URL is
      handed to the scraper unchanged. */
  function CheckUrl(query: Option<string>): (d: Result<string, GateError>)
    ensures d == Failure(UrlRequired) <==> query == None || query == Some("")
    ensures d == Failure(InvalidFormat) <==>
              query.Some? && query.value != "" && !(ProfilePrefix <= query.value)
    ensures d.Success? <==> query.Some? && ProfilePrefix <= query.value
    ensures d.Success? ==> d.value == query.value
  {
    match query
    case None => Failure(UrlRequired)
    case Some(url) =>
      if url == "" then Failure(UrlRequired)
      else if !MatchesProfileUrl(url) then Failure(InvalidFormat)
      else Success(url)
  }

  /** Every URL that carries the prefix passes the gate, whatever follows it. */
  lemma PrefixedUrlsPass(suffix: string)
    ensures CheckUrl(Some(ProfilePrefix + suffix)) == Success(ProfilePrefix + suffix)
  {
    assert ProfilePrefix <= ProfilePrefix + suffix;
  }

  /** Anything the gate lets through starts with the prefix; in particular
      the emptiness test is subsumed by the prefix test for every string. */
  lemma PassedUrlsArePrefixed(query: Option<string>)
    requires CheckUrl(query).Success?
    ensures query.Some? && |query.value| >= |ProfilePrefix| > 0
    ensures query.value[..|ProfilePrefix|] == ProfilePrefix
  {
  }

  /** URLs close to the prefix are refused: another host, plain HTTP, another
      character where the pattern has an escaped dot, slash or question mark
      (an unescaped `?` would make the `s` before it optional and accept
      `citationuser=`), and another query string. */
  lemma OtherUrlsRejected()
    ensures CheckUrl(Some("https://example.com/citations?user=abc")) == Failure(InvalidFormat)
    ensures CheckUrl(Some("http://scholar.google.com/citations?user=abc")) == Failure(InvalidFormat)
    ensures CheckUrl(Some("https://scholarXgoogle.com/citations?user=abc")) == Failure(InvalidFormat)
    ensures CheckUrl(Some("https://scholar.google.comXcitations?user=abc")) == Failure(InvalidFormat)
    ensures CheckUrl(Some("https://scholar.google.com/citationsXuser=abc")) == Failure(InvalidFormat)
    ensures CheckUrl(Some("https://scholar.google.com/citationuser=abc")) == Failure(InvalidFormat)
    ensures CheckUrl(Some("https://scholar.google.com/citations?hl=en&user=abc")) == Failure(InvalidFormat)
  {
    assert "https://example.com/citations?user=abc"[8] != ProfilePrefix[8];
    assert "http://scholar.google.com/citations?user=abc"[4] != ProfilePrefix[4];
    assert "https://scholarXgoogle.com/citations?user=abc"[15] != ProfilePrefix[15];
    assert "https://scholar.google.comXcitations?user=abc"[26] != ProfilePrefix[26];
    assert "https://scholar.google.com/citationsXuser=abc"[36] != ProfilePrefix[36];
    assert "https://scholar.google.com/citationuser=abc"[35] != ProfilePrefix[35];
    assert "https://scholar.google.com/citations?hl=en&user=abc"[37] != ProfilePrefix[37];
  }
}
