/** `formatProxy` of main.js: turns what the user typed for one proxy into
    an `http://` URL for the HTTP agent, or into `null`. */
module ProxyFormat {
  import opened Options
  import opened JsString

  const HttpPrefix: string := "http://"
  const HttpsPrefix: string := "https://"

  /** Already a URL as far as `formatProxy` is concerned: the check is a
      case-sensitive prefix test and nothing more. */
  predicate HasUrlScheme(s: string) {
    StartsWith(s, HttpPrefix) || StartsWith(s, HttpsPrefix)
  }

  /** `formatProxy(proxy)`. Absent and empty input give `null`; a URL is
      kept as it is; `ip:port:user:pass` and `ip:port` are rewritten into
      an `http://` URL; anything else gives `null`. */
  function FormatProxy(proxy: Option<string>): (r: Option<string>)
    ensures r.Some? ==> HasUrlScheme(r.value)
    ensures proxy.Some? && HasUrlScheme(proxy.value) ==> r == proxy
    ensures r.None? <==>
              || proxy.None?
              || proxy.value == ""
              || (&& !HasUrlScheme(proxy.value)
                  && multiset(proxy.value)[':'] != 1
                  && multiset(proxy.value)[':'] != 3)
  {
    match proxy
    case None => None
    case Some(s) =>
      if s == "" then None
      else if HasUrlScheme(s) then Some(s)
      else
        var parts := Split(s, ':');
        SplitCount(s, ':');
        if |parts| == 4 then
          Some(HttpPrefix + parts[2] + ":" + parts[3] + "@" + parts[0] + ":" + parts[1])
        else if |parts| == 2 then
          Some(HttpPrefix + s)
        else
          None
  }

  /** A scheme-less, non-empty proxy is rewritten from its colon-separated
      fields alone. */
  lemma FormatFields(s: string, parts: seq<string>)
    requires s != "" && !HasUrlScheme(s) && Split(s, ':') == parts
    ensures |parts| == 4 ==>
              FormatProxy(Some(s)) == Some(HttpPrefix + parts[2] + ":" + parts[3] + "@" + parts[0] + ":" + parts[1])
    ensures |parts| == 2 ==> FormatProxy(Some(s)) == Some(HttpPrefix + s)
  {
  }

  /** `ip:port:user:pass` becomes `http://user:pass@ip:port`, for every
      such input that does not already start with a scheme (so also
      `http:8080:u:p`, whose sixth character is not `/`). */
  lemma {:induction false} FormatCredentials(ip: string, port: string, user: string, pass: string)
    requires ':' !in ip && ':' !in port && ':' !in user && ':' !in pass
    requires !HasUrlScheme(ip + ":" + port + ":" + user + ":" + pass)
    ensures FormatProxy(Some(ip + ":" + port + ":" + user + ":" + pass))
         == Some("http://" + user + ":" + pass + "@" + ip + ":" + port)
  {
    var s := ip + ":" + port + ":" + user + ":" + pass;
    var parts := [ip, port, user, pass];
    assert Join(parts, ':') == s by {
      assert Join(parts[3..], ':') == pass;
      assert Join(parts[2..], ':') == user + ":" + pass;
      assert Join(parts[1..], ':') == port + ":" + user + ":" + pass;
    }
    SplitJoin(parts, ':');
    FormatFields(s, parts);
  }

  /** `ip:port` becomes `http://ip:port`, for every such input that does
      not already start with a scheme (so also `http:8080`). */
  lemma FormatHostPort(ip: string, port: string)
    requires ':' !in ip && ':' !in port
    requires !HasUrlScheme(ip + ":" + port)
    ensures FormatProxy(Some(ip + ":" + port)) == Some("http://" + ip + ":" + port)
  {
    var parts := [ip, port];
    assert Join(parts, ':') == ip + ":" + port by {
      assert Join(parts[1..], ':') == port;
    }
    SplitJoin(parts, ':');
    var s := ip + ":" + port;
    assert Split(s, ':') == parts;
    assert !HasUrlScheme(s) && s != "";
    assert "http://" + ip + ":" + port == HttpPrefix + s;
  }

  /** Every URL `formatProxy` produces is passed through unchanged when it
      is fed back, so formatting twice is formatting once. */
  lemma FormatIdempotent(proxy: Option<string>)
    ensures FormatProxy(FormatProxy(proxy)) == FormatProxy(proxy)
  {
  }
}
