/** The two comma-separated lists main.js reads at start-up: the bearer
    tokens (main.js line 49) and the proxies (main.js lines 60-63). */
module InputParsing {
  import opened Options
  import opened JsString
  import opened ProxyFormat

  /** Every field trimmed, in order. */
  function TrimEach(pieces: seq<string>): (r: seq<string>)
    ensures |r| == |pieces|
    ensures forall i :: 0 <= i < |r| ==> r[i] == Trim(pieces[i])
  {
    if |pieces| == 0 then [] else [Trim(pieces[0])] + TrimEach(pieces[1..])
  }

  lemma {:induction false} TrimEachConcat(a: seq<string>, b: seq<string>)
    ensures TrimEach(a + b) == TrimEach(a) + TrimEach(b)
    decreases |a|
  {
    if |a| == 0 {
      assert a + b == b;
    } else {
      assert (a + b)[1..] == a[1..] + b;
      TrimEachConcat(a[1..], b);
    }
  }

  lemma {:induction false} TrimEachTrimmed(xs: seq<string>)
    requires forall x :: x in xs ==> IsTrimmed(x)
    ensures TrimEach(xs) == xs
    decreases |xs|
  {
    if |xs| > 0 {
      TrimTrimmed(xs[0]);
      TrimEachTrimmed(xs[1..]);
      assert [xs[0]] + xs[1..] == xs;
    }
  }

  /** The fields that survive a truthiness filter: for strings, only the
      empty string is falsy, so exactly the non-empty ones stay, in order. */
  function NonEmpty(xs: seq<string>): (r: seq<string>)
    ensures |r| <= |xs|
    ensures forall t :: t in r ==> t in xs && t != ""
    ensures forall t :: t in xs && t != "" ==> t in r
  {
    if |xs| == 0 then []
    else (if xs[0] != "" then [xs[0]] else []) + NonEmpty(xs[1..])
  }

  lemma {:induction false} NonEmptyConcat(a: seq<string>, b: seq<string>)
    ensures NonEmpty(a + b) == NonEmpty(a) + NonEmpty(b)
    decreases |a|
  {
    if |a| == 0 {
      assert a + b == b;
    } else {
      assert (a + b)[1..] == a[1..] + b;
      NonEmptyConcat(a[1..], b);
    }
  }

  lemma {:induction false} NonEmptyKeepsAll(xs: seq<string>)
    requires forall i :: 0 <= i < |xs| ==> xs[i] != ""
    ensures NonEmpty(xs) == xs
    decreases |xs|
  {
    if |xs| > 0 {
      NonEmptyKeepsAll(xs[1..]);
      assert [xs[0]] + xs[1..] == xs;
    }
  }

  lemma {:induction false} NonEmptyAllEmpty(xs: seq<string>)
    ensures NonEmpty(xs) == [] <==> forall i :: 0 <= i < |xs| ==> xs[i] == ""
    decreases |xs|
  {
    if |xs| > 0 {
      NonEmptyAllEmpty(xs[1..]);
      assert forall i :: 1 <= i < |xs| ==> xs[i] == xs[1..][i - 1];
    }
  }

  /** `trim` never brings in a character that was not there. */
  lemma TrimKeepsOut(s: string, ch: char)
    requires ch !in s
    ensures ch !in Trim(s)
  {
    var r := Trim(s);
    TrimSlice(s);
    var i :| 0 <= i <= i + |r| <= |s| && r == s[i..i + |r|]
             && AllWhitespace(s[..i]) && AllWhitespace(s[i + |r|..]);
    assert forall k :: 0 <= k < |r| ==> r[k] == s[i + k];
  }

  /** The fields of `input` after trimming: each is free of surrounding
      whitespace and of commas. */
  lemma TrimmedFields(input: string)
    ensures forall t :: t in TrimEach(Split(input, ',')) ==> IsTrimmed(t) && ',' !in t
  {
    var pieces := Split(input, ',');
    var trimmed := TrimEach(pieces);
    forall t | t in trimmed
      ensures IsTrimmed(t) && ',' !in t
    {
      var j :| 0 <= j < |trimmed| && trimmed[j] == t;
      TrimKeepsOut(pieces[j], ',');
    }
  }

  /** The token list: the input split at every comma, each field trimmed,
      and the empty fields dropped.
      Every token is non-empty, carries no surrounding whitespace and no
      comma, and there are at most as many tokens as comma-separated
      fields. */
  function ParseTokens(input: string): (tokens: seq<string>)
    ensures |tokens| <= multiset(input)[','] + 1
    ensures forall t :: t in tokens ==> t != "" && IsTrimmed(t) && ',' !in t
  {
    SplitCount(input, ',');
    TrimmedFields(input);
    NonEmpty(TrimEach(Split(input, ',')))
  }

  /** A comma splits the token list into the tokens before it followed by
      the tokens after it: tokens keep their input order. */
  lemma {:induction false} TokensConcat(a: string, b: string)
    ensures ParseTokens(a + "," + b) == ParseTokens(a) + ParseTokens(b)
  {
    SplitConcat(a, ',', b);
    var pa, pb := Split(a, ','), Split(b, ',');
    TrimEachConcat(pa, pb);
    NonEmptyConcat(TrimEach(pa), TrimEach(pb));
  }

  /** Round trip: well-formed tokens written with commas between them are
      read back exactly. */
  lemma {:induction false} TokensRoundTrip(tokens: seq<string>)
    requires |tokens| > 0
    requires forall t :: t in tokens ==> t != "" && IsTrimmed(t) && ',' !in t
    ensures ParseTokens(Join(tokens, ',')) == tokens
  {
    SplitJoin(tokens, ',');
    TrimEachTrimmed(tokens);
    NonEmptyKeepsAll(tokens);
  }

  /** One comma-free field gives its trimmed text as the only token, or no
      token when that is empty: whitespace around a token is ignored.
      Together with `TokensConcat` this fixes the token list of every
      input. */
  lemma TokenField(x: string)
    requires ',' !in x
    ensures ParseTokens(x) == (if Trim(x) == "" then [] else [Trim(x)])
  {
    SplitNoSeparator(x, ',');
    assert TrimEach([x]) == [Trim(x)];
  }

  /** Nothing but commas and whitespace. */
  predicate Blank(s: string) {
    forall i :: 0 <= i < |s| ==> s[i] == ',' || IsWhitespace(s[i])
  }

  lemma BlankConcat(a: string, b: string)
    ensures Blank(a + "," + b) <==> Blank(a) && Blank(b)
  {
    var s := a + "," + b;
    assert forall i :: 0 <= i < |a| ==> s[i] == a[i];
    assert forall i :: 0 <= i < |b| ==> s[|a| + 1 + i] == b[i];
  }

  lemma NoTokensWithoutComma(input: string)
    requires ',' !in input
    ensures ParseTokens(input) == [] <==> Blank(input)
  {
    SplitNoSeparator(input, ',');
    assert TrimEach([input]) == [Trim(input)];
    NonEmptyAllEmpty([Trim(input)]);
  }

  /** The list is empty, and main.js stops before touching any account,
      exactly when the input holds nothing but commas and whitespace. */
  lemma {:induction false} NoTokensIff(input: string)
    ensures ParseTokens(input) == [] <==> Blank(input)
    decreases |input|
  {
    if ',' in input {
      var k :| 0 <= k < |input| && input[k] == ',';
      var a, b := input[..k], input[k + 1..];
      assert input == a + "," + b;
      TokensConcat(a, b);
      NoTokensIff(a);
      NoTokensIff(b);
      BlankConcat(a, b);
    } else {
      NoTokensWithoutComma(input);
    }
  }

  /** Every field passed through `formatProxy`, in order. */
  function FormatEach(pieces: seq<string>): (r: seq<Option<string>>)
    ensures |r| == |pieces|
  {
    if |pieces| == 0 then [] else [FormatProxy(Some(pieces[0]))] + FormatEach(pieces[1..])
  }

  lemma {:induction false} FormatEachConcat(a: seq<string>, b: seq<string>)
    ensures FormatEach(a + b) == FormatEach(a) + FormatEach(b)
    decreases |a|
  {
    if |a| == 0 {
      assert a + b == b;
    } else {
      assert (a + b)[1..] == a[1..] + b;
      FormatEachConcat(a[1..], b);
    }
  }

  /** Each formatted field is either `null` or a URL. */
  lemma {:induction false} FormattedFields(pieces: seq<string>)
    ensures forall p :: Some(p) in FormatEach(pieces) ==> p != "" && HasUrlScheme(p)
    decreases |pieces|
  {
    if |pieces| > 0 {
      FormattedFields(pieces[1..]);
    }
  }

  /** The proxy list: the input split at every comma, each field trimmed
      and passed through `formatProxy`, and the `null` results dropped. No entry is `null` (and none is empty, since
      `formatProxy` never returns the empty string); every entry is a URL,
      so one that `formatProxy` would leave as it is. */
  function ParseProxies(input: string): (proxies: seq<string>)
    ensures |proxies| <= multiset(input)[','] + 1
    ensures forall p :: p in proxies ==> p != "" && HasUrlScheme(p)
  {
    SplitCount(input, ',');
    FormattedFields(TrimEach(Split(input, ',')));
    Present(FormatEach(TrimEach(Split(input, ','))))
  }

  /** A comma splits the proxy list into the proxies before it followed by
      the proxies after it. */
  lemma {:induction false} ProxiesConcat(a: string, b: string)
    ensures ParseProxies(a + "," + b) == ParseProxies(a) + ParseProxies(b)
  {
    SplitConcat(a, ',', b);
    var pa, pb := Split(a, ','), Split(b, ',');
    TrimEachConcat(pa, pb);
    var ta, tb := TrimEach(pa), TrimEach(pb);
    FormatEachConcat(ta, tb);
    PresentConcat(FormatEach(ta), FormatEach(tb));
  }

  lemma {:induction false} FormatUrls(urls: seq<string>)
    requires forall u :: u in urls ==> HasUrlScheme(u)
    ensures Present(FormatEach(urls)) == urls
    decreases |urls|
  {
    if |urls| > 0 {
      FormatUrls(urls[1..]);
      assert [urls[0]] + urls[1..] == urls;
    }
  }

  /** A proxy written the way `formatProxy` would leave it, with nothing
      around it that the list syntax would strip or split on. */
  predicate IsUrlField(u: string) {
    HasUrlScheme(u) && IsTrimmed(u) && ',' !in u
  }

  /** Round trip: proxies already written as URLs, with commas between
      them, are read back exactly. */
  lemma {:induction false} ProxiesRoundTrip(urls: seq<string>)
    requires |urls| > 0
    requires forall u :: u in urls ==> IsUrlField(u)
    ensures ParseProxies(Join(urls, ',')) == urls
  {
    var input := Join(urls, ',');
    assert Split(input, ',') == urls by {
      assert forall i :: 0 <= i < |urls| ==> IsUrlField(urls[i]) by {
        assert forall i :: 0 <= i < |urls| ==> urls[i] in urls;
      }
      SplitJoin(urls, ',');
    }
    assert TrimEach(urls) == urls by {
      TrimEachTrimmed(urls);
    }
    assert Present(FormatEach(urls)) == urls by {
      FormatUrls(urls);
    }
  }

  /** One comma-free field is trimmed and passed through `formatProxy`; it
      gives that URL, or nothing when `formatProxy` yields `null`. Together
      with `ProxiesConcat` this fixes the proxy list of every input, and with
      `FormatCredentials` and `FormatHostPort` it shows that `ip:port` and
      `ip:port:user:pass` fields become URLs. */
  lemma ProxyField(x: string)
    requires ',' !in x
    ensures ParseProxies(x) == (match FormatProxy(Some(Trim(x))) case Some(u) => [u] case None => [])
  {
    SplitNoSeparator(x, ',');
    assert TrimEach([x]) == [Trim(x)];
    assert FormatEach([Trim(x)]) == [FormatProxy(Some(Trim(x)))];
  }
}
