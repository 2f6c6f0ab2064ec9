/** What `main` of main.js decides before any request goes out (lines
    44-73): which accounts run, and through which proxy. The three answers
    typed at the prompts are inputs. */
module Startup {
  import opened Options
  import opened JsString
  import opened ProxyFormat
  import opened InputParsing
  import opened Assignment

  /** `main` either stops at the empty token list (lines 51-55) or starts
      one task per account. */
  datatype Launch = NoTokens | Started(accounts: seq<Account>)

  /** The user answered yes to the proxy question: the answer lower-cases
      to the single letter y. */
  predicate WantsProxy(answer: string) {
    answer == "y" || answer == "Y"
  }

  /** The proxy list `main` ends up with: empty unless the user asked for
      proxies. */
  function ChosenProxies(answer: string, proxyInput: string): (proxies: seq<string>)
    ensures !WantsProxy(answer) ==> proxies == []
    ensures WantsProxy(answer) ==> proxies == ParseProxies(proxyInput)
    ensures forall p :: p in proxies ==> HasUrlScheme(p)
  {
    if WantsProxy(answer) then ParseProxies(proxyInput) else []
  }

  /** The start-up of `main`. It stops, before the proxy question is even
      asked, exactly when the token input is nothing but commas and
      whitespace; otherwise every token becomes an account, in input
      order, and an account has a proxy exactly when the proxy list is
      non-empty. */
  function Start(tokenInput: string, answer: string, proxyInput: string): (launch: Launch)
    ensures launch.NoTokens? <==> Blank(tokenInput)
    ensures launch.Started? ==>
              && |launch.accounts| == |ParseTokens(tokenInput)| > 0
              && (forall i :: 0 <= i < |launch.accounts| ==>
                    launch.accounts[i].index == i
                    && launch.accounts[i].token == ParseTokens(tokenInput)[i])
    ensures launch.Started? ==>
              forall a :: a in launch.accounts ==>
                (a.proxy.Some? <==> ChosenProxies(answer, proxyInput) != [])
                && (a.proxy.Some? ==> HasUrlScheme(a.proxy.value))
    ensures launch.Started? ==>
              forall i :: 0 <= i < |launch.accounts| ==>
                launch.accounts[i].proxy == ProxyFor(ChosenProxies(answer, proxyInput), i)
  {
    var tokens := ParseTokens(tokenInput);
    NoTokensIff(tokenInput);
    if tokens == [] then NoTokens
    else Started(Assign(tokens, ChosenProxies(answer, proxyInput)))
  }

  /** Without proxies, every account talks to the API directly. */
  lemma NoProxyAnswerDirect(tokenInput: string, answer: string, proxyInput: string)
    requires !WantsProxy(answer)
    ensures Start(tokenInput, answer, proxyInput).Started? ==>
              forall a :: a in Start(tokenInput, answer, proxyInput).accounts ==> a.proxy.None?
  {
  }
}
