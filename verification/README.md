# depinedBot start-up and reward logic, in Dafny

depinedBot keeps a set of accounts connected to the Depined rewards API. A
user pastes a comma-separated list of bearer tokens, and optionally a list of
proxies. The bot then starts one task per token. Each task claims pending
referral points, pings the API every 30 seconds and checks rewards again
every 24 hours.

This project models the deterministic decisions in `main.js`:

- `formatProxy` (module `ProxyFormat`). It turns one typed proxy into an
  `http://` URL or `null`.
- The token and proxy list pipelines (module `InputParsing`). Each one is
  split on commas, trimmed and filtered. The JavaScript string operations
  these use are in module `JsString`: `split` with a one-character
  separator, `trim` with the ECMAScript whitespace set, and `startsWith`.
- The round-robin binding of accounts to proxies (module `Assignment`).
- The start-up decision (module `Startup`). Either the bot stops on an empty
  token list, or it starts one account per token.
- The check-then-claim decision of `checkUserRewards` (module `Rewards`).

`null`/`undefined` become `Options.Option`. The answers typed at the prompts
and the HTTP replies are inputs to these functions.

`main.js` starts exactly one task per token. A task takes its proxy round
robin by token index. Each request is a single `fetch` with no retry.

## Model

| member | source | states |
|---|---|---|
| ProxyFormat.FormatProxy | main.js:17-38 | A non-null result always starts with `http://` or `https://`. Input that already starts with either prefix (case-sensitive) is returned unchanged. The result is null exactly when the input is absent or empty, or when it has no scheme and does not contain exactly 1 or 3 colons. |
| ProxyFormat.FormatCredentials | main.js:25-30 | Every `ip:port:user:pass` with colon-free fields that does not already start with `http://` or `https://` becomes `http://user:pass@ip:port`. This includes `http:8080:u:p`. |
| ProxyFormat.FormatHostPort | main.js:32-35 | Every `ip:port` with colon-free fields that does not already start with `http://` or `https://` becomes `http://ip:port`. This includes `http:8080`. |
| ProxyFormat.FormatIdempotent | main.js:21-23 | Formatting an already formatted proxy changes nothing: formatting twice is the same as formatting once. |
| JsString.Trim | main.js:49 | `trim` returns text whose ends are not whitespace, no longer than its input. It is empty exactly when the input is all whitespace. |
| JsString.TrimSlice | main.js:49 | The trimmed text is a contiguous stretch of the input with only whitespace on either side. |
| JsString.TrimExact | main.js:49 | Trimmed text surrounded by any whitespace is recovered exactly, which pins `trim` down completely. |
| JsString.TrimTrimmed | main.js:49 | Text is a fixed point of `trim` exactly when it is trimmed, and `trim` is idempotent. |
| JsString.Split | main.js:49 | `split(',')` yields at least one piece, no piece contains the separator, and joining the pieces with the separator gives back the input. |
| JsString.SplitCount | main.js:26-27 | The number of pieces is one more than the number of separators. This is what `parts.length === 4` and `=== 2` test. |
| JsString.SplitConcat | main.js:49 | Splitting `a + sep + b` gives the pieces of `a` followed by the pieces of `b`. |
| JsString.SplitJoin | main.js:49 | Separator-free pieces joined with the separator are split back into exactly those pieces. |
| InputParsing.ParseTokens | main.js:49 | Every token is non-empty, has no whitespace at either end and contains no comma. There are at most one more tokens than commas. |
| InputParsing.TokenField | main.js:49 | One comma-free field gives its trimmed text as the only token, or no token when the trimmed text is empty. Whitespace around a token is dropped. With `TokensConcat` this fixes the token list of every input. |
| InputParsing.TokensConcat | main.js:49 | The tokens of `a,b` are the tokens of `a` followed by those of `b`, so tokens keep their input order. |
| InputParsing.TokensRoundTrip | main.js:49 | Well-formed tokens written with commas between them are read back exactly. |
| InputParsing.NoTokensIff | main.js:49-55 | The token list is empty, which stops the program, exactly when the input is nothing but commas and whitespace. |
| InputParsing.ParseProxies | main.js:60-63 | No entry is null or empty. Every entry starts with `http://` or `https://`, so `formatProxy` would leave it unchanged. There are at most one more entries than commas. |
| InputParsing.ProxyField | main.js:60-63 | One comma-free field is trimmed and passed through `formatProxy`. It gives the resulting URL, or nothing when the result is null. With `ProxiesConcat` this fixes the proxy list of every input. With `FormatCredentials` and `FormatHostPort`, it means both typed formats become URLs. |
| InputParsing.ProxiesConcat | main.js:60-63 | The proxies of `a,b` are those of `a` followed by those of `b`. |
| InputParsing.ProxiesRoundTrip | main.js:60-63 | Trimmed, comma-free URLs written with commas between them are read back exactly. |
| Options.PresentConcat | main.js:63 | Dropping nulls distributes over concatenation, so surviving entries keep their order. |
| Assignment.ProxyFor | main.js:73 | An account gets no proxy exactly when the proxy list is empty. Otherwise its proxy is a member of the list. |
| Assignment.ProxyForFirstRound | main.js:73 | Account `i < n` gets the `i`-th proxy. |
| Assignment.ProxyForPeriodic | main.js:73 | Accounts `i` and `i + n` get the same proxy. |
| Assignment.Assign | main.js:72-73 | There is one account per token, with the same index and token, in token order. Every account has a proxy exactly when the list is non-empty, and that proxy comes from the list. |
| Assignment.AssignFirstRound | main.js:72-73 | The first `n` accounts are bound to the `n` proxies in list order. |
| Assignment.AssignPeriodic | main.js:72-73 | Every later account reuses the proxy of the account `n` places before it. |
| Assignment.RoundRobinLoad | main.js:72-73 | With `m` accounts and `n` distinct proxies, proxy `j` carries `m / n` accounts, plus one if `j < m % n`. |
| Assignment.RoundRobinBalanced | main.js:72-73 | Loads of any two proxies differ by at most one. With at least as many accounts as proxies, every proxy is used. |
| Startup.ChosenProxies | main.js:57-64 | The proxy list is empty unless the answer is `y`/`Y`. On `y`/`Y` it is exactly the parsed proxy input. Every entry is a URL. |
| Startup.Start | main.js:44-73 | Start-up stops exactly when the token input is nothing but commas and whitespace. Otherwise it starts one account per parsed token, in order. Each account has a proxy exactly when the chosen proxy list is non-empty, and that proxy is a URL. The proxy of account `i` is the round-robin choice `ProxyFor(proxies, i)` from the chosen list. |
| Startup.NoProxyAnswerDirect | main.js:57-73 | Without a `y` answer, no account uses a proxy. |
| Rewards.Decide | main.js:114-116 | A claim is decided only for a present reply carrying data whose `total_unclaimed_points` is a positive number, and for exactly that amount. A missing reply or missing data never leads to a claim. |
| Rewards.DecideExactly | main.js:115-116 | Every positive balance is claimed in full. A balance of zero or less is never claimed. |
| Rewards.CheckUserRewards | main.js:112-126 | The calls are exactly one stats request, followed by one `claimPoints` call when a claim is decided and nothing otherwise. Success is reported exactly when a claim was made and its reply has `code` 200, for the decided amount. A null claim reply leads to the caught error, not to a success. |
| Rewards.NothingDueNoClaim | main.js:116 | With 0 or fewer unclaimed points only the stats request is made, whatever the claim endpoint would answer. |
| Rewards.ClaimOneHundredFifty | main.js:116-121 | With 150 points and reply `{code: 200}`, there is exactly one claim request and the success report is for 150. |
| Rewards.ClaimRejectedQuiet | main.js:118-121 | A claim whose reply has any other code is made but not reported as a success. |

## Left out

- api.js: every request is one `fetch` with a 60 s abort timer, followed by JSON parsing. It is network I/O; its replies are inputs to `Rewards.CheckUserRewards`.
- The timing of the `setInterval` cycles (main.js:87-98). Both cycles issue requests. The 30 s cycle POSTs `widget-connect` and fetches earnings; it is network I/O whose replies are only logged. Each firing of the 24 h cycle is one more run of `Rewards.CheckUserRewards`, which is modelled. The interval timing is not modelled, and neither is the absence of an overlap guard between firings.
- The profile fetch and its log line (main.js:76-81). They only log.
- Interactive prompts through `readline` (main.js:8-14, 48, 57-59, 67). The typed answers are parameters of `Startup.Start`.
- Logging, the banner and `delay(3)` (main.js:41-42). These are output and time.
- The `Promise.all` fan-out and the per-task `try`/`catch` (main.js:72-108). These are concurrency and exception plumbing; no task's decision depends on another task.
- The SIGINT/SIGTERM handlers (main.js:129-139). These are process plumbing.
- Rewards.Decide: models `total_unclaimed_points` as absent/null or a number (`real`). A string or boolean value, which JavaScript would coerce in `> 0`, is not modelled. Neither is the rounding of JSON numbers to doubles.
- Rewards.CheckUserRewards: models the reply `code` as absent or a number. Any other JSON value falls under "absent", because `=== 200` is false for it either way.
- Startup.ChosenProxies: models the lower-case comparison with `y` as the answer being exactly `y` or `Y`. No other string lower-cases to `y`.
