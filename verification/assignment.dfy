/** How main.js pairs each account token with a proxy (main.js lines 72-73):
    round robin over the proxy list, or no proxy at all when the list is
    empty. */
module Assignment {
  import opened Options

  /** One account as the per-token task sees it: its position in the token
      list, its bearer token and the proxy its requests go through. */
  datatype Account = Account(index: nat, token: string, proxy: Option<string>)

  /** The proxy of the account at `index`: the entry at `index` modulo the
      list length, or none when the list is empty. */
  function ProxyFor(proxies: seq<string>, index: nat): (p: Option<string>)
    ensures p.None? <==> |proxies| == 0
    ensures p.Some? ==> p.value in proxies
  {
    if |proxies| > 0 then Some(proxies[index % |proxies|]) else None
  }

  /** The first round hands out the proxies in list order. */
  lemma ProxyForFirstRound(proxies: seq<string>, index: nat)
    requires index < |proxies|
    ensures ProxyFor(proxies, index) == Some(proxies[index])
  {
  }

  lemma {:induction false} DivModUnique(m: int, n: int, q: int, r: int)
    requires n > 0 && 0 <= r < n && m == q * n + r
    ensures m / n == q && m % n == r
  {
    var q', r' := m / n, m % n;
    assert (q - q') * n == r' - r;
    SmallMultiple(q - q', n, r' - r);
  }

  /** A multiple of `n` strictly between `-n` and `n` is zero. */
  lemma SmallMultiple(d: int, n: int, e: int)
    requires n > 0 && -n < e < n && d * n == e
    ensures d == 0
  {
    assert d >= 1 ==> d * n >= n;
    assert d <= -1 ==> d * n <= -n;
  }

  /** After every proxy has had a turn, the assignment repeats. */
  lemma {:induction false} ProxyForPeriodic(proxies: seq<string>, index: nat)
    ensures ProxyFor(proxies, index + |proxies|) == ProxyFor(proxies, index)
  {
    var n := |proxies|;
    if n > 0 {
      DivModUnique(index + n, n, index / n + 1, index % n);
    }
  }

  /** The per-token tasks: one account per token, in token
      order, each bound to the proxy its index selects. */
  function Assign(tokens: seq<string>, proxies: seq<string>): (accounts: seq<Account>)
    ensures |accounts| == |tokens|
    ensures forall i :: 0 <= i < |accounts| ==>
              accounts[i].index == i && accounts[i].token == tokens[i]
    ensures forall a :: a in accounts ==> (a.proxy.Some? <==> |proxies| > 0)
    ensures forall a :: a in accounts && a.proxy.Some? ==> a.proxy.value in proxies
  {
    seq(|tokens|, i requires 0 <= i < |tokens| => Account(i, tokens[i], ProxyFor(proxies, i)))
  }

  /** The assignment is round robin, part one: the first `n` accounts get
      the `n` proxies in list order. */
  lemma {:induction false} AssignFirstRound(tokens: seq<string>, proxies: seq<string>)
    ensures forall i :: 0 <= i < |tokens| && i < |proxies| ==>
              Assign(tokens, proxies)[i].proxy == Some(proxies[i])
  {
    forall i | 0 <= i < |tokens| && i < |proxies|
      ensures Assign(tokens, proxies)[i].proxy == Some(proxies[i])
    {
      AssignAt(tokens, proxies, i);
      ProxyForFirstRound(proxies, i);
    }
  }

  /** The assignment is round robin, part two: each later account gets the
      proxy of the account `n` places before it. */
  lemma {:induction false} AssignPeriodic(tokens: seq<string>, proxies: seq<string>)
    ensures forall i :: 0 <= i && i + |proxies| < |tokens| ==>
              Assign(tokens, proxies)[i + |proxies|].proxy == Assign(tokens, proxies)[i].proxy
  {
    forall i | 0 <= i && i + |proxies| < |tokens|
      ensures Assign(tokens, proxies)[i + |proxies|].proxy == Assign(tokens, proxies)[i].proxy
    {
      AssignAt(tokens, proxies, i);
      AssignAt(tokens, proxies, i + |proxies|);
      ProxyForPeriodic(proxies, i);
    }
  }

  lemma AssignAt(tokens: seq<string>, proxies: seq<string>, i: nat)
    requires i < |tokens|
    ensures Assign(tokens, proxies)[i].proxy == ProxyFor(proxies, i)
  {
  }

  /** Number of accounts whose requests go through `proxy`. */
  function Load(accounts: seq<Account>, proxy: string): nat
  {
    if |accounts| == 0 then 0
    else Load(accounts[..|accounts| - 1], proxy)
         + (if accounts[|accounts| - 1].proxy == Some(proxy) then 1 else 0)
  }

  predicate Distinct(proxies: seq<string>) {
    forall a, b :: 0 <= a < b < |proxies| ==> proxies[a] != proxies[b]
  }

  /** Counting one more account: account `m - 1` lands on slot
      `(m - 1) % n`, and the closed form moves by exactly that. */
  lemma {:induction false} SlotCountStep(m: int, n: int, j: int)
    requires n > 0 && m >= 1 && 0 <= j < n
    ensures m / n + (if j < m % n then 1 else 0)
         == (m - 1) / n + (if j < (m - 1) % n then 1 else 0) + (if (m - 1) % n == j then 1 else 0)
  {
    var q, r := (m - 1) / n, (m - 1) % n;
    if r + 1 == n {
      DivModUnique(m, n, q + 1, 0);
    } else {
      DivModUnique(m, n, q, r + 1);
    }
  }

  lemma AssignPrefix(tokens: seq<string>, proxies: seq<string>, k: nat)
    requires k <= |tokens|
    ensures Assign(tokens, proxies)[..k] == Assign(tokens[..k], proxies)
  {
  }

  /** Round robin spreads the accounts evenly: with `m` accounts and `n`
      distinct proxies, proxy `j` carries `m / n` accounts, plus one more
      for the first `m % n` proxies. */
  lemma {:induction false} RoundRobinLoad(tokens: seq<string>, proxies: seq<string>, j: nat)
    requires 0 <= j < |proxies| && Distinct(proxies)
    ensures Load(Assign(tokens, proxies), proxies[j])
         == |tokens| / |proxies| + (if j < |tokens| % |proxies| then 1 else 0)
    decreases |tokens|
  {
    var m, n := |tokens|, |proxies|;
    var accounts := Assign(tokens, proxies);
    if m == 0 {
      DivModUnique(0, n, 0, 0);
    } else {
      var front := tokens[..m - 1];
      AssignPrefix(tokens, proxies, m - 1);
      RoundRobinLoad(front, proxies, j);
      var r := (m - 1) % n;
      assert accounts[m - 1].proxy == Some(proxies[r]);
      assert proxies[r] == proxies[j] <==> r == j;
      SlotCountStep(m, n, j);
    }
  }

  /** No proxy carries more than one account more than any other, and once
      there are at least as many accounts as proxies, every proxy is used. */
  lemma RoundRobinBalanced(tokens: seq<string>, proxies: seq<string>, j: nat, k: nat)
    requires j < |proxies| && k < |proxies| && Distinct(proxies)
    ensures Load(Assign(tokens, proxies), proxies[j]) <= Load(Assign(tokens, proxies), proxies[k]) + 1
    ensures |tokens| >= |proxies| ==> Load(Assign(tokens, proxies), proxies[j]) >= 1
  {
    RoundRobinLoad(tokens, proxies, j);
    RoundRobinLoad(tokens, proxies, k);
    SlotCountBounds(|tokens|, |proxies|, j);
  }

  lemma SlotCountBounds(m: nat, n: nat, j: nat)
    requires j < n
    ensures m >= n ==> m / n + (if j < m % n then 1 else 0) >= 1
  {
    var q, r := m / n, m % n;
    assert m == q * n + r;
    assert q <= 0 ==> q * n <= 0;
  }
}
