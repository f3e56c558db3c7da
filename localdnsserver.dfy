/** The local resolver: for each domain a client sends, it derives three cache
    keys from the labels, asks the root tier (unless the top-level label is
    cached), then always the TLD tier and the authoritative tier, each at the
    address the previous tier gave, writes the three answers into its cache and
    sends the final one back.

    The request is modelled twice: `Resolution` is the pure specification of one
    request (what is answered, what the cache becomes, which tiers are asked),
    and `LocalResolver.Resolve` is the step-by-step version over the mutable
    cache, proved to agree with it. */
module LocalDnsServer {
  import opened Strings
  import opened Helpers

  datatype Option<T> = None | Some(value: T)

  /** One query sent to a tier: which tier, the server address sent along with
      it, and the domain asked about. */
  datatype Query = Query(tier: Tier, server: string, domain: string)

  /** The simulated tiers seen from the resolver: given the tier (its port), the
      server address and the domain, the text the tier sends back. Any text at all
      is allowed, error messages included. */
  type Network = (Tier, string, string) -> string

  // ---------------------------------------------------------------------------
  // Cache keys

  /** The rightmost label, e.g. `edu` for `gaia.cs.umass.edu`. */
  function RootKey(domain: string): (rootInput: string)
    requires |SplitInput(domain)| >= 2
  {
    var labels := SplitInput(domain);
    labels[|labels| - 1]
  }

  /** The two rightmost labels joined by a dot, e.g. `umass.edu` for `gaia.cs.umass.edu`. */
  function TldKey(domain: string): (tldInput: string)
    requires |SplitInput(domain)| >= 2
  {
    var labels := SplitInput(domain);
    labels[|labels| - 2] + "." + labels[|labels| - 1]
  }

  /** The keys are the one- and two-label suffixes of the domain, as `getInput`
      builds them, less the final dot. */
  lemma KeysAreSuffixes(domain: string)
    requires |SplitInput(domain)| >= 2
    ensures var labels := SplitInput(domain);
      && RootKey(domain) + "." == Dotted(labels[|labels| - 1..])
      && TldKey(domain) + "." == Dotted(labels[|labels| - 2..])
  {
    var labels := SplitInput(domain);
    var n := |labels|;
    var a, b := labels[n - 2], labels[n - 1];
    assert labels[n - 1..] == [b];
    assert labels[n - 2..] == [a, b];
    assert Dotted([b]) == b + "." + Dotted([]);
    assert Dotted([a, b]) == a + "." + Dotted([b]);
  }

  /** The root key holds no dot and the TLD key exactly one, so the two differ,
      and the root key is never the (dotted) domain; the TLD key is the whole
      domain exactly when the domain has two labels. */
  lemma KeysDistinct(domain: string)
    requires |SplitInput(domain)| >= 2
    ensures '.' !in RootKey(domain) && '.' in domain
    ensures multiset(TldKey(domain))['.'] == 1
    ensures RootKey(domain) != TldKey(domain) && RootKey(domain) != domain
    ensures TldKey(domain) == domain <==> |SplitInput(domain)| == 2
  {
    var labels := SplitInput(domain);
    SplitInputSpec(domain);
    var n := |labels|;
    var a, b := labels[n - 2], labels[n - 1];
    assert '.' !in a && '.' !in b;
    assert multiset(a)['.'] == 0 && multiset(b)['.'] == 0;
    assert multiset(TldKey(domain)) == multiset(a) + multiset(".") + multiset(b);
    assert multiset(domain)['.'] == n - 1;
    assert '.' in multiset(domain);
    if n == 2 {
      assert labels == [a, b];
      assert Join(labels, '.') == a + ['.'] + Join(labels[1..], '.');
      assert labels[1..] == [b];
    }
  }

  // ---------------------------------------------------------------------------
  // One request, as a value

  /** What the resolver takes from one tier's reply: the reply decoded, and the
      last message cleaned. */
  function Ask(network: Network, tier: Tier, server: string, domain: string): (ipAddress: string)
  {
    Payload(Decode(network(tier, server, domain)))
  }

  /** The effect of one request: the answer sent to the client, the new cache
      and the queries sent, in order. */
  datatype Outcome = Outcome(answer: string, cache: map<string, string>, queries: seq<Query>)

  /** One request for `domain`, starting from `cache`, with `rootNameServer` as
      the address handed to the root tier. */
  function Resolution(cache: map<string, string>, domain: string, rootNameServer: string,
                      network: Network): (outcome: Outcome)
    requires |SplitInput(domain)| >= 2
  {
    var rootKey := RootKey(domain);
    var hit := rootKey in cache;
    var tldServer := if hit then cache[rootKey] else Ask(network, Root, rootNameServer, domain);
    var authoritativeServer := Ask(network, Tld, tldServer, domain);
    var finalIp := Ask(network, Authoritative, authoritativeServer, domain);
    Outcome(
      finalIp,
      cache[rootKey := tldServer][TldKey(domain) := authoritativeServer][domain := finalIp],
      (if hit then [] else [Query(Root, rootNameServer, domain)])
        + [Query(Tld, tldServer, domain), Query(Authoritative, authoritativeServer, domain)])
  }

  /** The tiers are asked in the order root (only when the top-level label is not
      cached), TLD, authoritative, and every query carries the whole domain. */
  lemma QueryOrder(cache: map<string, string>, domain: string, rootNameServer: string,
                   network: Network)
    requires |SplitInput(domain)| >= 2
    ensures var q := Resolution(cache, domain, rootNameServer, network).queries;
      var n := |q|;
      && n == (if RootKey(domain) in cache then 2 else 3)
      && (RootKey(domain) in cache ==> forall i :: 0 <= i < n ==> q[i].tier != Root)
      && (RootKey(domain) !in cache ==> q[0] == Query(Root, rootNameServer, domain))
      && (forall i :: 0 <= i < n ==> q[i].domain == domain)
      && q[n - 2].tier == Tld && q[n - 1].tier == Authoritative
  {
    var rootKey := RootKey(domain);
    var q := Resolution(cache, domain, rootNameServer, network).queries;
    var tldServer := if rootKey in cache then cache[rootKey] else Ask(network, Root, rootNameServer, domain);
    var authoritativeServer := Ask(network, Tld, tldServer, domain);
    var tail := [Query(Tld, tldServer, domain), Query(Authoritative, authoritativeServer, domain)];
    if rootKey in cache {
      assert q == tail;
    } else {
      assert q == [Query(Root, rootNameServer, domain)] + tail;
    }
  }

  /** Each tier's answer is the next tier's address: the TLD query goes to the
      address now cached under the root key, the authoritative query to the TLD
      tier's answer, and the answer sent back is the authoritative tier's. */
  lemma AddressChain(cache: map<string, string>, domain: string, rootNameServer: string,
                     network: Network)
    requires |SplitInput(domain)| >= 2
    ensures var o := Resolution(cache, domain, rootNameServer, network);
      var q := o.queries;
      var n := |q|;
      && n >= 2
      && q[n - 2].server == o.cache[RootKey(domain)]
      && q[n - 1].server == Ask(network, Tld, q[n - 2].server, domain)
      && o.answer == Ask(network, Authoritative, q[n - 1].server, domain)
  {
    var rootKey := RootKey(domain);
    KeysDistinct(domain);
    var o := Resolution(cache, domain, rootNameServer, network);
    var q := o.queries;
    var tldServer := if rootKey in cache then cache[rootKey] else Ask(network, Root, rootNameServer, domain);
    var authoritativeServer := Ask(network, Tld, tldServer, domain);
    var tail := [Query(Tld, tldServer, domain), Query(Authoritative, authoritativeServer, domain)];
    assert o.cache[rootKey] == tldServer;
    assert q[|q| - 2..] == tail;
  }

  /** After a request the cache holds every key it held before plus the three
      keys of the domain and nothing else, and keys other than those three keep
      their values. */
  lemma CacheKeys(cache: map<string, string>, domain: string, rootNameServer: string,
                  network: Network)
    requires |SplitInput(domain)| >= 2
    ensures var c := Resolution(cache, domain, rootNameServer, network).cache;
      && c.Keys == cache.Keys + {RootKey(domain), TldKey(domain), domain}
      && (forall k :: k in cache && k != RootKey(domain) && k != TldKey(domain) && k != domain
            ==> c[k] == cache[k])
  {
  }

  /** What the three keys map to after a request: the root key to the TLD server
      used (on a hit, the value it already had), the domain to the answer, and the
      TLD key to the authoritative server, except for a two-label domain, where the
      TLD key is the domain and the answer, written last, wins. */
  lemma CacheAfter(cache: map<string, string>, domain: string, rootNameServer: string,
                   network: Network)
    requires |SplitInput(domain)| >= 2
    ensures var o := Resolution(cache, domain, rootNameServer, network);
      var q := o.queries;
      && |q| >= 2
      && o.cache[RootKey(domain)] == q[|q| - 2].server
      && (RootKey(domain) in cache ==> o.cache[RootKey(domain)] == cache[RootKey(domain)])
      && (RootKey(domain) !in cache ==>
            o.cache[RootKey(domain)] == Ask(network, Root, rootNameServer, domain))
      && o.cache[domain] == o.answer
      && (|SplitInput(domain)| > 2 ==> o.cache[TldKey(domain)] == q[|q| - 1].server)
      && (|SplitInput(domain)| == 2 ==> o.cache[TldKey(domain)] == o.answer)
  {
    KeysDistinct(domain);
    AddressChain(cache, domain, rootNameServer, network);
    var rootKey, tldKey := RootKey(domain), TldKey(domain);
    var o := Resolution(cache, domain, rootNameServer, network);
    var q := o.queries;
    var tldServer := q[|q| - 2].server;
    var authoritativeServer := q[|q| - 1].server;
    assert o.cache == cache[rootKey := tldServer][tldKey := authoritativeServer][domain := o.answer];
  }

  /** Once a domain has been resolved, no later request for a domain with the
      same top-level label asks the root tier again: the same domain repeated, or a
      sibling such as `other.cs.umass.edu` after `gaia.cs.umass.edu`. The TLD and
      authoritative tiers are still asked. */
  lemma RootAskedOnce(cache: map<string, string>, first: string, second: string,
                      rootNameServer: string, network: Network, later: Network)
    requires |SplitInput(first)| >= 2 && |SplitInput(second)| >= 2
    requires RootKey(first) == RootKey(second)
    ensures var o1 := Resolution(cache, first, rootNameServer, network);
      var o2 := Resolution(o1.cache, second, rootNameServer, later);
      && |o2.queries| == 2
      && o2.queries[0].tier == Tld && o2.queries[1].tier == Authoritative
      && forall i :: 0 <= i < |o2.queries| ==> o2.queries[i].tier != Root
  {
    var o1 := Resolution(cache, first, rootNameServer, network);
    CacheKeys(cache, first, rootNameServer, network);
    assert RootKey(second) in o1.cache;
    QueryOrder(o1.cache, second, rootNameServer, later);
  }

  /** The textbook example with its labels left open: from an empty cache,
      `host.sub.org.tld` (as in `gaia.cs.umass.edu`) asks all three tiers and
      leaves entries under `tld`, `org.tld` (the last two labels, as `umass.edu`
      is for `gaia.cs.umass.edu`) and the whole name; a sibling `other.sub.org.tld` afterwards skips the root
      tier and adds only its own name as a new key. */
  lemma SiblingScenario(host: string, other: string, sub: string, org: string, tld: string,
                        rootNameServer: string, network: Network, later: Network)
    requires '.' !in host && '.' !in other && '.' !in sub && '.' !in org && '.' !in tld
    ensures var first := Join([host, sub, org, tld], '.');
      var second := Join([other, sub, org, tld], '.');
      && SplitInput(first) == [host, sub, org, tld]
      && SplitInput(second) == [other, sub, org, tld]
      && RootKey(first) == tld && TldKey(first) == org + "." + tld
      && var o1 := Resolution(map[], first, rootNameServer, network);
         var o2 := Resolution(o1.cache, second, rootNameServer, later);
         && |o1.queries| == 3 && o1.queries[0] == Query(Root, rootNameServer, first)
         && o1.cache.Keys == {tld, org + "." + tld, first}
         && o1.cache[first] == o1.answer
         && |o2.queries| == 2 && o2.queries[0].tier == Tld && o2.queries[1].tier == Authoritative
         && o2.cache.Keys == {tld, org + "." + tld, first, second}
  {
    var first := Join([host, sub, org, tld], '.');
    var second := Join([other, sub, org, tld], '.');
    SplitJoin([host, sub, org, tld], '.');
    SplitJoin([other, sub, org, tld], '.');
    var cache: map<string, string> := map[];
    QueryOrder(cache, first, rootNameServer, network);
    CacheKeys(cache, first, rootNameServer, network);
    CacheAfter(cache, first, rootNameServer, network);
    var o1 := Resolution(cache, first, rootNameServer, network);
    RootAskedOnce(cache, first, second, rootNameServer, network, later);
    CacheKeys(o1.cache, second, rootNameServer, later);
  }

  // ---------------------------------------------------------------------------
  // The resolver process

  /** The local resolver's state: its cache, which lives as long as the process,
      and (for the proofs) the queries it has sent so far. */
  class LocalResolver {
    var cache: map<string, string>
    ghost var queries: seq<Query>

    constructor ()
      ensures cache == map[] && queries == []
    {
      cache := map[];
      queries := [];
    }

    /** `fetchFromCache`: `cache.get(searchKey)`. */
    function FetchFromCache(searchKey: string): (ipAddress: Option<string>)
      reads this
      ensures ipAddress.Some? <==> searchKey in cache
      ensures ipAddress.Some? ==> ipAddress.value == cache[searchKey]
    {
      if searchKey in cache then Some(cache[searchKey]) else None
    }

    /** `generalServerHandler`: one round trip to a tier (the port of `tier`,
        `nameServer` sent first, then the domain), the reply decoded as
        `actAsTemporaryClient` does, and the payload taken from it. */
    method GeneralServerHandler(userInput: string, nameServer: string, tier: Tier,
                                network: Network) returns (ipAddress: string)
      modifies this
      ensures cache == old(cache)
      ensures queries == old(queries) + [Query(tier, nameServer, userInput)]
      ensures ipAddress == Ask(network, tier, nameServer, userInput)
      ensures '\'' !in ipAddress
    {
      var serverMessage := network(tier, nameServer, userInput);
      queries := queries + [Query(tier, nameServer, userInput)];
      var result := Decode(serverMessage);
      ipAddress := GetInputForNextServer(result);
    }

    /** The keys of one request: the labels are reversed in place, the first two
        give the root key and the TLD key, and `getInput` over all labels, less its
        final character, gives the authoritative key. */
    static method DeriveKeys(userInput: string)
      returns (rootInput: string, tldInput: string, authoritativeInput: string)
      requires |SplitInput(userInput)| >= 2
      ensures rootInput == RootKey(userInput)
      ensures tldInput == TldKey(userInput)
      ensures authoritativeInput == userInput
    {
      var labels := SplitInput(userInput);
      var splitResult := new string[|labels|](i requires 0 <= i < |labels| => labels[i]);
      assert splitResult[..] == labels;
      Reverse(splitResult);
      assert splitResult[..][0] == labels[|labels| - 1];
      assert splitResult[..][1] == labels[|labels| - 2];
      rootInput := splitResult[0];
      tldInput := splitResult[1];
      tldInput := tldInput + "." + rootInput;

      authoritativeInput := GetInput(userInput, splitResult.Length);
      authoritativeInput := authoritativeInput[..|authoritativeInput| - 1];
    }

    /** The body of the resolver's request loop for one client message: the
        acknowledgement sent first, then the resolution, then the final address sent
        back. Python's unpacking of the reversed labels fails on a one-label name,
        which ends the server; callers never send one. */
    method Resolve(userInput: string, rootNameServer: string, network: Network)
      returns (acknowledgement: string, serverMessage: string)
      requires |SplitInput(userInput)| >= 2
      modifies this
      ensures acknowledgement
        == "Hang in there client, I will get the IP Address of the \"" + userInput + "\""
      ensures var o := Resolution(old(cache), userInput, rootNameServer, network);
        && serverMessage == o.answer
        && cache == o.cache
        && queries == old(queries) + o.queries
    {
      acknowledgement := "Hang in there client, I will get the IP Address of the \"" + userInput + "\"";
      ghost var before := cache;
      ghost var sent := queries;
      var rootInput, tldInput, authoritativeInput := DeriveKeys(userInput);

      var tldNameServer: string;
      if |cache| > 0 && rootInput in cache {
        tldNameServer := FetchFromCache(rootInput).value;
      } else {
        tldNameServer := GeneralServerHandler(userInput, rootNameServer, Root, network);
      }
      ghost var hit := RootKey(userInput) in before;
      assert hit ==> |before| > 0;
      assert tldNameServer
        == if hit then before[RootKey(userInput)] else Ask(network, Root, rootNameServer, userInput);
      ghost var rootPart := if hit then [] else [Query(Root, rootNameServer, userInput)];
      assert queries == sent + rootPart;
      cache := cache[rootInput := tldNameServer];
      var authoritativeServer := GeneralServerHandler(userInput, tldNameServer, Tld, network);
      cache := cache[tldInput := authoritativeServer];
      var finalIpAddress := GeneralServerHandler(userInput, authoritativeServer, Authoritative, network);
      cache := cache[authoritativeInput := finalIpAddress];
      serverMessage := finalIpAddress;

      ghost var tldQuery := Query(Tld, tldNameServer, userInput);
      ghost var authoritativeQuery := Query(Authoritative, authoritativeServer, userInput);
      ghost var expected := rootPart + [tldQuery, authoritativeQuery];
      AppendPair(sent, rootPart, tldQuery, authoritativeQuery);
      assert Resolution(before, userInput, rootNameServer, network)
        == Outcome(finalIpAddress, cache, expected);
    }
  }
}
