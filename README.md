# A simulated DNS resolution hierarchy, modelled in Dafny

The system is a toy DNS hierarchy made of five processes on the loopback
interface:

- a client that reads domain names;
- a local resolver;
- three tier servers: root, TLD and authoritative.

The client lower-cases each line it reads. It exits on `break`. It sends to the
local resolver any line in which `([a-z]+\.[a-z]+)+` is found, that is, a
lower-case letter, a dot and a lower-case letter in a row. It asks again for
anything else.

For each name, the local resolver does the following:

1. It sends an acknowledgement.
2. It derives three cache keys from the name's labels:
   - the last label (`edu`);
   - the last two labels (`umass.edu`);
   - the whole name.
3. It asks the root tier, unless the last label is already cached.
4. It always asks the TLD tier, then the authoritative tier. Each query goes to
   the address the previous stage produced.
5. It writes the three answers into a process-wide cache and sends the final
   answer back.

Each tier replies with a Python list printed as text (`['m1', 'm2']`). The
resolver decodes the reply by stripping the brackets and cutting on commas. It
takes the last piece and removes surrounding whitespace and every single quote (`'`).

The project has four modules, one per concern:

- `Strings` (`strings.dfy`) models the Python built-ins the code relies on,
  with their characterising lemmas: `str.split`, `str.strip`, `str.replace` and
  the in-place `list.reverse`. `Join` is a helper used only in the
  specification, to say what a split gives back; the code never joins.
- `Helpers` (`helpers.dfy`) models `helpers.py`:
  - the port constants;
  - `splitInput`;
  - `getInput`, a loop over an array reversed in place;
  - the reply decoding at line 95;
  - `getInputForNextServer`, a loop that fills an array, then reverses it;
  - the tiers' `str(list)` encoding, with a decode/encode round trip.
- `LocalDnsServer` (`localdnsserver.dfy`) models the resolver in two forms:
  - `Resolution` is a pure specification of one request. It gives the answer,
    the new cache and the queries sent, in order. The lemmas about the
    resolver are proved about this function.
  - The class `LocalResolver` holds the cache as a `map` field, plus a ghost
    log of the queries sent. Its methods follow the source step by step, and
    `Resolve` is proved to agree with `Resolution`.
- `Client` (`client.dfy`) models `isValid` and the decision the client's loop
  makes for one line.

The tier servers are an oracle `Network`. It maps a tier, the server address
sent along with the query, and the domain to the raw reply text. Any text is
allowed, so error messages that a tier sends instead of an address are covered
too. The code caches those like addresses. Decoding any text gives at least one
piece, so the precondition of `getInputForNextServer` always holds on the
resolver's path.

Where the code and its own comments disagree, the model follows the code:

- The comment at localDnsServer.py:140-143 says `tldInput` is
  `example.subdomain`. The code builds the second-to-last label, a dot and the
  last label, so it is `example.com` for `subdomain.example.com`.
- The comment at localDnsServer.py:149-153 describes a reversed key with a
  character `'n'` dropped. The code builds the labels in their original order,
  so `getInput` over all labels is the name plus a final dot (`DeriveKeys`).

Facts about the code that the model keeps:

- The TLD key is the last two labels, in order: `umass.edu` for
  `gaia.cs.umass.edu`.
- The `[:-1]` in localDnsServer.py:147 removes the dot that `getInput` adds,
  so the authoritative key is exactly the domain.
- `splitInput` keeps empty labels: `a..b` splits into `a`, an empty label and `b`.
- There are no timeouts and no escaping of the reply text.
- The cache is written with whatever a tier answers, error messages included.

## Model

| member | source | states |
|---|---|---|
| Strings.Split | helpers.py:129 | `str.split` always returns at least one piece |
| Strings.SplitSpec | helpers.py:129 | there is one more piece than separators, and no piece contains the separator |
| Strings.JoinSplit | helpers.py:129 | joining the pieces of a split with the same separator gives back the original text |
| Strings.SplitJoin | helpers.py:129 | splitting a join of separator-free parts gives back exactly those parts |
| Strings.Strip | helpers.py:47 | `str.strip(chars)`: drops every leading character in the set, then every trailing one (`lstrip` then `rstrip`); used with the whitespace set at helpers.py:47 and with `[]` at helpers.py:95 |
| Strings.StripSpec | helpers.py:47 | strip leaves a contiguous middle of the text that neither starts nor ends with a stripped character, and everything around it is a stripped character |
| Strings.StripExact | helpers.py:95 | strip removes exactly the padding around a middle whose ends are not padding |
| Strings.RemoveAll | helpers.py:48 | after `replace(c, "")` the character no longer occurs |
| Strings.RemoveAllKeepsOthers | helpers.py:48 | `replace(c, "")` keeps every other character with its multiplicity |
| Strings.Reverse | helpers.py:112 | `list.reverse()` in place: the array afterwards is its old contents read back to front |
| Helpers.PortOf | helpers.py:3-8 | each tier's port lies in 9001..9003, and none is the local resolver's port 53 |
| Helpers.PortOfInjective | helpers.py:5-7 | two tiers with the same port are the same tier, so a port names exactly one tier |
| Helpers.SplitInput | helpers.py:119-130 | `splitInput` never returns an empty list |
| Helpers.SplitInputSpec | helpers.py:129 | there is one more label than dots, no label contains a dot, and joining the labels with dots gives back the name |
| Helpers.DottedIsJoinPlusDot | helpers.py:111-116 | labels each followed by a dot equal the labels joined by dots plus one final dot |
| Helpers.GetInput | helpers.py:100-116 | `getInput(s, n)` is the rightmost `n` labels in their original order, each followed by a dot; this is `""` for `n = 0` and `s + "."` for all labels; more words than labels is excluded, since Python fails with an index error there |
| Helpers.Decode | helpers.py:95 | decoding any reply text gives at least one piece |
| Helpers.DecodeSpec | helpers.py:95 | there is one more piece than commas in the bracket-stripped text, and no piece contains a comma |
| Helpers.Clean | helpers.py:47-48 | a cleaned message contains no `'` |
| Helpers.Payload | helpers.py:45-53 | the payload is the cleaned last message, and it contains no `'` |
| Helpers.GetInputForNextServer | helpers.py:35-53 | the loop over a cleaned copy, reversed in place, returns the cleaned last message; it contains no `'`, and earlier messages do not affect it |
| Helpers.CleanQuoted | helpers.py:47-48 | cleaning a quoted message returns the message, with or without one leading blank |
| Helpers.Quoted | rootDnsServer.py:170 | `repr` of a plain message: the message between single quotes |
| Helpers.Items | rootDnsServer.py:170 | the items of `str(list)`: the quoted messages separated by `", "` |
| Helpers.Encode | rootDnsServer.py:170 | `str(result)`: the items between `[` and `]`, the text a tier sends |
| Helpers.RoundTrip | helpers.py:95 | for plain messages, decoding the `str(list)` text a tier sends (rootDnsServer.py:170) gives one piece per message, and cleaning each piece gives that message back |
| Helpers.PayloadOfEncoded | helpers.py:45-53 | the address a tier puts last in its list is the address the resolver takes from the reply |
| LocalDnsServer.RootKey | localDnsServer.py:135-136 | the root cache key: the last label of the name |
| LocalDnsServer.TldKey | localDnsServer.py:135-138 | the TLD cache key: the second-to-last label, a dot and the last label |
| LocalDnsServer.Ask | localDnsServer.py:25-48 | what one stage yields: the tier's reply text decoded as at helpers.py:95, and its last message cleaned |
| LocalDnsServer.Resolution | localDnsServer.py:159-213 | one request as a value: the TLD server is the cached root-key value on a hit and the root tier's payload on a miss; then the TLD tier's payload, then the authoritative tier's payload, which is the answer; the cache with the three keys written in order; and the queries sent, root (only on a miss), TLD, authoritative |
| LocalDnsServer.KeysAreSuffixes | localDnsServer.py:135-147 | the root key and the TLD key are the one- and two-label suffixes that `getInput` builds, less the final dot |
| LocalDnsServer.KeysDistinct | localDnsServer.py:135-138 | the root key has no dot and the TLD key exactly one, so they differ; the root key is never the domain; the TLD key equals the domain exactly when the domain has two labels |
| LocalDnsServer.QueryOrder | localDnsServer.py:159-206 | there are 3 queries on a root-key miss and 2 on a hit; on a hit no query goes to the root tier; on a miss the first query is the root tier's, sent with the root name server; then come the TLD and authoritative queries, in that order; every query carries the whole domain |
| LocalDnsServer.AddressChain | localDnsServer.py:194-206 | the TLD query goes to the address cached under the root key, the authoritative query goes to the TLD tier's payload, and the answer is the authoritative tier's payload |
| LocalDnsServer.CacheKeys | localDnsServer.py:194-213 | after a request the cache keys are the old keys plus the three keys of the domain; no key is removed, and every other key keeps its value |
| LocalDnsServer.CacheAfter | localDnsServer.py:194-213 | the root key maps to the TLD server used (on a hit, the value it already had; on a miss, the root tier's payload); the domain maps to the answer sent back; the TLD key maps to the authoritative server, except for a two-label domain, where the answer, written last, wins |
| LocalDnsServer.RootAskedOnce | localDnsServer.py:159-194 | after one request, a request for any name with the same last label (the same name again, or a sibling) makes exactly two queries, TLD then authoritative, and none to the root tier, whatever the tiers answer |
| LocalDnsServer.SiblingScenario | localDnsServer.py:128-213 | for `host.sub.org.tld` from an empty cache, the keys are `tld` and `org.tld`; all three tiers are asked, starting with the root tier; the cache then holds exactly those keys and the name, which maps to the answer; a second request for `other.sub.org.tld` skips the root tier and adds only its own name |
| LocalDnsServer.LocalResolver.constructor | localDnsServer.py:15 | the process starts with an empty cache and no queries sent |
| LocalDnsServer.LocalResolver.FetchFromCache | localDnsServer.py:18-22 | `cache.get(key)`: a value exactly when the key is cached, and then the cached value |
| LocalDnsServer.LocalResolver.GeneralServerHandler | localDnsServer.py:25-48 | one round trip appends one query (tier, server, domain) to the log, leaves the cache unchanged, and returns the reply's payload, which contains no `'` |
| LocalDnsServer.LocalResolver.DeriveKeys | localDnsServer.py:128-147 | the labels reversed in place give the root key (last label) and the TLD key (second-to-last, a dot, last); `getInput` over all labels, less its last character, is exactly the domain |
| LocalDnsServer.LocalResolver.Resolve | localDnsServer.py:69-219 | the acknowledgement text is the fixed greeting around the domain; the answer sent back, the new cache and the queries appended to the log are exactly those of `Resolution` on the cache at request start |
| Client.Lower | client.py:106 | `str.lower()` on ASCII: each letter A-Z replaced by its lower-case form, every other character kept |
| Client.LowerIdempotent | client.py:106 | lower-casing twice is lower-casing once |
| Client.IsValid | client.py:90-96 | a line is accepted exactly when some dot has a lower-case ASCII letter immediately on each side |
| Client.IsValidIsPatternSearch | client.py:91-94 | that scan accepts exactly the lines in which an unanchored search for `[a-z]+\.[a-z]+` succeeds |
| Client.AcceptedInAnyContext | client.py:92-94 | text added before or after an accepted line keeps it accepted |
| Client.NoDotRejected | client.py:91 | a line without a dot is refused |
| Client.AddressRejected | client.py:91 | `1.2.3.4` is refused |
| Client.EmptyLabelRejected | client.py:91 | `a..b` is refused |
| Client.ExamplesAccepted | client.py:102 | the prompt's examples `subdomain.domain.com` and `domain.com`, and `gaia.cs.umass.edu`, are accepted |
| Client.Classify | client.py:105-117 | the client exits exactly when the lower-cased line is `break`; it sends exactly when the line is not `break` and its lower-cased form is accepted, and then it sends the lower-cased line; otherwise it asks again |
| Client.CaseDoesNotMatter | client.py:106-110 | ASCII case does not change what the client does with a line |
| Client.UpperCaseRejected | client.py:91-94 | the pattern alone refuses `UMASS.EDU` |
| Client.UpperCaseIsLowered | client.py:106-110 | the client still sends `UMASS.EDU`, as `umass.edu` |
| Client.SentNamesHaveTwoLabels | client.py:110-112 | every name the client sends has at least two labels, which is what the resolver's unpacking of the reversed labels needs (localDnsServer.py:137) |

## Left out

- Sockets, `sendto`/`recvfrom`, `bind`, encoding to bytes and the `while True` loops of every process. These are I/O. `Resolve` is the body of one iteration of the resolver's loop, and `Classify` is the client's decision for one line.
- Reply size: an IPv4 UDP datagram carries at most 65507 bytes, so `recvfrom(65535)` at helpers.py:91 never truncates. A longer `str(result)` makes the tier's `sendto` raise (rootDnsServer.py:172, authoritativeDnsServer.py:104). The tier then exits in its bare `except`, and the resolver waits forever. The model assumes every reply arrives whole.
- The root and authoritative tier programs (`findOutTld`, `findOutResultantIp` and their calls into dnspython). Their replies are the `Network` oracle's arbitrary text. The oracle is indexed by tier, not by port number. That is sound because `PortOf` gives the port layout and `Helpers.PortOfInjective` shows the three tier ports are pairwise distinct. The `localhost` address and the buffer size are not modelled.
- The root name server address comes from `dns.resolver.get_default_resolver().nameservers[0]`, which is system configuration. It is the `rootNameServer` parameter of `Resolve`.
- Printing (`customPrint`, `displayMessages`, the prints in `fetchFromCache` and the handlers) has no effect on the values returned and is not modelled.
- Exception handlers, `KeyboardInterrupt` and `exit()`.
- LocalDnsServer.LocalResolver.Resolve requires at least two labels. On a one-label name Python's unpacking at localDnsServer.py:137 raises, which the model does not represent. `Client.SentNamesHaveTwoLabels` shows the client never sends such a name.
- Helpers.GetInput takes a `nat` count and requires it to be at most the number of labels. Python's behaviour for a negative count (an empty loop) or for too many words (an index error) is not modelled.
- The query log `queries` is ghost. The source keeps no such record; it exists so that the ordering and cache-hit properties can be stated.
- Helpers.Encode models Python's `repr` of a list only for printable ASCII messages without `,`, `'` and `\` (`PlainMessage`). Quote selection and escaping in general are not modelled.
- Client.Lower is ASCII lower-casing, not Unicode `str.lower`. The regular expression is modelled by the ghost predicate `PatternFound` rather than a regex engine.
- Python's lists `splitResult`, `result` and `cleanList` are Dafny arrays, because the code reverses them in place. The list `listOfMessages` given to `getInputForNextServer` is only read, so it is a `seq`.
