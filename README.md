# Cloudflare Gateway ad-blocking lists, modelled in Dafny

This project models the core of a tool that keeps Cloudflare Zero Trust
Gateway block lists in step with a set of ad and tracking domains. These
are the parts modelled:

- **The list manager** (`CloudflareManager`, `manager.dfy`). `run` takes
  the normalised domain list and goes through these steps:
  - two gates: no domains, or more than 300000;
  - a fast path that compares only the total item count of the owned lists;
  - otherwise a full resync: delete the owned policies, delete the owned
    lists, create one list of at most 1000 domains per chunk;
  - a policy step over the policies it finds: create one, update one, or
    fail when there are several.

  `leave` removes the owned policies and lists. Everything the manager owns
  is named with the prefix `[AdBlock-<adlist name>]`. The class calls an
  abstract gateway account one request at a time (`store.dfy`). Each
  method is proved equal to a function on account values (`RunResult`,
  `LeaveResult`), and the lemmas state what those functions do to an
  account.
- **The gateway account** (`store.dfy`). It holds a sequence of lists, a
  sequence of rules (policies), a fresh-id counter and a log of every call
  made. It assumes only what the program relies on:
  - a create appends a resource with a fresh id;
  - a delete removes the resource with that id;
  - an update replaces the rule with that id;
  - a listing returns everything in order.
- **Chunking** (`utils.dfy`): `chunk_list` as a recursive function, with
  its partition and round-trip properties.
- **Request shaping** (`cloudflare.dfy`):
  - the prefix filters of `get_lists` and `get_firewall_policies`;
  - the body of `create_list`;
  - the policy bodies of `create_gateway_policy` and
    `update_gateway_policy`, including their `traffic` expression
    (segments glued with a bare `or`), and a parser that reads the list ids
    back;
  - the paths that the update and delete requests target.
- **Settings** (`settings.dfy`): the `.env` reader, line by line, as a
  loop filling a map, and the credential precedence.
- **Patterns** (`patterns.dfy`): the three regular expressions as explicit
  predicates (`ip_pattern`, `domain_pattern` transcribed as `(G)+F`) and a
  match-length function (`replace_pattern`).
- **URL lists** (`domains.dfy`). `DomainConverter` reads the adlist and
  allowlist URLs from a list file and then from an environment variable.
  `ProcessUrls` assembles the block and allow texts from the downloads,
  followed by the dynamic addendum.

Python's string built-ins that these use are modelled in `strings.dfy`:
`strip`, `split`, `join`, `startswith`, decimal rendering, the `03d`
format and file lines.

Two behaviours of the code are reproduced as written and shown by
example lemmas:
- the fast path can keep a stale list whose item count happens to match
  (`Manager.StaleListKept`);
- the resync deletes policies under `<prefix> Block Ads` but re-reads them
  under the broader `<prefix>`, so a policy such as `<prefix> Allow` gets
  taken over and renamed (`Manager.BroadRuleTakenOver`).

## Model

| member | source | states |
|---|---|---|
| Utils.ChunkList | src/utils.py:1-3 | The chunks flatten back to the input. Every chunk has 1..n elements, every chunk but the last has exactly n, and there are no chunks exactly when the input is empty. Requires n > 0, since a step of 0 raises. |
| Utils.ChunkCount | src/utils.py:2 | The number of chunks is ⌈len/n⌉. |
| Utils.ChunkAt | src/utils.py:2-3 | Chunk k is the slice `xs[k*n .. min((k+1)*n, len)]`, and it starts inside the input. |
| Utils.FlattenAppend | src/utils.py:1-3 | Flattening distributes over concatenation of chunk sequences. |
| Cloudflare.GetLists | src/cloudflare.py:8-11 | The result holds exactly the listed entries whose name starts with the prefix. A null result gives the empty list. |
| Cloudflare.GetFirewallPolicies | src/cloudflare.py:32-35 | The same filter over rules: membership iff listed and prefixed, and null gives empty. |
| Cloudflare.PrefixedMembers | src/cloudflare.py:11 | Membership in the prefixed part iff listed and prefixed; in the unprefixed part iff listed and not prefixed. |
| Cloudflare.PrefixedAppend | src/cloudflare.py:11 | The filter keeps response order: it distributes over concatenation. |
| Cloudflare.PrefixedPartition | src/cloudflare.py:11 | The prefixed and unprefixed parts together are a permutation (multiset) of the response. |
| Cloudflare.PrefixedIdempotent | src/cloudflare.py:11 | Filtering twice changes nothing, and the unprefixed part has nothing prefixed. |
| Cloudflare.CreateListBody | src/cloudflare.py:16-21 | The body carries the given name, type `DOMAIN`, and one item per domain. |
| Cloudflare.ListBodyRoundTrip | src/cloudflare.py:20 | Reading the item values back gives the domains, in input order. |
| Cloudflare.Segments | src/cloudflare.py:45 | One `any(dns.domains[*] in $id)` segment per list id, in order. |
| Cloudflare.Traffic | src/cloudflare.py:45 | No ids give the empty expression; one id gives its segment alone. |
| Cloudflare.TrafficRoundTrip | src/cloudflare.py:45 | Parsing the `or`-joined traffic expression gives back exactly the list ids, so the bare `or` glue is unambiguous. |
| Cloudflare.CreatePolicyBody | src/cloudflare.py:38-49 | The policy has the given name, action `block`, is enabled, has filters `["dns"]` and no block page. |
| Cloudflare.UpdatePolicyBody | src/cloudflare.py:54-65 | The same fixed fields for an update. |
| Cloudflare.CreateAndUpdateAgree | src/cloudflare.py:38-65 | Create and update build identical bodies for the same name and ids, and the traffic is `Traffic(ids)` (the same expression at src/cloudflare.py:61). |
| Cloudflare.RequestTargets | src/cloudflare.py:27-71 | Update is a PUT to `gateway/rules/{id}`; delete_list is a DELETE of `gateway/lists/{id}`; delete_gateway_policy is a DELETE of `gateway/rules/{id}`. Each path names its own id and no resource in the other collection. |
| Remote.RequestOfAgrees | src/cloudflare.py:8-72 | Each call the store receives is the request the matching client function sends. |
| Remote.RequestOfTargets | src/cloudflare.py:27-72 | A call changes the account iff its verb is not GET. A list delete names exactly its list id under `gateway/lists`, a rule update or delete names exactly its rule id under `gateway/rules`, and no other call names a resource. |
| Remote.DeletePrefixed | src/__main__.py:74-77 | Deleting the ids of every prefixed resource leaves exactly the unprefixed ones, in order. |
| Remote.WithoutIdsMembers | src/cloudflare.py:27-29 | After deleting a set of ids, a resource remains iff it was there and its id is not in the set. |
| Remote.StepsConsistent | src/__main__.py:48-122 | The store the manager's calls go to: any sequence of calls keeps the account consistent: within each collection ids are distinct, and all are below the counter, so a created resource's id is fresh. |
| Remote.RemoteStore.FetchLists | src/cloudflare.py:9-10 | Returns every list in order. The account changes only by the logged call. |
| Remote.RemoteStore.FetchRules | src/cloudflare.py:33-34 | Returns every rule in order. The account changes only by the logged call. |
| Remote.RemoteStore.CreateList | src/cloudflare.py:22-23 | Returns the new list with the fresh id, the body's name, and its items and count. The account appends it. |
| Remote.RemoteStore.DeleteList | src/cloudflare.py:28 | The account's new state is the old one after the delete call. |
| Remote.RemoteStore.CreateRule | src/cloudflare.py:50-51 | Returns the new rule with the fresh id. The account appends it. |
| Remote.RemoteStore.UpdateRule | src/cloudflare.py:66 | The account's new state is the old one after the PUT call. |
| Remote.RemoteStore.DeleteRule | src/cloudflare.py:71 | The account's new state is the old one after the delete call. |
| Manager.NamePrefix | src/__main__.py:13 | The prefix is `[AdBlock-` + adlist name + `]`, and the adlist name can be read back out of it. |
| Manager.ListName | src/__main__.py:82 | A list name starts with the name prefix. |
| Manager.ListNamesDistinct | src/__main__.py:82 | Different chunk numbers give different list names, because the `03d` number reads back. |
| Manager.PolicyNameNarrower | src/__main__.py:68 | Anything named under the policy name is also under the name prefix. |
| Manager.NewLists | src/__main__.py:80-85 | The k-th created list has id first+k, name `<prefix> - <k+1, 3 digits>`, and holds chunk k with its count. |
| Manager.ResyncListsHoldDomains | src/__main__.py:80-85 | The created lists' items, concatenated in creation order, are the domains. Their counts sum to the number of domains, and there are ⌈n/1000⌉ of them. |
| Manager.RunGates | src/__main__.py:38-48 | With no domains, or more than 300000, `run` makes no call and the account is unchanged. With 1..300000 (300000 included) the first call is the list fetch. |
| Manager.FastPathEffect | src/__main__.py:52-65 | When the owned counts sum to the number of domains, no list is created or deleted. If no prefixed policy exists, exactly one `<prefix> Block Ads` policy over the owned list ids (in fetched order) is created. Otherwise nothing changes but the two fetches. |
| Manager.ResyncBeforePolicy | src/__main__.py:67-88 | Before the policy step, the policies under the policy name are deleted, then the owned lists, then the chunks are created, then the rules are re-read, in this order in the log. The account keeps only unowned lists plus the new ones, and only rules outside the policy name. |
| Manager.PolicyStepEffect | src/__main__.py:92-106 | Zero prefixed policies: create one over the ids. Exactly one: update that policy's id with the ids. More: fail with the multiple-policies outcome and change nothing. |
| Manager.ResyncEffect | src/__main__.py:67-106 | The lists after a resync are the unowned lists plus the new chunks. The rules and the outcome follow the 0/1/many step over the policies re-read by the broader prefix. If that step raises, the new lists stay. |
| Manager.ResyncCalls | src/__main__.py:48-106 | The exact sequence of calls a resync makes: list fetch, rule fetch, policy deletes, list deletes, list creates, rule fetch, then a create, an update or nothing. |
| Manager.ResyncOutcome | src/__main__.py:92-100 | A resync reports success iff at most one policy under the broad prefix survives the deletes. |
| Manager.ResyncOwnedLists | src/__main__.py:80-85 | After a resync the owned lists are exactly the new chunks: they hold the domains, sum to their number, number ⌈n/1000⌉, and the unowned lists are unchanged. |
| Manager.ResyncKeepsForeign | src/__main__.py:67-106 | A resync leaves every rule outside the name prefix as it was. |
| Manager.RunKeepsForeign | src/__main__.py:15-107 | Whatever path `run` takes, lists and rules outside the name prefix are unchanged. |
| Manager.RunConsistent | src/__main__.py:15-107 | `run` keeps the account consistent. |
| Manager.RunSettles | src/__main__.py:52-106 | After a `run` that does not raise, the owned counts sum to the number of domains and a prefixed policy exists. |
| Manager.RunConverges | src/__main__.py:52-63 | A second `run` with the same domains only fetches and reports that the policy exists. |
| Manager.LeaveEffect | src/__main__.py:109-123 | `leave` deletes exactly the `<prefix> Block Ads` policies, then fetches and deletes exactly the `<prefix>` lists. Everything else is unchanged. |
| Manager.LeaveTwice | src/__main__.py:109-123 | A second `leave` deletes nothing: it only makes the two fetches. |
| Manager.StaleListKept | src/__main__.py:52 | Example: a stale owned list with a matching count is kept, and a policy is created over it. |
| Manager.BroadRuleFound | src/__main__.py:88-106 | Example: a rule `<prefix> Allow` survives the deletes and is found by the broad re-read, so the policy step updates it. |
| Manager.BroadRuleTakenOver | src/__main__.py:67-106 | Example: a whole `run` replaces a `<prefix> Allow` rule by the block policy under the same id. |
| Manager.CloudflareManager.constructor | src/__main__.py:9-13 | The manager keeps the adlist name and computes the name prefix from it. |
| Manager.CloudflareManager.Run | src/__main__.py:15-107 | The account after `run` and the outcome are those of `RunResult`. On a gate the account is untouched. |
| Manager.CloudflareManager.DeletePolicies | src/__main__.py:70-71 | The loop issues one delete per given policy, in order. |
| Manager.CloudflareManager.DeleteLists | src/__main__.py:75-77 | The loop issues one delete per given list, in order. |
| Manager.CloudflareManager.CreateLists | src/__main__.py:81-85 | The loop creates one list per chunk, numbered from 1, and returns them in creation order. |
| Manager.CloudflareManager.Leave | src/__main__.py:109-123 | The account after `leave` is `LeaveResult`. |
| Settings.StripQuotes | src/__init__.py:26 | The result is no longer than the value, and does not start with an opening quote or end with a closing one. |
| Settings.StripQuotesDecomposes | src/__init__.py:26 | The value is an opening run + the result + a closing run: only the leading run of `"'<` and the trailing run of `"'>` are removed. |
| Settings.StripQuotesUnique | src/__init__.py:26 | Any split into an opening run, a middle that does not start with an opening quote, and a closing run whose middle does not end with a closing quote determines the result. |
| Settings.Unquote | src/__init__.py:26 | For a value without a line break, the substitution is `StripQuotes`. |
| Settings.ParseLineSkip | src/__init__.py:21-22 | A line contributes nothing iff it is blank or starts with `#` after stripping. |
| Settings.ParseLineMalformed | src/__init__.py:23 | A line raises iff it is neither blank nor a comment and has no `=`. |
| Settings.ParseLineOf | src/__init__.py:21-27 | A line `k=v` whose key has no `=` and, once stripped, does not start with `#` assigns the stripped key to the unquoted stripped value. Whitespace around the line, the key and the value is allowed, and the value may contain `=`. |
| Settings.CollectErr | src/__init__.py:20-27 | Reading fails iff some line is malformed, and reports the first malformed line. |
| Settings.CollectKeys | src/__init__.py:27 | A key is in the result iff some line assigns it. |
| Settings.CollectLastWins | src/__init__.py:27 | A key's value is that of its last assignment. |
| Settings.DotEnv | src/__init__.py:16-28 | No file gives the empty map. Otherwise the loop over the file's lines gives the collected entries. |
| Settings.ReadEntries | src/__init__.py:20-28 | The loop over the lines returns `Entries(lines)`: the parsed lines applied in order, where an assignment updates the map and a malformed line stops the read with that line. |
| Settings.ParseOne | src/__init__.py:21-26 | The body of the loop for one line computes `ParseLine`: skipped, malformed, or the key and value it assigns. |
| Settings.Setting | src/__init__.py:33-34 | A non-empty process variable wins, and otherwise the `.env` entry is used, if any. |
| Settings.LoadCredentials | src/__init__.py:33-36 | Succeeds iff both credentials are present and non-empty in either place, else fails with `Missing Cloudflare credentials`. The values are those of `Setting`. |
| Patterns.IpBodyJoin | src/__init__.py:11-13 | Four dot-joined groups form an address iff each group is 1-3 digits. |
| Patterns.IpDigits | src/__init__.py:11-13 | For digit runs, acceptance is exactly the 1-3 length condition, with no 0-255 range check. |
| Patterns.DomainSound | src/__init__.py:8-10 | Every string the pattern body accepts (the line, or the line less one final line feed) has length ≥ 2, only letters, digits, `-` and `.`, starts and ends with a letter or digit, and has no `..`, `-.` or `.-`. |
| Patterns.DomainAccepted | src/__init__.py:8-10 | A string `domain_pattern` accepts, less at most one final line feed (which `$` lets through), has length ≥ 2, only letters, digits, `-` and `.`, starts and ends with a letter or digit, and has no `..`, `-.` or `.-`. |
| Patterns.DomainJoin | src/__init__.py:8-10 | Two or more labels (alphanumeric at both ends, hyphens inside) joined by dots are accepted. |
| Patterns.TwoLettersAccepted | src/__init__.py:9 | `ab` is accepted. |
| Patterns.DottedAccepted | src/__init__.py:9 | `a.b` is accepted. |
| Patterns.OneLetterRejected | src/__init__.py:9 | `a` is rejected. |
| Patterns.HyphenRejected | src/__init__.py:9 | `a-b` is rejected. |
| Patterns.ReplaceMatch | src/__init__.py:5-7 | A match is a non-empty prefix of the line. |
| Patterns.ReplaceMatchShape | src/__init__.py:5-7 | A match is either an address run with all the whitespace after it (tried first) or one of the markers: two bars, `@@` followed by two bars, `*.`, `*`. |
| Patterns.ReplaceMatchNone | src/__init__.py:5-7 | Nothing matches iff no address run followed by whitespace starts the line and none of the markers (two bars, `@@` followed by two bars, `*`) does. |
| Patterns.ReplaceMatchAddress | src/__init__.py:6 | An address run followed by whitespace matches with exactly that whitespace. |
| Patterns.ReplaceMatchStarDot | src/__init__.py:6 | A line starting `*.` matches two characters. |
| Domains.EnvUrlsAreWords | src/domains.py:35-39 | The env URLs are the whitespace-separated words of the variable. The per-word strip and the emptiness test change nothing. |
| Domains.EnvUrlsShape | src/domains.py:35-39 | Every env URL is non-empty and has no whitespace. |
| Domains.EnvUrlsKeepText | src/domains.py:35-39 | The env URLs concatenated are the variable's text without its whitespace, in order. An unset variable gives no URLs. |
| Domains.EnvUrlsJoin | src/domains.py:35-39 | Space-joined words read back as the same URLs. |
| Domains.FallbackAppend | src/domains.py:30-32 | The fallback filter keeps line order: it distributes over concatenation. |
| Domains.FallbackLine | src/domains.py:30-32 | A line is dropped iff it starts with `#` (checked before stripping) or is blank. Otherwise it contributes its stripped text, which is non-empty. |
| Domains.FallbackIndented | src/domains.py:31 | An indented `#` line is kept, because the `#` test comes before the strip. |
| Domains.OptionUrlsFail | src/domains.py:21-28 | The option walk fails (and the fallback is taken) iff some option's value cannot be read. |
| Domains.OptionUrlsValues | src/domains.py:24-27 | When no option fails, the URLs are the values of the options whose key does not start with `#`, in section and option order. |
| Domains.UncommentedMembers | src/domains.py:26 | The options kept are exactly those whose key does not start with `#`. |
| Domains.UncommentedSnoc | src/domains.py:25-27 | Walking the options in order, each option is kept after those before it unless its key starts with `#`. |
| Domains.ReadUrlsFromFile | src/domains.py:19-33 | The nested loops over sections and options give `FileUrls`: the option values when the file parses and every value reads, the fallback lines otherwise. |
| Domains.ReadUrls | src/domains.py:41-45 | The method returns `ListUrls`: the URLs of the variable's list file, then those of the variable. |
| Domains.ListUrlsOrder | src/domains.py:41-45 | The file URLs come first, followed by exactly the env URLs. |
| Domains.DownloadedAppend | src/domains.py:65-68 | Downloads are concatenated in URL order. |
| Domains.DynamicReplacesFile | src/domains.py:74-84 | A non-empty dynamic variable is used instead of the file. Which files exist no longer matters. |
| Domains.DomainConverter.constructor | src/domains.py:9-17 | The converter holds the adlist and allowlist URLs read from their files and variables. |
| Domains.DomainConverter.ProcessUrls | src/domains.py:62-84 | The block text is the adlist downloads in order followed by the dynamic blocklist addendum, and likewise for the allow text. It fails exactly when a needed dynamic file is missing. |
| Strings.Strip | src/__init__.py:21 | `str.strip`: the result has no surrounding whitespace, and it is empty iff the line is all whitespace. |
| Strings.StripDecomposes | src/__init__.py:21 | The line is leading whitespace + the stripped text + trailing whitespace. |
| Strings.WordsKeepText | src/domains.py:38 | `str.split()` drops only whitespace: the words concatenated are the text's non-space characters. |
| Strings.WordsJoin | src/domains.py:38 | Splitting space-joined words gives the words back. |
| Strings.Lines | src/__init__.py:20 | Iterating a file gives lines that concatenate to its text, each ending in a line break except possibly the last. |
| Strings.Split | src/__init__.py:11-13 | The full split at every occurrence of a character, which `ip_pattern`'s dot-separated groups are read with: rejoining the pieces gives the text back. |
| Strings.SplitJoin | src/__init__.py:11-13 | Splitting a join of pieces that do not hold the separator gives the pieces back, as reading an address's four groups needs. |
| Strings.ZeroPad3 | src/__main__.py:82 | `{n:03d}`: at least three digits, padded with zeros, and it reads back as n. |
| Strings.DecimalRoundTrip | src/cloudflare.py:28 | A list or rule id rendered in a path reads back as the same id. |

## Left out

- `src/commit.py`: the keep-alive commit is GitHub REST plumbing (HTTP, base64, dates) and is not part of this model.
- Retry, backoff and rate limiting around the gateway calls (`retry`, `rate_limited_request`, `send_request`, `retry_config`): these helpers are not defined in the modelled files, and they sleep and loop on the network. Every call is modelled as succeeding at once.
- Transport and I/O are given as values: HTTP downloads (`download_file`) are a function parameter; file contents and existence are maps; the process environment is a map; `ConfigParser`'s parse of a list file is given as parsed sections (or none when it raises). ConfigParser's key lowercasing, comments and interpolation rules are not modelled; a value it cannot read is marked failed.
- `convert.convert_to_domain_list` is not part of this model. `ProcessUrls` returns the two texts handed to it, and `run` takes the converted domains as its input.
- The download phase of `run` (src/__main__.py:17-35) reads the dynamic files directly. It is the same assembly as `process_urls` and is not modelled separately.
- The `__main__` entry block (src/__main__.py:125-131) and the references to `utils.download_file` and `utils.read_urls_from_file`: these are not defined in `src/utils.py`.
- Logging (loguru, colorlog) is not modelled.
- The real gateway's semantics are not modelled. The account is the minimal store described above. Resource ids are natural numbers from a counter, rendered in decimal, rather than opaque strings. A created list's count is its number of items.
- Whitespace means ASCII whitespace only. Python's `str.strip`, `str.split` and `\s` also treat `\x1c`-`\x1f` and Unicode spaces as whitespace. `\d` means ASCII digits only.
- Files are read with `\n` line breaks only; universal-newline translation is not modelled.
- Domains.ReadUrls: the `KeyError` for a variable name outside the four known ones cannot happen, because the name is a `ListVar` value.
- Settings.Unquote: a value with a line break before its end is returned unchanged; the regex's behaviour on such a value is not modelled, and a stripped file line cannot hold one.
