# Verified model of the secret refresher

This project models the parts of the secret refresher whose behaviour is more than
plumbing, and proves what they promise:

- the template engine (`Template`, `TemplateLaws`) over a codec for flat JSON objects
  (`Json`, `JsonSyntax`, `JsonObjects`, `JsonLaws`), and the two printers that feed it: the RDS provider's
  hand-written JSON (`Rds`, `RdsLaws`) and Vault's whole payload (`Kv`);
- the key-mapping transform with its two modes, its case-insensitive fallback and Go's
  arbitrary map iteration order (`Transform`, `TransformLaws`, `TransformConfig`);
- the file-refresh protocol: one loop and any number of `Refresh` calls around a lock,
  with a clock (`FileRefresh`, `FileRefreshLaws`), and one attempt call by call
  (`FileProvider`);
- the Vault token lifecycle and its re-login loop (`TokenLifecycle`, `Lifecycle`);
- the Vault and OAuth cache-aside fetchers (`Lru`, `VaultCache`, `OAuthCache`);
- the proxy's request pipeline and header rewriting (`Headers`, `Rewrite`).

`dafny verify dfyconfig.toml` checks everything.

Strings are sequences of Unicode characters. AWS, Vault, the OAuth service, `url.Parse`,
the clock and write failures are parameters or nondeterministic steps: every theorem
holds for whatever they answer. `json.Unmarshal` is a parameter too, held to the decoder
of `Json` where a theorem needs its answer. Map iteration order is an arbitrary choice in a loop.
Lower-casing of secret keys is any function on strings.

Where the code and its documentation part, the model follows the code:

- `template/README.md` promises that a number in the secret is put in as it stands.
  `json.Unmarshal` makes it a float64 and `%v` prints seven digits or more in exponent
  form (1000000 becomes 1e+06); `JsonLaws.IntegerPrintsAsWritten` gives the condition.
- `README.md` says a changed secret is in the file "max within the refresh time".
  `FileRefreshLaws.RotationDelayBound` and `RotationDelayBoundExact` give the exact bound,
  refresh + 2 * (fetch + write).
- The comment above `cacheKey` says entries are unique across mounts, versions and
  fields; `VaultCache.KeyInjectiveIff` says when, and `SharedKeyServesOther` shows a
  collision.
- `README.md` describes a transform applied before the template; the constructors refuse
  a configuration with both. `FileProvider` keeps the order of the code that would run.

How the results hang together: a method is proved against a specification function, and
the laws are proved about that function. `Template.ReplaceAll` is the loop and
`Template.Render` its meaning on a `Shape`; `Transform.Apply` is the loop and
`Transform.Replay` the effect of the moves it found; the fetcher classes act as the
atomic operations whose histories the cache laws quantify over. The two protocols are
step relations with laws over all runs.

## Model

| member | source | states |
|---|---|---|
| `Template.ReplaceAll` | template/template.go:20-33 | The replacement loop returns, for every template and every callback, the rendering of the template's only lawful shape: literals unchanged, each placeholder looked up once, left to right, until the latch trips; written text is never scanned again. |
| `Template.Substitute` | template/template.go:20-33 | The same for the callback that looks a key path up in the secret. |
| `Template.ShapeUnique` | template/template.go:18-22 | A template has at most one decomposition in which every placeholder is the leftmost, then shortest, newline-free match of what remains and no match starts inside a literal. |
| `Template.ShapeExists` | template/template.go:18-22 | From every position the search finds such a decomposition, and it spells the template. |
| `Template.TrimMatchIsKeyPath` | template/template.go:22-25 | On every shortest match the trims with cutset `#` return the captured body minus at most one leading `#`; the key path neither starts nor ends with `#` and never contains `##`. |
| `TemplateLaws.ConcatenationIff` | template/template.go:18-22 | The placeholders of t1 ++ t2 are those of t1 followed by those of t2 exactly when no match opens in the literal that ends t1. |
| `TemplateLaws.RenderConcatenationIff` | template/template.go:20-33 | Substitution is a homomorphism threading the latch, for every callback, exactly when no match opens in the literal that ends t1. |
| `TemplateLaws.DecodedSecretFills` | template/template.go:26-46 | With a secret that decodes to an object the latch never trips, so rendering is a pointwise map over the placeholders. |
| `TemplateLaws.UndecodedSecretFills` | template/template.go:26-46 | With one that does not decode, placeholders before the first dotted one are the raw secret, and it and all later ones are empty. |
| `TemplateLaws.SecondSegmentDecides` | template/template.go:36-62 | In a dotted path the second segment alone, trimmed, names the field; a missing key or a nested object gives the empty string without stopping. |
| `TemplateLaws.RawTextIff` | template/template.go:20-46 | A template puts in the raw secret at every placeholder, whatever the secret decodes to, exactly when no placeholder has a dot. |
| `JsonSyntax.StringReadIff` | template/template.go:40-41 | The string reader takes exactly the spellings of section 7 of RFC 8259, each to the characters it stands for: plain characters, the eight short escapes, `\u` in either case, surrogate pairs as one character and lone surrogates as U+FFFD. |
| `JsonObjects.DecodedIff` | template/template.go:40-41 | A text decodes to an object exactly when it is one by RFC 8259, with blanks wherever they may stand and the last of members with one key counting, or `null`. |
| `JsonObjects.OutOfScopeIff` | template/template.go:40-41 | The model leaves a text undecided exactly when, behind proper members, a value begins that it does not read: an object, an array, a fraction or exponent, an integer past 2^53 or minus zero. Every other text is an error. |
| `JsonObjects.OtherwiseUndecodable` | template/template.go:40-41 | A text that begins, blanks aside, with neither `{` nor `null` does not decode. |
| `JsonLaws.DecodeWritten` | template/template.go:40-41 | Any layout of a flat object, with any blanks around it, before and behind colons and commas and inside the braces, decodes to its members, whatever their order and repeated keys; anything but blanks behind it makes the text undecodable. |
| `JsonLaws.DecodedQuotes` | template/template.go:40-41 | Whatever the text, every string of the decoded object is spelled by a literal of the text, longer than the string if an escape is needed. |
| `JsonLaws.DecodeMarshal` | provider/hashicorp_vault/kv.go:90-96 | Unmarshal undoes Marshal on every flat object. |
| `JsonLaws.MarshalInjective` | transform/transform.go:197-209 | Two flat objects never marshal to the same text. |
| `JsonLaws.MarshalCanonical` | transform/transform.go:197-209 | A marshalled object has each member once, its keys in ascending order of code points, and no blank outside its strings. |
| `JsonLaws.MarshalHarmless` | transform/transform.go:197-209 | It holds no control character, no `<`, `>` or `&`, and no U+2028 or U+2029. |
| `JsonLaws.ByDecodeStable` | transform/transform.go:145-146 | The decoder reads back whatever objects are made of values it has decoded. |
| `JsonLaws.IntegerPrintsAsWritten` | template/template.go:59-60 | `%v` of a decoded integer is its decimal numeral exactly when it has fewer than seven digits. |
| `JsonLaws.PrintedIntegersDistinct` | template/template.go:59-60 | `%v` prints distinct integers distinctly, the exponent form included. |
| `JsonLaws.ExponentFormValue` | template/template.go:59-60 | The significant digits that the exponent form shows, scaled by its exponent, denote the integer. |
| `RdsLaws.SecretJsonDecodesIff` | provider/aws_iam_auth_rds/provider.go:124-130 | The JSON printed by hand decodes to the database's fields exactly when no string holds a quote, a backslash or a control character and the port is one that a float64 holds; no other contents, crafted or not, bring the fields back. |
| `Rds.TemplateIsDsnIff` | provider/aws_iam_auth_rds/provider.go:119-133 | For plain strings and every port a float64 holds exactly, filling the connection-string template from the printed JSON gives `buildDSN` exactly when no field has outer blanks and the port has fewer than seven digits. |
| `Kv.PathNormalForm` | provider/hashicorp_vault/kv.go:74-84 | The read path is the mount without outer slashes (or `secret`), one `data` segment, and the rest. |
| `Kv.QueryBuilt` | provider/hashicorp_vault/kv.go:27-42 | For a mount named with any slashes around it, or only slashes (`secret`), and a path with any slashes in front, with or without `data/`, Vault is asked for `mount/data/path`, and for the version named unless it is empty or `"0"`. |
| `Kv.SameQueryIff` | provider/hashicorp_vault/kv.go:27-42 | Requests ask Vault the same exactly when they name the same version, `""` and `"0"` both meaning the latest, and mount and rest agree or one mount goes on into the other's path; mounts without an inner slash never do. |
| `Kv.PayloadTemplate` | provider/hashicorp_vault/kv.go:90-97 | Rendering `##prefix.key##` on the marshalled payload gives that field through the codec round trip: a string trimmed, an integer as `%v` prints it, `true`, `false` or `<nil>`; nothing for a nested object. |
| `Kv.ExtractFieldMeans` | provider/hashicorp_vault/kv.go:86-112 | The whole payload as a text that decodes to it, a string field as it is, any other scalar as a text that denotes it, and an error exactly for a field that is not there. |
| `Kv.PayloadTemplateIsFieldIff` | provider/hashicorp_vault/kv.go:90-112 | For a string, number, boolean or null it equals the trimmed `extractField` of the key exactly unless the value is null or an integer of seven digits or more. |
| `Transform.Apply` | transform/transform.go:151-195 | The mapping loop returns the replay of moves whose sources are keys of the original secret that the mappings resolve to, under any iteration order of the map; mappings that resolve to nothing are skipped. |
| `Transform.FindIgnoringCase` | transform/transform.go:178-190 | Finds a key equal up to case when there is one, whichever comes first. |
| `Transform.Run` | transform/transform.go:139-210 | The text itself without mappings or when it is no JSON object, otherwise the marshalled replay, for every text and every unmarshaller. |
| `TransformLaws.ReturnsIff` | transform/transform.go:139-195 | The objects that may be returned are exactly those in which, for some choice of source keys (the key itself if it is there, else any that agrees in lower case), each key ends as the last mapping that writes or deletes it leaves it. |
| `TransformLaws.TransformedOnlyReturns` | transform/transform.go:151-195 | transformed_only returns exactly the targets whose `from` some key agrees with in lower case, each with the value of the last such mapping: that of `from` itself if it is a key, else of such a key. |
| `TransformLaws.LastEventWins` | transform/transform.go:166-195 | A key's final state is set by the last move that writes or deletes it, delete after write within one move; untouched it keeps its original value, or is absent in transformed_only. |
| `TransformLaws.SimultaneousIff` | transform/transform.go:166-195 | keep_all equals the untouched originals overridden by the transformed_only result exactly when every key that is both source and target is written again after its last deletion. |
| `TransformLaws.TargetsAgreeIff` | transform/transform.go:153-195 | Under that condition, and only then, both modes agree on every target. |
| `TransformLaws.OrderedIffNoLaterSource` | transform/transform.go:166-195 | With distinct targets the condition is that no target is the source of the same or a later mapping. |
| `TransformLaws.SelfMappingDrops` | transform/transform.go:170-174 | `from == to` loses the key in keep_all. |
| `TransformLaws.ChainOrderMatters` | transform/transform.go:170-174 | `A -> B, B -> C` loses A's value, the reverse order keeps both. |
| `TransformLaws.DeterministicIff` | transform/transform.go:151-195 | In both modes the returned object is independent of the map iteration order, for every secret with the given keys, exactly when for each key the last mapping that surely writes or deletes it deletes it, or writes it from one key only with no later mapping that may delete it. |
| `TransformLaws.TransformedOnlyDeterministicIff` | transform/transform.go:151-195 | In transformed_only that is: the target of every mapping that resolves to several keys is written again by a later mapping that resolves. |
| `TransformLaws.ResultUnique` | transform/transform.go:166-190 | When no mapping resolves to two keys the returned object is the same for every iteration order. |
| `TransformLaws.DistinctKeysUnambiguous` | transform/transform.go:178-190 | Keys that differ in lower case are enough for no mapping to resolve to two. |
| `TransformLaws.MappingOrderIrrelevant` | transform/transform.go:166-195 | Any reordering of an unambiguous list whose moves are independent gives the same object, in both modes. |
| `TransformLaws.RenamingInvertible` | transform/transform.go:139-210 | In keep_all a list of present distinct sources and new distinct targets followed by its inverse list returns the original object. |
| `TransformLaws.TextRenamingInvertible` | transform/transform.go:139-210 | The same on the texts, up to the canonical text of the object, nested values included, for every unmarshaller that reads back what it has decoded. |
| `TransformLaws.RenamingConservesValues` | transform/transform.go:166-195 | Such a list keeps the multiset of values. |
| `TransformConfig.Parse` | transform/transform.go:56-136 | Accepts exactly the well-formed configurations, keeps the mappings in order, and otherwise reports the first thing wrong. |
| `TransformConfig.WrittenParses` | transform/transform.go:56-136 | A transform written out as the documentation has it is read back, mappings in order and mode. |
| `TransformConfig.Defaults` | transform/transform.go:56-136 | Without `transform` there are no mappings and keep_all; each of mode and mappings has that default by itself. |
| `FileRefreshLaws.FileAlwaysWhole` | provider/aws_secrets_manager/file_provider.go:186-195 | In every interleaving of the loop and any number of `Refresh` calls, with failures and the unlocked clear, at most one call is inside the lock; the file is as it was found exactly until it is first emptied, torn exactly between a write that fails part-way and the next truncation, and otherwise empty or one fetched value. |
| `FileRefreshLaws.AttemptsSpaced` | provider/aws_secrets_manager/file_provider.go:118-137 | However an attempt of the loop ends, the loop sleeps the whole refresh interval before the next. |
| `FileRefreshLaws.CurrentForever` | provider/aws_secrets_manager/file_provider.go:118-151 | For every version: once the clear is over and no call carries an earlier one, the next write brings the file to that version or a later one, and short of a failing write it never shows an earlier one again, however often the source changes; while the source rests it shows exactly that version. |
| `FileRefreshLaws.StepSettled` | provider/aws_secrets_manager/file_provider.go:139-151 | Once no call carries a version before one the source has reached, none ever will. |
| `FileRefreshLaws.OldValuesGone` | provider/aws_secrets_manager/file_provider.go:139-151 | In every run, failures included: fetch + write after any instant behind the clear no call carries a version older than the source's at that instant. |
| `FileRefreshLaws.RotationDelayBound` | provider/aws_secrets_manager/file_provider.go:118-137 | For every instant behind the clear: from refresh + 2 * (fetch + write) later on the file shows what the source held then or something newer, with any number of concurrent `Refresh` calls, whatever failed before and however often the source changes after, if from then on no write fails and the loop's fetches succeed. |
| `FileRefreshLaws.RotationDelayBoundExact` | provider/aws_secrets_manager/file_provider.go:118-137 | For all bounds a run shows the old value that long after the only change, so no smaller bound holds. |
| `FileProvider.Provider.GetSecret` | provider/aws_secrets_manager/file_provider.go:157-184 | Fetch, then transform if configured, then template if configured; an error when the fetch fails. |
| `FileProvider.Provider.GetVaultSecret` | provider/hashicorp_vault/file_provider.go:192-219 | The same behind reading the payload and extracting the field, whose errors end it. |
| `FileProvider.Provider.WriteFile` | provider/aws_secrets_manager/file_provider.go:186-195 | What the file holds after each way the write can end, any front of the secret when it fails part-way. |
| `FileProvider.Provider.Refresh` | provider/aws_secrets_manager/file_provider.go:139-151 | No error means the file holds the staged secret; a failed fetch leaves it untouched; every other failure leaves it untouched or with a front of the staged secret. |
| `FileProvider.StagedIff` | provider/aws_secrets_manager/file_provider.go:157-184 | What may be staged is exactly: the secret as it is or, with mappings and an object, transformed; then, with a template, the rendering of the template's lawful shape. |
| `TokenLifecycle.LeaseSleepIff` | provider/hashicorp_vault/client.go:66-73 | For a positive lease the sleep is four fifths of it, and under it, exactly up to 2305843009 seconds, where int64 overflows. |
| `TokenLifecycle.DefaultLeaseSleep` | provider/hashicorp_vault/client.go:66-73 | A lease of zero or less counts as five minutes. |
| `TokenLifecycle.ReLogin` | provider/hashicorp_vault/client.go:126-142 | Tries until a login succeeds; the attempts start at the instants the capped doubling gives, all but the last fail, and the total slept is the doubling's sum. |
| `TokenLifecycle.BackoffDoubles` | provider/hashicorp_vault/client.go:127-140 | Doubling with the cap goes from each sleep min(2^k, 60) to the next. |
| `TokenLifecycle.TotalSleepClosedForm` | provider/hashicorp_vault/client.go:127-140 | n failures sleep 2^n - 1 seconds for n up to six and 63 + 60 (n - 6) beyond. |
| `TokenLifecycle.RecoversWithinAMinute` | provider/hashicorp_vault/client.go:130-141 | If logins started from T on succeed and one takes at most a, the successful retry starts before T + a + 60 seconds. |
| `Lifecycle.RunSafe` | provider/hashicorp_vault/client.go:58-96 | In every run, with watchers starting, renewing and ending on their own, the API client sends the token of the latest login that gave one; at the head of the loop the variable is what the latest login returned and so the client's token; a watcher not yet stopped watches that very token and is the only one, and none is left at any login. |
| `Lifecycle.WatchedToItsEnd` | provider/hashicorp_vault/client.go:98-122 | In every run a watcher is stopped only after it has ended, so renewals keep the loop watching; every renewal is received at most once and none is invented. |
| `Lifecycle.LoginBecause` | provider/hashicorp_vault/client.go:58-96 | In every run, wherever the loop waits or logs in, it decided so when it last stood at its head: without auth info it logs in at once, with a token that cannot be renewed after the lease's sleep, when the watcher could not start after ten seconds, and otherwise only once the watcher of that very token has ended and been stopped. |
| `Lifecycle.AlwaysAuthenticated` | provider/hashicorp_vault/client.go:66-76 | With tokens that cannot be renewed, if every re-login, failed attempts and sleeps included, ends within a fifth of the lease (less the lag between a token's issue and the login's return), no instant lacks an unexpired token. |
| `Lifecycle.CoverageIff` | provider/hashicorp_vault/client.go:66-76 | All runs are covered exactly when re-login and lag together stay under a fifth of the shortest lease. |
| `Lifecycle.ExpiresWhileLoggingIn` | provider/hashicorp_vault/client.go:66-76 | At a fifth or more some run, with a failed attempt if there is a second for its sleep, is still logging in when the token expires. |
| `Lifecycle.ReLoginIsRun` | provider/hashicorp_vault/client.go:126-142 | Every way the re-login loop can go within the bound is a run of the machine from its first attempt to the token it returns. |
| `VaultCache.KeyInjectiveIff` | provider/hashicorp_vault/fetcher.go:20-24 | For every choice of which of `/`, `@` and `#` each of the four components may hold, the joined key tells the requests apart exactly when none of seven listed confusions is possible; so no slash in mounts, no at sign in paths and no hash in versions is enough. |
| `VaultCache.Fetcher.FetchSecret` | provider/hashicorp_vault/fetcher.go:26-49 | A hit returns the cached value and refreshes its recency; a miss reads and extracts, and stores the value only on success. |
| `VaultCache.ServedValueReturned` | provider/hashicorp_vault/fetcher.go:26-49 | After every interleaving of fetches and evictions a served value was returned by Vault for a request with the same key, and among requests that cannot be confused for that very request. |
| `VaultCache.FetchReturns` | provider/hashicorp_vault/fetcher.go:26-49 | After every history a fetch returns what Vault last returned for the key if that is among the `size` keys used last, and otherwise what Vault says now. |
| `VaultCache.StoredIsServed` | provider/hashicorp_vault/fetcher.go:46 | What was just stored is served next, whatever was held before. |
| `VaultCache.UnchangingVaultTransparent` | provider/hashicorp_vault/fetcher.go:26-49 | Over an unchanging Vault a fetch of requests that cannot be confused equals read-then-extract. |
| `VaultCache.CacheHoldsMostRecent` | provider/hashicorp_vault/provider.go:78 | The cache holds exactly the most recently used keys up to its size, latest first. |
| `VaultCache.SharedKeyServesOther` | provider/hashicorp_vault/fetcher.go:20-24 | With a slash in a mount, two requests for different places share a key and the second is served the first one's value. |
| `OAuthCache.KeyInjectiveIff` | provider/aws_sm_oauth/fetcher.go:84-91 | The underscore-joined key tells requests of a class apart exactly when at most one fixed component may hold an underscore. |
| `OAuthCache.Fetcher.FetchSecret` | provider/aws_sm_oauth/fetcher.go:23-39 | An unexpired entry is served and refreshed in recency; otherwise a newly issued token is returned and stored with its expiry, and a failure stores nothing. |
| `OAuthCache.ServedTokenIssued` | provider/aws_sm_oauth/fetcher.go:23-39 | After every interleaving of fetches and sweeps a served token was stored under the same key at most the TTL before; and for the same four identifiers, when at most one fixed component may hold an underscore. |
| `OAuthCache.ServedUntilExpiry` | provider/aws_sm_oauth/fetcher.go:23-39 | While a key is held, the token last stored under it is served exactly until its TTL has run out. |
| `OAuthCache.StoredTokenServed` | provider/aws_sm_oauth/fetcher.go:23-39 | A stored token is served until its TTL has run out, and not after, whatever is fetched and swept, while fewer than `size` other keys are used and none newer is stored. |
| `OAuthCache.SizeBounded` | provider/aws_sm_oauth/fetcher.go:37 | The cache never exceeds its size. |
| `OAuthCache.CacheByLastUse` | provider/aws_sm_oauth/fetcher.go:25-37 | Entries stand by last use, so what the size cuts off is the least recently used. |
| `Headers.SameNameIff` | server/rewrite_request.go:59-61 | Header names meet in the map exactly when they agree up to case. |
| `Headers.OperationsIgnoreCase` | server/rewrite_request.go:56-67 | In whatever case a name is written, what was set is got, what was deleted is gone, and other names are left alone. |
| `Rewrite.HeaderFromTemplate` | server/template.go:15-31 | Passes exactly the templates with one colon; the header is the trimmed name with the substituted trimmed value. |
| `Rewrite.HeaderOfMeans` | server/template.go:21-30 | Of `k:v` the header is k and the value v with the secret put in, both without outer blanks. |
| `Rewrite.GetRequestConfig` | server/rewrite_request.go:69-99 | Passes exactly when the three headers are present, otherwise one 400 naming all that are missing. |
| `Rewrite.GetRequestRewriteDetails` | server/rewrite_request.go:26-54 | Passes exactly the requests every stage accepts; otherwise exactly one 400 of the first stage that refuses. |
| `Rewrite.RefusedWith` | server/rewrite_request.go:26-54 | Which message a refused request gets, from its headers: the missing headers in order, else the destination, else the provider's name, else its configuration, else the secret, else the template. |
| `Rewrite.RewriteRequest` | server/rewrite_request.go:56-67 | Under every name, in any case: the templated header has its value, control and provider headers are gone, all others are as they came. |
| `Rewrite.ControlHeadersGone` | server/rewrite_request.go:58-64 | No control header survives, in any spelling, unless the template names it. |
| `Rewrite.ServeHttp` | server/proxy.go:23-37 | Exactly the requests with the three headers, an http(s) destination with a host, a known provider that gives a secret and a one-colon template are forwarded, to the destination the first header names, every outgoing header as said of the provider the second names; others get one 400 and nothing is forwarded. |

## Left out

- AWS, Azure, Vault, Kubernetes, OAuth and Postgres calls, JWT signing, TLS and logging: library behaviour, taken as arbitrary answers.
- Json.Decode: answers `OutOfScope` for the texts of `JsonObjects.OutOfScopeIff`; the unmarshaller is a parameter that may answer anything there, and such values are known by their printed and JSON texts.
- Invalid UTF-8: a string here is a sequence of characters, not of bytes, and a write that fails stops between two characters.
- Rds.TemplateIsDsnIff: speaks of strings without quotes, backslashes and control characters; the printer does not escape, so nothing is claimed of the others.
- Kv.PayloadTemplateIsFieldIff: the key has no dot, hash, newline or outer blank, since no placeholder can name such a key; of nested values only what `PayloadTemplate` says.
- TokenLifecycle.ReLogin: terminates because logins succeed from some instant on; the code would otherwise retry forever.
- Lifecycle.AlwaysAuthenticated: is about tokens that cannot be renewed; how Vault's watcher renews the others is library behaviour.
- A write that succeeds is one atomic system call after the truncation; the gap between the two, and a write that fails part-way, are modelled.
- Refreshes of one file by two processes, and two providers configured with the same path.
- JsonLaws.IntegerPrintsAsWritten: for integers a float64 holds exactly; of larger ones the code prints the rounded value.
- OAuthCache.ServedTokenIssued: counts the TTL from the instant the token is stored; size 0 (unlimited) and a TTL of 0 (ten years) of the library are not modelled.
- The TTL that the Vault provider parses: the code builds a cache without one.
- `provider/azure_key_vault`, `provider/file_json`, the RDS file protocol and its connectivity check: the same shapes again, or nothing to claim.
- `proxy_aws_secrets_manager`, whose fetcher always fails.
- The `Create*` validators and `parseVaultConfig`: flat type checks.
- The refresh endpoint and `main.go`: dispatch only.
- Hop-by-hop headers, URL joining and copying of the incoming headers in Go's reverse proxy.
