# Verified model of tcr's hard parts

tcr is a rotating proxy in front of the Claude and Codex APIs. This project models the parts of it
that are easy to get wrong and proves what they are for: rewriting request bodies byte by byte without
parsing them into a tree, sharing one credential file with a process that does not cooperate, keeping
durable maps right when account positions change, and a handful of real algorithms.

`dafny verify dfyconfig.toml` checks everything. There is one module per component.

| file | what it is |
|---|---|
| `Options.dfy`, `Sequences.dfy` | a value that may be absent, and facts about joining sequences |
| `JsonGrammar.dfy`, `JsonUnescape.dfy` | what is JSON, what an escape stands for and what is UTF-8, written down from RFC 8259 and RFC 3629 without the reader, and that the reader agrees |
| `Json.dfy`, `JsonTree.dfy`, `JsonUtf8.dfy`, `JsonPrint.dfy` | JSON text as concrete syntax trees with every byte kept, a reader proved sound and complete for them, the trees they mean (escapes decoded, the last of a repeated key wins), when a text and its tree are UTF-8, and a printer that is read back |
| `CacheTtl.dfy`, `CacheTtlMeaning.dfy`, `CacheTtlRewrite.dfy`, `CacheTtlReads.dfy`, `CacheTtlWalk.dfy` | the cache-TTL splicer of `src/cache_ttl.rs` against the tree walk it replaced |
| `AccountUuid.dfy`, `UuidLocator.dfy`, `UuidAgreement.dfy`, `UuidFields.dfy`, `UuidStray.dfy` | the streaming uuid locator of `src/account_uuid.rs` against the structural one |
| `UuidStrings.dfy`, `UuidPatch.dfy`, `UuidWritten.dfy`, `UuidControl.dfy` | the overwrite of the located uuid, when it happens, and when the body is still JSON |
| `TokenStore.dfy`, `TokenReads.dfy`, `TokenLinks.dfy`, `TokenCodec.dfy`, `NewerTokens.dfy` | publishing rotated Codex tokens under an advisory lock, what becomes of a symbolic link, and which pair may be adopted |
| `LeastSquares.dfy` | the Gauss-Jordan least-squares fit, in exact reals |
| `EditDistance.dfy` | the one-row edit distance and the typo suggestion |
| `Base64.dfy` | the 32-bit-accumulator base64 decoder |
| `Identity.dfy`, `Sorting.dfy`, `BoundTokens.dfy`, `Affinity.dfy` | identity resolution, and the two durable maps that are capped, sorted, renumbered, saved and restored against a reordered account list |
| `IdentityCache.dfy`, `IdentityCacheRuns.dfy`, `IdentityCacheHits.dfy` | the single-flight identity cache as a concurrent state machine, its whole runs, and the calls it answers |
| `ProcessFamily.dfy` | the process-tree worklist |
| `CacheFile.dfy`, `CacheFlush.dfy` | the dirty flag, the save gate and the flusher |
| `ConfigSet.dfy`, `ConfigDecimals.dfy`, `ConfigValues.dfy` | the typed setting writer, and end to end what each key accepts and what the document then says |

Bytes are modelled as a `string` with one `char` per byte. Concurrency is modelled as runs: sequences of
atomic steps in any order, with the theorems stated for every run.

## What the proofs found

- The superseded uuid machine does not leave a string whose closing quote ends the target, so after a
  `metadata.user_id` without the prefix it reads text outside strings as strings and the other way round.
  It agrees with the structural locator on documents where that cannot matter (`UuidAgreement.MachineAgrees`),
  and `UuidStray.MachineStrays` gives, for every such `user_id`, a document with unescaped, unrepeated keys
  where it does not.
- `patch_at` refuses a uuid with a quote or a backslash because it would corrupt the JSON. A 36-byte uuid with
  a control byte passes and makes the body malformed (`UuidControl.TabsBreakTheBody`); `UuidPatch.PatchedDocument`
  shows that this is the only way.
- A token pair can be adopted twice: over any number of files it comes back exactly when every issuance time
  in between is the same, neighbouring tokens differ and the timestamps advance (`NewerTokens.ReturnsIff`). The
  pair of issuance time and timestamp cannot come back.
- A publication still overwrites a Codex write that falls between its final read and its rename, as the source
  says of itself. The write is lost unless it is what is published or differs from what was read in nothing but
  the tokens and `last_refresh` (`TokenStore.GapWriteLostIff`), and every login can come to that
  (`TokenStore.EditIsLost`, with `TokenCodec.GapLosesAnEdit` for a run). Without such a write nothing is lost
  (`TokenStore.EditsSurvive`), and tokens Codex wrote are replaced only by a rotation of those very tokens
  (`TokenStore.OnlyItsOwnRotation`).
- `first_warning` is documented to be true once per bearer; after a yes it is true again exactly when a step
  since has taken the bearer's entry out of the cache (`IdentityCacheRuns.WarnedAgainIff`, and
  `IdentityCacheRuns.WarnedTwice` for a run).
- A symbolic link that is put in place between a writer's second check and its final read, with the bytes that
  writer read, is replaced (`TokenLinks.LateLinkReplacedIff`, and `TokenLinks.LateLinkIsReplaced` for a run from
  any login). No other link is, without a write in a gap (`TokenLinks.LinkStays`).
- A refusal does not hold back a call that still has an entry from before a clear: it fetches for the bearer
  while the refusal stands (`IdentityCacheRuns.OrphanFetches`). A call can come to fetch exactly when it is
  fetching already or holds such an entry that is not set (`IdentityCacheRuns.FetchesUnderRefusalIff`).
- After a failed flush of the bound tokens the flag is down, so the shutdown write, which the flusher's
  comment relies on, does not happen (`CacheFile.ShutdownLosesAfterFailure`); `CacheFile.ShutdownAfterRun` says
  after every run whether the map is on disk.
- Turning pacing off and on again loses the pacing fields that setting the cap alone keeps
  (`ConfigSet.LaterHidesEarlier`).

## Model

| member | source | states |
|---|---|---|
| `JsonText.ParseSound` | src/cache_ttl.rs:198-234 | the reader returns a well-formed syntax tree that renders to its input byte for byte, so spans into the text are exact |
| `JsonText.ParseComplete` | src/cache_ttl.rs:198-234 | every rendering of a well-formed tree, with any whitespace, is read back as that tree |
| `JsonText.PutIsRender` | src/cache_ttl.rs:500-505 | a value's text does not depend on what follows it and its length is the sum of its parts, so offsets are sums |
| `JsonGrammar.BareTokenIff` | src/cache_ttl.rs:198-234 | a bare token is `null`, `true`, `false`, or a minus, a whole part, a fraction and an exponent in the sense of section 6 of RFC 8259 |
| `JsonGrammar.StringBodyIff` | src/cache_ttl.rs:198-234 | a string body is a run of plain bytes, the eight short escapes and four-digit escapes |
| `JsonGrammar.ReadsExactlyJson` | src/cache_ttl.rs:198-234 | the reader accepts exactly the texts of the grammar of RFC 8259, which is stated over texts without the reader |
| `JsonUnescape.DecodeIff` | src/cache_ttl.rs:557-568 | a body denotes exactly the text it is decoded to, escape by escape, surrogate pairs and UTF-8 included, and none when it has a lone surrogate |
| `JsonUnescape.Utf8Iff` | src/codex_token_store.rs:44-44 | the UTF-8 check accepts exactly the concatenations of encoded code points |
| `JsonTree.FieldsKeys` | src/cache_ttl.rs:519-542 | a name is in an object's map exactly when some member's decoded key is that name |
| `JsonTree.DecodePlain` | src/cache_ttl.rs:557-568 | a key without a backslash decodes to itself and is always readable |
| `JsonTree.Utf8Concat` | src/cache_ttl.rs:198-234 | UTF-8 texts concatenate |
| `JsonTree.Utf8Cut` | src/cache_ttl.rs:198-234 | a UTF-8 text can be cut before any ASCII byte, so cutting at JSON punctuation keeps validity |
| `JsonUtf8.PutUtf8` | src/codex_token_store.rs:41-61 | a value's text is UTF-8 exactly when each of its strings and keys is |
| `JsonUtf8.DecodeUtf8` | src/codex_token_store.rs:41-61 | decoding the escapes of a UTF-8 string without lone surrogates gives UTF-8 |
| `JsonUtf8.TreeUtf8` | src/codex_token_store.rs:41-61 | every string and key of the tree a UTF-8 text means is UTF-8 |
| `JsonPrint.PrintReads` | src/codex_token_store.rs:299-300 | every tree a UTF-8 text can mean is printed as UTF-8 text that is read back as that tree |
| `JsonPrint.ReadIsPrintable` | src/codex_token_store.rs:44-45 | every tree that is read, from UTF-8 text only, can be printed |
| `CacheTtl.SpliceValue` | src/cache_ttl.rs:303-443 | applying the splices collected in a value, at its offset, turns its text into the text of the edited syntax tree |
| `CacheTtl.SpliceBreakpoint` | src/cache_ttl.rs:450-486 | the splice of a breakpoint replaces the last `ttl`, or inserts one after the last member, or into the empty object |
| `CacheTtlMeaning.EditedWellFormed` | src/cache_ttl.rs:303-443 | the edited syntax tree is well-formed JSON |
| `CacheTtlMeaning.EditedMeaning` | src/cache_ttl.rs:575-621 | the edited syntax tree means exactly what the tree walk makes of the meaning of the original |
| `CacheTtlMeaning.SpliceCount` | src/cache_ttl.rs:450-486 | there is one splice for each breakpoint whose last `ttl` is not `1h` |
| `CacheTtlMeaning.NoEdits` | src/cache_ttl.rs:575-621 | nothing is to be spliced exactly when the tree edit changes nothing |
| `CacheTtlMeaning.EditedIsDone` | src/cache_ttl.rs:198-234 | an edited tree has nothing left to edit |
| `CacheTtlRewrite.MatchesTreeWalk` | src/cache_ttl.rs:198-234 | for every body a full parse accepts, the rewrite answers exactly when the tree walk does, and its output is UTF-8 JSON that parses to the tree the tree walk answers |
| `CacheTtlRewrite.KeepsOtherBytes` | src/cache_ttl.rs:219-234 | the splices are in bounds and strictly apart, the output is the input outside them and its length is exact |
| `CacheTtlRewrite.RewriteTwice` | src/cache_ttl.rs:198-234 | rewriting a rewritten body returns nothing |
| `CacheTtlRewrite.SplicesApart` | src/cache_ttl.rs:219-234 | splices that rewrite a text are in bounds, in order and pairwise disjoint |
| `CacheTtlRewrite.RewriteLength` | src/cache_ttl.rs:219-234 | the output's length is the input's plus what each splice adds |
| `CacheTtlRewrite.RewriteUtf8` | src/cache_ttl.rs:198-234 | splicing a UTF-8 text leaves UTF-8 |
| `CacheTtlRewrite.RewriteUnique` | src/cache_ttl.rs:219-234 | a text and its splices determine the output |
| `CacheTtlReads.ContainsIff` | src/cache_ttl.rs:199-204 | the first check passes exactly when the searched text stands somewhere in the body |
| `CacheTtlReads.ReadableIff` | src/cache_ttl.rs:303-443 | the walk can read a value exactly when none of the strings it decodes, among them the keys it matches and strings in its lists, is half a surrogate pair |
| `CacheTtlReads.WalkedIff` | src/cache_ttl.rs:198-217 | the body gets to the splices exactly when it says `"cache_control"`, is UTF-8 and one JSON object, and all those strings can be read |
| `CacheTtlWalk.PickTtl` | src/cache_ttl.rs:507-542 | the scan returns the last member called `ttl` with its offset, or refuses an unreadable key |
| `CacheTtlWalk.ExtendCacheControl` | src/cache_ttl.rs:450-486 | the splices pushed for one `cache_control` value are the specified ones, with the insertion point found by trimming the text inside the braces |
| `CacheTtlWalk.WalkBlock` | src/cache_ttl.rs:390-443 | a block's splices are those of its last `cache_control`: an earlier occurrence's splices are dropped |
| `CacheTtlWalk.WalkBlocks` | src/cache_ttl.rs:347-378 | a list's splices are those of its elements in order, none for anything but an array |
| `CacheTtlWalk.WalkMessage` | src/cache_ttl.rs:390-443 | a message's splices are those of its last `content` |
| `CacheTtlWalk.WalkMessages` | src/cache_ttl.rs:347-378 | as for blocks, over messages |
| `CacheTtlWalk.WalkRoot` | src/cache_ttl.rs:303-335 | the splices of the last `system`, `tools` and `messages`, as a multiset the specification's, or a refusal of an unreadable key |
| `CacheTtlWalk.TrimmedInside` | src/cache_ttl.rs:466-486 | trimming the text between the braces ends exactly after the last member's value |
| `CacheTtlWalk.SortFinds` | src/cache_ttl.rs:219-234 | sorting the collected splices by start gives them in document order |
| `CacheTtlWalk.CopySpliced` | src/cache_ttl.rs:219-234 | copying between the sorted splices produces the specified output and never fails |
| `CacheTtlWalk.ExtendAllTtls` | src/cache_ttl.rs:198-234 | for every byte string the method returns exactly the specified rewrite |
| `UuidMachine.FirstAtSound` | src/account_uuid.rs:93-99 | what the window search returns is an occurrence |
| `UuidMachine.FirstAtComplete` | src/account_uuid.rs:93-99 | every occurrence is at or behind the one it returns |
| `UuidMachine.MatchIsFirst` | src/account_uuid.rs:293-306 | for any pattern whose first byte does not recur, the matcher that falls back to state 0 or 1 ends at the end of the first occurrence, from any state |
| `UuidMachine.PrefixIsFresh` | src/account_uuid.rs:293-306 | the prefix is such a pattern |
| `UuidMachine.Patcher.MatchNext` | src/account_uuid.rs:293-306 | one byte of the matcher, as a function of the state before |
| `UuidMachine.Patcher.ReadTarget` | src/account_uuid.rs:273-291 | one byte of the target string |
| `UuidMachine.Patcher.ReadStr` | src/account_uuid.rs:168-199 | one byte of any other string |
| `UuidMachine.Patcher.ReadPlain` | src/account_uuid.rs:201-267 | one byte outside strings |
| `UuidMachine.Patcher.Locate` | src/account_uuid.rs:152-160 | the scan returns what the machine's run over the whole body returns, stopping at the first match |
| `UuidLocator.RunBody` | src/account_uuid.rs:162-199 | over any string body the machine comes back between tokens, with a key taken over |
| `UuidLocator.RunValue` | src/account_uuid.rs:162-267 | over any JSON value that holds no target the machine's state is unchanged |
| `UuidAgreement.RunTarget` | src/account_uuid.rs:273-306 | over the target string it stops behind the first occurrence of the prefix, or is left inside a string that is over |
| `UuidAgreement.MachineFindsPrefix` | src/account_uuid.rs:152-306 | on every byte string, an offset the machine returns is just behind an occurrence of the prefix |
| `UuidAgreement.MachineAgrees` | src/account_uuid.rs:73-99 | on every rendered document with unescaped, unrepeated keys the machine returns the structural locator's offset, when `user_id` is absent, a scalar, a string with the prefix or one with no prefix behind it, or a container without it |
| `UuidAgreement.ContainerAgrees` | src/account_uuid.rs:73-99 | when `user_id` is no string the two agree exactly when its text does not hold the prefix |
| `UuidAgreement.StrOccurrence` | src/account_uuid.rs:93-99 | the quotes around a string take part in no occurrence of the prefix |
| `UuidFields.FieldIff` | src/account_uuid.rs:45-75 | a field is read exactly when one key of the object is the name and all its keys can be read, and is then the value beside that key |
| `UuidStray.MachineStrays` | src/account_uuid.rs:281-287 | for every string without the prefix there is a regular document with it as `user_id` in which the structural locator finds nothing and the machine returns an offset in another string |
| `UuidWritten.PatchIff` | src/account_uuid.rs:328-370 | the body is changed exactly when uuid and window are 36 bytes without quote and backslash, an escaped quote closes the window, and they differ; it is then the body with the window replaced |
| `UuidWritten.UuidIsWritten` | src/account_uuid.rs:310-370 | every document whose `user_id` holds the prefix, 36 such bytes and the escaped quote is passed on with the configured uuid there and nothing else changed |
| `UuidPatch.PatchKeepsOutside` | src/account_uuid.rs:328-370 | same length, every byte outside the 36-byte window kept, the uuid in the window, and a copy only for a real change |
| `UuidPatch.PatchTwice` | src/account_uuid.rs:328-370 | patching again with the same uuid changes nothing |
| `UuidPatch.LastPatchWins` | src/account_uuid.rs:328-370 | the last writable uuid makes an earlier one irrelevant; an unwritable one leaves it |
| `UuidPatch.PatchedDocument` | src/account_uuid.rs:321-370 | for every JSON body and whatever `user_id` is, a patched body is JSON exactly when the uuid has no control byte; it is then the same document with only `metadata.user_id` replaced, and the offset located in it is the same |
| `UuidPatch.Repatch` | src/account_uuid.rs:321-370 | for every body, patching a patched body, with the offset looked up again, is patching once with the last writable uuid, unless a control byte broke the body |
| `UuidStrings.FindString` | src/account_uuid.rs:73-99 | every backslash of a JSON value is inside one of its strings, key or value; any other string there gives a value, and text that does not close there gives none |
| `UuidControl.TabsBreakTheBody` | src/account_uuid.rs:328-370 | a concrete body and a uuid of 36 tabs that passes every check and leaves no JSON |
| `TokenStore.UpdateKeeps` | src/codex_token_store.rs:277-299 | the published document keeps every field but the three tokens and `last_refresh` |
| `TokenStore.UpdateWrites` | src/codex_token_store.rs:277-299 | it holds the new tokens and time, and the old id token when there is no new one |
| `TokenStore.RunKeeps` | src/codex_token_store.rs:237-343 | in every reachable state the lock holder is the one active writer, its notes are faithful to what it read, and an undisturbed final read still describes the file |
| `TokenStore.PublishReplacesWhatWasRead` | src/codex_token_store.rs:309-338 | in every run, a publication undisturbed since its final read replaces exactly the bytes that were read by that document with the new tokens |
| `TokenStore.WritersExclude` | src/codex_token_store.rs:243-254 | at most one writer is between its lock and its return |
| `TokenStore.NoLeftovers` | src/codex_token_store.rs:181-206 | a writer that returned leaves no live credentials in a temporary file |
| `TokenStore.EditsSurvive` | src/codex_token_store.rs:237-343 | in every interleaving with no external write in a gap, the file is the last external write or that document but for the tokens and `last_refresh` |
| `TokenStore.OnlyItsOwnRotation` | src/codex_token_store.rs:237-343 | in every such interleaving the file is still what the last external write left, or a writer given the digest of that write's refresh token has published since |
| `TokenStore.GapWriteIsLost` | src/codex_token_store.rs:302-338 | after a write in the gap and the rename the file is the document edited from what was read, whatever was written |
| `TokenStore.GapWriteLostIff` | src/codex_token_store.rs:302-338 | in every reachable gap, the file then carries the external write exactly when that is what was published, or a document differing from what was read in nothing but the tokens and `last_refresh` |
| `TokenStore.AloneReachesGap` | src/codex_token_store.rs:237-338 | a writer left alone with a login that holds its source token reaches the gap |
| `TokenStore.EditIsLost` | src/codex_token_store.rs:302-338 | from any such login, a run from the start in which any edit of another field is lost |
| `TokenCodec.GapLosesAnEdit` | src/codex_token_store.rs:302-338 | a concrete login, request and edit for which that run loses the edit |
| `TokenStore.SourceSpentOnce` | src/codex_token_store.rs:255-265 | of all writers given one source digest at most one returns true, unless the token is issued again or put back |
| `TokenStore.SupersededMeansRotated` | src/codex_token_store.rs:255-325 | `Ok(false)` is returned only at a step that finds another refresh token in the file, and leaves the file alone |
| `TokenStore.ConflictIsRetryable` | src/codex_token_store.rs:315-336 | a changed file without a rotated token, and nothing else, is reported as one to retry; the file is left alone |
| `TokenStore.AloneSucceeds` | src/codex_token_store.rs:237-343 | a writer left alone with a login that holds its source token publishes |
| `TokenStore.RetryKeepsEdit` | src/codex_token_store.rs:315-343 | after a metadata edit made one writer give up, the next publishes and keeps the edit |
| `TokenReads.LoginIff` | src/codex_login.rs:227-254 | a login is an object in ChatGPT mode or in none, whose `tokens` hold an access and a refresh token, neither empty, with id token and account id texts where they are there |
| `TokenReads.FirstReadIff` | src/codex_token_store.rs:262-265 | the first read fails exactly when it finds no login, gives up exactly on a login with another refresh token, and else goes on with what it read |
| `TokenReads.PublishesTheTemporary` | src/codex_token_store.rs:181-338 | in every run, what a publication puts in place is the temporary file, which is then gone |
| `TokenReads.FailClears` | src/codex_token_store.rs:181-206 | a writer that fails removes its temporary or leaves it empty, and lets go of the lock |
| `TokenLinks.LinkIsRefused` | src/codex_token_store.rs:256-317 | both checks refuse what is not a regular file, leave it alone and release the lock; they refuse nothing else |
| `TokenLinks.AloneOverLink` | src/codex_token_store.rs:256-261 | a writer left alone with a link or no file fails and leaves it as it is |
| `TokenLinks.LinkStays` | src/codex_token_store.rs:237-343 | in every run without a write in a gap and without a late link, a link or a missing file stays until somebody else replaces it |
| `TokenLinks.MissingStays` | src/codex_token_store.rs:237-343 | in every run without a write in a gap a login that somebody removed is not put back |
| `TokenLinks.LateLinkReplacedIff` | src/codex_token_store.rs:311-338 | of the links that come after the second check exactly those with the bytes read first are replaced |
| `TokenLinks.LateLinkIsReplaced` | src/codex_token_store.rs:311-338 | from any login with the source token, a run in which one is |
| `TokenCodec.JsonCodecIsLawful` | src/codex_token_store.rs:41-61 | what the token store takes for granted of its JSON reader and printer holds of this project's own, whose reader refuses text that is not UTF-8, for any requests in UTF-8 |
| `NewerTokens.NewerIff` | src/codex_token_store.rs:98-163 | for every login, baseline and rejection: a pair is adopted exactly when it is the same workspace and user, not FedRAMP, both tokens are new, no claim names another workspace, and it is fresher; what is adopted is the file's pair with its id token and expiry |
| `NewerTokens.IssuanceNeverDecreases` | src/codex_token_store.rs:98-163 | along any chain of adoptions with readable issuance times, rejections or not, issuance never goes back |
| `NewerTokens.OrdinaryIncreases` | src/codex_token_store.rs:98-163 | without rejections and with each baseline the previous file's timestamp, (issued at, last refresh) strictly increases |
| `NewerTokens.NothingTwice` | src/codex_token_store.rs:98-163 | so no file is adopted twice, and a token pair returns only under a later timestamp with all issuance times between equal |
| `NewerTokens.ChainIff` | src/codex_token_store.rs:98-163 | files of one workspace with readable issuance times are adopted one after another exactly when each has other tokens than the one before and a later timestamp with no earlier issuance, or a later issuance over a file without a timestamp |
| `NewerTokens.ReturnsIff` | src/codex_token_store.rs:98-163 | a token pair comes back over any number of files exactly when all were issued at the same time, neighbours have other tokens and the timestamps advance |
| `NewerTokens.PairCanReturn` | src/codex_token_store.rs:98-163 | any two logins of a workspace with other tokens and the same issuance time return exactly when the three timestamps advance |
| `NewerTokens.PairReturns` | src/codex_token_store.rs:98-163 | three concrete files in which a token pair returns |
| `NewerTokens.RejectionCanRepeatStamp` | src/codex_token_store.rs:111-131 | after a rejection an equal timestamp is adopted, so the strict order needs its premise |
| `LeastSquares.AddRow` | scripts/fit-quota-weights.py:111-115 | one row adds its products to the Gram matrix and the moments |
| `LeastSquares.BuildNormal` | scripts/fit-quota-weights.py:108-117 | the augmented matrix is the Gram matrix and the moments over the paired rows |
| `LeastSquares.FindPivot` | scripts/fit-quota-weights.py:119-119 | the first row of largest absolute value in the column |
| `LeastSquares.AbsMeans` | scripts/fit-quota-weights.py:119-120 | the magnitude pivots are compared by is the distance from zero |
| `LeastSquares.PivotStep` | scripts/fit-quota-weights.py:122-128 | swap, scale and eliminate keep the solutions and make one more column a unit vector |
| `LeastSquares.Eliminate` | scripts/fit-quota-weights.py:125-128 | clearing a column keeps the solutions and the finished columns |
| `LeastSquares.SwapKeeps` | scripts/fit-quota-weights.py:122-122 | swapping rows keeps the solutions |
| `LeastSquares.DivideKeeps` | scripts/fit-quota-weights.py:123-124 | dividing a row by a nonzero number keeps the solutions |
| `LeastSquares.ReduceKeeps` | scripts/fit-quota-weights.py:125-128 | subtracting a multiple of another row keeps the solutions |
| `LeastSquares.SolveNormalEquations` | scripts/fit-quota-weights.py:107-129 | the returned weights solve the normal equations, nothing else does, and every other weight vector has a strictly larger sum of squared residuals, for any number of rows; nothing is returned only when a row-equivalent reduced system has a column with every pivot below 1e-18 |
| `LeastSquares.NormalIsLeast` | scripts/fit-quota-weights.py:107-129 | any solution of the normal equations minimises the sum of squared residuals |
| `LeastSquares.EquallyGoodSolves` | scripts/fit-quota-weights.py:107-129 | any weights as good solve the normal equations too |
| `LeastSquares.UniqueMeansRegular` | scripts/fit-quota-weights.py:120-121 | a singular system is never given an answer |
| `LeastSquares.ZeroPivotsMeanSingular` | scripts/fit-quota-weights.py:120-121 | a column with no pivot at all means a singular system |
| `EditDistance.Compute` | src/config_keys.rs:183-198 | the one-row loop computes the recursive edit distance |
| `EditDistance.ScriptBound` | src/config_keys.rs:183-198 | no edit script that turns one string into the other costs less |
| `EditDistance.BestScript` | src/config_keys.rs:183-198 | some edit script costs exactly that |
| `EditDistance.Symmetric` | src/config_keys.rs:183-198 | the distance is symmetric |
| `EditDistance.ZeroIsEqual` | src/config_keys.rs:183-198 | it is zero exactly on equal strings |
| `EditDistance.Triangle` | src/config_keys.rs:183-198 | it satisfies the triangle inequality |
| `EditDistance.NearestIsFirstClosest` | src/config_keys.rs:144-158 | the suggestion is the first closest key among those within their own tolerance, and there is none exactly when no key is |
| `Base64.Decode` | src/codex_oauth.rs:301-326 | the loop returns the specified decoding for every input: bits lost from the 32-bit accumulator never matter |
| `Base64.NextByte` | src/codex_oauth.rs:306-325 | one more symbol writes the byte its group of four defines, whatever the accumulator's high bits are |
| `Base64.RoundTrip` | src/codex_oauth.rs:289-326 | for every byte string and both alphabets, its encoding decodes to it with and without padding |
| `Base64.DecodedLength` | src/codex_oauth.rs:301-326 | an accepted text of n unpadded symbols yields exactly floor(6n/8) bytes |
| `Base64.SymbolIs` | src/codex_oauth.rs:289-312 | the symbols are the capitals, the small letters, the figures and the alphabet's own two, in that order |
| `Base64.DigitIff` | src/codex_oauth.rs:306-313 | a character is read as a digit exactly when it is that digit's symbol, so any other is refused |
| `Base64.PaddingFills` | src/codex_oauth.rs:301-302 | padding fills a text up to a multiple of four |
| `Base64.BothAlphabets` | src/codex_oauth.rs:289-298 | in both alphabets the 64 symbols are distinct, none is the padding, and each is read as its digit |
| `Identity.SameIdentityIff` | src/identity.rs:60-138 | the two comparisons field by field: same provider, same uuid and no known difference of organization, else the name; strictly, a uuid on both sides and the same organization or none |
| `Identity.ResolvesWithinProvider` | src/identity.rs:158-178 | whoever an identity resolves to is of its provider, and of its uuid where both have one, else of its name |
| `Identity.UnresolvedIff` | src/identity.rs:158-178 | nobody exactly when nothing matches, a tie exactly when several records match and not exactly one of them strictly |
| `Identity.ResolveScan` | src/identity.rs:158-178 | the scan computes the resolution |
| `Identity.ResolveMeans` | src/identity.rs:158-178 | a record resolves exactly when it is the only loose match or the only strict one; nobody does exactly when nothing matches |
| `Identity.OwnIdentity` | src/identity.rs:84-178 | a record's own identity resolves to that record or is refused, never to another |
| `Identity.ResolveMoves` | src/identity.rs:158-178 | resolving follows a record through any reordering |
| `Identity.OwnIdentityMoves` | src/identity.rs:158-178 | after any reordering a record's identity names its new position or is refused |
| `Identity.SaturatesToNearest` | src/affinity.rs:333-346 | the saturating difference is the difference, or the end of the 64-bit range nearest to it |
| `Sorting.SortSorts` | src/bound_tokens.rs:328-332 | the library sort sorts |
| `Sorting.SortPermutes` | src/bound_tokens.rs:328-332 | and keeps the elements |
| `Sorting.SortRelated` | src/bound_tokens.rs:328-332 | being stable, it keeps related sequences related |
| `BoundTokens.Snapshot.AccountSlot` | src/bound_tokens.rs:251-257 | the slot names the account, equal identities share one, and the records held do not change |
| `BoundTokens.Snapshot.Push` | src/bound_tokens.rs:260-267 | exactly one record is added, under the account at the slot |
| `BoundTokens.SlotFor` | src/bound_tokens.rs:334-354 | a token's slot goes to its account's position in the new table, which grows on first use |
| `BoundTokens.Renumber` | src/bound_tokens.rs:334-359 | renumbering in place gives what looking every identity up in the table gives |
| `BoundTokens.Prepare` | src/bound_tokens.rs:322-360 | a snapshot built through its methods never fails and equals the record-copying reference; only a token naming a missing slot is refused |
| `BoundTokens.ReferKeepsIdentity` | src/bound_tokens.rs:464-497 | every kept token is in the file under its own account, and the table lists no account twice |
| `BoundTokens.FirstUseOrder` | src/bound_tokens.rs:464-497 | the table is in the order of first use |
| `BoundTokens.BuildOrderDoesNotMatter` | src/bound_tokens.rs:270-278 | with distinct hashes and no tie at the cap, the file does not depend on the order the snapshot was built in |
| `BoundTokens.Load` | src/bound_tokens.rs:366-403 | the load computes the specified report |
| `BoundTokens.KeptIsNewest` | src/bound_tokens.rs:322-333 | a flush keeps the newest tokens, no more than 65536, each once, by increasing hash |
| `BoundTokens.LexByFirstDifference` | src/bound_tokens.rs:328-332 | hashes are ordered by the first byte that differs, and a beginning comes before the whole |
| `BoundTokens.LoadTallies` | src/bound_tokens.rs:382-403 | each counter is the number of tokens too old, of an unlisted or unmatched account, or of a tied one |
| `BoundTokens.LoadCounts` | src/bound_tokens.rs:382-403 | every token is counted once as restored, expired, unresolved or ambiguous |
| `BoundTokens.LoadRestores` | src/bound_tokens.rs:382-403 | a token is restored with what its identity resolves to, or not at all |
| `BoundTokens.RoundTrip` | src/bound_tokens.rs:278-403 | saved and loaded against a reordering of the accounts, a fresh kept token of a live account is restored at that account's new position or refused, never at another |
| `Affinity.WrittenIsFreshest` | src/affinity.rs:213-223 | a save writes at most the cap, the freshest, each once, in key order |
| `Affinity.Load` | src/affinity.rs:321-363 | the load computes the specified report; its cap break skips nothing of any file no longer than the cap |
| `Affinity.LoadTallies` | src/affinity.rs:333-362 | each counter is the number of pins that are too old, with 55 minutes for the wider window, match no account, or match several |
| `Affinity.LoadCounts` | src/affinity.rs:333-362 | every pin is counted once as restored, expired, unresolved or ambiguous |
| `Affinity.LoadRestores` | src/affinity.rs:333-362 | a pin is restored with what its identity resolves to, with its extended window, or not at all |
| `Affinity.RoundTrip` | src/affinity.rs:266-363 | saved and loaded against any reordering, a fresh kept pin comes back at its own account's new position or is refused as ambiguous |
| `Affinity.RenamePins` | src/affinity.rs:291-312 | only the names change, each by the first rename that applies, and the count is exact |
| `Affinity.FirstRenameApplies` | src/affinity.rs:301-305 | the new name is that of the first rename from the old one, and a name with none stays |
| `Affinity.RenameKeepsResolve` | src/affinity.rs:277-312 | a pin carried across a rename that keeps names apart resolves to the account it resolved to |
| `IdentityCache.RunKeeps` | src/control_identity.rs:170-228 | in every run: the map is keyed and bounded, a permit is out exactly to the one call fetching for the entry, and a set identity was fetched for its key |
| `IdentityCache.BoundedAndSingleFlight` | src/control_identity.rs:170-180 | in every run the cache holds at most 256 entries and each entry has at most one fetch in flight |
| `IdentityCache.ReturnedWasFetched` | src/control_identity.rs:193-228 | every identity a call returned was fetched for the hash of its bearer |
| `IdentityCacheHits.ProfileIsReturned` | src/control_identity.rs:193-228 | a profile with an email or a uuid is returned by the call that fetched it and sets its entry |
| `IdentityCacheHits.RefusalIsRemembered` | src/control_identity.rs:213-216 | a refusal sets the entry for 60 seconds and returns nothing |
| `IdentityCacheHits.HolderGetsIdentity` | src/control_identity.rs:193-228 | through any run a call that holds a set entry fetches nothing, and once it has entered it has returned the identity |
| `IdentityCacheHits.ReturnedStays` | src/control_identity.rs:193-228 | what a call has returned does not change through any run |
| `IdentityCacheHits.ClearsIff` | src/control_identity.rs:170-180 | an identity leaves the map exactly at a clear: another bearer, not in it, comes to a map of 256 |
| `IdentityCacheHits.IdentityStays` | src/control_identity.rs:170-180 | an identity stays in the map through every run without a clear |
| `IdentityCacheHits.FetchedOnce` | src/control_identity.rs:193-228 | so one fetch serves every later call of the bearer: through any run without a clear a call that has not started returns that profile without a fetch |
| `IdentityCache.SetOnce` | src/control_identity.rs:193-228 | through any run a set entry never changes |
| `IdentityCache.TransientIsForgotten` | src/control_identity.rs:203-222 | a transient failure or a blank profile leaves the entry unset with its permit back, and the next call fetches |
| `IdentityCache.RefusalSuppresses` | src/control_identity.rs:145-180 | through any run before its end and without a clear, a refusal stays and nobody fetches on its entry |
| `IdentityCache.LiftsIff` | src/control_identity.rs:145-180 | a refusal leaves the map exactly when its bearer is looked up at or after its end, or at a clear |
| `IdentityCacheRuns.BearerIsSuppressed` | src/control_identity.rs:145-228 | through any such run, with everything interleaved, no call of the bearer that starts in that time or holds the refused entry fetches: it returns nothing or has yet to return |
| `IdentityCacheRuns.FetchesUnderRefusalIff` | src/control_identity.rs:145-228 | under a standing refusal some run without a clear brings a call of the bearer to fetch exactly when it is fetching already or holds an entry that is not set |
| `IdentityCacheRuns.OrphanFetches` | src/control_identity.rs:170-228 | a run in which a call with an entry from before a clear fetches for the bearer while its refusal stands |
| `IdentityCache.SuppressedCall` | src/control_identity.rs:193-228 | a call in that time gets the remembered refusal without a fetch |
| `IdentityCache.RefusalEnds` | src/control_identity.rs:145-180 | once it is over the bearer is asked about again, on a new entry |
| `IdentityCache.WarnIff` | src/control_identity.rs:232-235 | the first-warning answer is yes exactly when there is no live entry that was warned about |
| `IdentityCache.WarnsAgainAfterClear` | src/control_identity.rs:230-235 | once another bearer has cleared a full cache the answer is yes |
| `IdentityCacheRuns.WarnedAgainIff` | src/control_identity.rs:230-235 | after a yes, through any run, the next answer for the bearer is yes exactly when a step of the run or the asking itself takes its entry out: a lookup past the end of its refusal, or a clear |
| `IdentityCacheRuns.WarnMarks` | src/control_identity.rs:232-235 | asking leaves the bearer's entry marked |
| `IdentityCacheRuns.WarnedTwice` | src/control_identity.rs:230-235 | a run in which one bearer gets two yeses |
| `ProcessFamily.FamilyOf` | src/codex_cli_login.rs:638-663 | for any finite table, cyclic or not: without duplicates exactly the root and its descendants, or nothing when the root's identity no longer matches |
| `ProcessFamily.AddChildren` | src/codex_cli_login.rs:649-660 | one step of the worklist adds exactly the missing children |
| `ProcessFamily.NoMoreThanTable` | src/codex_cli_login.rs:638-663 | a family without duplicates is no longer than the table, so the worklist ends |
| `ProcessFamily.Complete` | src/codex_cli_login.rs:638-663 | a set of descendants closed under children is all of them |
| `CacheFile.SavedFile.Mark` | src/cache_file.rs:57-60 | the flag is up and a wake-up stored |
| `CacheFile.SavedFile.Take` | src/cache_file.rs:68-70 | the flag is returned and down |
| `CacheFile.SavedFile.Save` | src/cache_file.rs:80-89 | a successful write is recorded and a failed one is not |
| `CacheFile.SavedFile.SaveIfChanged` | src/cache_file.rs:93-106 | afterwards the content is on disk, or content of the same shape is there and young, or the write failed and nothing was recorded |
| `CacheFlush.GateIff` | src/save_gate.rs:93-107 | a save writes exactly when nothing was written yet, or the content is another and either its shape is too or the refresh period is over |
| `CacheFlush.OneLook` | src/server.rs:865-887 | one wake-up, one look: whatever came before, the flusher then waits with the flag down, no wake-up left, and the gate's retry time |
| `CacheFlush.QuietUntilDue` | src/server.rs:865-887 | without traffic the flusher does nothing before its retry time, and nothing ever without one |
| `CacheFlush.IdleWritesNothing` | src/server.rs:796-887 | a process in which nothing changes writes nothing, its shutdown included |
| `CacheFlush.DeferredReachesDisk` | src/server.rs:853-887 | in every run a deferred change is on disk once the refresh period since the last write is over, with no further change |
| `CacheFile.FailedIsRetried` | src/save_gate.rs:93-107 | the gate never skips later what it did not skip before, until something is written |
| `CacheFile.NoChangeStranded` | src/server.rs:865-887 | in every run from any start a raised flag has a stored wake-up, a marker about to notify or the flusher about to take, and an unseen change has its flag up, a marker about to raise it or the flusher about to look |
| `CacheFile.FlusherLooks` | src/server.rs:865-887 | once markers are done the flusher alone looks at whatever changed |
| `CacheFile.FailedLookIsRetried` | src/cache_file.rs:93-106 | after a failed write, through any run in which no write succeeds, every later look at the same content writes it |
| `CacheFile.ShutdownSavesIff` | src/server.rs:796-808 | whether the flusher is stopped waiting or in its delay, before its first look or after, the final write leaves the map on disk exactly when something changed since the last look, or there was a look and it did not fail, or nothing was written yet and the file found at the start holds the map |
| `CacheFile.ShutdownAfterRun` | src/server.rs:796-808 | for the bound tokens that is so after every run from every start |
| `CacheFile.ShutdownLosesAfterFailure` | src/server.rs:796-808 | a run in which a failed flush is followed by a shutdown that writes nothing |
| `ConfigSet.FromNameComplete` | src/config_set.rs:95-97 | every key is found by its own name |
| `ConfigValues.NamesAre` | src/config_set.rs:76-97 | exactly the eleven names are keys |
| `ConfigValues.TrimCuts` | src/config_set.rs:177-177 | trimming takes whitespace off both ends, and all of it |
| `ConfigValues.ReadNatIff` | src/config_set.rs:191-219 | a number is read exactly when it is decimal, with leading zeros and a plus sign where they please, and fits |
| `ConfigValues.PairIff` | src/config_set.rs:350-353 | two words are two texts without whitespace and whitespace between them |
| `ConfigValues.SwitchIsSet` | src/config_set.rs:202-291 | a switch takes on, true, off or false, and the document then says `true` or `false` |
| `ConfigValues.CountIsSet` | src/config_set.rs:196-291 | a count takes a number of 32 bits, which the document then says |
| `ConfigValues.ThrottleIsSet` | src/config_set.rs:205-363 | a throttle takes `off`, which leaves an empty object, or two numbers of at least one, which go under `minSpacingMs` and `burst` |
| `ConfigValues.PacingIsSet` | src/config_set.rs:209-311 | pacing takes `off`, which removes the key, or a cap of at least one, which goes into the object that is there |
| `ConfigValues.ShareIsSet` | src/config_set.rs:183-341 | the threshold takes a share above 0 and at most 1, the reserve one from 0 to a half |
| `ConfigValues.FableIsSet` | src/config_set.rs:189-341 | the override takes `default`, which removes it, or a share |
| `ConfigSet.SettingRoundTrip` | src/config_set.rs:168-258 | every setting the parser accepts belongs to its key and is recovered by parsing the words it is said back in |
| `ConfigSet.EveryValueCanBeSet` | src/config_set.rs:168-258 | every value in range whose share can be said back can be set |
| `ConfigDecimals.DecimalsAreLawful` | src/config_set.rs:321-335 | exact decimal fractions, with and without a percent sign, are a spelling of shares that is always read back |
| `ConfigSet.ParsedIsInRange` | src/config_set.rs:168-222 | nothing out of range is accepted |
| `ConfigSet.NatRoundTrip` | src/config_set.rs:240-258 | whole numbers are read back from their decimal digits |
| `ConfigSet.ThrottleRoundTrip` | src/config_set.rs:346-363 | a throttle is read back from its two words |
| `ConfigSet.ApplyOnlyItsKey` | src/config_set.rs:281-319 | only the setting's own key is touched, and how |
| `ConfigSet.ApplyTwice` | src/config_set.rs:281-319 | applying a setting twice is applying it once |
| `ConfigSet.ApplyCommutes` | src/config_set.rs:281-319 | settings of different keys commute |
| `ConfigSet.PacingKeepsSiblings` | src/config_set.rs:299-311 | the pacing cap leaves every other pacing field as it is |
| `ConfigSet.LaterHidesEarlier` | src/config_set.rs:281-319 | of two settings of one key the later hides the earlier, except exactly pacing turned off and on over other pacing fields |
| `ConfigSet.ConfigFile.SaveSetting` | src/config_set.rs:375-384 | the document becomes the edited one, nothing is written exactly when that changes nothing, and saving again would change nothing |

## Left out

- HTTP, the terminal, process spawning, signals and the stop sequence of `src/codex_cli_login.rs`: input and output with nothing to prove.
- serde's visitor machinery: its visible results are modelled (borrowed spans, decoded key matching, the last value wins, repeated fields of a derived struct refused). Derived structs that accept an array in place of an object are not.
- CacheTtlRewrite.MatchesTreeWalk: bodies a full parse refuses and a skipping one does not are excluded, as the source documents.
- CacheTtlWalk.ExtendAllTtls: numbers out of the range of a float and the nesting limit are not modelled.
- UuidAgreement.MachineAgrees: for a string `user_id` without the prefix it is stated one way only, when no prefix follows it; what the machine does on such a document otherwise depends on all the text behind it. Arrays in place of `metadata` are excluded, and that keys and raw values are UTF-8 is taken for granted.
- TokenStore.NoLeftovers: emptying the temporary always succeeds here; in the source it can fail, which is logged and leaves the bytes (src/codex_token_store.rs:187-206).
- TokenStore.EditsSurvive: takes for granted that what the run's own requests publish is read back, which `TokenCodec.JsonCodecIsLawful` shows of this project's reader and printer for requests in UTF-8, and that digests do not collide; repeated fields in `auth.json` and durability against power loss are not modelled.
- NewerTokens.IssuanceNeverDecreases: what a token's claims say is a parameter; decoding a JWT is not modelled beyond base64.
- LeastSquares.SolveNormalEquations: exact reals; floating-point rounding is not modelled. Collecting the intervals and reading the logs is left out as easy.
- EditDistance.NearestIsFirstClosest: lower-casing is a parameter; the key table and the report of unknown keys would only add easy members.
- BoundTokens.BuildOrderDoesNotMatter: token hashes are given; SHA-256 is not modelled. Reading and writing the files, and their format version, is left out.
- IdentityCache.ReturnedWasFetched: entries are keyed by the hash of the bearer, which is taken as given; comparing an identity with the control account (`verdict`) is a decision table and left out.
- CacheFile.NoChangeStranded: the steps are atomic and content hashes do not collide; relaxed memory ordering is not modelled.
- ConfigSet.SettingRoundTrip: how a share is read, spelled and divided by a hundred are parameters with the law that whatever is read is said back; that law is shown of exact decimals, not of floating point. A share's number in the document is spelled as its value is said. Only ASCII whitespace is trimmed.
- Account selection, quota, throttling, peers and the login flows: not part of this model.
