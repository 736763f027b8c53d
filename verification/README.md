# Verification model of packages-go

A Dafny model of the parts of packages-go whose correctness is hardest to see from the code:
protocols that run against other actors, printers that must be undone exactly, and the
bookkeeping between them. Each source file with state has a class or an imperative method of
the same shape, proved against a specification function or predicate; what the code and its
documentation promise is proved about that specification, for all inputs, all runs and all
interleavings.

`dafny verify dfyconfig.toml` checks everything.

| module | what it models |
|---|---|
| Decimal, Text, Sequences, Ordering, Utf8, Environment | integers as text, `strings` functions, filters, Go's string order and the insertion sort of `github/types.go`, choices of the environment |
| Json, CanonicalJson | JSON text with a full parser (sections 2 to 8 of RFC 8259), and the canonical printer of `foundryoperator` |
| Base64Url, OperatorProof | nonces, the proof record and `Sign` of `foundryoperator` |
| PermissionKey, TokenMinter | the cache key and the interleaved mints of `github` |
| Migrations, MigrationOrder | any number of concurrent runners over one ledger (`pg`), and when they keep version order |
| Multipart | chunking, retry and the complete/abort lifecycle of `s3/multipart.go` |
| Escaping, ObjectUrl, Query, Signing | SigV4 encoding, object paths, canonical query and canonical request of `s3/s3.go` |
| GitReplies, GitRefs, WorktreeList, Repository, PrCompletion, Undisturbed | the pull request cleanup protocol in a git repository that others change, and without disturbance |
| ManifestJson, Packaging, ArtifactDisk, Sealing | sealing and verifying signed artifact directories, on disks with links |
| Email | the raw message, the recipient classes and the outcome of a submission |
| DeployDisk, Deploy | the symlink deployment script on its disk |
| Jwks | the signing-key cache |

## How to read it

Other actors, networks, clocks and file systems are nondeterministic: `Environment.Any` stands
for whatever they answer. Concurrent code is a state machine over its atomic steps (`Step`,
`Run`), and the methods of the classes are proved to take only such steps, with the steps of
the others allowed at every unlocked point; so a lemma about every run is a fact about every
call. Methods that talk to a server, a repository or a disk keep a ghost log, and their
contracts speak of the whole log. A Go or JavaScript string is a sequence of Unicode scalar
values, except in the modules Escaping, ObjectUrl and Query, where a character below 256 is a byte.

Where the code does less than one might expect, the model says so, names the input and proves the
exact condition:

- `Multipart.PutMultipart`, `Multipart.GuardExactly`: next to the 64-bit limit the part count wraps round and the call panics after the upload was created.
- `MigrationOrder.OrderKeptExactly`: a version below one that is recorded, or that another runner commits meanwhile, is applied late. A runner that cannot commit (its list is invalid or differs from the ledger, or its gate cannot pass) disturbs nothing, and two lists that name one lower version differently exclude each other, so the condition speaks of runners that are able and of lists that agree below.
- `Deploy.Deployment.Run`: with a relative release root the text of the new link is followed from the directory of the link and not from where the script runs (`DeployDisk.Misled`; a start whose swap is stopped, or whose link had that text already, comes to no harm); a link left under the name of the next link can catch the new one (`DeployDisk.Trapped`), and a script that ends by itself after the swap does not roll back (`DeployDisk.RollbackAssured`).
- `Sealing.KeepsExactly`, `Sealing.VerifiesExactly`: the two manifest names are written through links (`ArtifactDisk.Spares`, `Sealing.Apart`).
- `WorktreeList.ReadsExactly`: git prints a newline in a path as it is. `GitRefs.DeletionExactly`: a deletion follows symbolic refs.
- `Query.SchemeOrderExactly`: keys are sorted before they are encoded, and values not at all.
- `ObjectUrl.KeysMeetExactly`: empty key segments vanish.
- `PermissionKey.EntriesMeetExactly`: a repository name can spell the label of an owner. `PermissionKey.KeyInjective` holds on readable permissions, and `PermissionKey.KeyCollisions` shows that neither half of that condition can be dropped.
- `Email.GuardedExactly`: repeating a submission is harmless only on proof that nothing was sent.

The comment above the marshaller (foundryoperator/foundryoperator.go:100-106) speaks of byte order and
the one at the sort (foundryoperator/foundryoperator.go:159-162) of code-point order; the code sorts by
UTF-8 bytes, and `Utf8.Utf8OrderAgrees` shows the two to be the same.

## Model

| member | source | states |
|---|---|---|
| CanonicalJson.ParseCanonicalText | foundryoperator/foundryoperator.go:125-211 | For every tree of null, booleans, safe integers, strings, arrays and maps, a full RFC 8259 parser reads the printed text back as the same tree, keys ascending at every level, nothing left over |
| CanonicalJson.CanonicalTextInjective | foundryoperator/foundryoperator.go:107-123 | Two printable values with one canonical text are the same value |
| CanonicalJson.CanonicalExactly | foundryoperator/foundryoperator.go:125-180 | A text is an output of the printer if and only if it parses to an ordered tree with safe numbers and is already in the one compact spelling |
| CanonicalJson.PrintParsed | foundryoperator/foundryoperator.go:107-123 | Parsing any output and printing what was parsed is the identity on the text |
| CanonicalJson.SafeIntegerExactly | foundryoperator/foundryoperator.go:137-142 | A number token is accepted exactly when it is the canonical decimal of an integer within plus or minus 2^53-1 |
| CanonicalJson.CanonIsOrdered | foundryoperator/foundryoperator.go:154-164 | Keys ascend strictly in every object of what is printed |
| CanonicalJson.DenoteCanon | foundryoperator/foundryoperator.go:125-180 | Reading the printed tree back, the last member of a key winning, gives the value that was printed |
| CanonicalJson.CanonDenote | foundryoperator/foundryoperator.go:125-180 | An ordered tree is the canonical tree of the value it denotes |
| CanonicalJson.PrintableIffSafeNumbers | foundryoperator/foundryoperator.go:137-142 | Printing fails exactly on values with an unsafe number somewhere inside |
| CanonicalJson.AppendCharacter | foundryoperator/foundryoperator.go:185-208 | One character of a string: the escape section 7 of RFC 8259 asks for is appended to the buffer, or the character itself |
| CanonicalJson.AppendJSONString | foundryoperator/foundryoperator.go:182-211 | The loop appends the quoted, escaped string and nothing else |
| CanonicalJson.AppendCanonical | foundryoperator/foundryoperator.go:125-180 | Whatever order the map yields its keys in, the recursive printer appends exactly the canonical text, and fails exactly on unprintable values |
| CanonicalJson.AppendItems | foundryoperator/foundryoperator.go:143-153 | The array loop: items in order, separated by commas, stopping at the first unprintable one |
| CanonicalJson.AppendFields | foundryoperator/foundryoperator.go:154-175 | The object loop over collected and sorted keys: each key with its own value |
| CanonicalJson.CanonicalMarshal | foundryoperator/foundryoperator.go:107-123 | The whole marshaller returns the canonical text of a printable value and an error for any other |
| Json.ParseRender | foundryoperator/foundryoperator.go:107-123 | Both printing styles of the JSON tree, HTML-safe and plain, are undone by the parser |
| Json.StringRoundTrip | foundryoperator/foundryoperator.go:182-211 | Any string of Unicode scalar values, escaped and quoted, parses back to itself before any following text |
| Json.NumberRoundTrip | foundryoperator/foundryoperator.go:137-142 | A number token is read whole and never further than it goes |
| Utf8.Utf8OrderAgrees | foundryoperator/foundryoperator.go:159-163 | Sorting by UTF-8 bytes, as the code does, is sorting by code point |
| Ordering.AscendingUnique | foundryoperator/foundryoperator.go:154-164 | Two strictly ascending lists of the same keys are the same list, so the output cannot depend on map order |
| Ordering.ListSortedKeys | foundryoperator/foundryoperator.go:155-164 | Collecting the keys of a map in any order and sorting them gives the one ascending list |
| OperatorProof.ValidNonceExactly | foundryoperator/foundryoperator.go:85-89 | Trimming the alphabet from both ends leaves nothing exactly when every character is in it; with the length bounds that is what a valid nonce is |
| OperatorProof.RandomNonce | foundryoperator/foundryoperator.go:93-99 | Any 24 drawn bytes become a 32-character nonce that the validity test accepts |
| OperatorProof.ProofTextInjective | foundryoperator/foundryoperator.go:73-83 | Two proofs with the same signed text agree in every field, the omitted empty query included |
| OperatorProof.SignedBytesDetermine | foundryoperator/foundryoperator.go:225-254 | One signed byte string stands for one principal, nonce, validity window, request line and body hash |
| OperatorProof.MarshalProof | foundryoperator/foundryoperator.go:107-123 | Marshalling, decoding with number tokens and printing canonically yields the canonical text of the record |
| OperatorProof.Sign | foundryoperator/foundryoperator.go:225-254 | A header pair is returned exactly when principal, key and nonce are valid; it encodes and signs the canonical proof of this request, back-dated one second and valid for one minute |
| Ordering.SortStrings | github/types.go:43-50 | The in-place insertion sort leaves a sorted permutation |
| Ordering.SinkIntoPlace | github/types.go:44-49 | The inner loop moves one element down to its place and keeps the rest in order |
| PermissionKey.PermissionsKey | github/types.go:27-41 | The key does not depend on map iteration order |
| PermissionKey.KeyInjective | github/types.go:27-41 | With no equals sign in names and no semicolon in values, equal keys mean equal permission sets |
| PermissionKey.KeyCollisions | github/types.go:37-39 | Each half of that condition is needed: two pairs of different sets share a key |
| PermissionKey.CacheKeyInjective | github/client.go:170 | With labels free of the bar, equal cache keys mean the same installation, label and permissions |
| PermissionKey.EntriesMeetExactly | github/client.go:135-170 | A request for one repository has the cache key of an owner-wide request if and only if installation and permissions agree and its name spells the owner label |
| PermissionKey.LabelInjective | github/client.go:135-156 | Scopes whose repository names do not begin with the owner prefix are told apart by their labels |
| TokenMinter.ComputeCacheKey | github/client.go:170 | The key the client computes is the specified one |
| TokenMinter.WindowHolds | github/client.go:177-194 | In every interleaving, two mints of one cache key are armed at least the window apart unless the earlier had failed before the later was admitted |
| TokenMinter.FailureRemovesOwnEntry | github/client.go:197-213 | A failing mint empties the entry of its key exactly when no later mint of the key was admitted, and touches nothing else |
| TokenMinter.FailureExactly | github/client.go:207-211 | The comparison of times identifies the mint: the entry is removed if and only if it is still its own |
| TokenMinter.BudgetHolds | github/client.go:183-194 | Admitted mints always equal the calls counted, and never exceed the budget |
| TokenMinter.HitIsExact | github/client.go:173-176 | When no label of any request holds a bar and all permissions are readable, every cache hit serves a token minted for exactly the installation, label and permissions asked for, with more than a minute left |
| TokenMinter.RunKeepsWindow | github/client.go:172-219 | The spacing of admissions is an invariant of admit, rate, fail and success steps in any order |
| TokenMinter.RunKeepsEntries | github/client.go:172-219 | The dedupe map always holds, for each key, the time of its latest unfailed admission |
| TokenMinter.RunKeepsCache | github/client.go:172-219 | When all requests are such, every cached token was minted for a request that was admitted under its key |
| TokenMinter.Client.TryAdmit | github/client.go:172-195 | The critical section before the call answers and updates the fields as the specification of admission says, in the order cache, window, budget, rate |
| TokenMinter.Client.RecordRateLimit | github/client.go:295-308 | Only a present, parseable header changes the remembered rate |
| TokenMinter.Client.ClearOwnEntry | github/client.go:207-211 | The critical section of failure is the specified failure step |
| TokenMinter.Client.StoreToken | github/client.go:215-290 | The critical section of success is the specified success step, whenever before it the mint time was read |
| TokenMinter.Client.Mint | github/client.go:162-219 | A whole mint, with other mints taking steps at every unlocked point, only ever takes specified steps and refuses bad requests first; when all requests are such, it serves only tokens minted for its request |
| TokenMinter.Client.MintFresh | github/client.go:221-293 | The call outside the lock ends in one success or one failure step of this mint |
| Migrations.AlwaysAPrefix | pg/runner.go:31-122 | Runners whose lists are prefixes of one master list, in any interleaving, with crashes and lost replies: the ledger is always a prefix of the master list, what was committed is that prefix in order, and a run that reported success has its whole list in it |
| Migrations.DataIsFold | pg/runner.go:94-121 | The data of the database, advanced by an arbitrary effect of each SQL text, is at every point of every trace, for any lists, what the committed SQL in commit order makes of the data there was |
| Migrations.DataIsFoldOfPrefix | pg/runner.go:94-121 | With lists that are prefixes of one master list the data is what exactly the first migrations of that list make of it, as many as are recorded |
| Migrations.NeverAppliedTwice | pg/runner.go:13-21 | Whatever the lists, the primary key alone keeps every version from being committed twice, and the ledger lists exactly what was committed |
| Migrations.NothingUnauthorised | pg/runner.go:76-121 | Every row that any trace adds was added by a transaction of a run that was about to apply this very version, with the evidence of that run: a waiver that it stated, or a receipt that its gate gave before and that was fresh, at the time the gate answered, under its own age limit |
| Migrations.RunKeepsInv | pg/runner.go:31-122 | The invariant behind the prefix property holds after every trace |
| Migrations.StepKeepsInv | pg/runner.go:31-122 | Read, gate, transaction, lost reply and crash steps each keep it |
| Migrations.TransactionKeepsPrefix | pg/runner.go:94-121 | A transaction either appends the next migration of the master list or changes nothing |
| Migrations.UndisturbedRun | pg/runner.go:31-122 | A run left alone, its gate passing, commits exactly what the ledger lacked of its list, in list order |
| MigrationOrder.OrderKeptExactly | pg/runner.go:31-122 | Any runners with any lists over any ordered ledger: every interleaving keeps version order if and only if what a runner that can commit still lacks is above all that is recorded and no such runner can commit a version while another, whose list it does not share there, still has a lower one before it |
| MigrationOrder.RunKeepsOrder | pg/runner.go:31-122 | One half: under that condition every trace keeps version order, and every runner that is applying has recorded its whole list below its next version |
| MigrationOrder.OvertakenRunner | pg/runner.go:59-122 | The other half, for two runners: a trace in which the second commits its higher version and the first its lower one afterwards |
| MigrationOrder.LateRunner | pg/runner.go:59-68 | The other half, for one runner: a version inserted below a recorded one is applied after it |
| MigrationOrder.CanPassExactly | pg/runner.go:76-93 | A run can pass its gate, on some answer at some time, exactly when it states a reason for its waiver or has a gate to ask |
| MigrationOrder.LowerVersionAppliedLate | pg/runner.go:59-122 | The smallest failing case: nothing recorded, one runner with two versions, another with the higher one only |
| Migrations.ValidateMigrations | pg/runner.go:124-142 | The loop accepts exactly the lists with positive, strictly increasing versions and non-blank names and SQL |
| Text.BlankExactly | pg/runner.go:133-138 | A name or SQL text is refused exactly when trimming white space leaves nothing of it |
| Migrations.CollectPending | pg/runner.go:59-68 | The loop returns what the ledger lacks in list order, or reports drift exactly when a recorded name differs |
| Migrations.Apply | pg/runner.go:31-122 | Every command of the call is a step of the runner in a system that the others keep changing |
| Migrations.ApplyChecked | pg/runner.go:31-122 | A call that reports success leaves its whole list in the ledger, in order, whatever the others did |
| Migrations.GrowsAlong | pg/runner.go:94-121 | What was committed is never taken back |
| Multipart.ReadFull | s3/multipart.go:150-156 | Over any pattern of short and empty reads the buffer is filled with the next bytes of the body, and the status tells full, partial, end and error apart |
| Multipart.ChunksRebuild | s3/multipart.go:144-172 | The chunks of a body, concatenated, followed by what is left of it, are the body |
| Multipart.PartsCounted | s3/multipart.go:144-172 | A body that ends in part n has n parts, n the ceiling of length over part size; all are full but the last, which is not empty |
| Multipart.GuardExactly | s3/multipart.go:144-149 | The declared-size check refuses exactly the sizes that need more than 10000 parts, except for the last few before the 64-bit limit: for those, and for no others, the count is negative and making the slice panics |
| Multipart.SendParts | s3/multipart.go:150-172 | On success the slots 1..n hold exactly the chunks of the body, although one buffer is reused, and n parts are the whole body |
| Multipart.UploadPartWithRetry | s3/multipart.go:174-196 | At most four attempts with identical bytes, stopping at the first success or non-transient error; the slot on the server is left as it was or holds exactly this chunk |
| Multipart.UploadParts | s3/multipart.go:144-172 | A refused declared size sends nothing; a size next to the 64-bit limit panics, and only such a size; a body of the declared size is sent in as many parts as that size takes, never more than 10000 |
| Multipart.AssembledIsBody | s3/multipart.go:94-113 | A complete that names those parts in order assembles the body |
| Multipart.PutMultipart | s3/multipart.go:94-113 | Once an upload id is returned, the call ends in an acknowledged complete that names parts 1..n, or in an abort whose own failure is joined in, if and only if the declared size is not one of the last few before the 64-bit limit; at those it panics and the upload is neither completed nor aborted; no part is sent after either; the object is the one there was or the whole body, and from a server whose acknowledgements are true it is the body |
| Multipart.PutStream | s3/multipart.go:63-92 | Whatever an acknowledgement is worth, success means that the object read back has the declared size and hash, and that it is the whole body when there was no object before; a panic takes a size next to the 64-bit limit and leaves the object as it was |
| Multipart.ReadLimited | s3/multipart.go:73-80 | The small-object branch reads at most one byte more than declared, so a longer or shorter body is never sent |
| Escaping.TwoPassesAreOne | s3/s3.go:372-375 | Query escaping followed by replacing the plus is one pass of percent-encoding with the unreserved set of sections 2.1 and 2.3 of RFC 3986 |
| Escaping.DecodeEncode | s3/s3.go:372-375 | Percent-decoding inverts it on every byte string |
| Escaping.QueryRoundTrip | s3/s3.go:329 | The query form used on the wire is inverted by query decoding |
| Escaping.EncodedOrderExactly | s3/s3.go:444 | For names in raw order, the encoded order agrees if and only if the first difference is not an unreserved byte below an escaped one; there it is exactly reversed |
| Escaping.MisorderedExample | s3/s3.go:444 | A pair of names whose raw and encoded orders differ |
| Escaping.UnreservedNames | s3/s3.go:444 | Names of unreserved bytes are their own encoding and never misordered |
| ObjectUrl.EscapePathSegments | s3/s3.go:364-370 | Overwriting the split slice in place yields the segment-wise encoding |
| ObjectUrl.EscapeInPlace | s3/s3.go:366-368 | Each segment is replaced by its own encoding and no other is touched |
| ObjectUrl.PathRoundTrip | s3/s3.go:353-361 | Decoding the pinned path gives the path back with its separators, so net/url keeps it, and its segments are the encoded segments |
| ObjectUrl.ValidBucket | s3/s3.go:95-105 | The loop accepts exactly the names of 3 to 63 lower-case letters, digits, hyphens and dots without a hyphen at either end |
| ObjectUrl.ValidKey | s3/s3.go:130-140 | The loop accepts exactly the non-empty relative keys without two dots in a row and without dot segments |
| ObjectUrl.ObjectURL | s3/s3.go:345-362 | Path style joins and cleans, virtual-hosted style prefixes the host; the raw path is the encoded path in both |
| ObjectUrl.StaysInBucket | s3/s3.go:345-352 | For a valid bucket and key the cleaned path is the bucket segment followed by exactly the non-empty segments of the key |
| ObjectUrl.KeysMeetExactly | s3/s3.go:345-352 | Two valid keys land on one path if and only if their non-empty segments are the same |
| ObjectUrl.KeyInjective | s3/s3.go:345-352 | On keys without empty segments the path determines the key |
| ObjectUrl.KeysCollide | s3/s3.go:345-352 | With an empty segment it does not: for every valid key, two different valid keys, with a single and with a doubled slash before it, have one path |
| Query.CanonicalQueryString | s3/s3.go:439-452 | Whatever order the map yields its keys in, the result is the pairs by ascending key, values in their own order |
| Query.AppendValues | s3/s3.go:446-450 | The inner loop appends every value of one key, encoded |
| Query.SignedIsSent | s3/s3.go:327-343 | For every parameter map the server reads back the values that were set, and the canonical query of what it reads is the one that was signed |
| Query.CanonicalQueryInjective | s3/s3.go:439-452 | The canonical query is itself a query with the same values, so two maps share one exactly when they differ in keys without values only |
| Query.SchemeOrderExactly | s3/s3.go:439-452 | The encoded pairs are in the order the scheme asks for, by name and then by value, if and only if no two keys that have values are misordered and the values of each key come in encoded order already |
| Signing.Request.HeaderNames | s3/s3.go:387-397 | The signed names are the three fixed ones and those that are present, ascending |
| Signing.Request.CanonicalHeaders | s3/s3.go:399-410 | The loop writes one terminated line per signed name, the host taken from the URL |
| Signing.Request.CanonicalRequest | s3/s3.go:412-419 | The six joined texts are the canonical request of exactly these parts |
| Signing.Request.Sign | s3/s3.go:379-434 | The stamped headers are signed, the authorization header is set last, and nothing else changes |
| Signing.SignedDetermines | s3/s3.go:412-419 | One canonical request belongs to one method, path, query, payload hash, list of signed headers and value of each |
| Signing.SignedRequestIsSent | s3/s3.go:327-362 | Path and query: what is signed is what goes on the wire, and both decode to what was asked for |
| Signing.SignedRequest | s3/s3.go:327-343 | From key and parameters to signature: the wire path decodes to the object path, the signed query is that of the parameters, and a content type that is set is signed |
| GitReplies.ParseLocalRefs | scripts/ci/pr-completion.mjs:228-247 | The loop that fills the map returns the listing of the lines, or fails at the first malformed or repeated one |
| GitReplies.ParsePrinted | scripts/ci/pr-completion.mjs:228-247 | Reading what git prints for any set of branches, in any order, gives back exactly those refs |
| WorktreeList.ReadsExactly | scripts/ci/pr-completion.mjs:189-223 | Reading the porcelain that git prints of any worktrees gives its records back, wherever paths resolve to, if and only if none is bare and no path holds a newline |
| WorktreeList.Reads | scripts/ci/pr-completion.mjs:189-223 | For paths without newlines: every record comes back with path, head, branch, detachment and text, or the listing is refused when one is bare |
| WorktreeList.ForgedRecord | scripts/ci/pr-completion.mjs:192-195 | The failing input: one worktree whose path holds an empty line is read as two |
| WorktreeList.RecordsOfJoin | scripts/ci/pr-completion.mjs:192-194 | Cutting at runs of newlines undoes joining by empty lines |
| GitRefs.DeletionExactly | scripts/ci/pr-completion.mjs:978-998 | A deletion that follows symbolic refs, as the command does, takes just the named ref of all that lead to an object if and only if the name is direct and no other name is symbolic to it |
| GitRefs.SymbolicRefTaken | scripts/ci/pr-completion.mjs:978-998 | The failing input: deleting a branch that is symbolic to another at the same object removes the other |
| GitReplies.ContainsExactly | scripts/ci/pr-completion.mjs:336-343 | The string test on the relative path is exactly the prefix relation on path segments |
| GitReplies.CheckDeletions | scripts/ci/pr-completion.mjs:124-141 | The loop accepts exactly the non-empty status listings in which every entry is a deletion |
| GitReplies.HeadHasTwoSources | scripts/ci/pr-completion.mjs:828-859 | A proven head was reported by exactly one listed merge of this number and by the exact view, with the same time, commit and head, for this branch |
| Repository.InventoryExactly | scripts/ci/pr-completion.mjs:1029-1058 | The three filters over the final inventory are together map equality: the initial records less the owned paths, text for text |
| Repository.RefsExactly | scripts/ci/pr-completion.mjs:1104-1144 | The four filters over the final refs are together map equality: the initial refs less the owned ones |
| Repository.Runner.Execute | scripts/ci/pr-completion.mjs:155-184 | Others may change the repository first; then the command has the effect git gives it, a failed one perhaps part of it, listings print what is there, and both are logged |
| PrCompletion.FindRepository | scripts/ci/pr-completion.mjs:402-455 | The first commands, each of which stops the run when it fails |
| PrCompletion.FindCheckout | scripts/ci/pr-completion.mjs:456-518 | The checkout is resolved and the inventory read, or the run stops at this stage |
| PrCompletion.IdentifyOwned | scripts/ci/pr-completion.mjs:520-534 | Every owned path is resolved by its own lookup, or the run stops |
| PrCompletion.CheckControl | scripts/ci/pr-completion.mjs:536-596 | Passes exactly when the control checkout is allowed and the owned paths are distinct, do not contain the working directory and are not the control |
| PrCompletion.CheckAbsent | scripts/ci/pr-completion.mjs:601-623 | Verify-only: passes only when every owned path is gone and unregistered, and fails only for a path that is not |
| PrCompletion.CheckOwnership | scripts/ci/pr-completion.mjs:536-667 | Passes only on full ownership, branches attached both ways included, and names a failed guard otherwise |
| PrCompletion.InspectStatus | scripts/ci/pr-completion.mjs:669-698 | Passes only when every inspected tree printed nothing, and fails only on a failed or non-empty status |
| PrCompletion.Survey | scripts/ci/pr-completion.mjs:669-770 | Clean trees, a ref snapshot with the owned refs in it, and a quiet prune rehearsal, or the stage that was not so |
| PrCompletion.ProveMerge | scripts/ci/pr-completion.mjs:772-909 | Two matching sources, owned heads at the merged head, and an absent remote branch, or the stage that was not so |
| PrCompletion.Check | scripts/ci/pr-completion.mjs:402-909 | Issues queries only; passes only when everything is proven; a refusal has a cause among the replies or the guards |
| PrCompletion.ResumeRemoval | scripts/ci/pr-completion.mjs:109-153 | After a failed removal: resumed only if the path is gone or a forced removal succeeded, and a forced removal only after an all-deletions status |
| PrCompletion.RemoveOwned | scripts/ci/pr-completion.mjs:912-955 | The head is read again and is the proven one before each removal |
| PrCompletion.PruneAfterRemovals | scripts/ci/pr-completion.mjs:957-976 | A prune is issued only after a quiet rehearsal and after every removal |
| PrCompletion.DeleteOwnedRefs | scripts/ci/pr-completion.mjs:978-998 | Each owned ref is deleted by compare-and-delete with the proven head, after the prune |
| PrCompletion.CleanUp | scripts/ci/pr-completion.mjs:911-999 | All changes are disciplined; success means every worktree is gone, the prune ran and every owned ref was deleted |
| PrCompletion.EveryActPermitted | scripts/ci/pr-completion.mjs:911-999 | Every command of a disciplined run was permitted by the commands before it |
| PrCompletion.OwnRefsAtHeadOnly | scripts/ci/pr-completion.mjs:978-998 | Whatever others do, the run itself changes no ref except by deleting an owned name that leads to the proven head; that takes just the owned ref if and only if it is direct at that moment and no other name is symbolic to it |
| PrCompletion.OwnWorktreesOnly | scripts/ci/pr-completion.mjs:912-976 | The run itself drops only records of owned paths, or, in a prune, of paths that were prunable; of none but owned ones when nobody interfered since the rehearsal |
| PrCompletion.ConfirmRefs | scripts/ci/pr-completion.mjs:1060-1144 | Passes only if the final refs are the initial ones less the owned ones and no owned branch is listed; fails only for cause |
| PrCompletion.Confirm | scripts/ci/pr-completion.mjs:1001-1144 | Both final snapshots are the initial ones less what was owned, or the stage that was not so |
| PrCompletion.CompletePullRequest | scripts/ci/pr-completion.mjs:360-1169 | In every run, with any replies and any interference: no removal, prune or deletion before all checks of this run have passed; what follows is disciplined; verify-only changes nothing; success means both final snapshots are the initial ones less what was owned; failure has a cause at its stage |
| PrCompletion.CleanupIsExact | scripts/ci/pr-completion.mjs:1029-1144 | The snapshots are the repository itself at two moments of the run: its branches, read back from the listings that git printed in any order, and, if no path held a newline, its worktrees, read back from the porcelain, later are those earlier less what was owned |
| Undisturbed.UndisturbedCompletes | scripts/ci/pr-completion.mjs:360-1169 | A run in a repository that nobody else changes, with no newline or repeated path and with untangled owned branches, in which no reply is one that stops the script and every guard holds, completes |
| Undisturbed.ActsTake | scripts/ci/pr-completion.mjs:911-999 | After every act of such a run the repository is the one there was, less exactly the worktrees and branches that the acts named so far |
| Undisturbed.WorktreesConfirmed | scripts/ci/pr-completion.mjs:1029-1058 | The inventory of the repository less the owned worktrees passes the three filters |
| Undisturbed.RefsConfirmed | scripts/ci/pr-completion.mjs:1104-1144 | The branches of the repository less the owned ones pass the four filters |
| ManifestJson.ManifestRoundTrip | packaging/manifest.go:45-71 | Decoding, with unknown fields refused, inverts encoding, the optional fields and the nil file list included |
| ManifestJson.MarshalInjective | packaging/manifest.go:118-122 | Two manifests with the same signed text are the same manifest |
| Packaging.SafeExactly | packaging/manifest.go:291-297 | A path is accepted exactly when it is a lone dot or all its segments are proper names |
| Packaging.EqualFiles | packaging/manifest.go:279-289 | The loop accepts exactly equal lists of safe paths |
| Packaging.Authenticate | packaging/manifest.go:158-167 | The loop finds a trusted key that signed the bytes wherever it stands in the list |
| Sealing.Artifact.CollectFiles | packaging/manifest.go:191-233 | Whatever order the walk meets the entries in, the result is the payload by path, each file with its size and digest; anything but regular files is refused |
| Packaging.SortedListsPayload | packaging/manifest.go:228-232 | Sorting any gathering of the payload by path gives its one listing |
| Packaging.FilesOfExactly | packaging/manifest.go:191-233 | Two payloads have the same listing if and only if they have the same paths, sizes and digests |
| ArtifactDisk.ReadAfterWrite | packaging/manifest.go:252-269 | Links followed, what is written under one name is read under every name of the same file, hard links included, and under no other |
| ArtifactDisk.SparedPayload | packaging/manifest.go:252-269 | A write under a name that leads to no payload path and to no file that one names leaves the payload as it was |
| Sealing.Artifact.WriteFile | packaging/manifest.go:252-269 | Success is the write with links followed; a failure leaves the disk or a part of it written |
| Sealing.Artifact.Seal | packaging/manifest.go:104-128 | Success leaves manifest and signature of the payload written one after the other; and however the call ends, a payload that neither name leads to is kept |
| Sealing.KeepsExactly | packaging/manifest.go:104-128 | For every disk whose payload can be listed: sealing keeps the payload, whatever the metadata, the key and the primitives, if and only if neither manifest name leads to a payload path or to a file that one names |
| Sealing.Artifact.VerifyAny | packaging/manifest.go:142-189 | File-system failures and manifests that repeat or respell a field apart, an artifact is accepted exactly when a trusted key signed the manifest bytes and the payload is exactly what they list |
| Sealing.SealThenVerify | packaging/manifest.go:104-189 | When the two names lead to two files outside the payload, a sealed artifact is authentic for every list of trusted keys with the signing key in it, at any position, and yields the sealed manifest |
| Sealing.VerifiesExactly | packaging/manifest.go:104-189 | For every disk whose payload can be listed: what is sealed and then verified with the signing key among the trusted ones is accepted, whatever the metadata, the keys and the primitives, if and only if the two names lead to two files and neither is in the payload |
| Sealing.LinksFail | packaging/manifest.go:206-210 | The failing inputs: a manifest name that links to a payload file, and a signature name that links to the manifest |
| Packaging.TamperingShows | packaging/manifest.go:184-188 | Two artifacts with the same manifest bytes are both accepted only if their payloads have the same paths, sizes and digests |
| Email.BuildRawMessage | email/client.go:361-374 | The writes produce the eight header lines, an empty line and the body |
| Email.RawMessageReads | email/client.go:361-374 | Splitting at the first empty line and at CRLF, as section 2.1 of RFC 5322 has it, gives exactly the eight header lines with their values and the body unchanged, whatever the body holds |
| Email.MessageReads | email/client.go:361-374 | The same for any list of non-empty header lines without CR or LF |
| Email.ClassesPartition | email/client.go:312-323 | Bounced, suppressed, accepted and unaccepted partition the requested recipients, each occurrence in one list |
| Email.VerifyAllRecipientsAccepted | email/client.go:294-328 | Success exactly when everyone was accepted; otherwise the three lists, each in the order requested |
| Email.EmptyClassesExactly | email/client.go:324-326 | The three lists are empty exactly when everyone was accepted |
| Email.Classify | email/client.go:135-212 | Unsubmitted exactly on proof that nothing was, sent exactly when confirmed for everyone, refused with the lists when confirmed for some, ambiguous in every other case |
| Email.AtMostOneExactly | email/client.go:135-212 | Whatever happened behind a sequence of replies, the provider contract leaves room for at most one accepted message if and only if at most one reply leaves acceptance open |
| Email.AnotherIsHarmlessExactly | email/README.md:55-68 | One more attempt, whatever its reply will be, cannot lead to a second accepted message if and only if every reply so far proves that nothing was sent |
| Email.GuardedExactly | email/README.md:55-68 | A caller repeats only after proof of non-submission if and only if each attempt it made was harmless, in that sense, when it was made |
| Email.Client.SendUntilSubmitted | email/client.go:101-213 | A caller that repeats SendWithMessageID, unchanged, while the verdict is unsubmitted: however many attempts it allows itself, at most one message is accepted, and none when it gives up |
| Email.Client.SendWithMessageID | email/client.go:101-213 | Nothing unacceptable is submitted; otherwise exactly the built message is, once, the verdict fits the reply, and nothing was taken when the verdict is unsubmitted |
| DeployDisk.TrapSprung | packaging/scripts/deploy.sh:71-81 | When the name of the next link already leads to a directory in which the new link has room, ln and mv both succeed and what they leave is not safe: a release or another directory was written to, or the stale link is current |
| DeployDisk.SwapFromClear | packaging/scripts/deploy.sh:71-81 | From a free name ln and mv put the new link in place, and the state is safe exactly when its text leads to the release or was there before |
| DeployDisk.AbsoluteRootResolves | packaging/scripts/deploy.sh:30-31 | With an absolute release root the text of the new link leads to the new release from any directory |
| DeployDisk.RelativeRootTakenTwice | packaging/scripts/deploy.sh:7-8 | With a relative root and the default place of the link the text leads to the path of the release taken from inside the root |
| DeployDisk.RelativeRootMisleads | packaging/scripts/deploy.sh:71-96 | The failing start: there, with nothing under that path, the swap leaves a dangling current link |
| DeployDisk.SwapStopped | packaging/scripts/deploy.sh:71-81 | From anything else, a file, a dangling link, a directory without room, one of the two commands fails and the state is safe |
| DeployDisk.KilledRunTraps | packaging/scripts/deploy.sh:71-81 | A run killed right after its ln leaves a trap for any other revision that meets the link under its own name |
| Deploy.WorldsExist | packaging/scripts/deploy.sh:47-117 | For every start there are machines of the two kinds named in the contract of the script, those on which everything succeeds and those that lose the rollback |
| Deploy.Deployment.Guard | packaging/scripts/deploy.sh:16-45 | Nothing changes before verification has succeeded and the guards have passed |
| Deploy.Deployment.Publish | packaging/scripts/deploy.sh:47-69 | The release appears by one rename, fully copied and mode-checked, or not at all |
| Deploy.Deployment.SwapCurrent | packaging/scripts/deploy.sh:71-81 | The swap is the specified ln followed by the specified mv, or stops between them or before with a failed command; with errexit off every command still runs and a link that could not be renamed is left behind |
| Deploy.Deployment.Rollback | packaging/scripts/deploy.sh:83-94 | The link is restored unless one of the commands that restore it failed, and the service is restarted in either case |
| Deploy.Deployment.AwaitHealth | packaging/scripts/deploy.sh:103-113 | Healthy only on a body that contains the revision; unhealthy only after failed looks; ended by a sleep that rejects its interval, and only so |
| Deploy.Deployment.Judge | packaging/scripts/deploy.sh:97-117 | Success means a reporting body, said so; a failure whose undo commands worked ends at the previous target when the rollback is assured, and when it is not there are machines on which the new link stays |
| Deploy.Deployment.Activate | packaging/scripts/deploy.sh:96-117 | Success from a start that is no trap means the new link and nothing else changed; from a trap, or with a text that misleads, it means an unsafe disk |
| Deploy.Deployment.Cleanup | packaging/scripts/deploy.sh:49-57 | The exit trap never touches the current link or a release; what is left of the next link and of the staging directory goes, unless its removal fails |
| Deploy.Deployment.Run | packaging/scripts/deploy.sh:16-117 | At every moment, a crash between any two commands included, the current link is what it was or leads to the published release, and no existing release changes, for every machine if and only if the start is refused, or is no trap and does not mislead; exit 0 then means the new release is published, its revision was reported and the current link has its path, which leads to it when the root is absolute; a failed run whose undo commands succeeded ends where it started, from a free name for every machine if and only if the rollback is assured by the options or the link already had the new text; no run fails without a refusal, a loop without looks or a failed command |
| Jwks.FetchJWKS | auth/jwks.go:65-99 | The filter loop returns the listed keys, and an error for a bad relevant entry or an empty result |
| Jwks.ListedExactly | auth/jwks.go:84-94 | A key ID is listed exactly when a relevant entry carries it; one bad relevant entry spoils the document |
| Jwks.LastEntryCounts | auth/jwks.go:84-94 | Of two relevant entries with one key ID the later counts |
| Jwks.Client.SigningKey | auth/jwks.go:39-63 | Every call is answered by the rule, and the cached keys and time are those of the last successful fetch |
| Jwks.CachedIsLastFetch | auth/jwks.go:52-54 | What is cached before any call of any run is the last successful fetch, or nothing |
| Jwks.ServedKeys | auth/jwks.go:43-62 | A served key is the one the last successful fetch lists; without a fetch of its own the call is within the TTL of it; an older key is served only when the own fetch of the call failed |
| Jwks.DroppedStaysDropped | auth/jwks.go:51-58 | A key ID that a successful fetch dropped is not served again until a later successful fetch lists it |

## Left out

- Locale collation of keys: the canonical printer sorts by code point and its own note limits the claim to that (foundryoperator/foundryoperator.go:159-162).
- Strings that are not valid UTF-8: encoding/json and the printers replace the bad bytes, and what comes out is then not what went in.
- encoding/json's reflection and struct tags, XML and time formatting: trees, opaque date strings and the printed field order are the starting point.
- Cryptography (SHA-256, HMAC, Ed25519, ECDSA, RSA, PEM, curve checks): functions without meaning, with signing and verifying as a pair the only law (`Packaging.Lawful`).
- HTTP, TLS, DNS, files and processes: nondeterministic replies, failures, lost replies and short reads stand for them.
- PostgreSQL: a migration is an opaque function of the data, a transaction is atomic with the primary-key check; creating the ledger table is not modelled.
- Caller-supplied lists that are not prefixes of one master list: the prefix property is not claimed for them; `Migrations.NeverAppliedTwice`, `Migrations.DataIsFold` and `MigrationOrder.OrderKeptExactly` say what holds.
- TokenMinter: a cached token may be replaced by an older one when a slow mint finishes late (github/client.go:215-217); no claim is made that it never regresses.
- TokenMinter: a caller that changes its permission map during the call is not modelled; nor are the request body, the App JWT and the status codes of a refused mint apart.
- Multipart.UploadPartWithRetry: waits and jitter between attempts are not modelled, cancellation between two attempts is; an attempt is a success, a transient or a permanent failure, each with or without effect on the server.
- Multipart.Settle: an acknowledged complete makes the object only if the server is truthful, since the body of its reply is not read (s3/multipart.go:234); the read-back of `Multipart.PutStream` does not rely on it.
- Multipart.PutStream: assumes that no one else writes the same key between the upload and the read-back.
- Signing.Request.Sign: header names are lower-case here, so the case-insensitive lookup of net/http is not modelled, and the string to sign beyond the canonical request is one opaque function.
- Signing.SignedDetermines: speaks of requests whose method and headers hold no newline and whose header names hold no colon, which net/http itself demands.
- Endpoint parsing: only the two paths the configuration admits, none and a lone slash (s3/s3.go:75-81).
- Repository.Effect: what each git command does is stated, not derived; a successful listing of refs prints them in the format asked for, in any order, a successful listing of worktrees prints their records as porcelain, while replies of gh are read by functions the model leaves open, and realpath, resolve and dirname are lookups with any answer; what a listed worktree path resolves to is fixed during a run.
- PrCompletion.ResumeRemoval: when a half-removed path is already gone it reports resumed, but the rehearsal that follows may then list that record and fail the run (scripts/ci/pr-completion.mjs:957-962); no claim is made that such runs succeed.
- PrCompletion.CompletePullRequest: the evidence object of a failure and the wording of errors are left out; a failure carries its stage.
- ManifestJson.ManifestRoundTrip: field names that match only without regard to case and documents that repeat a field are refused by the model, while encoding/json accepts them.
- Sealing.Artifact.VerifyAny: a manifest with a repeated field, or with a field spelled in another case, is refused by the model and may be accepted by the code.
- ArtifactDisk.Written: a link leads to one other place, up to 40 of them in a row; links in directories on the way, mounts and case-insensitive names are not modelled, and what a device is sent is lost.
- Email: the JSON request body, the bounded error texts, Retry-After and the generation of message ids.
- Deploy.Deployment.Run: one deploy at a time; two scripts racing for the same release or link are not modelled, nor is a current link placed inside the releases directory.
- DeployDisk.Linked: what a path leads to is fixed during a run, a path is a release when it is spelt as one of the root, and otherwise leads wherever the file system says; a link into a subdirectory of a release counts as leading elsewhere, and what is written elsewhere is only counted.
- Deploy.Deployment.AwaitHealth: `sleep` with an accepted interval and `echo` to a stream that takes output succeed (signals aside); a bound that mentions the loop's own variable, and the `mv -fh` of Darwin, are not modelled.
- Jwks.FetchJWKS: the 1 MiB limit of the document and the decoding of the coordinates.
- auth middleware, cookies and claims, sidecar, fulcrumprojects, lifecycle, synthetictraffic, email/delivery.go, testkit and the remaining scripts: single guards or short fixed sequences that would only add easy members.
- File modes of written files, secret redaction and timing-safe comparison.
