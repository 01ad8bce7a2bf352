# hush-hush-cli: a verified model

hush-hush-cli writes and reads sealed secrets kept by a hush-hush server. This project models, in Dafny,
the four places where its logic is hard, and proves what they promise.

1. **The in-memory server** (`internal/testserver/testserver.go`). `Server.Store` is a class with the source's
   mutable maps: objects, the overflow map of variants, the consumer directory, the two token maps, the write tokens
   and the audit log. Every method is proved against a function on an abstract value: `Directory.Book` (names mapped
   to variant sequences, plus the directory), `Tokens.Keys` and the log. `Machine` combines the three into one state
   machine whose steps are the server's requests. The source runs every method under one mutex, so any concurrent
   history is a run of these steps; `Refinement.Perform` shows that the class performs exactly them, and
   `Refinement.PerformAll` that it performs whole runs.
2. **The client's paging loops** (`QueryAuditLog` by id cursor, `ListConsumers` by page number), each against a server
   that keeps answering other requests between two pages. `Runs` supplies what successive requests can meet.
3. **The write and read flows** (`Inject`, `Update`, `Get`) over an abstract multi-recipient seal, with other clients'
   requests between their own, up to the end-to-end claim that whoever is named can read, after any later requests
   that do not concern the object or that reader.
4. **The configuration round trip** (`internal/cliconfig`): prompts over one shared line scanner, a quoting printer, a
   reader of the written file and the secret resolver give back what was typed.

One module per file; `Prelude` and `Sorting` hold the general lemmas.

## How the pieces depend on each other

`Variants`, `Directory`, `Tokens`, `AuditLog`, `Listing` and `Tags` say what each request means and what it keeps.
`Server` implements them in place. `Machine`, `Refinement` and `Runs` lift them to histories. `Access` and `Handlers`
add the decisions of the request handlers, `Cli` the command-line flows, and `Delivery` the end-to-end theorems.
`Requests` says field by field what each request leaves, and `Lifecycle` what the next request then finds.
`AuditPaging` and `ConsumerPaging` are the client loops. `Quoting`, `Prompting`, `ConfigFile` and `ConfigRoundTrip`
are the configuration part and depend only on `Prelude`.

## Where the code and its documentation differ

- The directory listing is to follow the pages "so the caller always gets the whole set"
  (`internal/client/consumers.go:31-33`). A name removed between two requests hides another one that both of them
  find: `ConsumerPaging.RemovalHidesAnother`. `ConsumerPaging.ListedIff` says exactly which names are listed under any
  interference, and `ConsumerPaging.KeptIsListed` that a name is safe while nothing up to it is removed.
- The read handler's comment says a name outside a token's scope answers like an unknown one
  (`internal/testserver/testserver.go:1306-1312`). A bare name that holds several variants answers that it does;
  `Access.OutOfScopeLooksUnknownIff` gives the exact condition and `Access.SeveralVariantsShow` a run. That run needs
  the method that seeds variants, for which there is no route.
- A limit caps the audit query (`internal/client/client.go:318-324`). A limit of zero returns one entry when there is
  a match (`AuditPaging.ZeroLimitBringsOne`), and a negative limit returns one entry or none;
  `AuditPaging.CapIsKeptIff` gives the exact condition. The command line passes only positive limits
  (`internal/cli/flags.go:47-49`).
- At the very instant of expiry a token's status is "expired", yet it still authenticates and rotates;
  `Tokens.ListedActionsSucceed` states both sides.
- The fixed suffix used when the entropy source fails breaks the value index (`Tokens.FallbackDrawsBreakTheIndex`);
  `Tokens.IssueKeepsInverseIff` and `Tokens.RotateKeepsInverseIff` say exactly when the index survives, and
  `Tokens.OpKeepsInverse` that it does while the entropy source works.

## Model

| member | source | states |
|---|---|---|
| Variants.FindMeaning | internal/testserver/testserver.go:332-354 | a lookup succeeds with variant i exactly when i is the only variant (no selector) or the first one the id or consumer selects; when it is ambiguous and when nothing is found |
| Variants.FindById | internal/testserver/testserver.go:332-354 | ids being distinct within a name, an id alone picks its variant |
| Variants.FindByConsumer | internal/testserver/testserver.go:332-354 | a consumer alone picks the first variant that lists it |
| Variants.FindNothing | internal/testserver/testserver.go:332-354 | a selector that fits no variant finds none |
| Variants.UpdateTouchesOneVariant | internal/testserver/testserver.go:368-399 | an update replaces value, tags and used_by (the last two only when given) of the addressed variant and leaves every other variant and name as it was |
| Variants.PatchTouchesOneVariant | internal/testserver/testserver.go:405-441 | a patch that does not rename, with no slug or the name's own, changes only description and tags of the addressed variant, never id, value or used_by |
| Variants.DeleteRemovesOneVariant | internal/testserver/testserver.go:465-478 | a delete drops the addressed variant, keeps the others in order (promoting the next one to primary), and removes the name exactly when it was the last |
| Variants.CreateThenDelete | internal/testserver/testserver.go:236-254 | creation fails exactly for a taken name; deleting the created name restores the store |
| Variants.AddThenDelete | internal/testserver/testserver.go:280-293 | a seeded variant comes last and is found by its id; deleting it by that id restores the store |
| Variants.RenameConserves | internal/testserver/testserver.go:405-441 | a slug change succeeds exactly when the variant is found and the slug is free; it moves the whole variant sequence in order, leaves other names alone and conserves the multiset of (id, value, used_by) |
| Directory.OpStaysSound | internal/testserver/testserver.go:236-593 | every object and directory request keeps variant lists non-empty and ids distinct within a name |
| Directory.RenamedList | internal/testserver/testserver.go:675-694 | the renamed used_by list has no duplicates, is the image of the old one, and keeps first-occurrence order |
| Directory.RemovedList | internal/testserver/testserver.go:697-707 | removal drops every occurrence of the name, keeps every occurrence of the others and their order |
| Directory.MergedDirectory | internal/testserver/testserver.go:534-572 | after renaming a to b the directory is the old one with a gone, b's key being the explicit key, else b's own, else a's; refused exactly when a is unknown |
| Directory.KeyRegistration | internal/testserver/testserver.go:534-572 | without a rename a given key replaces the old one, an unknown name is enrolled, and no object changes |
| Directory.RemovedDirectory | internal/testserver/testserver.go:577-593 | removal succeeds exactly for a listed consumer, touches no other entry, leaves no primary naming it, and is refused a second time |
| Directory.EnrolThenRemove | internal/testserver/testserver.go:514-593 | where every used_by name is listed, enrolling or keying a new consumer and removing it restores objects and directory |
| Directory.RenameThereAndBack | internal/testserver/testserver.go:534-572 | renaming to a free name and back restores directory and objects, for used_by lists without duplicates |
| Directory.NamingAfterRename | internal/testserver/testserver.go:534-572 | which objects name whom after a rename |
| Directory.MergedCounts | internal/testserver/testserver.go:657-671 | after renaming a to b, count(b) is count(a) + count(b) less the objects naming both, count(a) is zero and nobody else's count moves |
| Directory.NamingAfterRemoval | internal/testserver/testserver.go:577-593 | no primary object names a removed consumer, and all others are named where they were |
| Directory.RenameKeepsClosed | internal/testserver/testserver.go:534-572 | after a change or rename every name in a used_by list is still in the directory |
| Directory.RemovalKeepsClosed | internal/testserver/testserver.go:577-593 | so is it after a removal |
| Directory.PageStarts | internal/testserver/testserver.go:628-645 | a page starts at (page - 1) times its size while that fits 32 bits; the request crashes exactly when the wrapped product is negative |
| Directory.ListMeans | internal/testserver/testserver.go:599-653 | without a filter all names; otherwise page one and twenty entries unless asked for others, and a hundred at most |
| Directory.ContainsFoldedIff | internal/testserver/testserver.go:599-653 | a name matches a query exactly when the query stands somewhere in it, ignoring case |
| Requests.CreateLeaves | internal/testserver/testserver.go:236-254 | a creation stores one variant with value, consumers, description, tags and both times as given, enrols the consumers and changes nothing else; refused exactly for a taken name |
| Requests.AddVariantLeaves | internal/testserver/testserver.go:280-293 | seeding appends one variant with its value, consumers and times, and nothing else changes |
| Requests.UpdateLeaves | internal/testserver/testserver.go:368-399 | every field of the addressed variant, the other variants and names, and the directory after an update; refused exactly when the lookup fails |
| Requests.PatchLeaves | internal/testserver/testserver.go:405-441 | the same for a patch, moved or not: description and tags of the addressed variant included |
| Requests.DeleteLeaves | internal/testserver/testserver.go:465-478 | a delete takes out the addressed variant and keeps the rest in order; the name goes with its last one; refused exactly when the lookup fails |
| Requests.AddConsumerLeaves | internal/testserver/testserver.go:514-525 | a new consumer is listed without a key, a listed one refused |
| Requests.UpdateConsumerLeaves | internal/testserver/testserver.go:534-572 | entries, keys and every used_by list after a change or rename, and exactly when it is refused |
| Requests.DeleteConsumerLeaves | internal/testserver/testserver.go:577-593 | likewise for a removal |
| Tokens.ValuesInjective | internal/testserver/testserver.go:893-911 | token values built from equally long draws are equal only if consumer and draw are |
| Tokens.OpStaysSound | internal/testserver/testserver.go:874-984 | every token request keeps each record under its own id with a value built from its own draw, no draw behind two values |
| Tokens.ValueHasOneHolder | internal/testserver/testserver.go:893-984 | a read-token value belongs to one token and is no write token |
| Tokens.NewValueReads | internal/testserver/testserver.go:893-949 | an issued or rotated value reads as its consumer up to and including its expiry, and not after |
| Tokens.OtherValuesReadAsBefore | internal/testserver/testserver.go:893-984 | a token request changes what only its own token's values read as, now and at every later instant |
| Tokens.NewWriteTokenOpens | internal/testserver/testserver.go:874-882 | a write token is valid until just before its expiry, and no other request changes which values may write |
| Tokens.IssueRevokePurge | internal/testserver/testserver.go:954-984 | issuing, revoking and purging a token restores the table |
| Tokens.OpKeepsDeadValue | internal/testserver/testserver.go:893-984 | no token request revives a value that no longer authenticates |
| Tokens.OpKeepsDeadId | internal/testserver/testserver.go:893-984 | nor an id |
| Tokens.OpKeepsToken | internal/testserver/testserver.go:893-984 | a token changes only by its own rotation, revocation or purge |
| Tokens.IssueKeepsInverseIff | internal/testserver/testserver.go:908-909 | storing a token keeps the two token maps inverse exactly when neither id nor value belongs to something else |
| Tokens.RotateKeepsInverseIff | internal/testserver/testserver.go:933-949 | a rotation keeps them inverse exactly when the new value is not another token's |
| Tokens.PurgeKeepsInverse | internal/testserver/testserver.go:967-984 | a purge keeps them inverse |
| Tokens.OpKeepsInverse | internal/testserver/testserver.go:893-984 | with new draws every token request keeps the two token maps inverse |
| Tokens.FallbackDrawsBreakTheIndex | internal/testserver/testserver.go:990-1027 | after two tokens drawn with the fixed fallback the maps are not inverse, the first consumer's value reads as the second consumer, and once that token is purged presenting it crashes |
| Tokens.LookUpFindsBearer | internal/testserver/testserver.go:1012-1027 | looking a value up through an inverse index finds the consumer whose usable token holds it, if any, and never crashes |
| Tokens.RecordMeans | internal/testserver/testserver.go:893-961 | what a record says after its issue, and the only fields a rotation or a revocation changes |
| Tokens.RefusalsMean | internal/testserver/testserver.go:933-984 | which token requests are refused, why, and that a refusal changes nothing |
| Tokens.MetadataMeans | internal/testserver/testserver.go:159-180 | status and actions in terms of the record; the metadata shows everything but the value |
| Tokens.ViewsAgree | internal/client/consumer_tokens.go:139-160 | whichever of status and actions the server leaves out, the client derives the server's own |
| Tokens.ListedActionsSucceed | internal/testserver/testserver.go:159-180 | every listed action succeeds, purge succeeds on exactly the tokens that list it, and rotation and authentication succeed without being listed at exactly the instant of expiry |
| AuditLog.MatchingIncreasing | internal/testserver/testserver.go:789-839 | matches come in strictly increasing id order |
| AuditLog.CursorSplits | internal/testserver/testserver.go:843-869 | the entries behind a cursor are exactly the matches after the one it names: no gap, no duplicate |
| AuditLog.MatchingExtends | internal/testserver/testserver.go:789-803 | later entries only extend the list of matches |
| AuditLog.StopEarly | internal/testserver/testserver.go:809-839 | the scan may stop at the first full page |
| AuditLog.NoFilterTakesAll | internal/testserver/testserver.go:843-869 | without a filter every entry matches |
| AuditLog.ObjectNarrows | internal/testserver/testserver.go:844-846 | an object id narrows the matches to its entries |
| AuditLog.CallerNarrows | internal/testserver/testserver.go:848-850 | a caller narrows them to the entries with that caller |
| AuditLog.ActorNarrows | internal/testserver/testserver.go:852-854 | an actor narrows them to the entries with that actor |
| AuditLog.StartNarrows | internal/testserver/testserver.go:856-858 | a start narrows them to the entries from that instant on |
| AuditLog.EndNarrows | internal/testserver/testserver.go:860-862 | an end narrows them to the entries up to and including it |
| AuditLog.MatchingCarries | internal/testserver/testserver.go:843-869 | the matches are exactly the entries that carry every wanted value |
| AuditLog.PageMeans | internal/testserver/testserver.go:809-839 | a page is refused exactly for a malformed object id or a limit outside 1 to 500, holds fifty entries by default, all behind the cursor |
| AuditLog.ValidObjectIdByParts | internal/testserver/testserver.go:63 | well-formed object ids, by how they are built |
| AuditLog.RecordedComesLast | internal/testserver/testserver.go:789-803 | a recorded entry is last, with the next id, its own time or else the server's, and everything else as given |
| Tags.Normalize | internal/testserver/testserver.go:1122-1141 | normalisation succeeds exactly when every lower-cased tag is valid and at most ten are distinct, and yields the de-duplicated lower-cased tags |
| Tags.CanonicalMembers | internal/testserver/testserver.go:1122-1141 | its members are exactly the lower-cased tags |
| Tags.CanonicalStable | internal/testserver/testserver.go:1122-1141 | it is idempotent, free of duplicates and in first-occurrence order |
| Tags.TagFilterAgrees | internal/testserver/testserver.go:1793-1801 | an object stored with normalised tags passes a filter exactly when its original tags, lower-cased, include every lower-cased wanted tag |
| Tags.ValidTagMeans | internal/testserver/testserver.go:1112-1114 | a tag is one to thirty-two characters of a fixed alphabet |
| Tags.FoldingMeans | internal/testserver/testserver.go:1122-1141 | two characters fold together exactly when equal or the two cases of one letter |
| Listing.ListingIsAFunction | internal/testserver/testserver.go:720-757 | with one variant a name, every map iteration order gives the same list: the rows that pass the filters, ascending by slug |
| Listing.ListingMembers | internal/testserver/testserver.go:720-757 | a listing holds exactly the rows of the variants that pass the filters, however many a name has |
| Listing.ListedMeans | internal/testserver/testserver.go:741-757 | what each filter lets through, one at a time: everything, what names the consumer, what carries each wanted tag in any case |
| Listing.PagedMeans | internal/testserver/testserver.go:1815-1832 | a page holds the items from its offset on, fifty by default and five hundred at most |
| Listing.PagesTile | internal/testserver/testserver.go:1815-1832 | pages at offsets advancing by the page size concatenate to the whole list |
| Machine.StepKeepsInv | internal/testserver/testserver.go:236-984 | every request keeps the whole server's invariant |
| Machine.StepTouchesOnePart | internal/testserver/testserver.go:236-984 | a request changes one part of the server only, and nothing when refused |
| Server.RenameUsedBy | internal/testserver/testserver.go:675-694 | the loop computes the de-duplicated image |
| Server.RemoveUsedBy | internal/testserver/testserver.go:697-707 | the loop keeps the other names, in order |
| Server.Store.constructor | internal/testserver/testserver.go:189-199 | a new server is the empty state |
| Server.Store.StoreVariants | internal/testserver/testserver.go:306-321 | writing a variant list back undoes reading it: the name then holds exactly that list, and no other name changes |
| Server.Store.FindVariant | internal/testserver/testserver.go:332-354 | the loop finds what the lookup specifies |
| Server.Store.CreateObject | internal/testserver/testserver.go:236-254 | the maps afterwards are the create step's outcome, unchanged if refused |
| Server.Store.AddVariant | internal/testserver/testserver.go:280-293 | likewise for seeding a variant, whose id it returns; the directory is not touched |
| Server.Store.UpdateVariant | internal/testserver/testserver.go:368-399 | likewise for an update; it returns the variant as updated |
| Server.Store.PatchVariant | internal/testserver/testserver.go:405-441 | likewise for a patch, with or without a rename; it returns the variant as patched |
| Server.Store.DeleteVariant | internal/testserver/testserver.go:465-478 | likewise for a delete |
| Server.Store.AddConsumer | internal/testserver/testserver.go:514-525 | likewise for enrolling a consumer |
| Server.Store.UpdateConsumer | internal/testserver/testserver.go:534-572 | likewise for renaming or keying a consumer; it returns the resulting entry |
| Server.Store.DeleteConsumer | internal/testserver/testserver.go:577-593 | likewise for removing one |
| Server.Store.ConsumerEntry | internal/testserver/testserver.go:657-671 | a directory entry counts exactly the primary objects naming the consumer |
| Server.Store.ListConsumers | internal/testserver/testserver.go:599-653 | the directory's names, or one page of the matching entries, in ascending order whatever order the map yields, with the source's 32-bit offset arithmetic |
| Server.Store.IssueConsumerToken | internal/testserver/testserver.go:893-911 | for any draws, new or not: the table is the issue step's outcome and the index is written as specified |
| Server.Store.RotateConsumerToken | internal/testserver/testserver.go:933-949 | likewise for a rotation, done through the shared record |
| Server.Store.RevokeConsumerToken | internal/testserver/testserver.go:954-961 | likewise for a revocation |
| Server.Store.PurgeConsumerToken | internal/testserver/testserver.go:967-984 | likewise for a purge |
| Server.Store.CreateWriteToken | internal/testserver/testserver.go:874-882 | likewise for a write token |
| Server.Store.ValidateToken | internal/testserver/testserver.go:999-1006 | a write token is accepted strictly before its expiry |
| Server.Store.ConsumerForToken | internal/testserver/testserver.go:1012-1027 | the lookup by way of the index, crash on a missing record included |
| Server.Store.RecordAuditEntry | internal/testserver/testserver.go:789-803 | appends one entry with the next id |
| Server.Store.QueryAuditLog | internal/testserver/testserver.go:809-839 | the early-stopping scan returns the first matches behind the cursor |
| Server.Store.ListObjects | internal/testserver/testserver.go:720-738 | the result is the sorted collection of the rows met in some visiting order |
| Tokens.FreshDrawsAreFree | internal/testserver/testserver.go:990-997 | a new full-length draw gives an id and a value no token holds |
| Refinement.Perform | internal/testserver/testserver.go:236-984 | every method of the class performs exactly the machine's step on the abstract state, is refused exactly when and why the machine's is, and keeps the token maps inverse |
| Refinement.PerformAll | internal/testserver/testserver.go:236-984 | performing a whole run leaves the store in the state the run ends in, with its token maps inverse |
| Runs.DeadStaysDead | internal/testserver/testserver.go:893-1027 | once a value or an id no longer authenticates, no run of later requests makes it authenticate again |
| Runs.RetiredIsDead | internal/testserver/testserver.go:954-984 | revoking or purging a token kills its id and its value |
| Runs.RotatedIsDead | internal/testserver/testserver.go:933-949 | rotating kills the old value and brings the new one to life; passing the expiry kills a token |
| Runs.LiveStaysLive | internal/testserver/testserver.go:1012-1027 | a token that nothing rotates, revokes or purges reads as its consumer through any run, up to and including its expiry |
| Runs.PlainRuns | internal/testserver/testserver.go:236-593 | runs without seeding keep one variant a name and every used_by name in the directory |
| Runs.NewServerIsPlain | internal/testserver/testserver.go:189-199 | a new server satisfies the invariant and starts that way |
| Runs.RunGrows | internal/testserver/testserver.go:789-803 | no run shortens or rewrites the log; none without a rename or removal takes a consumer out of the directory |
| Runs.HistoryGrows | internal/testserver/testserver.go:789-803 | what successive requests of one client meet is ordered the same way |
| Access.ReadScope | internal/testserver/testserver.go:1313-1357 | two stores that agree on tokens and on the objects naming c answer every read by c's token alike |
| Access.FoundIff | internal/testserver/testserver.go:1313-1357 | a read token gets a value exactly when the one variant the selector means names its consumer, and then that variant's; otherwise which refusal it gets |
| Access.WriterFoundIff | internal/testserver/testserver.go:1313-1357 | a write token gets the variant the selector means, whoever it names; otherwise which refusal it gets |
| Access.UnauthorizedIff | internal/testserver/testserver.go:1313-1357 | a read is unauthorised exactly for an empty credential or one that is neither a valid write token nor a usable read token |
| Access.WriteRefusals | internal/testserver/testserver.go:1261-1304 | why a write is refused, in the order of the checks, and that it is accepted otherwise |
| Access.OutOfScopeLooksUnknownIff | internal/testserver/testserver.go:1306-1357 | a name out of scope answers like an unknown one except when it is asked for bare and holds several variants |
| Access.SeveralVariantsShow | internal/testserver/testserver.go:1306-1357 | a run from a new server, with a seeded variant, after which such a name answers differently from an unknown one |
| Handlers.RequireWriteToken | internal/testserver/testserver.go:1261-1272 | admits exactly non-empty, valid write tokens |
| Handlers.HandleGet | internal/testserver/testserver.go:1313-1357 | answers as the access rule says |
| Handlers.HandleCreate | internal/testserver/testserver.go:1274-1304 | creates or refuses as specified; a refusal changes nothing |
| Handlers.HandleUpdate | internal/testserver/testserver.go:1384-1428 | likewise for an update |
| Cli.LastOptionWins | internal/cli/options.go:33-91 | of several options of any one kind the last wins; a readable copy asked for once stays asked for |
| Cli.OthersStayUnset | internal/cli/options.go:33-91 | what no option is about keeps its unset value |
| Cli.NewWriteOptions | internal/cli/options.go:33-40 | the loop collects the options |
| Cli.ResolveRecipients | internal/cli/inject.go:54-71 | explicit recipients as given, else each consumer's key in order, each as its own request finds it, else the failure of the first without one |
| Cli.Prepare | internal/cli/inject.go:29-42 | everything before the write: recipients, the owner's key behind them when a copy is kept, sealing, or the first failure among these |
| Cli.RequestsInOrder | internal/cli/inject.go:29-47 | a lookup for each consumer unless recipients are given, then the owner's key if asked for, then the write |
| Cli.RunInject | internal/cli/inject.go:21-49 | with other clients' requests between its own, the flow either creates what it specifies or fails and leaves the server as it was |
| Cli.RunUpdate | internal/cli/update.go:19-52 | likewise for an update |
| Cli.RunGet | internal/cli/get.go:31-55 | reads with the write token when set, else the consumer token, and opens what it got |
| Cli.WriteTokenIsSent | internal/cli/get.go:31-55 | a configured write token is what is sent, whatever consumer token stands beside it; the consumer token serves only where there is none |
| Sealing.SealedOpensIff | internal/seal/unseal.go:15-38 | what was sealed opens to exactly the sealed bytes for exactly the identity lists holding a matching key |
| Sealing.FailuresAreNamed | internal/seal/seal.go:17-45 | sealing fails at the first recipient that does not parse or for want of any, opening at the first identity that does not parse |
| Delivery.KeysForMeaning | internal/cli/inject.go:54-71 | resolution succeeds exactly when every consumer has a key at its own lookup, and gives those keys in order |
| Delivery.FirstMissingIsNamed | internal/cli/inject.go:54-71 | a failure names the first consumer without a key |
| Delivery.SealableIff | internal/cli/options.go:96-107 | exactly when the recipients of a write can be determined and sealed to |
| Delivery.InjectSucceedsIff | internal/cli/inject.go:21-49 | exactly when an injection succeeds, in terms of what each of its requests meets: credentials, keys, owner, recipients, tags and names |
| Delivery.UpdateSucceedsIff | internal/cli/update.go:19-52 | exactly when an update succeeds |
| Delivery.InjectIsAStep | internal/cli/inject.go:44-48 | a successful injection is one step of the server, a failed one none |
| Delivery.UpdateIsAStep | internal/cli/update.go:47-51 | likewise for an update |
| Delivery.InjectedIsReadable | internal/cli/inject.go:21-71 | every named consumer with a live read token and the identity it had registered at its lookup reads exactly the injected bytes, by name or by id, after any later run that leaves the object and its membership alone |
| Delivery.UpdatedIsReadable | internal/cli/update.go:19-52 | the same after an update that names consumers, whichever variant of a name it replaces, with a selector of that variant |
| Delivery.UpdatedIsFound | internal/cli/update.go:47 | there always is such a selector: by the variant's id |
| Delivery.InjectedIsOpen | internal/cli/options.go:96-107 | the owner, when a readable copy was asked for, and every explicit recipient read the bytes back with a write token, whatever consumer token is configured too |
| Delivery.UpdatedIsOpen | internal/cli/update.go:36-51 | the same after an update of any variant |
| Delivery.LiveTokenReads | internal/cli/get.go:31-55 | a consumer's token, presented alone after any run that does not retire it, reads for that consumer |
| Lifecycle.CreatedThenDeleted | internal/testserver/testserver.go:236-478 | creating and deleting a name as two requests restores every name, and every read of it then answers not found |
| Lifecycle.DeletedIsGone | internal/testserver/testserver.go:465-478 | so does deleting the only variant of a name at any time |
| Lifecycle.InjectedIsListed | internal/cli/inject.go:21-49 | after an injection a listing holds a row for the name exactly when its filters ask for one of its consumers and only for its tags, in any case; the row shows description, consumers, tags and times as injected |
| Lifecycle.UpdatedIsListed | internal/cli/update.go:19-52 | the same after an update: tags and consumers as given or, where none are, as they were |
| Lifecycle.CountIsListing | internal/testserver/testserver.go:657-671 | a consumer's secret count is the number of rows of a listing filtered by it |
| Lifecycle.EntryAgrees | internal/testserver/testserver.go:657-671 | a directory entry carries the key a lookup finds and that count |
| Lifecycle.RegisteredIsFound | internal/client/client.go:205-269 | a key registered for a consumer or for the owner is what the next lookup finds |
| Lifecycle.RemovedIsNotFound | internal/client/client.go:258-269 | a removed consumer is found no longer and counts no secrets |
| AuditPaging.AppendPage | internal/client/client.go:347-356 | the inner loop appends the page up to the cap |
| AuditPaging.NextPage | internal/client/client.go:326-346 | the page behind the cursor is the next stretch of the matches |
| AuditPaging.HistoriesGrow | internal/client/client.go:325-364 | whatever other clients do, the logs met only grow |
| AuditPaging.QueryAuditLog | internal/client/client.go:325-364 | with any requests in between, the result is the first matches (up to the cap) of the log at the last request: no gap, no duplicate, in id order, each carrying every wanted value; it terminates |
| AuditPaging.CostFormula | internal/client/client.go:326-363 | with n matches it makes n div 500 + 1 requests, or the cap divided by the page size, rounded up, when the cap is reached |
| AuditPaging.CapIsKeptIff | internal/client/client.go:347-356 | the result stays within the limit exactly for a limit of one or more, or zero without matches |
| AuditPaging.FirstMatchesMean | internal/client/client.go:325-364 | without a limit the result is all matches, with a positive one the first so many |
| AuditPaging.ZeroLimitBringsOne | internal/client/client.go:347-356 | with one matching entry and a limit of zero the result holds that entry |
| ConsumerPaging.HistoriesOnlyGrow | internal/client/consumers.go:34-63 | under requests that rename and remove nobody, the directories met only grow |
| ConsumerPaging.PageInRange | internal/testserver/testserver.go:628-645 | a page whose start fits 32 bits is computed without wrapping and is the next stretch of the matching entries |
| ConsumerPaging.FoundMeans | internal/testserver/testserver.go:599-653 | the names found are those listed that contain the query, ignoring case; all for an empty one |
| ConsumerPaging.Position | internal/client/consumers.go:40-62 | the i-th element gathered is the i-th of the list met by the request whose page covers i |
| ConsumerPaging.ListedIff | internal/client/consumers.go:31-62 | whatever happens in between, a name is listed exactly when some request meets it at a rank within that request's own page |
| ConsumerPaging.PresentIsListed | internal/client/consumers.go:31-62 | a name every request finds, with no fewer names before it each time, is listed |
| ConsumerPaging.KeptIsListed | internal/client/consumers.go:31-62 | so a name is listed when nothing up to it is removed, whatever happens behind it |
| ConsumerPaging.HistoriesKeepUpTo | internal/client/consumers.go:34-63 | that is so under any requests that rename or remove no name up to it |
| ConsumerPaging.RemovalHidesAnother | internal/client/consumers.go:31-62 | when one of the first hundred names goes between the two requests, the name at position 100 is missed though both requests find it |
| ConsumerPaging.ListedWasMet | internal/client/consumers.go:40-62 | every entry listed is one the directory had when some request met it |
| ConsumerPaging.GrowthListsAll | internal/client/consumers.go:31-62 | while names are only added, every matching name there was at first is listed |
| ConsumerPaging.QuietGathersAll | internal/client/consumers.go:31-62 | while nothing changes, exactly the sorted matching entries are listed, each once |
| ConsumerPaging.ListConsumers | internal/client/consumers.go:34-63 | it terminates after the first request that meets no more names than were asked for, never asks beyond the 32-bit range, and returns the pages gathered, with all of the guarantees above |
| ConsumerPaging.CostFormula | internal/client/consumers.go:40-62 | a directory of n matches takes max(1, n / 100 rounded up) requests |
| Quoting.QuoteReadsBack | internal/cliconfig/render.go:84-113 | every quoted string reads back as itself under the double-quoted escapes of YAML 1.2.2, sections 5.7 and 7.3.1 |
| Quoting.QuoteStaysOnLine | internal/cliconfig/render.go:84-113 | a quoted value contains no line break of any kind, Unicode ones included |
| Prompting.TrimTrims | internal/cliconfig/prompt.go:13-27 | what is kept of an answer carries no space at either end |
| Prompting.TrimCuts | internal/cliconfig/prompt.go:13-27 | and nothing but white space was cut off |
| Prompting.SpaceMeans | internal/cliconfig/prompt.go:13-27 | which characters are white space |
| Prompting.ConfigTidied | internal/cliconfig/prompt.go:155-210 | white space around what is typed makes no difference to the dialogue |
| Prompting.TypedComesBack | internal/cliconfig/prompt.go:155-210 | so answers come back however they are padded |
| Prompting.BlankDialogue | internal/cliconfig/prompt.go:155-188 | what the dialogue writes when no credential is typed: the five prompts in order, each plain one with its default |
| Prompting.SecretsStayHidden | internal/cliconfig/prompt.go:37-55 | nothing the dialogue writes depends on what a typed secret is |
| Prompting.Console.PromptValue | internal/cliconfig/prompt.go:13-27 | one answer or the default, reading one line |
| Prompting.Console.PromptSecret | internal/cliconfig/prompt.go:37-55 | a masked answer, reading no line |
| Prompting.Console.PromptPersistence | internal/cliconfig/prompt.go:83-116 | the four-way choice, reading a command's line only for that choice |
| Prompting.Console.PromptCredential | internal/cliconfig/prompt.go:194-210 | a blank answer skips the persistence question |
| Prompting.Console.PromptConfig | internal/cliconfig/prompt.go:155-188 | the five prompts in their order over one scanner |
| Prompting.AnswersComeBack | internal/cliconfig/prompt.go:155-210 | the script of any trimmed answers gives back those answers and leaves what follows to the next reader |
| ConfigFile.PersistCredential | internal/cliconfig/render.go:62-77 | the keyring changes at most under the field, and only when that was chosen, to hold the value; the file gets at most one of a literal and a command, and the value itself only when that was chosen |
| ConfigFile.Render | internal/cliconfig/render.go:84-113 | writes exactly the file's items, line by line |
| ConfigFile.SettingReadsBack | internal/cliconfig/render.go:89-110 | a written setting is one line that parses to its own key and value, whatever the value |
| ConfigFile.TextReadsBack | internal/cliconfig/render.go:84-113 | reading a written file gives exactly what its items say; no value spills into another key |
| ConfigFile.FileReadsBack | internal/cliconfig/render.go:84-113 | every setting of a rendered file is found under its own key, and a command only where one was chosen |
| ConfigRoundTrip.WriteInteractive | internal/cliconfig/prompt.go:155-188 | the dialogue, the persistence of both credentials and the rendering, in order |
| ConfigFile.ResolveMeans | internal/cliconfig/secret.go:14-38 | a command wins over the literal, which is then of no account; exactly one newline at the end of its output goes, and anything else stays |
| ConfigFile.CommandResolves | internal/cliconfig/secret.go:31-38 | the same in terms of what the shell prints for a command of the user's own, failure included |
| ConfigFile.KeyringResolves | internal/cliconfig/secret.go:14-38 | the generated reader gives back what the keyring holds, to the letter |
| ConfigRoundTrip.PersistedResolves | internal/cliconfig/secret.go:14-38 | resolving what was persisted gives what was chosen: the value typed, nothing, or a command's output less one final newline |
| ConfigRoundTrip.SecretsResolve | internal/cliconfig/secret.go:14-38 | both credentials resolve together: the second keyring entry does not disturb the first |
| ConfigRoundTrip.RoundTrip | internal/cliconfig/prompt.go:155-210 | typing any answers, with any space around them, persisting, rendering, reading back and resolving gives the plain settings and each credential as chosen |

## Left out

- HTTP transport, JSON encoding, routing, header and query parsing, status codes: a request is a method call.
- The hush-hush-go SDK with its own listing loop and error mapping; the consumer key and owner key lookups are read directly from the server's state under a write token.
- The age library: sealing is a value carrying the plain bytes and the set of recipient key pairs, with the parse failures by position, the refusal of an empty recipient list, and opening when an identity matches.
- Cobra and viper wiring, tables, man pages, signals, the terminal's masking: user interface. The written file is read by a line parser for the subset of YAML that is written.
- Keyring, shell and writer failures and the scanner's line limit: a keyring is a map, a shell a function from commands to outputs, and writing succeeds.
- Case folding outside ASCII, in tags and in directory queries.
- 64-bit audit ids and the 32-bit secret count of one entry, which are unbounded here; the 32-bit page arithmetic and total are modelled.
- One request reads the clock once; times are integers, and a run's clock never goes back.
- The entropy source failing: runs draw new, full-length suffixes (`Machine.Enabled`); what one failure does is stated by the index lemmas.
- The version-5 UUID of a slug is an injective function of the slug, distinct from every random id.
- Listing order when a name holds several variants; the source does not fix it either.
- The patch, delete, list, directory and token handlers, object tags set directly, the environment label and bootstrap status, the listing of tokens, the edit flow: they wrap operations that are modelled.
- Configuration files written by hand, the starter file, validation and error texts.
- The source's library sort is an insertion sort here.
- Cli.RunInject: what its lookups meet is a sequence of servers and clock readings, one for each request, unrelated to one another; the last is the store that the write changes.
- Cli.RunUpdate: likewise.
- AuditPaging.QueryAuditLog: takes the logs its successive requests meet as a sequence; `AuditPaging.HistoriesGrow` ties that sequence to runs of the server. The body of the loop is a method of its own.
- ConsumerPaging.ListConsumers: likewise takes the directories met, each small enough for a 32-bit count.
- Access.ReadScope: for stores with one variant a name, as all runs without seeding keep.
