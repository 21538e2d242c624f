# A model of the MikroTik operator

The operator writes routes, firewall rules, DNS records and port forwards to MikroTik routers on behalf of
Kubernetes objects. It may crash, lose a connection or meet a conflicting edit between any two calls, so what it
does is governed by durable records: a finalizer and a list of router references on every managed object, and a
history of endpoints on every `MikroTikRouter`. This project models that bookkeeping and the transformations around
it, and proves what they promise.

| module | about |
|---|---|
| `Targets` | router references and the annotation that lists them |
| `Cluster`, `ClusterSafety`, `ClusterRuns` | the write-ahead cleanup protocol as a transition system, and its invariant |
| `ClusterTheorems`, `ClusterCare`, `ClusterLeak` | where exactly an entry is lost and why, runs that lose nothing, three runs that leak |
| `ClusterStories`, `ClusterSweeps` | what the pass of an object or a router has done before it stores anything, over whole runs |
| `RoutePasses`, `RouterPasses`, `EndpointHistory` | progress of one object and of one router, the endpoint history loop |
| `Claims` | arbitration between records that claim the same hostname or port |
| `Fence` | the reference-counted lock registry, as a protocol and as classes |
| `RestoreScript`, `RestoreChunks`, `RestoreMeaning`, `RestoreReread` | the restore-script splitter, on statements and on text |
| `RestoreLexis`, `RestoreWords` | its quotes, braces, escapes, line ends, menu paths and comments, apart from the scanner |
| `Comments`, `Table`, `Ownership`, `Firewall`, `Nat`, `Routes`, `Client` | device tables and the client that converges them |
| `Ensured` | what the converged entries look like, attribute by attribute |
| `Hops`, `RouteCandidates`, `OwnedRoutes` | gateways, names and owned children of cluster routes |
| `Hostnames`, `PortForwards`, `KubeName` | hostname intersection, port-forward candidates, the name sanitizer |
| `Text` | strings as Go's `strings` package treats them |

`dafny verify dfyconfig.toml` checks everything.

## What turned out not to hold

- **The cleanup of an object can miss an entry, in three ways.** `ClusterTheorems.HistoryLoss` gives the exact steps
  at which an entry gets out of reach of every later cleanup, and `ClusterTheorems.OrphanStory` the earlier step of
  the same pass that is to blame. `ClusterLeak` has a run from the empty cluster for each:
  - *A device handed over to another router* (`HandoverLeaks`). When users move an endpoint from router A to router B
    before A has swept it, A finds it claimed by B and drops it from its history without a sweep
    (`internal/controller/router_controller.go:187-196`).
  - *A Secret that is missing* (`SecretLeaks`). `connectRouterClients` returns the "not found" of a credentials Secret
    unchanged (`internal/controller/router_helpers.go:319-323`), and `cleanupRouterTargets` takes every "not found" for
    a missing router (`internal/controller/router_helpers.go:250-253`). The target counts as cleaned, and the finalizer
    goes, or the annotation is compacted, while the entry is still there.
  - *A blank Secret name* (`BlankLeaks`). Admission asks for one character, so " " is accepted. The pass that holds the
    fence reads the router again without validating it and stores the blank endpoint in the history
    (`internal/controller/router_controller.go:74-95`), where `routerCleanupEndpoints` leaves it out.

  `ClusterCare.RemovedObjectLeavesNothing` shows that nothing is left behind in any run that avoids these three.
- **An entry can be hidden from the arbitration of claims.** A collision whose cleanup fails still stores the collision
  text, which the winner takes as a yield (`internal/controller/router_controller.go:432-436`), and a cleanup that finds
  a Secret missing counts as done (`internal/controller/router_controller.go:496-498`), also when the record is deleted.
  `Claims.FailedCleanupDoubles` and `Claims.HiddenLeaveDoubles` reach two entries on the device; `Claims.OneEntry` shows
  there is never more than one unless a record reports a yield or disappears while its entry is there.
- **A continuation line before an empty line swallows the next statement.** The statement then ends in a newline of
  its own, none is added, and the device reads it together with what follows. `RestoreReread.RereadExactly` says
  exactly which chunks are read back as they were built, and `ContinuationSwallowsNext` gives a script of two commands
  of which the device runs one. Path lines
  that span several lines are re-injected by their first line only; `BadTextMerges` covers that too.
- **Two inputs of the client's interface never settle**: a firewall rule that asks for a place but names no chain
  (`Firewall.EnsureSettlesExactly`) and a route with a negative distance (`Routes.EnsureOneSettlesExactly`) are deleted
  and added on every call. The operator's own reconcilers pass neither: they refuse an empty chain
  (`internal/controller/router_controller.go:2732-2734`), and the resource definition wants a distance of at least 1.
- **The name sanitizer changes some valid names**: two hyphens in a row become one, although DNS-1123 allows them
  (`KubeName.UnchangedExactly`, `KubeName.DoubleHyphenIsValid`).

## Model

| member | source | states |
|---|---|---|
| Targets.RefRoundTrip | internal/controller/router_controller.go:517-545 | a reference stored for a router leads back to the same router, from any namespace, and the annotation can carry it |
| Targets.EncodeRoundTrip | internal/controller/router_helpers.go:163-200 | writing a set of targets and reading it back gives the same set |
| Targets.SingleRoundTrip | internal/controller/router_helpers.go:202-220 | a compacted annotation records exactly its one target |
| Targets.DurableRouterTargets | internal/controller/router_helpers.go:163-185 | the loop returns the sorted, repetition-free list of the trimmed non-empty targets |
| Targets.PersistTargets | internal/controller/router_helpers.go:187-200 | the stored value is the canonical encoding of old and new targets, and a write is reported exactly when it differs |
| ClusterRuns.StepKeepsInv | internal/controller/router_controller.go:2580-2688 | every step of users, object workers and router workers, failures, missing Secrets and blank endpoints included, keeps the protocol's invariant |
| ClusterTheorems.EntriesAreTracked | internal/controller/router_controller.go:2580-2688 | in every run an entry on a device is an orphan, or its object has the finalizer and records its router, whose cleanup visits the device |
| ClusterTheorems.HistoryLoss | internal/controller/router_helpers.go:222-258 | a step orphans an entry if and only if it is one of three kinds of write, and each of those has a claim, a missing Secret or a blank record behind it |
| ClusterTheorems.NothingIsLostExactly | internal/controller/router_helpers.go:222-258 | a run keeps every entry in reach if and only if none of its steps is such a write |
| ClusterTheorems.OrphanStory | internal/controller/router_controller.go:178-213 | over whole runs, every orphan was lost at such a write, and earlier in the same pass another live router listed the device or a Secret of its router was missing, or the history has a blank record |
| ClusterTheorems.ClaimsAreReal | internal/controller/router_helpers.go:91-108 | an endpoint comes to count as claimed exactly where another router that is not being deleted has it in its configuration at that moment |
| ClusterTheorems.MissesAreReal | internal/controller/router_helpers.go:319-323 | a target is given up only where a Secret of its router is missing at that moment |
| ClusterTheorems.RecordedBeforeContact | internal/controller/router_controller.go:57-70 | no endpoint is contacted in the pass that first records it |
| ClusterTheorems.ChildWritesAreListed | internal/controller/router_helpers.go:24-56 | a child writes only to endpoints already in the history of the router it locked |
| ClusterTheorems.RemovedObjectLeavesOnlyOrphans | internal/controller/router_controller.go:2586-2597 | once the finalizer is gone, any entry left is an orphan |
| ClusterCare.RemovedObjectLeavesNothing | internal/controller/router_controller.go:2586-2597 | once the finalizer is gone no device holds an entry, in every run without a claimed endpoint, a missing Secret or a blank endpoint under the fence |
| ClusterCare.OneRouterPerDevice | internal/controller/router_controller.go:2586-2597 | the same when users configure every device on one router, Secrets are found and no blank endpoint gets past the validation |
| ClusterLeak.HandoverLeaks | internal/controller/router_controller.go:187-196 | a run from the empty cluster that hands an endpoint over and ends with an entry of an object that is gone |
| ClusterLeak.SecretLeaks | internal/controller/router_helpers.go:250-253 | the same after a Secret is deleted, with one router that still lists the device |
| ClusterLeak.BlankLeaks | internal/controller/router_controller.go:74-95 | the same after an edit to a blank Secret name between validation and fence, with no failing call |
| ClusterStories.ActiveMeans | internal/controller/router_helpers.go:24-56 | a router takes configuration exactly if it stays, has the finalizer, and its configuration and its history, not empty, name the same devices |
| ClusterStories.AppliedStory | internal/controller/router_controller.go:2662-2687 | over whole runs, an object becomes applied only at the end of a pass that locked an active router and wrote to every endpoint it had then; the status and the annotation name that router |
| ClusterStories.StatusStory | internal/controller/router_controller.go:2657-2687 | over whole runs, the status comes to name a router only with such a pass, and comes to name none only together with "not applied" |
| ClusterStories.FailureStory | internal/controller/router_controller.go:2598-2634 | a pass that reports a failure, reads an incomplete object, cannot resolve its reference, or has no router chosen and none recorded stores "not applied" and changes nothing else |
| ClusterStories.ConnectStory | internal/controller/router_helpers.go:308-339 | over whole runs, an entry is written or erased only after the pass has connected, under the fence, to every endpoint it will work on, each with its Secret there |
| ClusterStories.FinalizerStory | internal/controller/router_controller.go:2586-2597 | over whole runs, a finalizer goes only from an object being deleted, after its pass has handled every target that annotation, status and specification name |
| ClusterStories.CompactionStory | internal/controller/router_controller.go:2646-2656 | over whole runs, a recorded target is dropped only after its pass has handled every target of annotation and status but the one that is kept |
| ClusterStories.ImplicitStory | internal/controller/router_controller.go:2617-2627 | a pass without a chosen router that stores something, with an annotation and no failure, has handled every recorded target and leaves no annotation |
| ClusterStories.ImplicitRecords | internal/controller/router_controller.go:2611-2616 | with only the status left, such a pass records the router of the status first |
| ClusterStories.ResolvedRecords | internal/controller/router_controller.go:2636-2645 | a pass that resolves its reference first records that router next to all that is recorded, and nothing else changes |
| ClusterSweeps.ClaimedExactly | internal/controller/router_helpers.go:91-108 | a pass sorts a device into the claimed ones exactly if another router that stays lists it, and else into those it sweeps |
| ClusterSweeps.SweepStory | internal/controller/router_controller.go:142-213 | over whole runs, a device is swept only in a pass that read the router under its fence, has the device to clean (for a live router: no longer configured) and found no other router that stays listing it; nothing managed is left on it |
| ClusterSweeps.HistoryStory | internal/controller/router_controller.go:178-213 | over whole runs, a device leaves the history of a router that stays only if it is no longer configured and, in that pass, was swept, was listed by another router that stays, or had no usable record |
| ClusterSweeps.RemovalStory | internal/controller/router_controller.go:142-176 | over whole runs, a router loses its finalizer and disappears only when being deleted, after every usable device of its history was swept or found listed elsewhere |
| RoutePasses.PassIsRun | internal/controller/router_controller.go:2601-2687 | the effect of a whole pass is that of a run of single steps of the worker |
| RoutePasses.PassesAreRuns | internal/controller/router_controller.go:2601-2687 | any number of passes in a row is such a run |
| RoutePasses.UnionSettles | internal/controller/router_helpers.go:187-200 | persisting the union once makes a second persist a no-op |
| RoutePasses.RankDecreases | internal/controller/router_controller.go:2601-2687 | every pass before the applying one decreases a measure |
| RoutePasses.AppliedWithinFivePasses | internal/controller/router_controller.go:2601-2687 | from any state whose status holds nothing or a reference the operator could have stored, five passes reach Applied with the entry on every endpoint of the router |
| RoutePasses.AppliedExactly | internal/controller/router_controller.go:2636-2662 | with a compact annotation the entries in reach are on that router's endpoints and nowhere else |
| RouterPasses.PassStory | internal/controller/router_controller.go:39-122 | over whole runs, what a router's pass that ends well stores: nothing for an incomplete router, then the finalizer, then the union of endpoints, then, after its sweep, the configuration as history; a router being deleted is gone |
| RouterPasses.UnionSettled | internal/controller/router_controller.go:246-270 | recording the current endpoints a second time changes nothing |
| RouterPasses.EnrolledWithinThreePasses | internal/controller/router_controller.go:39-122 | a complete router left alone takes configuration, with its history equal to its configuration, after three passes that end well, and from then on, whatever all other workers do |
| EndpointHistory.DurableEndpointUnion | internal/controller/router_controller.go:246-270 | the index-map loops compute the union of the two lists, with distinct device keys |
| EndpointHistory.NewestWins | internal/controller/router_controller.go:257-266 | each endpoint of the union is the newest record of its device |
| Claims.BeatsTotal | internal/controller/router_controller.go:2253-2266 | priority decides between any two actors |
| Claims.BeatsTransitive | internal/controller/router_controller.go:2253-2266 | priority is transitive |
| Claims.ConflictByPriority | internal/controller/router_controller.go:2253-2266 | an owner with a record of its own waits for exactly the actors it beats and collides with the others |
| Claims.Preflight | internal/controller/router_controller.go:1986-2133 | the loops over children, DNS records and port forwards clear the candidates exactly when every read succeeds and nothing of another owner stands in the way; a conflict is with a foreign child, or with the first record in the way, and waits or collides by class, own claim and key; an error means a failed read |
| Claims.ConflictsAreJudged | internal/controller/router_controller.go:2253-2266 | a direct owner waits for a generated one and a generated one collides with it; of the same class an owner without a claim collides, and with one the smaller key waits; against a child no claim counts |
| Claims.CheckIsListVerdict | internal/controller/router_controller.go:2060-2133 | the arbitration step of the run model is what the two loops say about its records, in whatever order they are listed |
| Claims.OneApplied | internal/controller/router_controller.go:1950-1984 | over every run at most one contender for a claim is Applied |
| Claims.OneEntry | internal/controller/router_controller.go:417-475 | over every run in which no record reports a yield or disappears while its entry is on the device, at most one entry is there |
| Claims.OneEntryIfCleaned | internal/controller/router_controller.go:417-475 | in particular over every run in which no cleanup leaves the entry and no record disappears with its entry there |
| Claims.FailedCleanupDoubles | internal/controller/router_controller.go:431-438 | a yield reported after a cleanup that left the entry makes two entries reachable |
| Claims.HiddenLeaveDoubles | internal/controller/router_controller.go:478-500 | so does a record that disappears after such a cleanup |
| Fence.MutualExclusion | internal/controller/router_fence.go:46-68 | in every interleaving each key has at most one holder and its users share one entry |
| Fence.EntryLivesWhileUsed | internal/controller/router_fence.go:70-77 | `refs` counts waiters, holders and releases, and the map holds an entry exactly while it is used |
| Fence.ReleaseNeverBlocks | internal/controller/router_fence.go:63-66 | the token send of a release never blocks |
| Fence.FreeFenceCanBeTaken | internal/controller/router_fence.go:57-62 | a fence that nobody holds can be taken by any waiter |
| Fence.Registry.Enter | internal/controller/router_fence.go:46-55 | the locked section of acquire performs the protocol's enter step |
| Fence.Registry.Await | internal/controller/router_fence.go:57-62 | the select of acquire takes the token or gives up, as the protocol does |
| Fence.Registry.SendToken | internal/controller/router_fence.go:63-64 | the send finds the channel empty and performs the return step |
| Fence.Registry.ReleaseReference | internal/controller/router_fence.go:70-77 | dropping a reference performs the drop step and deletes the entry with the last one |
| RestoreScript.ScanLine | internal/routeros/export.go:240-270 | the byte loop computes the scanner's quote and brace state |
| RestoreLexis.PlainTextCountsBraces | internal/routeros/export.go:258-266 | over text without quotes and backslashes the depth is the count of braces, never below zero |
| RestoreLexis.EscapeIsNeutral | internal/routeros/export.go:244-251 | a backslash and the byte after it change nothing |
| RestoreLexis.BodyIsText | internal/routeros/export.go:252-257 | inside quotes everything up to the same quote is text |
| RestoreLexis.LexemesScan | internal/routeros/export.go:240-270 | for a text of quoted strings, escapes and bare bytes only the braces among the bare bytes count |
| RestoreLexis.AcceptedExactly | internal/routeros/export.go:231-233 | a script is accepted exactly if its text consists of these and its bare braces are closed |
| RestoreLexis.ContinuesExactly | internal/routeros/export.go:220-223 | a line is continued exactly if it ends in a backslash but for blanks and tabs |
| RestoreLexis.StatementsEndFirst | internal/routeros/export.go:214-237 | the statements are the lines, cut wherever a statement can first end, without the blank ones |
| RestoreLexis.BraceBlockIsOneStatement | internal/routeros/export.go:206-238 | a braced block over any number of lines is one statement |
| RestoreLexis.QuotedBlockIsOneStatement | internal/routeros/export.go:206-238 | so is a quoted string over any number of lines, whatever braces it has |
| RestoreLexis.LinesEnd | internal/routeros/export.go:207-209 | a line ends at a newline, a carriage return, or both together |
| RestoreScript.ScanLinesIsScanText | internal/routeros/export.go:214-219 | scanning line by line gives the state of one scan over the whole text |
| RestoreScript.GroupsPartition | internal/routeros/export.go:214-230 | the groups, blank ones included, are the script's lines in order |
| RestoreScript.RefusedIffUnbalanced | internal/routeros/export.go:231-233 | a script is refused exactly when a scan of its normalised text ends inside a quote or brace |
| RestoreScript.StatementsAreBalanced | internal/routeros/export.go:206-238 | every statement is balanced on its own |
| RestoreScript.RestoreStatements | internal/routeros/export.go:206-238 | the loop over a text builder returns the non-blank groups |
| RestoreChunks.PackStatements | internal/routeros/export.go:163-199 | the loop with its retry terminates and renders the packed chunks |
| RestoreChunks.SplitRestoreScript | internal/routeros/export.go:155-204 | the result or error is that of grouping and packing |
| RestoreWords.PathsExactly | internal/routeros/export.go:272-315 | a statement is a menu path exactly if its first line starts with a slash and no word of it is a verb, the last component of a leading path included |
| RestoreWords.CommentsExactly | internal/routeros/export.go:280-282 | a statement is a comment exactly if its first character that is not white space is a hash |
| RestoreWords.FieldsAreWords | internal/routeros/export.go:291-306 | the fields of a line are the longest stretches without white space |
| RestoreMeaning.ChunksAreBounded | internal/routeros/export.go:186-194 | every chunk is non-empty and within the bound |
| RestoreMeaning.ChunksKeepStatements | internal/routeros/export.go:175-199 | without injected paths the chunks are the statements, in order, each once |
| RestoreMeaning.ChunksAreForced | internal/routeros/export.go:189-193 | a chunk is closed only when what opens the next would not have fitted |
| RestoreMeaning.InjectionsAreNeeded | internal/routeros/export.go:182-185 | a path line is put only right before a command, with nothing but comments before it in its chunk |
| RestoreMeaning.FittingScriptsSplit | internal/routeros/export.go:186-188 | a script whose statements each fit with their path is split |
| RestoreMeaning.SplitScriptsFit | internal/routeros/export.go:186-188 | a script with an oversized statement is refused |
| RestoreMeaning.ChunksKeepMeaning | internal/routeros/export.go:175-199 | running the chunks, each from the root menu, runs the same commands in the same menus and order |
| RestoreMeaning.SplitKeepsScript | internal/routeros/export.go:155-204 | all of this for every script the splitter accepts |
| RestoreReread.RereadExactly | internal/routeros/export.go:206-238 | a chunk's text is read back as its statements exactly when all but the last are closed and end without a newline |
| RestoreReread.StatementsAreClosed | internal/routeros/export.go:206-238 | the statements of a script that does not stop inside a continuation are closed |
| RestoreReread.ImportKeepsMeaning | internal/routeros/export.go:155-204 | the device, reading the chunk texts, runs what the script says |
| RestoreReread.BadTextMerges | internal/routeros/export.go:179-185 | a text that is not closed spoils the chunk it is put in front of |
| RestoreReread.ContinuationSwallowsNext | internal/routeros/export.go:175-177 | a script of two commands that the device runs as one |
| Comments.OneOwner | internal/routeros/client.go:608-614 | a comment lies under at most one (kind, namespace, name) |
| Comments.OwnedIsManaged | internal/routeros/client.go:608-618 | whatever lies under a managed comment is managed |
| Comments.CommentText | internal/routeros/client.go:608-614 | the comment of an object as text |
| Comments.ManagedText | internal/routeros/client.go:608-618 | an entry is managed exactly if its comment is the operator's mark, alone or before a slash |
| Ownership.ForeignEntriesStay | internal/routeros/client.go:559-576 | changing nothing outside one owner's comment leaves other owners' and unmanaged entries unchanged and in order |
| Client.Menu.ManagedEntries | internal/routeros/client.go:578-591 | the loop selects the printed entries that match |
| Client.Menu.FirstIdsByChain | internal/routeros/client.go:425-451 | the map holds the first entry of every named chain |
| Client.Menu.RulePrecedesUnmanaged | internal/routeros/client.go:453-483 | the two loops decide whether the rule comes before all unmanaged rules of its chain |
| Client.Menu.DeleteMatching | internal/routeros/client.go:565-576 | on success exactly the matching entries are gone; on failure all others are still there |
| Client.Menu.EnsureFirewallRule | internal/routeros/client.go:354-423 | on success the table is the specified one; on failure nothing outside the comment has changed |
| Client.Menu.EnsurePortForward | internal/routeros/client.go:279-348 | the same for a port forward |
| Client.PairInPlace | internal/routeros/client.go:288-309 | the comparison loop accepts exactly one matching entry of each kind and nothing else |
| Client.Menu.EnsureRoute | internal/routeros/client.go:510-528 | the same for a route |
| Client.Menu.EnsureDns | internal/routeros/client.go:250-275 | the same for a DNS record |
| Client.Menu.PruneRoutes | internal/routeros/client.go:529-544 | unwanted entries under the prefix are removed, and nothing else |
| Client.Menu.EnsureRoutes | internal/routeros/client.go:529-551 | the same for a route with several gateways |
| Firewall.AheadMeans | internal/routeros/client.go:471-482 | the scan is the position property: no unmanaged rule of the chain comes earlier |
| Firewall.EnsureSettlesExactly | internal/routeros/client.go:354-423 | a second call changes nothing if and only if a placed rule names a chain |
| Ensured.EnsuredRule | internal/routeros/client.go:354-423 | after the call exactly one entry has the comment, and its twelve attributes read as the rule's fields, empty ones included |
| Ensured.RuleIsLeftAloneExactly | internal/routeros/client.go:354-423 | a table is left alone exactly if it has that one entry with these attributes, in front of the unmanaged ones if asked for |
| Firewall.EnsureKeepsOthers | internal/routeros/client.go:354-423 | entries outside the comment keep content and order |
| Firewall.EnsureKeepsInPlace | internal/routeros/client.go:354-423 | ensuring one rule moves no other out of place |
| Firewall.EachInPlace | internal/routeros/client.go:354-423 | after ensuring each of a set of rules once, in any order, all are in place |
| Firewall.SecondRoundIsQuiet | internal/routeros/client.go:354-423 | a further round, in any order, changes nothing |
| Firewall.UnmanagedStay | internal/routeros/client.go:354-423 | unmanaged rules keep their content and relative order |
| Firewall.PlacedRulesLead | internal/routeros/client.go:412-483 | after the round placed rules come before every unmanaged rule of their chain |
| Nat.EnsurePutsInPlace | internal/routeros/client.go:279-348 | from any table exactly one matching entry of each kind is left, and a second call changes nothing |
| Nat.EnsureKeepsOthers | internal/routeros/client.go:279-348 | entries outside the comment keep content and order |
| Ensured.EnsuredForward | internal/routeros/client.go:279-348 | after the call the two entries under the comment read, attribute by attribute, as the port forward |
| Ensured.ForwardIsLeftAloneExactly | internal/routeros/client.go:279-348 | a table is left alone exactly if it has that pair and nothing else under the comment |
| Ensured.NewForwardLeads | internal/routeros/client.go:310-348 | a pair that is added comes first in its two chains |
| Routes.EnsureOneSettlesExactly | internal/routeros/client.go:510-528 | a second call changes nothing if and only if the distance is not negative or the route was in place |
| Routes.EnsureOneKeepsOthers | internal/routeros/client.go:510-528 | entries with other comments keep content and order |
| Ensured.EnsuredRoute | internal/routeros/client.go:510-528 | after the call one entry has the comment, with this destination, gateway and distance |
| Ensured.RouteIsLeftAloneExactly | internal/routeros/client.go:510-528 | a table is left alone exactly if that entry is there, alone |
| Routes.EnsureAllPutsInPlace | internal/routeros/client.go:529-551 | exactly one route per distinct gateway under the prefix, others untouched |
| Routes.EnsureAllIsQuiet | internal/routeros/client.go:529-551 | a second call changes nothing |
| Ensured.EnsuredRoutes | internal/routeros/client.go:529-551 | every gateway has one entry with the destination and that gateway, and every entry under the prefix is a gateway's |
| Routes.EnsureDnsSettles | internal/routeros/client.go:250-278 | one matching record, others untouched, no change on a second call |
| Ensured.EnsuredDns | internal/routeros/client.go:250-275 | after the call one record has the comment, with this name, address and time to live |
| Ensured.DnsIsLeftAloneExactly | internal/routeros/client.go:250-275 | a table is left alone exactly if that record is there, alone |
| Hops.DesiredHops | internal/controller/cluster_routes.go:204-257 | the loops merge overrides and node addresses, each once with its origin, and fail exactly when needed nodes cannot be read |
| Hops.EndpointsGetTheirOwn | internal/controller/cluster_routes.go:281-287 | filtering the merged list gives each endpoint exactly the gateways it would have had alone |
| Hops.EndpointGateways | internal/controller/cluster_routes.go:259-287 | an endpoint takes its own gateway if it has one, else the router's, else every named node address |
| Hops.OriginsSay | internal/controller/cluster_routes.go:204-257 | the origin of a gateway says exactly whether it is configured, a needed node address, or both |
| Hops.NodesAreNeeded | internal/controller/cluster_routes.go:218-250 | the nodes are needed exactly if there is no endpoint, or one without a gateway of its own on a router without one |
| RouteCandidates.KeysIdentify | internal/controller/cluster_routes.go:143-145 | the text hashed into a route's name identifies service, address and gateway |
| RouteCandidates.DesiredCandidates | internal/controller/cluster_routes.go:127-159 | candidates have distinct names, come from eligible services, and cover every hop |
| RouteCandidates.NameIdentifies | internal/controller/cluster_routes.go:143-155 | with an injective hash a covered hop has a candidate with its own destination and gateway |
| RouteCandidates.CandidatesRoute | internal/controller/cluster_routes.go:127-159 | a candidate is exactly the route to a cluster address with /32 through one of its hops, with that hop's origin and the name hashed from these |
| OwnedRoutes.Store.Reconcile | internal/controller/cluster_routes.go:45-125 | success leaves the owner's children equal to the candidates; other objects are never touched; a settled store gets no write |
| OwnedRoutes.ReconciledIsSettled | internal/controller/cluster_routes.go:45-125 | with no name taken the outcome has exactly the candidates as children |
| OwnedRoutes.ReconcileTwice | internal/controller/cluster_routes.go:45-125 | reconciling again changes nothing |
| OwnedRoutes.ChildrenAre | internal/controller/cluster_routes.go:55-115 | every candidate has its route with this owner, router, destination, gateway and origin; one that had them stays as it was, any other gets the source label |
| Hostnames.TextIsLabels | internal/controller/router_controller.go:1772-1775 | on host names the text comparison is Gateway API matching, label by label |
| Hostnames.TextMatchesExactly | internal/controller/router_controller.go:1772-1775 | as text, a wildcard stands for anything but nothing in front of its tail |
| Hostnames.IntersectionIsExact | internal/controller/router_controller.go:1745-1775 | the returned pattern matches, label by label, exactly the hosts both inputs match |
| Hostnames.NoneMeansDisjoint | internal/controller/router_controller.go:1745-1775 | for patterns without empty labels failure is reported exactly when no host matches both |
| Hostnames.IntersectionCommutes | internal/controller/router_controller.go:1745-1775 | the order of the inputs does not matter |
| Hostnames.CaseAndDotDoNotMatter | internal/controller/router_controller.go:1745-1748 | case and one trailing dot do not matter, and the result has no capitals |
| Hostnames.PlainNamesStay | internal/controller/router_controller.go:1745-1748 | a name without capitals and trailing dot stands for itself |
| Hostnames.AcceptedHostnames | internal/controller/router_controller.go:1729-1743 | the accepted names match exactly the hosts that listener and route both match |
| PortForwards.Prepare | internal/controller/router_controller.go:2325-2419 | it succeeds exactly on consistent requests; the candidates are the listed ports, pairwise distinct on protocol and port |
| PortForwards.ListedPortsAreEntries | internal/controller/router_controller.go:2351-2386 | every listed port of an eligible service with a supported protocol is represented |
| PortForwards.PreparedExactly | internal/controller/router_controller.go:2351-2416 | the candidates are exactly the ports of eligible services with their protocol and, for a NodePort service, the node's address and the node port |
| KubeName.SanitizeName | web/ui/src/utils/k8sName.ts:12-30 | the reassignments compute the specified rewriting, at most 253 characters long |
| KubeName.SanitizedIsValid | web/ui/src/utils/k8sName.ts:12-46 | a finished name is empty or passes the validation |
| KubeName.AcceptedExactly | web/ui/src/utils/k8sName.ts:32-46 | a name is accepted exactly if it has 1 to 253 characters and every part between dots is made of letters, digits and hyphens, with a letter or digit at both ends |
| KubeName.SanitizeTwice | web/ui/src/utils/k8sName.ts:12-30 | sanitizing again changes nothing |
| KubeName.UnchangedExactly | web/ui/src/utils/k8sName.ts:12-46 | the fixed points are the empty name and the valid names without two hyphens in a row |
| KubeName.RunBecomesHyphen | web/ui/src/utils/k8sName.ts:12-30 | a longest run of forbidden characters becomes one hyphen |
| KubeName.RunCollapses | web/ui/src/utils/k8sName.ts:12-30 | a longest run of hyphens, or of dots, becomes one |
| KubeName.HyphensBeforeDotGo | web/ui/src/utils/k8sName.ts:12-30 | hyphens before a dot go, and nothing else |
| KubeName.HyphensAfterDotGo | web/ui/src/utils/k8sName.ts:12-30 | hyphens after a dot go, and nothing else |
| KubeName.EndsGo | web/ui/src/utils/k8sName.ts:12-30 | hyphens and dots at the ends go, and nothing else |

## Left out

Assumptions of the protocol model:

- API reads are linearizable, writes are checked against the resource version, and each object and each router has one worker. Only the operator writes the annotation, the finalizer and the status.
- The outcome of resolving a router reference, and of the check that no other router lists an endpoint, is left open: every outcome is allowed, so the theorems hold for whatever those checks say. So is whether a router's own pass can connect to an endpoint it sweeps.
- Endpoint identity (address, port and TLS after IP parsing) is an abstract key, empty for a blank address.
- A missing router is skipped by a cleanup, as in the code; that its devices are clean is part of the invariant.
- A reference resolves to a key made of valid names; references that no router can bear (with a comma or a second slash) are not modelled.
- Progress is claimed only when the reference resolves to a router that can be connected to; the branch for implicit selection alternates between persisting and compacting while `Status.RouterRef` is set. Its safety is covered.
- An orphan stays one until its entry is erased, swept or written again, also when a user repairs the blank record meanwhile.
- RoutePasses.AppliedWithinFivePasses: covers objects that write to every endpoint of their router; a generated route that skips endpoints is covered by the safety theorems only.

Weaker or narrower than the code:

- ClusterStories.AppliedStory: an endpoint that a generated route skips counts as written to when the entry is removed there; which endpoints these are is left open in the protocol model, and stated by `Hops.EndpointGateways`.
- ClusterStories.ResolvedRecords: an annotation that records just the wanted targets, written in some other form, is stored again in canonical form; that store is not described.
- RouterPasses.EnrolledWithinThreePasses: that three passes end well is a condition; calls may fail for ever.
- Claims.OneApplied: one record per actor whose specification does not change while it contends; that a message contains the winner's key is taken as naming the winner. Port-forward claims are the same system with another key.
- Claims.OneEntry: for the same runs; its condition rules out the two ways to hide an entry, and whether a hidden entry leads to a second one depends on who comes next.
- RestoreReread.ImportKeepsMeaning: the converse for whole scripts is not stated, because whether a bad statement does harm depends on where chunks are cut; `RereadExactly` has both directions for one chunk.
- RestoreMeaning.FittingScriptsSplit: together with `SplitScriptsFit` it brackets success; between the two it depends on where chunks are cut.
- OwnedRoutes.Store.Reconcile: nobody else writes the namespace's routes during the call, so the "already exists" and "not found" answers to a create and a delete do not arise.
- Hostnames.IntersectionIsExact: speaks of patterns after the code's own normalisation, which strips one trailing dot, and of hosts without empty labels; lower-casing is ASCII.
- PortForwards.Prepare: candidates carry the fields their hashed names are made of instead of the names.
- KubeName.SanitizeTwice: lower-casing is a parameter that leaves letters a-z, digits, hyphens and dots alone.
- Text functions treat a `char` as a byte, and only ASCII white space as white space.

Not modelled:

- Dialing, TLS, login, deadlines and `runRouterOSOperation`; uploading and importing the restore file.
- Watches, `cmd/`, RBAC, the chart, `hack/`, `internal/uiapi`, the web UI apart from the name sanitizer, `skills/`.
- The DNS and PortForward reconcilers' own durable-target steps, which repeat those of routes and firewall rules.
- `reconcileServicePortForwards` and the generated DNS children, which reconcile owned children as `OwnedRoutes` does.
- SHA-1 naming, IP parsing, label selectors and `ReferenceGrant` lookups.
- Backup, export and the small accessors around them.
