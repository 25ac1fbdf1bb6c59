# The BGP process of XORP, modelled and verified

This project models the parts of XORP's BGP implementation in which several objects have to stay in
step over long sequences of events, and proves what the process relies on in them:

- the **next-hop resolver**: a cache of answers from the RIB with two indexes, a queue of requests
  with one in flight, and next hops whose reference counts move between the two;
- the **background dump** of all routes to a peering that comes up, while other peerings go down,
  come back and change their routes;
- **prefix aggregation**: the stream of messages that an aggregation table sends downstream;
- the **route trie** with its circular chains of routes that share their attributes;
- **AS paths** in two- and four-byte form, and how an AS4_PATH is merged back or patched up (RFC 4893);
- **path attributes** of every type the code knows, decoded and encoded, and **lists** of them:
  canonical form, lazy decoding, the order of stored lists, the manager that stores each list once,
  and the multiprotocol attributes (RFC 4760);
- the **finite state machine** of a peer (RFC 4271);
- the **flow-controlled queue** of route commands to the RIB.

## How it is built

Each part has the same shape. A `...Model` module holds the operations as functions on values. A
class performs them on mutable state, in the form the C++ code has (objects with fields, linked
nodes, arrays, loops), and each of its methods is proved to do exactly what the function says,
including when it aborts. A `...Safety` module (or one named after its theorem) proves what holds of
the functions: of one step, and of every run.

`Outcome.Abort` stands for XLOG_ASSERT, XLOG_FATAL and XLOG_UNREACHABLE. Theorems about runs speak of
runs that do not abort; where an assertion cannot fire, or fires exactly under some condition, that is
a theorem of its own. Everything that comes from outside (replies, callbacks, timers, the socket, the
table downstream, what the transport accepts) is an argument of an event, and a predicate `Legal`,
`Wellformed` or `Startable` says what is asked of it.

Addresses and subnets are bit strings, a subnet being its prefix; `Nets.Precedes` is the order in
which tries iterate. The RIB is taken to answer a registration with a range that holds the next hop
asked for and overlaps no range still cached.

Some things turned out otherwise than one would like, and are stated as they are, each with an input
and with the exact condition:

- Invalidating a cached range aborts if one of its next hops already has a re-registration waiting,
  and a run reaches that state (`NextHopAnswers.InvalidationAborts`,
  `NextHopWitness.InvalidationCanAbort`).
- A RESOLVE_FAILED reply drops the references in the queue, and no request is sent ever after
  (`NextHopSafety.CutOffForGood`, `NextHopWitness.CutOffLosesReferences`).
- Deleting the last component of an aggregate leaves the aggregate downstream if the component's own
  attributes look like those of no component at all (`AggregationStream.ChangeFaithful`,
  `AggregationStream.OrphanWitness`).
- A dump starts consistent only if peerings that are down are reported newest generation first, which
  the sweep over the deletion tables does (`DumpCompletion.StartsConsistent`,
  `DumpSweep.SweepStartsConsistent`, `DumpSweep.OldestFirstWitness`).
- NEXT_HOP comes first in a canonical list unless there is an attribute of type 0
  (`CanonicalForm.NextHopFirst`, `AttributeWitness.TypeZeroWitness`).
- The comment at xorp/bgp/path_attribute.cc:3046 says that running out of room while canonicalizing
  cannot happen. For what came in one UPDATE that is so, but for a CLUSTER_LIST of 64 identifiers,
  which aborts in any case; a policy can build longer lists, and it happens beyond 8192 bytes and for
  some lists of 8191 and 8192 (`PathAttributeList.FitsExactly`, `AttributeUpdate.UpdateFits`,
  `AttributeWitness.ClusterListWitness`, `AttributeWitness.TooLongWitness`).
- Received attributes are not always sent on as they came: communities are sorted, and an attribute
  that is copied loses its partial flag (`AttributeBytes.ReencodedAlike`,
  `AttributeBytes.CommunitiesAreReordered`, `AttributeBytes.CloneAlike`,
  `AttributeBytes.CloneLosesPartial`).
- Patching up an AS4_PATH may abort, because the search counts segments up to the path length
  (`AsPathPatchup.PatchupEnds`, `AsPathPatchup.PatchupAborts`); where it ends it may leave out numbers
  of the AS_PATH (`AsPathPatchup.PatchupCovers`, `AsPathPatchup.PatchupLoses`).
- Merging may leave the cached path length wrong, because padding a segment into a set does not
  adjust it (`AsPathPatchup.MergedLength`, `AsPathPatchup.StaleLength`).

`dafny verify dfyconfig.toml` verifies the project.

## Model

| member | source | states |
|---|---|---|
| NextHopSafety.RunConservesRefs | xorp/bgp/next_hop_resolver.cc:78-142 | In every run from start-up without an abort, the references of a next hop in cache and queue equal its registrations minus the deregistrations that found a record, minus what a RESOLVE_FAILED reply dropped with the queue, and are never negative |
| NextHopSafety.StepConservesRefs | xorp/bgp/next_hop_resolver.cc:943-1003 | One event changes the references of a next hop by its own credit only: notices and all other replies from the RIB move references between queue and cache and neither create nor lose any; RESOLVE_FAILED loses exactly those in the queue |
| NextHopSafety.StepKeepsInv | xorp/bgp/next_hop_resolver.cc:711-799 | Every event, with every reply code, keeps the invariant: disjoint ranges, counted next hops inside their ranges, no entry without references, an uncovered first registration, and one outstanding request or none ever again |
| NextHopSafety.RunKeepsInv | xorp/bgp/next_hop_resolver.cc:821-1047 | The invariant holds at the end of every run |
| NextHopSafety.DrainKeeps | xorp/bgp/next_hop_resolver.cc:943-1003 | The loop of the reply handler never aborts whatever the queue, keeps the cached ranges, and stops with a first registration that no range covers |
| NextHopSafety.DrainRefs | xorp/bgp/next_hop_resolver.cc:984-995 | The same loop conserves the references of every next hop |
| NextHopSafety.FreshAnswerIsNew | xorp/bgp/next_hop_resolver.cc:334-376 | The range answered for an uncovered next hop is in neither index of the cache, so add_entry never meets it |
| NextHopSafety.LegalAnswerFits | xorp/bgp/next_hop_resolver.cc:884-901 | A reply meets the registration at the front of the queue, so its type and address assertions hold |
| NextHopSafety.RegisterReplyKeeps | xorp/bgp/next_hop_resolver.cc:884-941 | A positive reply aborts if and only if an invalidation was saved for some other range |
| NextHopSafety.DeregisterReplyStep | xorp/bgp/next_hop_resolver.cc:1279-1361 | A reply to a deregistration keeps the invariant and all references, except that RESOLVE_FAILED takes exactly those in the queue |
| NextHopSafety.CutOffForGood | xorp/bgp/next_hop_resolver.cc:1308-1317 | After RESOLVE_FAILED no request is ever sent again, whatever happens: the calls made stay the same, no reply comes, and the cache can only lose entries |
| NextHopSafety.EnqueueRefs | xorp/bgp/next_hop_resolver.cc:711-752 | A queued request adds exactly the references it carries |
| NextHopSafety.RegisterRefs | xorp/bgp/next_hop_resolver.cc:78-106 | Registering adds one reference to its own next hop and none to any other |
| NextHopSafety.DeregisterRefs | xorp/bgp/next_hop_resolver.cc:108-142 | Deregistering takes one reference exactly when a record was found |
| NextHopSafety.InvalidateRefs | xorp/bgp/next_hop_resolver.cc:211-271 | Invalidating a range moves its references into the queue and changes no total |
| NextHopSafety.ChangedRefs | xorp/bgp/next_hop_resolver.cc:182-209 | A metric change touches no reference |
| NextHopSafety.ReregisterAllRefs | xorp/bgp/next_hop_resolver.cc:264-271 | Re-registering the next hops of an evicted entry one by one conserves every count |
| NextHopInvariant.FindUnique | xorp/bgp/next_hop_resolver.cc:520-543 | With disjoint ranges the longest match of an address is the one range that holds it |
| NextHopInvariant.DeregisterAt | xorp/bgp/next_hop_resolver.cc:600-635 | Dropping a reference takes one from its own next hop and leaves every other count alone |
| NextHopInvariant.HeadStaysUncovered | xorp/bgp/next_hop_resolver.cc:1175-1225 | Removing ranges cannot cover the first registration |
| NextHopAnswers.InvalidationKeepsAnswers | xorp/bgp/next_hop_resolver.cc:211-271 | After the RIB invalidates a range, each next hop it held is answered in every run that goes on from there, through replies and further invalidations, as long as a reference is left and the resolver is not cut off; and with the old resolvability as long as no reply has cached it again |
| NextHopAnswers.RunKeepsAnswerable | xorp/bgp/next_hop_resolver.cc:144-180 | A next hop that is counted in the cache or waits with its old answer stays so in every run in which it keeps a reference |
| NextHopAnswers.StepKeepsAnswerable | xorp/bgp/next_hop_resolver.cc:821-1022 | The same for one event |
| NextHopAnswers.InvalidationRemembers | xorp/bgp/next_hop_resolver.cc:1163-1225 | Right after an invalidation every next hop of the range waits in the queue with its old resolvability, and no range covers it |
| NextHopAnswers.RememberedIsAnswered | xorp/bgp/next_hop_resolver.cc:1227-1253 | Lookup answers a waiting re-registration with the remembered resolvability whenever the cache does not count the next hop, even if a range covers it |
| NextHopAnswers.ReplySettlesMemory | xorp/bgp/next_hop_resolver.cc:984-995 | A reply leaves a remembered next hop waiting, gives it a cached answer, or finds that no reference is left |
| NextHopAnswers.InvalidationAborts | xorp/bgp/next_hop_resolver.hh:463-496 | Invalidating a cached range aborts if and only if one of its next hops already has a re-registration waiting |
| NextHopAborts.StepAborts | xorp/bgp/next_hop_resolver.cc:78-1361 | In every reachable state each event aborts if and only if its condition holds: never for a registration; for the others a condition on the cache, the front of the queue, the saved notices and the reply code |
| NextHopAborts.DeregisterAborts | xorp/bgp/next_hop_resolver.cc:108-142 | A deregistration aborts if and only if the cache does not count the next hop and its queue entry, if any, is a re-registration with no reference and no such request |
| NextHopAborts.UncachedAborts | xorp/bgp/next_hop_resolver.cc:1049-1132 | A notice about a range that is not cached aborts if and only if the resolver is cut off with nothing queued, or the notice overtakes the request under way while one is saved, or concerns no request while another one is waited for |
| NextHopAborts.UnknownNexthopAborts | xorp/bgp/next_hop_resolver.cc:1134-1161 | Deregistering a next hop without any record aborts, and it has no reference then |
| NextHopAnswers.DeregisterReplyAborts | xorp/bgp/next_hop_resolver.cc:1286-1361 | A reply to a deregistration aborts only on a fatal XRL error, or on a failure whose saved invalidation is for another range: the assertions about the queue front never fire |
| NextHopWitness.InvalidationCanAbort | xorp/bgp/next_hop_resolver.hh:463-496 | A run from start-up that reaches a covered registration behind the front of the queue, and in which invalidating a cached range aborts |
| NextHopWitness.AnswerOutlivesInvalidation | xorp/bgp/next_hop_resolver.cc:211-271 | A run in which a range is invalidated, leaving the cache empty, and its next hop is still answered |
| NextHopWitness.CutOffLosesReferences | xorp/bgp/next_hop_resolver.cc:1308-1317 | A run in which RESOLVE_FAILED drops a waiting registration together with its reference |
| NextHopTardy.StepTardy | xorp/bgp/next_hop_resolver.cc:1117-1132 | A failed deregistration, and nothing else, starts the wait for a late notice, of its own range; only the notice of that range, or the next failure, ends it |
| NextHopTardy.SwallowedHadFailed | xorp/bgp/next_hop_resolver.cc:1327-1347 | In every run the range whose notice would be swallowed is one whose deregistration has failed |
| NextHopCache.IndexesAgree | xorp/bgp/next_hop_resolver.cc:334-406 | An entry is in the by-prefix index at its prefix exactly when it is in the real-prefix set at its real prefix; no set is empty, and within a set the address identifies the entry |
| NextHopCache.InsertAgrees | xorp/bgp/next_hop_resolver.cc:334-376 | Inserting into both indexes keeps the real-prefix index the image of the other |
| NextHopCache.RemoveAgrees | xorp/bgp/next_hop_resolver.cc:461-499 | So does removing from both, where an emptied set goes |
| NextHopCache.Cache.AddEntry | xorp/bgp/next_hop_resolver.cc:334-376 | The new entry is in both indexes and in the contents; the indexes agree |
| NextHopCache.Cache.DeleteEntry | xorp/bgp/next_hop_resolver.cc:461-499 | The entry leaves both indexes and its counted next hops are handed back |
| NextHopCache.Cache.RegisterNexthop | xorp/bgp/next_hop_resolver.cc:564-598 | True exactly when a range covers the next hop, which then counts the increment |
| NextHopCache.Cache.DeregisterNexthop | xorp/bgp/next_hop_resolver.cc:600-635 | One reference less; the last one takes the next hop, and the last next hop takes the entry |
| NextHopCache.Cache.ChangeEntry | xorp/bgp/next_hop_resolver.cc:435-459 | The metric of the entry at the prefix is replaced and its next hops are returned |
| NextHopCache.Cache.LookupByNexthop | xorp/bgp/next_hop_resolver.cc:520-543 | The answer of the one range that covers the next hop and counts it |
| NextHopCache.Cache.FindInSet | xorp/bgp/next_hop_resolver.cc:637-658 | The entry of a real-prefix set with the given address and real length, or none if there is none |
| NextHopResolver.Resolver.RegisterNexthop | xorp/bgp/next_hop_resolver.cc:78-106 | Carries out the modelled registration on the objects: cache first, else the request queue |
| NextHopResolver.Resolver.DeregisterNexthop | xorp/bgp/next_hop_resolver.cc:108-142 | Carries out the modelled deregistration, including the request to the RIB for the last reference |
| NextHopResolver.Resolver.Lookup | xorp/bgp/next_hop_resolver.cc:144-180 | The answer of the cache, else of a waiting re-registration |
| NextHopResolver.Resolver.RouteInfoChanged | xorp/bgp/next_hop_resolver.cc:182-209 | New metric, and one upcall for each next hop of the entry in order |
| NextHopResolver.Resolver.RouteInfoInvalid | xorp/bgp/next_hop_resolver.cc:211-271 | Eviction and re-registration of a cached range, or the flags for one that is not cached |
| NextHopResolver.Resolver.NextHopChanged | xorp/bgp/next_hop_resolver.cc:287-316 | An upcall exactly when resolvability or metric differ |
| NextHopResolver.Resolver.DeregisterFromRib | xorp/bgp/next_hop_resolver.cc:754-799 | The request is queued, and sent if nothing else is |
| NextHopResolver.Resolver.SendNextRequest | xorp/bgp/next_hop_resolver.cc:1024-1047 | The request at the front is sent and the queue is busy, or idle if it is empty |
| NextHopResolver.Resolver.PrematureInvalid | xorp/bgp/next_hop_resolver.cc:1049-1115 | A notice for a range whose reply or deregistration is still under way is noted |
| NextHopResolver.Resolver.TardyInvalid | xorp/bgp/next_hop_resolver.cc:1117-1132 | A notice is swallowed exactly if it names the range that is waited for, and aborts if another one is |
| NextHopResolver.Resolver.DeregisterQueued | xorp/bgp/next_hop_resolver.cc:1134-1161 | One queued request or reference less, and the entry goes with its last |
| NextHopResolver.Resolver.ReregisterNexthop | xorp/bgp/next_hop_resolver.cc:1163-1225 | The references of an evicted next hop join its queue entry or make a new one |
| NextHopResolver.Resolver.DrainQueue | xorp/bgp/next_hop_resolver.cc:943-1003 | The loop over the queue performs the modelled drain, entry by entry |
| NextHopResolver.Resolver.RegisterInterestResponse | xorp/bgp/next_hop_resolver.cc:821-1022 | The reply handler performs the modelled step, aborting exactly when it does |
| NextHopResolver.Resolver.DeregisterInterestResponse | xorp/bgp/next_hop_resolver.cc:1279-1361 | The same for replies to deregistrations |
| NextHopProtocol.CountsStayPositive | xorp/bgp/next_hop_resolver.cc:264-271 | In every state the objects are led to, no count in the cache is zero, which invalidation relies on |
| NextHopProtocol.Driver.HoldsReferences | xorp/bgp/next_hop_resolver.cc:78-142 | At any time the resolver's objects hold exactly the references of the events they have taken |
| NextHopProtocol.Driver.Register | xorp/bgp/next_hop_resolver.cc:78-106 | The objects take the step of the event, so that they stay within the runs of the model |
| NextHopProtocol.Driver.Deregister | xorp/bgp/next_hop_resolver.cc:108-142 | The same |
| NextHopProtocol.Driver.Answer | xorp/bgp/next_hop_resolver.cc:821-1022 | The same for a reply to a registration |
| NextHopProtocol.Driver.Confirm | xorp/bgp/next_hop_resolver.cc:1279-1361 | The same for a reply to a deregistration, of any code |
| NextHopProtocol.Driver.ChangeMetric | xorp/bgp/next_hop_resolver.cc:182-209 | The same for a metric change |
| NextHopProtocol.Driver.Invalidate | xorp/bgp/next_hop_resolver.cc:211-271 | The same for an invalidation, with nothing asked of the counts |
| DumpCompletion.DumpIsConsistent | xorp/bgp/dump_iterators.cc:179-272 | In every run of a background dump, the new peer has been told exactly the live routes that route_change_is_valid accepts |
| DumpCompletion.DumpCompletes | xorp/bgp/dump_iterators.cc:373-417 | Once waiting_for_deletion_completion is false, no live route of a peer listed or reported at start-up is hidden from the new peer |
| DumpCompletion.StartsConsistent | xorp/bgp/dump_iterators.cc:281-321 | A dump starts consistent if and only if no peer that is down was first reported in a generation older than one of its live routes |
| DumpSweep.SweepStartsConsistent | xorp/bgp/plumbing.cc:1009-1022 | Sweeping the deletion tables behind every rib-in in turn, the new peer's own included, always meets that condition, so the dump starts consistent |
| DumpSweep.SweepReportsAll | xorp/bgp/plumbing.cc:1009-1022 | Every generation that a rib-in or a deletion table of a known peer holds is listed or reported by the sweep |
| DumpSweep.SweptDumpCompletes | xorp/bgp/dump_iterators.cc:373-417 | So a dump that starts with the sweep completes: once nothing is waited for, no live route of a peer known at start-up is hidden |
| DumpSweep.RunKeepsNested | xorp/bgp/route_table_ribin.cc:83-113 | However often a peering goes down and up and whichever deletions finish, its deletion tables are nested newest first |
| DumpSweep.SweepIsNewestFirst | xorp/bgp/plumbing.cc:1009-1022 | The sweep reports the generations of each peer newest first |
| DumpSweep.OldestFirstWitness | xorp/bgp/dump_iterators.cc:281-321 | The same two deletion tables reported oldest first: the dump starts inconsistent |
| DumpCompletion.StartAccounted | xorp/bgp/plumbing.cc:1009-1022 | If the live generations of known peers were listed or reported, each is accounted for at start-up |
| DumpCompletion.StepKeepsAccounts | xorp/bgp/dump_iterators.cc:78-106 | Every event keeps account of the generations still alive |
| DumpCompletion.NotWaitingShows | xorp/bgp/dump_iterators.cc:393-417 | A generation that is accounted for, once nothing is waited for, is shown |
| DumpSafety.StepKeepsInv | xorp/bgp/dump_iterators.cc:323-370 | Every event keeps the view equal to the accepted routes, and at most the current peer is being dumped |
| DumpSafety.StepAcceptance | xorp/bgp/dump_iterators.cc:460-626 | The acceptance of a live route changes only when that route is dumped |
| DumpSafety.StepVisibility | xorp/bgp/dump_iterators.cc:460-626 | No event but its own dump step changes the visibility of a route that stays live |
| DumpSafety.DumpShows | xorp/bgp/dump_iterators.cc:179-212 | A dump step makes exactly the dumped route accepted, and it was not before |
| DumpSafety.NextPeerOk | xorp/bgp/dump_iterators.cc:233-272 | Moving on leaves the next undumped peer as the only one being dumped, with nothing of it dumped |
| DumpSafety.AddKeeps | xorp/bgp/route_table_dump.cc:66-113 | Asking about an added route aborts exactly for a generation the iterator cannot expect; otherwise what the new peer is told keeps its view equal to the accepted routes |
| DumpSafety.DeleteKeeps | xorp/bgp/route_table_dump.cc:202-236 | The same for a deleted route, which is withdrawn as it had been shown |
| DumpSafety.ReplaceKeeps | xorp/bgp/route_table_dump.cc:115-167 | The same for a replacement, which becomes a replace, an add, a delete or nothing |
| DumpSafety.WentDownKeeps | xorp/bgp/dump_iterators.cc:323-370 | A peering that goes down changes the acceptance of no live route |
| DumpSafety.DownCompleteKeeps | xorp/bgp/dump_iterators.cc:78-106 | Nor does a completed deletion |
| DumpSafety.CameUpKeeps | xorp/bgp/dump_iterators.cc:419-457 | Nor does a peering that comes up |
| DumpIterator.Iterator.constructor | xorp/bgp/dump_iterators.cc:110-148 | The listed peers but the new one, in order, the first being dumped |
| DumpIterator.Iterator.RouteDump | xorp/bgp/dump_iterators.cc:179-212 | Records the net as the last dumped one, or aborts on the wrong peer or generation |
| DumpIterator.Iterator.NextPeer | xorp/bgp/dump_iterators.cc:233-272 | The loop stops at the next peer still to be dumped, or at the end |
| DumpIterator.Iterator.PeeringIsDown | xorp/bgp/dump_iterators.cc:281-321 | A report at start-up is recorded as a generation being deleted |
| DumpIterator.Iterator.PeeringWentDown | xorp/bgp/dump_iterators.cc:323-370 | The status follows how far the dump of the peer had got |
| DumpIterator.Iterator.PeeringDownComplete | xorp/bgp/dump_iterators.cc:373-391 | The generation is no longer waited for |
| DumpIterator.Iterator.PeeringCameUp | xorp/bgp/dump_iterators.cc:419-457 | A new generation is recorded unless the peer is still to be dumped |
| DumpIterator.Iterator.WaitingForDeletionCompletion | xorp/bgp/dump_iterators.cc:393-417 | True if and only if some recorded peer is waited for |
| DumpIterator.Iterator.RouteChangeIsValid | xorp/bgp/dump_iterators.cc:460-626 | The pure acceptance, with first sight of a peer recorded on the way |
| DumpTable.DumpTable.constructor | xorp/bgp/route_table_dump.cc:420-433 | Listing the peers and reporting the deletion tables found, of which those of the table's own peer are skipped, leads to a consistent start |
| DumpTable.DumpTable.AddRoute | xorp/bgp/route_table_dump.cc:66-113 | What is sent to the new peer keeps its view equal to the accepted routes; it aborts exactly as modelled |
| DumpTable.DumpTable.ReplaceRoute | xorp/bgp/route_table_dump.cc:115-167 | The same for a replacement |
| DumpTable.DumpTable.DeleteRoute | xorp/bgp/route_table_dump.cc:202-236 | The same for a deletion |
| DumpTable.DumpTable.DumpRoute | xorp/bgp/route_table_dump.cc:170-200 | A dumped route is sent and never aborts |
| DumpTable.DumpTable.PeerDumped | xorp/bgp/route_table_dump.cc:338-371 | Moving on to the next peer changes nothing the new peer sees |
| DumpTable.DumpTable.PeeringWentDown | xorp/bgp/route_table_dump.cc:437-455 | The same for a peering that goes down; the table's own peer leaves the iterator alone |
| DumpTable.DumpTable.PeeringDownComplete | xorp/bgp/route_table_dump.cc:458-492 | The same for a completed deletion, the table's own included |
| DumpTable.DumpTable.PeeringCameUp | xorp/bgp/route_table_dump.cc:495-508 | The same for a peering that comes up |
| AggregationStream.StreamIsFaithful | xorp/bgp/route_table_aggregation.cc:53-548 | For every well-formed run of the parent from empty tables, and every way of merging AS paths, each change is passed on as well-formed messages after which the table downstream holds exactly what is called for, if and only if no change of the run orphans an aggregate |
| AggregationStream.ChangeFaithful | xorp/bgp/route_table_aggregation.cc:180-294 | The same for one change: an orphaning one is the deletion of a last component with empty AS path, origin IGP, no MED or a MED of 0, and not atomic |
| AggregationStream.AddKeeps | xorp/bgp/route_table_aggregation.cc:53-176 | Adding a route never aborts, duplicates an add or deletes something absent, and leaves the tables in agreement |
| AggregationStream.DeleteKeeps | xorp/bgp/route_table_aggregation.cc:180-294 | So does deleting one that does not orphan its aggregate |
| AggregationStream.OrphanStays | xorp/bgp/route_table_aggregation.cc:420-443 | An orphaning deletion leaves the aggregate downstream and everything else in order |
| AggregationStream.ReplaceKeeps | xorp/bgp/route_table_aggregation.cc:514-548 | Replacing agrees whether it is passed on or split |
| AggregationStream.ReplaceOrphans | xorp/bgp/route_table_aggregation.cc:514-548 | After an orphaning first half no second half restores agreement |
| AggregationStream.OrphanWitness | xorp/bgp/route_table_aggregation.cc:401-443 | A run of two changes that ends in disagreement |
| AggregationSafety.ReevaluateDelivers | xorp/bgp/route_table_aggregation.cc:297-511 | Re-evaluation brings the copies of all components and the aggregate in line with the new suppression state, by well-formed messages, and touches nothing else |
| AggregationSafety.ReevaluateFlags | xorp/bgp/route_table_aggregation.cc:297-511 | Afterwards the aggregate is announced if and only if it has components and is not suppressed |
| AggregationSafety.SuppressedIff | xorp/bgp/route_table_aggregation.cc:326-350 | Suppression depends on the MEDs alone: it holds if and only if a later component carries a MED other than the first one |
| AggregationSafety.RemarkDelivers | xorp/bgp/route_table_aggregation.cc:459-494 | Re-marking every component is well-formed and leaves each with the marker of the new state |
| AggregationTable.AggregateRoute.GatherComponents | xorp/bgp/route_table_aggregation.cc:326-380 | The loop over the components gathers what the model gathers, stopping at the first MED that disagrees |
| AggregationTable.AggregateRoute.RemarkComponents | xorp/bgp/route_table_aggregation.cc:459-494 | The loop sends the modelled messages, component by component |
| AggregationTable.AggregateRoute.Reevaluate | xorp/bgp/route_table_aggregation.cc:297-511 | The four phases change the object and send as modelled |
| AggregationTable.Table.AddRoute | xorp/bgp/route_table_aggregation.cc:53-176 | The table object adds as modelled, aborting exactly on a component it already has |
| AggregationTable.Table.DeleteRoute | xorp/bgp/route_table_aggregation.cc:180-294 | The table object deletes as modelled, and drops an aggregate without components |
| AggregationTable.Table.ReplaceRoute | xorp/bgp/route_table_aggregation.cc:514-548 | The table object replaces as modelled |
| Chain.ChainedRoute.After | xorp/bgp/bgp_trie.cc:27-52 | A new route is linked in right behind another one of a ring |
| Chain.ChainedRoute.Unchain | xorp/bgp/bgp_trie.cc:54-61 | The rest of the ring stays a ring, and the result says whether there is one |
| BgpTrie.LinkBehind | xorp/bgp/bgp_trie.cc:78-101 | The temporary node is gone again and the copy follows the head |
| BgpTrie.BgpTrie.Insert | xorp/bgp/bgp_trie.cc:78-101 | A route of a new net joins the chain of its attributes, which stays a ring; pathmap, chains and trie agree |
| BgpTrie.BgpTrie.Put | xorp/bgp/route_table_ribin.cc:139-194 | For any net, new or not: the old route, if any, is gone from trie and chain, and the new one is in both |
| BgpTrie.BgpTrie.Erase | xorp/bgp/bgp_trie.cc:104-140 | The route leaves trie and chain, the head moves or the chain goes; it aborts exactly on an unknown net, since the attributes are always found |
| BgpTrie.BgpTrie.DeleteAllNodes | xorp/bgp/bgp_trie.cc:143-149 | Everything is empty |
| BgpTrie.BgpTrie.ChainIsExact | xorp/bgp/bgp_trie.hh:103-131 | The pathmap has exactly the attributes of routes in the trie, and a chain holds exactly the routes with its attributes, each once |
| BgpTrie.BgpTrie.Walk | xorp/bgp/route_table_ribin.cc:478-500 | Following next from the head until it comes round visits every route with those attributes exactly once |
| BgpTrie.BgpTrie.DeleteChain | xorp/bgp/route_table_deletion.cc:226-275 | Erasing along the chain, each link read before its route is erased, deletes exactly the routes with those attributes, each once and the head last |
| AsPathTunnel.TunnelRoundTrip | xorp/bgp/aspath.cc:898-965 | A path sent as two-byte AS_PATH and AS4_PATH, prepended to by any number of two-byte speakers within 255 numbers per segment, is decoded and merged into their numbers in front of the original path, with the segment count and path length of the AS_PATH right for it (section 4.2.3 of RFC 4893) |
| AsPathTunnel.MergeRecovers | xorp/bgp/aspath.cc:898-1029 | Merging alone: for every number of prepended numbers the four-byte path is recovered |
| AsPathTunnel.HopsArrive | xorp/bgp/aspath.cc:702-716 | Two-byte speakers get through if and only if the front segment does not outgrow 255, and what arrives is the path they saw with their numbers in front |
| AsPathTunnel.PathRoundTrip | xorp/bgp/aspath.cc:527-545 | Decoding an encoded path gives it back, in two bytes as two-byte speakers see it |
| AsPathTunnel.BytesRoundTrip | xorp/bgp/aspath.cc:527-545 | Encoding a decoded path gives the same bytes |
| AsPathTunnel.EncodesAlike | xorp/bgp/aspath.cc:83-107 | The two-byte encoding depends on nothing but what two-byte speakers see |
| AsPath.EncodeSegment | xorp/bgp/aspath.cc:83-107 | The bytes of the segment are written at their place and nothing else is, in both widths |
| AsPath.AsPath.Encode | xorp/bgp/aspath.cc:679-700 | The buffer holds the encoded path; it aborts exactly on a segment of more than 255 |
| AsPath.DecodeSegment | xorp/bgp/aspath.cc:56-79 | One round of decoding, with the three ways it can end |
| AsPath.AsPath.Decode | xorp/bgp/aspath.cc:527-545 | The segments are those of the bytes and both cached numbers are right; a bad size is corrupt in an AS_PATH and aborts in an AS4_PATH |
| AsPath.AsPath.AddSegment | xorp/bgp/aspath.cc:615-626 | Appends, with the cached numbers kept right |
| AsPath.AsPath.PrependAs | xorp/bgp/aspath.cc:702-716 | Joins or starts the front sequence, with the cached numbers kept right; aborts exactly on other kinds of front segment |
| AsPath.Pad | xorp/bgp/aspath.cc:972-1029 | Padding a segment by its loops, including that it may not end or run beyond the list |
| AsPath.AsPath.PadSegments | xorp/bgp/aspath.cc:929-951 | The loop from the last segment to the first pads and patches up as modelled, going on after a patchup |
| AsPath.AsPath.CrossValidate | xorp/bgp/aspath.cc:898-970 | The AS4_PATH is brought in line as modelled in every branch, with its cached length, including where it aborts, does not end or reads beyond a list |
| AsPath.AsPath.DoPatchup | xorp/bgp/aspath.cc:1031-1074 | The search, the set and the padding as modelled |
| AsPathPatchup.PatchupEnds | xorp/bgp/aspath.cc:1031-1074 | For every path and every cached length: patching up gets there if and only if the search does and has found a number or needs none; it reads beyond an empty list if and only if it meets a set without numbers, or finds nothing for the set at the front; otherwise it aborts |
| AsPathPatchup.PatchupAborts | xorp/bgp/aspath.cc:1042-1044 | An AS4_PATH of two segments and an AS_PATH of one for which it aborts |
| AsPathPatchup.PatchupLength | xorp/bgp/aspath.cc:1058-1074 | When it gets there, the path has grown by as much as the cached length, which is then that of the AS_PATH; so the path is as long as the AS_PATH if and only if the cached length was right before |
| AsPathPatchup.MergedLength | xorp/bgp/aspath.cc:898-970 | After merging, the path is as long as the AS_PATH, and so the cached length it takes over is right, if and only if the padding loop did not run or what padding added to the cached length but not to the path sums up to nothing |
| AsPathPatchup.StaleLength | xorp/bgp/aspath.cc:929-970 | Two paths for which padding turns a sequence into a set, and the cached length ends up one too high |
| AsPathPatchup.PatchupCovers | xorp/bgp/aspath.cc:1033-1066 | No number of the AS4_PATH is lost; and the path has every number of the AS_PATH (but AS_TRAN) if and only if the search looks at all that the AS4_PATH lacks, and there is at most one such number where only one is taken |
| AsPathPatchup.PatchupLoses | xorp/bgp/aspath.cc:1048-1064 | Where one number is wanted, a number of the AS_PATH is lost: two paths and what becomes of them |
| AsPathPatchup.SearchEnds | xorp/bgp/aspath.cc:1042-1057 | The search counts segments up to the path length: it runs past the last one if and only if there are fewer and none stops it, and it meets an empty set if and only if one comes before anything else stops it |
| AsPathPatchup.SearchFinds | xorp/bgp/aspath.cc:1042-1057 | What it finds is lacking and was looked at, and unless one is enough everything of that kind is found |
| AsPath.AsPath.MergeAs4Path | xorp/bgp/aspath.cc:849-854 | The segments are taken over and the cached numbers are left as they were |
| AsPath.AsPath.Receive | xorp/bgp/peer_handler.cc:375-395 | On the objects: after decoding and merging, the path is whole and both cached numbers are right |
| CanonicalForm.CanonicalRoundTrip | xorp/bgp/path_attribute.cc:2656-2701 | quick_decode of the canonical form recovers the exact bytes of every attribute |
| CanonicalForm.CanonicalInjective | xorp/bgp/path_attribute.cc:2643-2653 | Lists with equal canonical forms are equal |
| CanonicalForm.HeaderTlv | xorp/bgp/path_attribute.cc:2202-2224 | set_header writes a header that announces exactly the payload, long if and only if it exceeds 255 bytes |
| CanonicalForm.NextHopFirst | xorp/bgp/path_attribute.hh:940-951 | A list with a NEXT_HOP begins with it if and only if it has no attribute of type 0 |
| AttributeBytes.ValueRoundTrip | xorp/bgp/path_attribute.cc:80-1560 | For every type of attribute: what the encoder writes of a value, the decoder reads back as that value |
| AttributeBytes.AttributeRoundTrip | xorp/bgp/path_attribute.cc:1691-1808 | Decoding an encoded attribute of any type gives it back, flags included |
| AttributeBytes.CreatedEncodesAlike | xorp/bgp/path_attribute.cc:3123-3139 | Bytes that an encoder wrote are decoded without error and encoded to the same bytes again |
| AttributeBytes.ReencodedAlike | xorp/bgp/path_attribute.cc:1691-1808 | Bytes received from a peer with four-byte or two-byte AS numbers survive decoding and encoding if and only if no unused flag is set, the header is no longer than need be, communities are whole, in order and each there once, cluster identifiers are whole, prefixes are followed by zeros, there are no SNPAs and no link-local next hop of zeros, and no AS number is of two bytes |
| AttributeBytes.ImageSurvives | xorp/bgp/path_attribute.cc:3123-3139 | To be written by an encoder is to survive decoding and encoding, and to hold fewer than 64 cluster identifiers |
| AttributeBytes.CreatedWellFormed | xorp/bgp/path_attribute.cc:1691-1808 | Whatever is decoded from any bytes can be encoded, and is of the type they say |
| AttributeBytes.CommunitiesAreReordered | xorp/bgp/path_attribute.cc:677-715 | A COMMUNITY attribute of two communities out of order, which is written back sorted |
| AttributeBytes.ReadCommunities | xorp/bgp/path_attribute.cc:677-693 | The loop ends with each community once, in ascending order, and bytes left over are passed over |
| AttributeBytes.CloneAlike | xorp/bgp/path_attribute.cc:3078-3085 | A copy has the bytes of the original if and only if that is of unknown type, or not flagged partial and without a link-local next hop |
| AttributeBytes.CloneLosesPartial | xorp/bgp/path_attribute.cc:667-675 | A COMMUNITY flagged partial, whose copy is not |
| AttributeBytes.ReceivedWellFormed | xorp/bgp/path_attribute.cc:1691-1808 | Whatever is decoded from a message can be encoded, into less than twice the bytes, two-byte AS numbers included |
| AttributeBytes.Widened | xorp/bgp/aspath.cc:679-700 | A path takes at most twice the bytes with four-byte numbers, and the same bytes if and only if it has no number |
| AttributeWitness.TypeZeroWitness | xorp/bgp/path_attribute.cc:2656-2701 | A stored list with an attribute of type 0, which comes before the next hop |
| PathAttributeList.FitsExactly | xorp/bgp/path_attribute.cc:3016-3055 | Encoding one attribute after the other goes through if and only if every attribute ends within the space, with the byte or two its encoder wants beyond that if it is decoded, and a decoded CLUSTER_LIST has less than 256 bytes |
| PathAttributeList.FitsWithin | xorp/bgp/path_attribute.cc:3016-3055 | So no list beyond 8192 bytes fits, and every list with two bytes to spare does unless it holds 64 cluster identifiers |
| AttributeUpdate.UpdateFits | xorp/bgp/path_attribute.cc:3016-3055 | The attributes of one UPDATE, as they are decoded, can be canonicalized if and only if there are fewer than 64 cluster identifiers among them |
| AttributeUpdate.LoadedSize | xorp/bgp/path_attribute.cc:2752-2830 | Decoding the attributes of a message and encoding them at most doubles the bytes |
| AttributeWitness.LongClusterListAborts | xorp/bgp/path_attribute.cc:838-855 | A decoded CLUSTER_LIST fits if and only if it has fewer than 64 identifiers and there is room |
| AttributeWitness.ClusterListWitness | xorp/bgp/path_attribute.cc:812-855 | 64 identifiers are decoded without error, and the list they are in cannot be canonicalized |
| AttributeWitness.TooLongWitness | xorp/bgp/path_attribute.cc:3016-3055 | 2047 communities can be canonicalized and 2048 cannot; only a policy can put that many into a list |
| AttributeWitness.FullAsPathWitness | xorp/bgp/path_attribute.cc:183-222 | A decoded AS_PATH that would just fill the space does not fit, and the same bytes do while not decoded |
| PathAttributeList.FastPathAttributeList.FromStored | xorp/bgp/path_attribute.cc:2568-2585 | A list made from stored bytes has the contents they were made from, all of them still written by an encoder |
| PathAttributeList.FastPathAttributeList.QuickDecodeInto | xorp/bgp/path_attribute.cc:2656-2701 | The loop finds what the model finds, on any data, and reports corrupt data |
| PathAttributeList.FastPathAttributeList.LoadRawData | xorp/bgp/path_attribute.cc:2752-2822 | The loop decodes every attribute of a message and reports corrupt data and a second attribute of a type |
| PathAttributeList.FastPathAttributeList.FindAttributeByType | xorp/bgp/path_attribute.cc:3123-3139 | Decoding on demand changes neither the list nor its canonical form, and returns the attribute exactly if there is one |
| PathAttributeList.FastPathAttributeList.AddPathAttribute | xorp/bgp/path_attribute.cc:3088-3120 | The attribute itself, with its flags, replaces whatever its type had, decoded or not |
| PathAttributeList.FastPathAttributeList.AddCopy | xorp/bgp/path_attribute.cc:3078-3085 | The same with a copy, which has the flags its class starts with and no link-local next hop |
| PathAttributeList.FastPathAttributeList.ReplaceAttribute | xorp/bgp/path_attribute.cc:3142-3161 | The same, aborting exactly if there was none |
| PathAttributeList.FastPathAttributeList.RemoveAttributeByType | xorp/bgp/path_attribute.cc:3191-3211 | The type has no attribute any more, decoded or not |
| PathAttributeList.FastPathAttributeList.Canonicalize | xorp/bgp/path_attribute.cc:3010-3073 | Aborts exactly if the list does not fit; otherwise the cached bytes are the canonical form of the contents, which stay and are all written by an encoder |
| PathAttributeList.FastPathAttributeList.Equals | xorp/bgp/path_attribute.cc:2643-2653 | Comparing canonical bytes compares contents; aborts exactly if a list that is not canonical yet does not fit |
| StoredLists.LessTotal | xorp/bgp/path_attribute.cc:2292-2343 | Of two different lists exactly one is less, and equality is equality of bytes |
| StoredLists.LessTransitive | xorp/bgp/path_attribute.cc:2292-2331 | The order is transitive |
| StoredLists.NextHopsContiguous | xorp/bgp/path_attribute.cc:2292-2331 | Lists with equal NEXT_HOP attributes are not separated by others |
| StoredLists.NextHopAloneIsLeast | xorp/bgp/route_table_ribin.cc:420-436 | No list with a given NEXT_HOP is less than the list of that attribute alone, from which a search starts |
| StoredNextHops.PrefixIsNextHop | xorp/bgp/path_attribute.cc:2292-2331 | The first 7 or 19 bytes of a canonical list are its NEXT_HOP if and only if it has no attribute of type 0 |
| StoredNextHops.SameNextHopTogether | xorp/bgp/path_attribute.cc:2292-2331 | Between two stored lists with the same next hop there are only lists with that next hop |
| StoredNextHops.SearchStartsHere | xorp/bgp/route_table_ribin.cc:420-436 | No stored list with a next hop is less than the list of that next hop alone |
| StoredNextHops.NextHopSize | xorp/bgp/path_attribute.cc:2292-2331 | A stored NEXT_HOP has 7 or 19 bytes |
| StoredLists.StoredIffRegistered | xorp/bgp/attribute_manager.cc:41-86 | In every run a list is stored if and only if its registrations exceed its deregistrations, and its count is the difference |
| StoredLists.DeregisterAborts | xorp/bgp/attribute_manager.cc:64-86 | A deregistration aborts if and only if there is no registration left for it |
| StoredLists.AttributeManager.Find | xorp/bgp/attribute_manager.cc:46-47 | Finds the stored list with these bytes, and only that |
| StoredLists.AttributeManager.AddAttributeList | xorp/bgp/attribute_manager.cc:41-62 | The stored list is counted once more, or the given one is stored; never two equal lists |
| StoredLists.AttributeManager.DeleteAttributeList | xorp/bgp/attribute_manager.cc:64-86 | One count less, and the list goes with the last |
| MpReach.RoundTrip | xorp/bgp/path_attribute.cc:902-1045 | Decoding an encoded MP_REACH_NLRI of either family gives back SAFI, next hop, link-local next hop and the prefixes in order, with either header (sections 3 and 5 of RFC 4760) |
| MpReach.ReachRoundTrip | xorp/bgp/path_attribute.cc:1770-1784 | Trying IPv6 first and IPv4 on failure tells the families apart |
| MpReach.UnreachRoundTrip | xorp/bgp/path_attribute.cc:1330-1440 | The same for MP_UNREACH_NLRI |
| MpReachBytes.ReachAlike | xorp/bgp/path_attribute.cc:1079-1320 | A received MP_REACH_NLRI is written back as it came if and only if it has no SNPAs, no link-local next hop of zeros, and zeros behind every prefix |
| MpReachBytes.UnreachAlike | xorp/bgp/path_attribute.cc:1472-1606 | The same for MP_UNREACH_NLRI and its prefixes |
| MpReachBytes.PackedAlike | xorp/bgp/path_attribute.cc:1166-1190 | The bytes of a prefix come back if and only if the bits behind it are zero |
| MpReach.DecodedIsReach | xorp/bgp/path_attribute.cc:1079-1320 | Whatever is decoded can be encoded, into no more bytes |
| MpReach.PackRoundTrip | xorp/bgp/path_attribute.cc:1166-1190 | A prefix survives being padded to whole bytes and cut again |
| MpReach.Measure | xorp/bgp/path_attribute.cc:918-938 | The size is summed up until it does not fit, and then it is the size of the payload |
| MpReach.WriteNlri | xorp/bgp/path_attribute.cc:962-977 | No prefix is ever left out for want of space |
| MpReach.EncodeAttribute | xorp/bgp/path_attribute.cc:902-1045 | Either family is encoded exactly when there is room, which is looked for only while there are prefixes |
| MpReach.StepOver | xorp/bgp/path_attribute.cc:1149-1163 | Passes all SNPAs or finds that they reach beyond the end |
| MpReach.ReadNlri | xorp/bgp/path_attribute.cc:1166-1190 | Reads the prefixes, a length above that of an address being malformed |
| MpReach.DecodeAttribute | xorp/bgp/path_attribute.cc:1079-1320 | The whole decoder of either family; bytes beyond the end matter only in a last prefix that is cut short |
| PeerSafety.PeeringAlternates | xorp/bgp/peer.cc:2049-2112 | In every run without an abort the handler is told up and down in turns; ESTABLISHED means it is up, and it is up only in ESTABLISHED and STOPPED |
| PeerSafety.NotificationIsFinal | xorp/bgp/peer.cc:457-557 | In every run, after a NOTIFICATION no OPEN, KEEPALIVE or UPDATE is sent before IDLE has been entered; the stopped timer runs exactly in STOPPED (section 4.5 of RFC 4271) |
| PeerSafety.NeverAborts | xorp/bgp/peer.cc:577-1186 | In no run can these events abort: start, stop, closed, fatal, retry, hold and delay-open timers, received OPEN and UPDATE, an error found, the stopped timer while it runs |
| PeerNotification.CallbackNeverAborts | xorp/bgp/peer.cc:512-539 | In every run the callback of a NOTIFICATION aborts if and only if it comes outside STOPPED, and one that is pending never does |
| PeerNotification.StepKeepsPending | xorp/bgp/peer.cc:457-557 | A callback is pending only in STOPPED: the queue is flushed by every event that leaves it, and by the next NOTIFICATION |
| PeerNotification.LeavesThroughIdle | xorp/bgp/peer.cc:577-820 | STOPPED is left only for IDLE, if only to pass through |
| PeerSafety.StepKeepsInv | xorp/bgp/peer.cc:577-1186 | Every event keeps the invariant of state, handler, timer and log |
| PeerSafety.ToIdleKeeps | xorp/bgp/peer.cc:2070-2091 | Entering IDLE takes the handler down exactly if it was up |
| PeerSafety.NotifyKeeps | xorp/bgp/peer.cc:2092-2102 | A NOTIFICATION leads to STOPPED, and the handler to be stopped is there |
| BgpPeer.Keeps | xorp/bgp/peer.cc:577-1186 | Every event handler of the object keeps it in a state that some run of the model leads to |
| BgpPeer.ReachableIsSafe | xorp/bgp/peer.cc:577-1186 | So what holds of runs holds of the object: up and down in turns, a NOTIFICATION last, the stopped timer exactly in STOPPED |
| BgpPeer.BgpPeer.SetState | xorp/bgp/peer.cc:2049-2112 | Every branch of set_state as modelled, including the call back into event_start |
| BgpPeer.BgpPeer.ReleaseResources | xorp/bgp/peer.cc:1989-2015 | The handler is told down if and only if it was up |
| BgpPeer.BgpPeer.EventStart | xorp/bgp/peer.cc:577-607 | As modelled, from STOPPED through IDLE |
| BgpPeer.BgpPeer.EventStop | xorp/bgp/peer.cc:612-646 | As modelled in each of the seven states |
| BgpPeer.BgpPeer.EventOpen | xorp/bgp/peer.cc:653-703 | An OPEN is sent from CONNECT and ACTIVE unless it is delayed; any other state aborts |
| BgpPeer.BgpPeer.EventClosed | xorp/bgp/peer.cc:709-747 | As modelled in each state |
| BgpPeer.BgpPeer.EventOpenFail | xorp/bgp/peer.cc:753-787 | Through IDLE to ACTIVE, aborting outside CONNECT |
| BgpPeer.BgpPeer.EventTransportFatal | xorp/bgp/peer.cc:792-818 | To IDLE from any other state |
| BgpPeer.BgpPeer.EventConnectRetry | xorp/bgp/peer.cc:825-864 | As modelled in each state |
| BgpPeer.BgpPeer.EventHold | xorp/bgp/peer.cc:871-896 | As modelled in each state |
| BgpPeer.BgpPeer.EventKeepalive | xorp/bgp/peer.cc:902-925 | A KEEPALIVE in OPENCONFIRM and ESTABLISHED, an abort elsewhere |
| BgpPeer.BgpPeer.EventDelayOpen | xorp/bgp/peer.cc:927-963 | An OPEN where one was delayed, a NOTIFICATION elsewhere |
| BgpPeer.BgpPeer.EventIdleHold | xorp/bgp/peer.cc:966-973 | A start from IDLE, an abort elsewhere |
| BgpPeer.BgpPeer.EventStoppedTimer | xorp/bgp/peer.cc:544-557 | To IDLE from STOPPED, an abort elsewhere |
| BgpPeer.BgpPeer.EventOpenMessage | xorp/bgp/peer.cc:979-1037 | Acceptable, unacceptable and unexpected OPENs as modelled |
| BgpPeer.BgpPeer.EventKeepaliveMessage | xorp/bgp/peer.cc:1043-1078 | As modelled in each state |
| BgpPeer.BgpPeer.EventUpdate | xorp/bgp/peer.cc:1085-1148 | As modelled, with the prefix limit |
| BgpPeer.BgpPeer.EventNotification | xorp/bgp/peer.cc:1155-1186 | To IDLE, ignored in STOPPED, an abort in IDLE |
| BgpPeer.BgpPeer.NotifyPeerOfError | xorp/bgp/peer.cc:1224-1247 | A NOTIFICATION if connected, else to IDLE |
| BgpPeer.BgpPeer.SendNotificationComplete | xorp/bgp/peer.cc:512-539 | To IDLE from STOPPED, an abort elsewhere |
| BgpPeer.BgpPeer.SwapSockets | xorp/bgp/peer.cc:1784-1801 | Back to ACTIVE and open, an abort in the other states |
| BgpPeer.BgpPeer.SendUpdateMessage | xorp/bgp/peer.cc:2153-2162 | An UPDATE in ESTABLISHED, an abort elsewhere |
| XrlQueueSafety.FlowControl | xorp/bgp/rib_ipc_handler.cc:440-497 | In every run at most 100 commands are in flight, sent ones followed by waiting ones are the queued ones in order, those in flight are sent and not answered, and while commands wait more than ten are in flight or the last send failed |
| XrlQueueSafety.AnswerPending | xorp/bgp/rib_ipc_handler.cc:440-497 | If sends never fail, a waiting command always has more than ten answers to come |
| XrlQueueSafety.Drains | xorp/bgp/rib_ipc_handler.cc:553-597 | From any such state, as many answers as there are commands empty both queue and transport |
| XrlQueueSafety.NothingSentWhileControlled | xorp/bgp/rib_ipc_handler.hh:78-87 | Hysteresis over runs: once flow control is on, nothing is sent however the run goes on, until an answer takes the commands in flight down to ten; commands pile up behind those waiting |
| XrlQueue.XrlQueue.FlowControlled | xorp/bgp/rib_ipc_handler.hh:78-87 | The hysteresis flag follows the water marks |
| XrlQueue.XrlQueue.Start | xorp/bgp/rib_ipc_handler.cc:440-497 | The loop sends what the modelled start sends |
| XrlQueue.XrlQueue.QueueRoute | xorp/bgp/rib_ipc_handler.cc:372-431 | Appends and starts, keeping the bounds of flow control and the order of commands |
| XrlQueue.XrlQueue.RouteCommandDone | xorp/bgp/rib_ipc_handler.cc:553-597 | One less in flight, an abort on fatal errors, else a start, keeping the same |

## Left out

- XRL calls, sockets, the event loop, logging, profiling and process control are not modelled.
- Upcalls do not re-enter the resolver: decision and next-hop lookup tables are seen as a log of what they were told.
- The metric a re-registration remembers is not claimed, because it is returned as a truth value (xorp/bgp/next_hop_resolver.hh:511); resolvability is.
- NextHopResolver.Resolver.TardyInvalid: one saved range stands for all failed deregistrations, so that of two in a row the notice of the first aborts; see NextHopTardy.
- DumpIterator.Iterator.RouteChangeIsValid: the per-peer dump states are values in a map, so that their setters are not methods of their own objects.
- Route dump iterators over the trie of each peer, and the trie iterators' own bookkeeping, are the events of the dump model.
- AggregationTable.AggregateRoute.GatherComponents: how two AS paths are merged is an argument, and everything about aggregation holds whatever it is; the two-path constructor of ASPath, which reads the numbers of later segments from a fixed one, is not modelled.
- Tries are finite maps with longest match and ordered iteration: RefTrie is a library.
- BgpTrie.BgpTrie.Insert: only for nets not in the trie yet, because every caller erases the old route first, as Put does; reference counts of routes are not modelled.
- Removal of confederation segments, string parsing and printing of AS paths are not modelled.
- PathAttributeList.FastPathAttributeList.FindAttributeByType: a NEXT_HOP may have the size of either address family, because the list is not a parameter of its family; the attribute count and the lock are not modelled.
- PathAttributeList.FastPathAttributeList.LoadRawData: what follows the loop, the checks for missing attributes and the removal of multiprotocol attributes that were not negotiated, is not modelled; nor is the merge of an AS4_PATH that comes after.
- PathAttributeList.FastPathAttributeList.Canonicalize: a multiprotocol attribute without prefixes asks for no room and could be written beyond the buffer; that counts as an abort.
- Attribute types above 20, which are outside the arrays, and process_unknown_attributes are not modelled.
- StoredLists.AttributeManager.AddAttributeList: the plain reference count, which the manager's own reference keeps positive, is not modelled.
- The loops over MP_UNREACH_NLRI, which repeat those over MP_REACH_NLRI, are modelled on values only.
- BgpPeer.BgpPeer.SetState: of the timers only the stopped timer is modelled, because several of the others share a field or are not cleared under connection collision; local data are taken to be present.
- The second state machine for accepted connections, capability negotiation, damping, peer configuration, policy and plumbing construction are not modelled.
- XrlQueue.XrlQueue.Start: how many commands the transport takes is an argument.
