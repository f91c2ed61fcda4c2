# Verified model of the multicluster gateway controller

This project models the parts of the multicluster gateway controller that decide what ends up in a
DNS zone and on which clusters a gateway runs, and proves what holds of them in every run.

* **The endpoint chain.** `setEndpoints` compiles a multi-cluster gateway into a chain of DNS
  endpoints: listener host, lb name, geo name, cluster name, addresses. `Targets` works out geo and
  weight of each cluster, `Build` computes what is asked for, `Wanted` says what that is in terms of
  clusters and addresses alone, `Chain` what shape it has (sections 3.3.1 and 3.4.1 of RFC 1035 and
  section 3.6.2 of RFC 1034), `Ids` when its ids are distinct, `Prune` is the health filter and the
  prune loop, `Publish` the list that comes out, and `SetEndpoints` the code itself, updating endpoint
  objects in place. `Notifier` is the failure counter that feeds the health filter.
* **Publishing.** `GoogleTranslate`, `GoogleBatch` and `GooglePublish` turn a record into batches of
  changes of a Cloud DNS zone (`GoogleZone`); `GoogleChain` shows that nothing gets lost on the way.
  `Route53` does the same for a hosted zone. `Reconciler` is the DNSRecord reconciler, for any
  provider, as a step machine over spec, status, generation and zone. `EndToEnd` joins the endpoint chain
  to both: clusters come and go, setEndpoints and the reconciler run, and the zone follows.
* **Placement.** `Placement` is `Place` over manifest works, RBAC works, annotations, a clock and an
  API of which any call may fail; `Grace` is the decision of the two-phase delete.
* **Smaller machines.** `ZoneSearch` finds the managed zone of a host, `HealthCache` puts a cache in
  front of the provider's health checks, `ProbeQueue` is the throttled probe queue under every
  interleaving.

`Witness` gives inputs that meet the assumptions about gateways, records and calls together.
Hashing, the IP pattern, `net.ParseIP`, the public suffix list, the country table, label selectors, Go's
map iteration order, the clock, API failures and fresh ids are parameters, so the results hold for all
of them. What the code mutates is a class or a method here, proved against a function on
values; the theorems are about those functions.

## Findings

Properties one would expect that are false of the code. Each has an example and its exact condition.

* The built list depends on Go's map order unless all geos that can win the default endpoint have one
  name in lower case. These are "default" and the configured default geo as far as they have an address,
  or else all geos with an address. So the order matters when the default geo has no address and several
  others have, and when it has one but another cluster is labelled "default"
  (`Build.OrderIndependenceExact`; `Witness.OrderMattersWithoutDefault`,
  `Witness.OrderMattersWithLabel`).
* Route53 publishes nothing for an emptied spec, but the status then forgets what is in the zone; and
  an endpoint that changes its type under the same SetID leaves its old record (`Route53.PublishExact`;
  `Route53.EmptiedSpecKeepsRecord`, `Route53.RetypedKeepsRecord`).
* Route53 deletes what the spec says, not what was published; after an unpublished edit the records
  stay and the DNSRecord goes (`Route53.DeleteExact`; `Route53.DeleteAfterEditKeepsRecord`).
* The grace annotation has whole seconds, so a work can go up to a second early
  (`Grace.NeverEarlyExactly`; `Grace.RemovedEarly`), and a delete call that itself lasts as long as the
  grace period may grant none (`Grace.UnannouncedKeptExactly`; `Grace.DeletedUnannounced`).
* A work that is targeted again keeps its annotation, and has no grace period when it is un-targeted a
  second time after that has expired (`Placement.NoSecondGraceExactly`; `Placement.GoneWithoutGrace`).
* A host with an upper-case letter can get the zone of its own name, contrary to the comment in the
  code (`ZoneSearch.ApexFoundExactly`; `ZoneSearch.ApexFound`); and the subdomain is cut out at the
  first `.zone`, not at the last (`ZoneSearch.HostRebuiltExactly`; `ZoneSearch.SubdomainOfAnother`).
* The health-check cache remembers a failed update as done (`HealthCache.FailureRememberedExactly`;
  `HealthCache.FailureRemembered`), and a port or threshold taken out of the specification is never
  reset but updated for ever (`HealthCache.SettlesExactly`; `HealthCache.NeverSettles`).

## Model

| member | source | states |
|---|---|---|
| `Prune.PruneChildless` | pkg/controllers/dnspolicy/dns_helper.go:292-315 | The prune loop ends, on any list with duplicates and cycles, after exactly as many passes as endpoints were ever removed; if the filter removed something it leaves the greatest sub-list, in order, in which everything has an IP-looking target or a child, else the list as it was. |
| `Prune.PrunePass` | pkg/controllers/dnspolicy/dns_helper.go:299-314 | One pass, not stepping back after a removal, never drops an entry of a closed set, and if it removes nothing the list is closed. |
| `Prune.SurvivorsGreatest` | pkg/controllers/dnspolicy/dns_helper.go:292-315 | The survivors are closed and contain every closed set, so the result does not depend on the order of removals. |
| `Prune.SurvivorsReach` | pkg/controllers/dnspolicy/dns_helper.go:298-315 | In a list without CNAME cycle an entry survives if and only if it reaches an IP-looking target within as many hops as its rank. |
| `Prune.ReachingSurvives` | pkg/controllers/dnspolicy/dns_helper.go:302-312 | In any list, what reaches an IP-looking target survives. |
| `Prune.TwinsSurviveTogether` | pkg/controllers/dnspolicy/dns_helper.go:298-315 | Two endpoints with the same targets survive together. |
| `Prune.FindChildren` | pkg/controllers/dnspolicy/dns_helper.go:329-343 | Finds exactly the listed endpoints named by a target of the parent. |
| `Prune.GetProbesForEndpoint` | pkg/controllers/dnspolicy/dns_helper.go:457-467 | Finds exactly the probes of the endpoint's targets. |
| `Prune.HasFailingProbe` | pkg/controllers/dnspolicy/dns_helper.go:273-290 | True if and only if some probe of some target is unhealthy at its threshold. |
| `Prune.RemoveUnhealthy` | pkg/controllers/dnspolicy/dns_helper.go:270-290 | The in-place filter leaves exactly the healthy endpoints in order, and counts the others. |
| `Prune.FailingExactly` | pkg/controllers/dnspolicy/dns_helper.go:273-284 | An endpoint is dropped if and only if some probe, named by one of its targets, the gateway and the listener, reports unhealthy with failures at its threshold. |
| `Prune.HealthyInOrder` | pkg/controllers/dnspolicy/dns_helper.go:273-290 | What the filter leaves are the entries at exactly those positions, in order. |
| `Prune.SurvivesExactly` | pkg/controllers/dnspolicy/dns_helper.go:299-314 | An entry survives if and only if one of its targets looks like an IP address or names a survivor. |
| `Targets.SetWeight` | pkg/dns/target.go:156-172 | The weight is that of the first custom weight that matches, else the default; it fails if and only if a broken selector comes before a match. |
| `Targets.GeoExactly` | pkg/dns/target.go:144-154 | With a configured default geo the label decides, and without a label that geo; otherwise every cluster is in "default". |
| `Targets.SetClusterGatewayTargets` | pkg/dns/target.go:68-83 | Every cluster gets its target in order, or the call fails, exactly when a cluster meets a broken selector. |
| `Targets.SettledByLabels` | pkg/dns/target.go:144-154 | In terms of cluster labels and addresses: when a geo has an address, and exactly when the default endpoint is settled; without a configured default geo it always is. |
| `Build.GroupTargetsByGeo` | pkg/dns/target.go:46-52 | Groups the clusters by geo, each group in the original order, with a group for exactly the geos there are. |
| `Wanted.InGeoInOrder` | pkg/dns/target.go:46-52 | A group holds its clusters in the order in which they were. |
| `Wanted.AskedExactly` | pkg/controllers/dnspolicy/dns_helper.go:188-253 | Exactly this is asked for, said of clusters and addresses alone: for every cluster one A record with all its IP addresses in order, and a CNAME from its geo, with its weight, to each of its host names and to that A record; for every geo with an address the lb endpoint; and, if there is any address, the host's endpoint and the default one, to the last visited of "default" and the configured default geo with an address, or else to the first geo with an address. |
| `Wanted.EveryAddressAsked` | pkg/controllers/dnspolicy/dns_helper.go:203-221 | Every IP address of every cluster is a target of that cluster's A record, which its geo points to with its weight; every host name is the target of a weighted CNAME of its geo. |
| `Wanted.ValuesListed` | pkg/controllers/dnspolicy/dns_helper.go:201-208 | The addresses of a kind are listed each once and in order. |
| `Wanted.LbNames` | pkg/controllers/dnspolicy/dns_helper.go:176-194 | A host and its wildcard have the same lb name. |
| `Build.RequestKinds` | pkg/controllers/dnspolicy/dns_helper.go:194-253 | Everything the build asks for is a cluster's A record, a weighted CNAME, an lb endpoint or the host's CNAME; the converse is Wanted.AskedExactly. |
| `Build.AddressedExactly` | pkg/controllers/dnspolicy/dns_helper.go:199-225 | A geo has endpoints if and only if one of its clusters reports an address. |
| `Build.DefaultIsConfiguredExactly` | pkg/controllers/dnspolicy/dns_helper.go:231-239 | With an address in the configured default geo, the default endpoint points there in every order if and only if no geo called "default" beside it has an address. |
| `Build.RequestsPermute` | pkg/controllers/dnspolicy/dns_helper.go:196-253 | If all geos that can win the default endpoint have one name in lower case, another order of geos and clusters asks for the same endpoints. |
| `Build.OrderIndependenceExact` | pkg/controllers/dnspolicy/dns_helper.go:196-253 | Whatever the labels, what is asked for is independent of map order if and only if all geos that can win the default endpoint have one name in lower case; these are "default" and the configured default geo as far as they have an address, or else all geos with an address. |
| `Build.OrderMatters` | pkg/controllers/dnspolicy/dns_helper.go:231-239 | Otherwise there are two orders that ask for different endpoints. |
| `Build.WinsSomewhere` | pkg/controllers/dnspolicy/dns_helper.go:231-239 | Each geo that can win does so in some order. |
| `Ids.IdsDistinct` | pkg/controllers/dnspolicy/dns_helper.go:194-253 | With dot-free, distinct short codes and geo labels and distinct host names in each geo, all SetIDs a run asks for are distinct. |
| `Chain.NamesApart` | pkg/controllers/dnspolicy/dns_helper.go:194-211 | Host, lb, geo and cluster names never coincide when short codes and geo labels are distinct. |
| `Chain.ChainIsRanked` | pkg/controllers/dnspolicy/dns_helper.go:194-253 | The chain has no CNAME cycle: every step falls in rank from host to lb to geo to cluster. |
| `Chain.NoAliasClash` | pkg/controllers/dnspolicy/dns_helper.go:210-253 | No name has both an A and a CNAME record. |
| `Chain.SurvivesIffReaches` | pkg/controllers/dnspolicy/dns_helper.go:298-315 | Of any part of the chain exactly what reaches an IP-looking target through that part in at most three hops survives. |
| `Publish.FullListUnique` | pkg/controllers/dnspolicy/dns_helper.go:196-257 | The sorted list is the same for every map order and cluster order. |
| `Publish.OneWildcard` | pkg/controllers/dnspolicy/dns_helper.go:228-253 | It has exactly one wildcard lb endpoint, for a geo with an address; the configured default geo if that has one and no geo called "default" beside it has. |
| `Publish.PublishedExactly` | pkg/controllers/dnspolicy/dns_helper.go:264-322 | If the filter removed something, exactly the healthy endpoints that reach an IP-looking target through healthy ones are published, or the untouched full list if there are none. |
| `Publish.PublishedUnfiltered` | pkg/controllers/dnspolicy/dns_helper.go:292-322 | If the filter removed nothing there is no pruning either: the full list is published, external host names included. |
| `Publish.FullListSorted` | pkg/controllers/dnspolicy/dns_helper.go:253-257 | The full list is the endpoint of each request, sorted by SetID. |
| `Publish.EndpointIs` | pkg/controllers/dnspolicy/dns_helper.go:345-360 | The endpoint of a request has its name, targets, type, TTL and property; a new one has its set identifier, no label and no other property. |
| `Publish.ByIdExactly` | pkg/controllers/dnspolicy/dns_helper.go:184-187 | Of several stored endpoints with one SetID the last is reused. |
| `Publish.RunIsIdempotent` | pkg/controllers/dnspolicy/dns_helper.go:183-187 | A run on its own output, asking for the same in any order, publishes an equal list. |
| `Publish.SecondRunChangesNothing` | pkg/controllers/dnspolicy/dns_helper.go:174-327 | With unchanged clusters, in any order, and unchanged probes a second run of setEndpoints changes nothing, so no update is sent. |
| `Publish.ReuseKeepsProperties` | pkg/controllers/dnspolicy/dns_helper.go:345-360 | A reused endpoint keeps labels, set identifier and every provider property but weight and geo-code. |
| `Publish.PublishedIsMap` | pkg/controllers/dnspolicy/dns_helper.go:264-322 | Filter and pruning select the same endpoints whatever was reused. |
| `SetEndpoints.CreateOrUpdateEndpoint` | pkg/controllers/dnspolicy/dns_helper.go:345-360 | Updates the object found under the id in place or allocates one, and changes no other object. |
| `SetEndpoints.AddGeo` | pkg/controllers/dnspolicy/dns_helper.go:196-244 | One round of the loop over geos adds exactly that geo's endpoints and moves the default endpoint when it should. |
| `SetEndpoints.BuildEndpoints` | pkg/controllers/dnspolicy/dns_helper.go:196-253 | The whole loop, on shared objects, answers exactly the requests, each from what was stored under its id at the start. |
| `SetEndpoints.SetEndpoints` | pkg/controllers/dnspolicy/dns_helper.go:174-327 | The record ends with what one run publishes and is written back if and only if that differs; without the probe list nothing is written. |
| `Endpoints.EndpointObject.SetProviderSpecific` | pkg/apis/v1alpha1/dnsrecord_types.go:197-213 | Changes the first property of the name in place or adds one. |
| `Endpoints.EndpointObject.GetProviderSpecific` | pkg/apis/v1alpha1/dnsrecord_types.go:215-223 | Returns the first property of the name. |
| `Endpoints.LookupExactly` | pkg/apis/v1alpha1/dnsrecord_types.go:215-223 | A property is found if and only if there is one of the name, and then the first. |
| `Endpoints.EndpointObject.DeleteProviderSpecific` | pkg/apis/v1alpha1/dnsrecord_types.go:225-242 | Removes every property of the name, keeps the order of the others, and says whether there was one. |
| `Endpoints.LookupAssign` | pkg/apis/v1alpha1/dnsrecord_types.go:197-223 | Setting a property changes that property and no other. |
| `Endpoints.AssignCurrent` | pkg/apis/v1alpha1/dnsrecord_types.go:197-213 | Setting a property to its value changes nothing, not even the order. |
| `Endpoints.LookupErase` | pkg/apis/v1alpha1/dnsrecord_types.go:215-242 | Deleting a property removes that property and no other. |
| `Endpoints.EraseAssign` | pkg/apis/v1alpha1/dnsrecord_types.go:197-242 | Setting a new property and deleting it gives back the list. |
| `Notifier.ProbeObject.Notify` | pkg/controllers/dnshealthcheckprobe/notifier.go:30-68 | Records a result exactly when the API accepts it; conflicts and errors leave the status alone and ask for a requeue or fail. |
| `Notifier.CounterIsTrailingRun` | pkg/controllers/dnshealthcheckprobe/notifier.go:36-57 | Over every run the counter is the length of the unhealthy run at the end of the recorded results. |
| `Notifier.LastResultStored` | pkg/controllers/dnshealthcheckprobe/notifier.go:36-57 | A recorded result leaves its health, time, reason and status behind, one that was not accepted nothing. |
| `Notifier.FailingIffFailedLongEnough` | pkg/controllers/dnspolicy/dns_helper.go:277-284 | A probe counts as failing if and only if its last threshold-many recorded results, at least one, all failed. |
| `Notifier.FilterDropsExactly` | pkg/controllers/dnspolicy/dns_helper.go:270-290 | The filter drops exactly the endpoints with a target whose probe, named by target, gateway and listener, failed that long. |
| `GoogleZone.ApplyJoin` | pkg/dns/google/google.go:303-329 | Two changes without a common record, submitted in turn, are accepted and act as one change. |
| `GoogleBatch.BatchChange` | pkg/dns/google/google.go:331-401 | Computes the batches the theorems below are about, for every map order; size 0 gives the one change. |
| `GoogleBatch.PackConserves` | pkg/dns/google/google.go:373-400 | Packing keeps exactly the names whose group fits, in order, each once. |
| `GoogleBatch.NameInOneBatch` | pkg/dns/google/google.go:338-400 | All additions and deletions of a name whose group fits are in one batch and in no other; of others nothing is in any. |
| `GoogleBatch.BatchesAreFew` | pkg/dns/google/google.go:371-400 | No batch is empty or over the size, any two neighbours exceed it together, and n batches need at least floor(n/2)*(size+1) changes. |
| `GoogleBatch.BatchesRefineChange` | pkg/dns/google/google.go:303-401 | If every group fits, submitting the batches in order has the result of the one change, rejections included. |
| `GoogleTranslate.ToResourceRecordSets` | pkg/dns/google/google.go:420-498 | One record set for each DNS name, that of the name's endpoints in their order, or a panic exactly on a name that has none. |
| `GoogleTranslate.TranslateExactly` | pkg/dns/google/google.go:430-507 | A record set has the type and TTL of the first endpoint of its name. With geo codes there is one item for each endpoint of another code than "*", at that code, and one at "europe-west1" for each "*" whose first target has the prefix "default"; with weights one item for each endpoint; the data are the targets, the first of a CNAME with exactly one dot at its end unless it parses as an IP address. |
| `GoogleTranslate.PanicsExactly` | pkg/dns/google/google.go:443-494 | A name panics if and only if one of its endpoints has no target but is a CNAME or to be located, or its first endpoint has both a weight and a geo code and some endpoint is not skipped. |
| `GoogleTranslate.RecordsExactly` | pkg/dns/google/google.go:420-498 | There is one record set for each name, made of exactly the endpoints of that name, in their order. |
| `GoogleChain.WildcardHasTwin` | pkg/controllers/dnspolicy/dns_helper.go:228-249 | The wildcard endpoint points into the default group, or the same target is asked for under its own geo. |
| `GoogleChain.SelectedTwins` | pkg/controllers/dnspolicy/dns_helper.go:270-322 | Filter, pruning and fallback publish requests with equal targets together. |
| `GoogleChain.CleanAfterRun` | pkg/controllers/dnspolicy/dns_helper.go:183-252 | The assumption that reused endpoints carry no stray weight or geo code is kept by every run. |
| `GoogleChain.TranslationComplete` | pkg/dns/google/google.go:420-498 | For every list setEndpoints publishes each name gets one record set, of the type and TTL of its endpoints, that serves exactly what they ask for under their weights and locations; no target of a skipped "*" item is missing. |
| `GooglePublish.UpdateRecord` | pkg/dns/google/google.go:262-301 | Where the status names have one record each, the batches submitted are those of deleting exactly the zone's records under these names and adding exactly the spec's translation. |
| `GooglePublish.OneRecordInStep` | pkg/dns/google/google.go:262-287 | A zone that holds what the status says has one record for each name of the status. |
| `GooglePublish.UpdateZone` | pkg/dns/google/google.go:245-329 | So on such a zone what updateRecord submits is what the run theorems are about, and turns it into the zone of the spec, or into the foreign records when deleting. |
| `GooglePublish.OneChange` | pkg/dns/google/google.go:262-301 | That change is accepted and turns the zone of the status into the zone of the spec. |
| `GooglePublish.BatchesPublish` | pkg/dns/google/google.go:262-329 | So are and do its batches; without the additions they leave exactly the foreign records. |
| `GooglePublish.GoogleRun` | pkg/controllers/dnsrecord/dnsrecord_controller.go:101-122 | Over every run of edits, deletion requests and reconciles the zone is the foreign records, untouched, and exactly the translation of what was published last. |
| `GooglePublish.GoogleSettles` | pkg/controllers/dnsrecord/dnsrecord_controller.go:101-122 | At the end of every such run, unless the record is being deleted, two reconciles with the zone ready make the zone that of the current spec. |
| `GooglePublish.ZoneHolds` | pkg/dns/google/google.go:420-498 | For every name of the list that zone holds exactly the translation of its endpoints. |
| `GooglePublish.ZoneHoldsOnly` | pkg/dns/google/google.go:420-498 | Beside those it holds the foreign records and nothing else. |
| `GooglePublish.GoogleDeleteRemovesExactly` | pkg/dns/google/google.go:249-301 | At the end of any such run, deleting removes exactly the record's own records, whatever the spec now says. |
| `EndToEnd.KeyTells` | pkg/controllers/dnspolicy/dns_helper.go:345-349 | Requests with the same SetID, from any two states of the gateway, are for the same name, set identifier and type and set the same property. |
| `EndToEnd.ReachedSuits` | pkg/controllers/dnspolicy/dns_helper.go:183-252 | Every record that runs of setEndpoints reach from an empty one, with clusters coming and going, meets what the results about the next run assume of it. |
| `EndToEnd.SecondRunOfReached` | pkg/controllers/dnspolicy/dns_helper.go:174-327 | So a second run on a reached record changes nothing. |
| `EndToEnd.ReachedAdmissible` | pkg/dns/google/google.go:420-498 | Every reached list translates without panic, to records of distinct names that nobody else has. |
| `EndToEnd.ReachedFit` | pkg/dns/aws/dns.go:207-330 | Any two reached lists are supported by Route53, and a SetID stands for the same record in both. |
| `EndToEnd.GoogleEndToEnd` | pkg/controllers/dnsrecord/dnsrecord_controller.go:101-122 | Whatever the clusters do and whenever setEndpoints and the reconciler run, the Google zone is the foreign records and exactly the translation of the endpoints published last. |
| `EndToEnd.RouteEndToEnd` | pkg/controllers/dnsrecord/dnsrecord_controller.go:101-122 | The same for Route53, as long as some cluster has an address. |
| `EndToEnd.GoogleCatchesUp` | pkg/controllers/dnsrecord/dnsrecord_controller.go:101-122 | Whatever happened before, two reconciles with the zone ready make the Google zone that of the endpoints setEndpoints left in the record. |
| `EndToEnd.RouteCatchesUp` | pkg/controllers/dnsrecord/dnsrecord_controller.go:101-122 | The same for the hosted zone. |
| `Reconciler.Store.PublishRecord` | pkg/controllers/dnsrecord/dnsrecord_controller.go:177-211 | Asks the provider only if the zone is ready and the generation moved on. |
| `Reconciler.Store.DeleteRecord` | pkg/controllers/dnsrecord/dnsrecord_controller.go:136-173 | A missing zone, a missing record and a record without endpoints count as deleted. |
| `Reconciler.Store.ReconcileRecord` | pkg/controllers/dnsrecord/dnsrecord_controller.go:57-125 | One reconcile, step by step, is the step of the state machine, Ready condition included; a failed one changes nothing else in the record. If the API server does not accept the record, the zone has changed all the same and the record has not. The call succeeds if and only if there is no record (any more) or its status says what its spec does, and asks to be repeated exactly after setting the finalizer and on a conflict. |
| `Reconciler.TakeKeepsInStep` | pkg/controllers/dnsrecord/dnsrecord_controller.go:101-122 | For any provider that replaces the status by the spec, each step keeps zone and status in step. |
| `Reconciler.RunKeepsInStep` | pkg/controllers/dnsrecord/dnsrecord_controller.go:57-125 | So does every run, with the zone ready or not. |
| `Reconciler.ReconcileExactly` | pkg/controllers/dnsrecord/dnsrecord_controller.go:101-122 | The provider is asked if and only if the zone is ready and the generation moved on; a refusal changes nothing but Ready, and success writes down generation and endpoints. |
| `Reconciler.DeletedExactly` | pkg/controllers/dnsrecord/dnsrecord_controller.go:136-173 | A record being deleted goes if and only if its zone is missing, or ready and the provider deleted, did not find or had nothing to delete. |
| `Reconciler.FinalizerFirst` | pkg/controllers/dnsrecord/dnsrecord_controller.go:87-94 | The first reconcile sets the finalizer and nothing else. |
| `Reconciler.ReadyReconcilePublishes` | pkg/controllers/dnsrecord/dnsrecord_controller.go:195-204 | From every state in step, at any generation, a reconcile with the zone ready publishes the spec. |
| `Reconciler.RunSettles` | pkg/controllers/dnsrecord/dnsrecord_controller.go:57-125 | At the end of every run two ready reconciles make the zone that of the current spec. |
| `Route53.UpdateRecord` | pkg/dns/aws/dns.go:207-252 | The batch upserts every endpoint of the spec and deletes exactly what the status has and the spec has not; it fails on an unsupported endpoint. |
| `Route53.RefusedExactly` | pkg/dns/aws/dns.go:207-262 | There is a batch if and only if no endpoint of the spec is refused, nor a published one whose SetID is gone. |
| `Route53.PublishedRecords` | pkg/dns/aws/dns.go:207-330 | After publishing, the zone holds for every endpoint of the spec a record with all its targets in order and its TTL; a weight if and only if the property is there, its number or 0; a country if and only if the geo code is in the table or "*", else a continent, and a subdivision only without one; region, failover, multi-value and health check as the properties say; beside those the foreign records and nothing else. |
| `Route53.EditsShow` | pkg/dns/aws/dns.go:254-290 | Endpoints that differ in targets, TTL or weight make different zones. |
| `Route53.PublishReplaces` | pkg/dns/aws/dns.go:207-252 | The batch is accepted and leaves the foreign records and exactly those of the spec. |
| `Route53.PublishExact` | pkg/dns/aws/dns.go:189-252 | Publishing replaces the status by the spec if and only if nothing was published, or the spec has endpoints and no SetID has come to stand for another record. |
| `Route53.EmptiedSpecKeepsRecord` | pkg/dns/aws/dns.go:189-193 | An example: the emptied spec leaves its record. |
| `Route53.RetypedKeepsRecord` | pkg/dns/aws/dns.go:226-238 | An example: a record whose type was changed stays beside the new one. |
| `Route53.DeleteExact` | pkg/controllers/dnsrecord/dnsrecord_controller.go:136-173 | Deleting leaves exactly the foreign records if and only if nothing was published or the spec says what was. |
| `Route53.DeleteAfterEditKeepsRecord` | pkg/dns/aws/dns.go:217-227 | An example: after an unpublished edit "not found" passes for success and the record stays. |
| `Route53.RouteRun` | pkg/controllers/dnsrecord/dnsrecord_controller.go:101-122 | Over every run with non-empty specs the zone is the foreign records and exactly those published last, and a record deleted after its current generation was published goes with exactly its records. |
| `Route53.RouteSettles` | pkg/controllers/dnsrecord/dnsrecord_controller.go:101-122 | At the end of every such run, unless the record is being deleted, two reconciles with the zone ready make the hosted zone that of the current spec. |
| `Grace.UnannouncedKeptExactly` | pkg/_internal/gracePeriod/gracePeriod.go:25-34 | Calls of a given length never delete a work without valid annotation if and only if that is shorter than the grace period. |
| `Grace.DeletedUnannounced` | pkg/_internal/gracePeriod/gracePeriod.go:25-34 | An example of such a deletion. |
| `Grace.NeverEarlyExactly` | pkg/_internal/gracePeriod/gracePeriod.go:36-59 | Later calls never remove the work early if and only if it was found on a whole second. |
| `Grace.RemovedEarly` | pkg/_internal/gracePeriod/gracePeriod.go:39-56 | An example of an early removal. |
| `Grace.GraceGranted` | pkg/_internal/gracePeriod/gracePeriod.go:45-59 | An expired annotation is 600 clock seconds, and more than the grace period less a second, old. |
| `Placement.Hub.GracefulDelete` | pkg/_internal/gracePeriod/gracePeriod.go:23-64 | Unless a call fails it deletes, stamps or waits as decided by the times it read; it never reports gone what it has not deleted. |
| `Placement.Hub.CreateUpdateManifest` | pkg/placement/ocm.go:454-480 | Creates a work or replaces its workload, keeping label, annotation and status. |
| `Placement.PlaceOn` | pkg/placement/ocm.go:150-162 | On success every target has the RBAC work and the gateway's with the wanted workloads, and works that were there have nothing else changed; whatever fails nothing is removed, no annotation lost, target clusters only are touched, and RBAC comes before the gateway's work. |
| `Placement.RemoveFrom` | pkg/placement/ocm.go:164-211 | Each stale work is left alone, stamped, or removed for an expired annotation or a missing managed cluster; on success all stale clusters have lost the gateway's work and the RBAC work; without failures that is so or one gets its stamp, and it is so at once, whatever the annotations, if no stale cluster is managed any more. |
| `Placement.Place` | pkg/placement/ocm.go:110-214 | On success the set returned is the targets, each of them has the RBAC work and the gateway's with the wanted workloads, and the stale clusters have neither; whatever fails, only this gateway's and the RBAC works of target and stale clusters are written, and the gateway's work is never without RBAC after any write. A gateway being deleted loses its works and no other, and without failures all of them. Without failures it succeeds at once if all stale clusters are no longer managed. |
| `Placement.GetPlacedClusters` | pkg/placement/ocm.go:217-236 | A gateway is on exactly the clusters with a work that is labelled with its name, applied and not being deleted. |
| `Placement.GetClusters` | pkg/placement/ocm.go:239-267 | It belongs on exactly the clusters of the decisions of its placement: on none without placement, and an error if there are no decisions. |
| `Placement.NeverRemovedEarly` | pkg/placement/ocm.go:164-197 | In every run with a monotone clock, whatever fails and however targets change, a work found un-targeted without valid annotation is removed at least 600 clock seconds later, unless the one delete that removed it lasted as long as the grace period. |
| `Placement.NoSecondGraceExactly` | pkg/placement/ocm.go:471-474 | A work targeted again keeps its annotation; found un-targeted a second time it goes at once if and only if that has expired. |
| `Placement.GoneWithoutGrace` | pkg/placement/ocm.go:471-474 | A run in which an applied work goes with its RBAC a nanosecond after it was targeted, with everything installed. |
| `Placement.PlaceConverges` | pkg/placement/ocm.go:128-211 | With fixed targets, no failures and the grace period between calls, whatever annotations there are, 2*(stale clusters) calls from when they have expired leave none stale, in any processing order. |
| `ZoneSearch.FindsDeepest` | pkg/controllers/dnspolicy/dns_helper.go:45-81 | The search finds the first zone of the longest domain among the host's parents above the public suffix, and fails if and only if there is none. |
| `ZoneSearch.NoZones` | pkg/controllers/dnspolicy/dns_helper.go:45-48 | Without zones the error is the one of its own. |
| `ZoneSearch.EligibleAboveSuffix` | pkg/controllers/dnspolicy/dns_helper.go:49-62 | With a uniform suffix lookup the domains in question are exactly the host's label suffixes longer than its public suffix. |
| `ZoneSearch.ProperParents` | pkg/controllers/dnspolicy/dns_helper.go:64-69 | Searching for a lower-case host, the zone's domain is a proper label suffix of it. |
| `ZoneSearch.ZoneOrderIrrelevant` | pkg/controllers/dnspolicy/dns_helper.go:71-79 | The order of the zones does not change the domain and subdomain found, nor the zone if domains are distinct. |
| `ZoneSearch.ApexFoundExactly` | pkg/controllers/dnspolicy/dns_helper.go:64-77 | A host gets the zone of its own name if and only if it is not in lower case and that zone comes into question. |
| `ZoneSearch.ApexFound` | pkg/controllers/dnspolicy/dns_helper.go:64-77 | An example of that. |
| `ZoneSearch.HostRebuiltExactly` | pkg/controllers/dnspolicy/dns_helper.go:75-78 | Subdomain and zone make up the host if and only if what follows the first `.zone` only repeats it. |
| `ZoneSearch.OnceAtTheEnd` | pkg/controllers/dnspolicy/dns_helper.go:76 | That is so when `.zone` occurs only at the end. |
| `ZoneSearch.SubdomainOfAnother` | pkg/controllers/dnspolicy/dns_helper.go:45-81 | An example of a search that returns the subdomain of another host. |
| `HealthCache.HealthCheckDiff` | pkg/dns/aws/health.go:172-206 | Gives an update if and only if something differs, and applying it gives the reconciled check. |
| `HealthCache.SettlesExactly` | pkg/dns/aws/health.go:172-206 | One reconciliation leaves nothing to update if and only if every value the specification leaves out was the default. |
| `HealthCache.NeverSettles` | pkg/dns/aws/health.go:198-203 | An example: a port taken out of the specification again. |
| `HealthCache.ReconciledUpToDate` | pkg/dns/aws/health.go:153-206 | Reconciling brings a check up to date with endpoint and specification, and leaves alone exactly those that are. |
| `HealthCache.NewCheckExactly` | pkg/dns/aws/health.go:108-151 | A new check is up to date and has path, port, threshold, name, first address, the kind of a known protocol, and both tags. |
| `HealthCache.ReconciledKeeps` | pkg/dns/aws/health.go:153-206 | Reconciling keeps kind and tags, and a port or threshold the specification leaves out; the rest is as specified. |
| `HealthCache.DelegateReaches` | pkg/dns/aws/health.go:42-70 | A call fails if and only if the API refuses, the id is unknown or a new check cannot be tagged; otherwise the endpoint has the id of an up-to-date check, its own if it had one, and no other check has changed. The result says which: created without an id, no-op exactly when nothing differed, updated otherwise. |
| `HealthCache.DeleteReaches` | pkg/dns/aws/health.go:71-90 | A delete that does not fail leaves no id and no check, and all other checks and properties; one that fails changes nothing. |
| `HealthCache.Route53HealthCheckReconciler.Reconcile` | pkg/dns/aws/health.go:42-151 | Creates or updates a check and puts its id on the endpoint; an unknown id is an error, and a check that cannot be tagged is left behind without the endpoint knowing it. |
| `HealthCache.Route53HealthCheckReconciler.Delete` | pkg/dns/aws/health.go:71-90 | Deletes the check and takes the id off the endpoint. |
| `HealthCache.CachedHealthCheckReconciler.Reconcile` | pkg/dns/health.go:95-117 | Asks the delegate unless the same specification is remembered for the id, and remembers it either way. |
| `HealthCache.CachedHealthCheckReconciler.Delete` | pkg/dns/health.go:84-92 | Asks the delegate and forgets the id either way. |
| `HealthCache.RemembersLastOnly` | pkg/dns/health.go:84-117 | After any call for an id the delegate is not asked if and only if that was a reconciliation with the same specification; other ids are answered as before. |
| `HealthCache.HitHarmlessExactly` | pkg/dns/health.go:110-113 | Not asking on a hit is harmless if and only if the provider's check is up to date with endpoint and specification. |
| `HealthCache.CacheTransparent` | pkg/dns/health.go:84-117 | In every error-free run with a fixed name and address per id, provider and endpoints are the same with and without the cache after every call. |
| `HealthCache.TransparentFromStart` | pkg/dns/health.go:75-117 | This covers every run from the empty cache, which is then free of errors as well. |
| `HealthCache.FailureRememberedExactly` | pkg/dns/health.go:101-116 | After a failed call, repeating it does nothing, and agrees with the delegate if and only if the check was up to date all along. |
| `HealthCache.FailureRemembered` | pkg/dns/health.go:101-116 | An example: an update of the path that fails and is then never made. |
| `ProbeQueue.QueuedProbeWorker.Run` | pkg/health/queuedProbeWorker.go:49-125 | Executing any interleaving of atomic steps does what the state machine says. |
| `ProbeQueue.EveryRunInOrder` | pkg/health/queuedProbeWorker.go:49-125 | Under every interleaving, all enqueued requests in order are those handed over, then any one in flight, then those queued. |
| `ProbeQueue.NothingLost` | pkg/health/queuedProbeWorker.go:49-125 | Every submitted request is exactly once queued, in flight, under way or done, however often it was put back. |
| `ProbeQueue.NothingInFlightWhenStopped` | pkg/health/queuedProbeWorker.go:58-111 | Cancelling loses nothing: once stopped, what was not handed over is queued. |
| `ProbeQueue.QueueDrains` | pkg/health/queuedProbeWorker.go:91-111 | Left alone, the worker hands over the whole queue in order, one request a tick. |
| `ProbeQueue.SubmittedExactly` | pkg/health/queuedProbeWorker.go:49-54 | What counts as submitted is exactly what was enqueued, in order. |
| `ProbeQueue.FinishExactly` | pkg/health/queuedProbeWorker.go:112-125 | A finished probe is done with, or goes to the end of the queue if the notifier asks for that. |
| `ProbeQueue.CancelledStops` | pkg/health/queuedProbeWorker.go:58-111 | From every state a cancelled worker stops within five steps of its own. |
| `ProbeQueue.CancelledHandsOne` | pkg/health/queuedProbeWorker.go:58-111 | A cancelled worker hands over one more request at most, under every interleaving. |
| `ProbeQueue.StopsOnlyCancelled` | pkg/health/queuedProbeWorker.go:58-111 | A worker stops only when it was cancelled. |
| `Witness.GatewayMeetsAssumptions` | pkg/controllers/dnspolicy/dns_helper.go:194-253 | A gateway on two clusters in two geos meets all assumptions made about setEndpoints and its translation. |
| `Witness.HistoryMeetsAssumptions` | pkg/controllers/dnspolicy/dns_helper.go:194-253 | So do its states before and after a cluster goes. |
| `Witness.OrderMattersWithoutDefault` | pkg/controllers/dnspolicy/dns_helper.go:236-239 | An example: the default geo has no cluster. |
| `Witness.OrderMattersWithLabel` | pkg/controllers/dnspolicy/dns_helper.go:232-239 | An example: the default geo has an address and another cluster is labelled "default". |
| `Witness.RunMeetsAssumptions` | pkg/dns/google/google.go:262-301 | For every plain A endpoint there is a run that publishes and deletes it as the results about Google zones assume. |
| `Witness.RouteRunMeetsAssumptions` | pkg/dns/aws/dns.go:207-252 | Runs without edits of a record with such an endpoint meet what the results about Route53 assume. |
| `Witness.SteadyRunMeetsAssumptions` | pkg/placement/ocm.go:164-211 | A run of two calls on one stale cluster meets what the convergence result assumes. |

## Left out

- SetEndpoints.SetEndpoints: assumes that no two requests of one run have the same SetID, for which Ids.IdsDistinct gives a condition on the labels; otherwise they share one object and the last update wins. A failing update of the record is not modelled. The geo endpoint's code is set before rather than after the default endpoint is created; the two are different objects.
- SetEndpoints.BuildEndpoints: the same assumption on SetIDs.
- Publish.SecondRunChangesNothing: assumes that an endpoint found under a SetID was made for the same set identifier, since a SetID does not say where the name ends; EndToEnd.ReachedSuits derives this for reached records.
- GoogleChain.TranslationComplete: assumes that a reused endpoint has no stray weight or geo code; EndToEnd.ReachedSuits derives this, too.
- GooglePublish.GoogleRun: leaves out lost status writes and half-submitted batches, after which the code does not re-establish what the theorem says; that Cloud DNS refuses a CNAME beside other records is not part of the zone model, and weights stay text instead of floating point.
- Route53.RouteRun: leaves out lost status writes and Route53's rules on mixing routing policies under one name.
- Route53.RecordFor: the order and form of Route53's own normalisation of names and values is not modelled.
- Reconciler.Store.ReconcileRecord: of the Ready condition the truth value is modelled, not reason and message.
- Placement.Place: one gateway per cluster, a work name other than the RBAC work's, and an API server that refuses an update without resource version. The manifests and the answer of GetClusters are parameters.
- Placement.NeverRemovedEarly: states 600 clock seconds, and more than the grace period less a second, because the full period is not granted by the code; and nothing of a delete that itself lasts as long as the grace period.
- Placement.PlaceConverges: nothing else may become stale between calls, and no call fails.
- HealthCache.Route53HealthCheckReconciler.Reconcile: every creation makes a new check; that Route53 may return an existing one for a repeated caller reference is not modelled.
- HealthCache.CacheTransparent: concurrent use of the cache is not modelled.
- EndToEnd.GoogleEndToEnd: nobody but setEndpoints changes the record, for one listener host; RouteEndToEnd likewise.
- ProbeQueue: performing the HTTP request, the throttle's duration and fairness of scheduling.
- Lower-casing is that of ASCII, integers are unbounded, and labels of endpoints are never changed by the code modelled.
- Reconcilers of gateways, gateway classes, managed zones and policies, creation of probes and certificates, event mapping, metrics and provider sessions: plumbing with easy contracts.
