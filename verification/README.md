# kubeip: a verified model of the lock, the assigners and the agent

kubeip runs one agent per Kubernetes node. An agent takes a cluster-wide lease, gives its instance a
reserved static public IP, waits until the node reports it, removes a taint, and releases the address on
exit. The agents share one lease and one pool of addresses, and every call they make is a separate API
call that interleaves with those of all others. This project models that concurrency and proves what the
design relies on.

- **Lease** (`LeaseProtocol`, `LeaseSafety`, `LeaseTiming`, `LeaseTheorems`, `LeaseHazards`, `LeaseProgress`,
  `LeaseLock`):
  the lock as a step system over clients, clocks, pending calls, renewers and Updates still on the wire
  after their renewer was cancelled. The lock excludes exactly when no step is one of two hazards; a
  timing bound that is exact rules out one of them; each remaining premise is shown to be needed by a run
  that breaks without it. `LeaseLock` is `lock.go` as a class whose calls are runs of that system.
- **OCI** (`OciFilter`, `OciProtocol`, `OciSafety`, `OciPool`, `OciTheorems`, `OciCases`, `OciBinding`,
  `OciOutcome`, `OciRelease`, `OciAssigner`): Assign under the lock and Unassign outside it, over any number of agents; when the two
  succeed, and what survives a failing lock. `Joint` puts the lease and the OCI compartment together.
- **AWS** (`AwsFilter`, `AwsSort`, `AwsProtocol`, `AwsTheorems`, `AwsProgress`, `AwsOutcome`, `AwsAssigner`):
  ownership without any lock, and when Assign and Unassign succeed.
- **GCP** (`GcpLists`, `GcpProtocol`, `GcpMoves`, `GcpTheorems`, `GcpAssigner`): failure states and retry over
  every script of faults, cancellations, outcomes of operations, and calls of others in between.
- **Agent** (`Agent`, `AgentTheorems`): bounded retry, lock bracketing and the order of a whole life.
- **Tainter** (`Tainter`): the taint loop and the JSON merge patch of section 2 of RFC 7396.

`Runs`, `Lists`, `Counting`, `Strings` and `Wrappers` hold what these share. Classes carry the source's own
loops and updates; each method is proved against a specification function or a step system, and the
properties are proved about that.

The services are taken to behave as follows. Create fails if the lease exists; Update succeeds only on an
unchanged resource version; Delete has no precondition. A failing call has no effect. AWS refuses to
associate an address in use. OCI's UpdatePublicIP overwrites the current assignment. Compute Engine adds an
access config only to an interface without one, with a free address, and, for IPv6, with a current
fingerprint. Live agents have distinct holder identities.

Results that differ from a first reading of the source or its documentation:

- The lock is not unconditionally exclusive: its takeover Delete is unconditional (internal/lease/lock.go:74)
  and re-entry (internal/lease/lock.go:85) starts no renewer. `LeaseSafety.OwnedExactly` gives the exact
  condition, `LeaseHazards` the runs, and `Joint.TakeoverSteals` shows the race taking an address away.
- An address that was assigned but never reported is not released, whatever `release-on-exit` says, and an
  instance that already had an address (AWS, OCI) keeps its taint: the address is dropped with the error
  (cmd/main.go:113-116). See `AgentTheorems.LifeExactly` and `AgentTheorems.AlreadyAssignedKeepsTaint`.
- Filters are documented to be joined with AND. For OCI that holds exactly when no key is given two values,
  and with no filters at all an address whose tag map is nil is still excluded (internal/types/filters.go:18-25).
  For AWS a later filter replaces an earlier one of the same name (internal/address/aws.go:291).
- The tag comparator is not a strict weak order on every list (internal/address/aws.go:79-98), and sorting by
  a field panics when there are two addresses or more and one lacks it (internal/address/aws.go:112-148),
  as free addresses lack an association or an instance.
- `waitForOperation` never looks at the error of an operation that had already failed when it was returned
  (internal/address/gcp.go:134-148), so Assign can report an address the instance does not have and Unassign
  an ephemeral one: `GcpTheorems.AssignTruthExactly`, `AssignMisleads` and `UnassignTruthExactly`.
- A GCP Unassign of an instance without static address is an error only if no address at all is in use
  (internal/address/gcp.go:342-344): `GcpTheorems.NothingToRelease`.
- A leftover lease without a holder lets everybody in (internal/lease/lock.go:81-85):
  `LeaseHazards.UnnamedLeftover`.

## Model

| member | source | states |
|---|---|---|
| LeaseSafety.OwnedExactly | internal/lease/lock.go:63-94 | over any run from an owned state, the stored lease names every client in its critical section after every step if and only if no step deletes the lease of another client in its critical section or re-enters on a lease that no longer names the client |
| LeaseSafety.MutualExclusion | internal/lease/lock.go:63-135 | for any number of clients, any leftover lease and any interleaving of single API calls, at most one is in its critical section and the stored lease names whoever is between Lock and the end of Unlock, given undisturbed takeovers, no re-entry on a lease without a holder, and no expiry of a client in its critical section or mid-Unlock |
| LeaseSafety.DisciplineAvoidsHazards | internal/lease/lock.go:63-94 | those conditions rule out both steps of OwnedExactly at every step of every run, which is what Lock's contract asks of a run |
| LeaseTheorems.TimedExclusion | internal/lease/lock.go:49-112 | the same with numbers: bounded delays, successful renewals and 500·Dh + L <= 1000·Dc replace the freshness premise for leases acquired through Create, at any time and after any number of ticks |
| LeaseTheorems.RenewalBoundExact | internal/lease/lock.go:72-112 | with delays shorter than a ticker period, no lease of a creator is ever judged expired in any timely run of clients with these durations, if and only if 500·Dh + L <= 1000·Dc for every holder and observer |
| LeaseHazards.NoneDropped | internal/lease/lock.go:72-94 | the premises dropped one by one below are together enough for exclusion |
| LeaseHazards.TakeoverRace | internal/lease/lock.go:74 | two takeovers of one expired lease put two clients in their critical sections when acquisitions may fall between a takeover's Get and its Delete |
| LeaseHazards.ReentryExpires | internal/lease/lock.go:85 | a re-entered lease has no renewer: it expires under its holder and another client gets in |
| LeaseHazards.StaleReentry | internal/lease/lock.go:67-85 | re-entry trusts what was read: a takeover between a client's Get and its decision puts two clients in |
| LeaseHazards.UnnamedLeftover | internal/lease/lock.go:81-85 | a leftover lease with a nil holder is taken by every client for its own, which puts two clients in |
| LeaseLock.ApiServer.Interfere | internal/lease/lock.go:63-134 | between two calls of one goroutine any finite number of steps of everybody else happen, and none of them moves what the goroutine itself moves |
| LeaseLock.KubeLeaseLock.TryLock | internal/lease/lock.go:48-95 | one iteration of the backoff loop, amid any steps of the others: it fails exactly when one of its calls does; it acquires when its Create landed, or on a lease it read that its clock did not find expired and that is not another client's; it retries on an expired one, now gone, or another's |
| LeaseLock.KubeLeaseLock.Lock | internal/lease/lock.go:39-96 | at most a hundred attempts; an error means that one call failed, or that all hundred ended in a retry, and nil that none failed; when it returns nil from an owned start and no step of anybody was a hazard, the stored lease names the caller and nobody else is in its critical section |
| LeaseProgress.FirstAttemptExactly | internal/lease/lock.go:48-95 | with nobody else acting and no failing call, one attempt acquires if and only if no lease is stored, or an unexpired one that is not another client's; an absent lease then names the caller |
| LeaseProgress.TwoAttemptsExactly | internal/lease/lock.go:72-84 | likewise, two attempts acquire if and only if the stored lease is not an unexpired one of another client: an expired leftover goes in the first and is replaced in the second |
| LeaseLock.KubeLeaseLock.Unlock | internal/lease/lock.go:120-135 | the client is outside its critical section whatever the calls answer; an error means exactly that one of them failed, and nil that the lease it read is gone if it named the client and untouched otherwise |
| LeaseLock.KubeLeaseLock.RenewLeasePeriodically | internal/lease/lock.go:98-118 | the renewer stops early only when its context was cancelled, on its one failing Get, or on a lease, stored at that moment, whose holder is nil or another, and not on a refused Update; every firing before that sends one Update, and at most the one cancelled on the wire is missing from the log |
| Joint.NoStealUnderLease | cmd/main.go:104-118 | end to end: under the timing bound, in every run of any number of agents whose Assign is bracketed by Lock and Unlock and whose Unassign is not, Assign is exclusive, a bind lands on an address nobody holds, an address leaves its owner only by the owner's own step, and no VNIC holds two |
| Joint.TakeoverSteals | internal/lease/lock.go:74 | dropping only the undisturbed-takeover premise, one agent's bind takes the address another agent holds |
| OciTheorems.NoSteal | internal/address/oci.go:294-314 | in every run in which the lock excludes, the binding UpdatePublicIP lands on an available address held by nobody, and holdings change only by the holder's own step |
| OciTheorems.OnePerVnic | internal/address/oci.go:183-242 | at every moment of every run, even of one in which the lock fails, a VNIC has at most one public IP |
| OciTheorems.Conservation | internal/address/oci.go:104-150 | over every run, with or without exclusion, the reserved pool neither grows nor shrinks, free plus held is its size, and agents holding reserved addresses never outnumber it |
| OciTheorems.AssignUnassignRestores | internal/address/oci.go:119-154 | one agent alone, whatever it did, leaves exactly the original free pool once its Unassign succeeded, and its VNIC has no public IP |
| OciPool.PooledStep | internal/address/oci.go:67-154 | every step of every agent, whether or not the lock excludes, keeps addresses distinct, at most one per VNIC, and every pending write on an address that it may not remove from or add to the pool |
| OciRelease.ReleaseSucceeds | internal/address/oci.go:119-151 | interleaved with any steps of all others, an agent that holds a reserved address matching its filters and makes no failing call gives back exactly that one with the last call of its Unassign, and holds it until then |
| OciRelease.AssignThenRelease | internal/address/oci.go:104-151 | after any run in which a successful Assign just ended, and any further run in which its agent only releases, without a failing call, the address that was given, and only that one, is given back, whatever the others did meanwhile; the lock excludes in both runs |
| OciRelease.NeverStuck | internal/address/oci.go:119-151 | at every point of that Unassign one of its calls that do not fail can be made |
| OciBinding.LostOnlyToFailures | internal/address/oci.go:95-113 | in every run in which the lock excludes, an answered re-check always finds its candidate available and a bind that goes through binds it; an Assign fails only by a failing call, for want of a matching available address, or because its VNIC holds a reserved address that is in between states |
| OciBinding.NextOneTried | internal/address/oci.go:105-113 | whether or not the lock excludes, a candidate that is not available, or for which a call fails, is left as it is and followed by the next one; Assign fails after the last |
| OciBinding.FirstListedBound | internal/address/oci.go:104-113 | so, interleaved with everybody else, an agent with candidates whose calls go through holds the first one listed after its second call |
| OciRelease.RoundTripRestores | internal/address/oci.go:67-154 | one agent alone: a successful Assign and then an Unassign without failing calls restore the free pool exactly |
| OciTheorems.StealWithoutLock | internal/cloud/oci_network_service.go:80-92 | without exclusion two agents re-check one address and the second bind takes it from the first |
| OciSafety.InvStep | internal/address/oci.go:67-154 | every step of every agent keeps what each agent relies on at each point of Assign and Unassign, as long as the lock excludes |
| OciCases.CasesExactly | internal/address/oci.go:183-242 | in every run in which the lock excludes, what is done about the VNIC's address depends on that address alone: it is reported as already assigned if and only if the filters select it, any other reserved one that is assigned is detached, an ephemeral one deleted, and one in between states is an error; an agent never detaches an address its own filters select |
| OciOutcome.FaultFreeAssign | internal/address/oci.go:67-114 | an Assign entered in any state of such a run, interleaved with everybody else, none of whose calls fails, returns after at most nine of them: with the address its VNIC held if and only if the filters select that one, else holding the first available address that the filters select, as listed at some moment of the call, and with an error only if there was none or the VNIC's address is in between states |
| OciOutcome.NeverStuck | internal/address/oci.go:67-114 | until it has returned, one of its calls that do not fail can be made |
| OciProtocol.FetchExactly | internal/address/oci.go:248-276 | a listing returns exactly the reserved addresses of the requested lifecycle state that match the filters, in order |
| OciProtocol.FetchEphemeralExactly | internal/address/oci.go:279-290 | the ephemeral listing returns exactly the ephemeral addresses that still exist |
| OciAssigner.OciAssigner.FetchPublicIps | internal/address/oci.go:268-275 | the service's tag loop followed by the lifecycle loop computes that listing |
| OciAssigner.OciAssigner.HandlePublicIPAlreadyAssignedCase | internal/address/oci.go:183-242 | for all pool contents and interference: (true, nil) means that the VNIC held on entry an assigned address that matches the filters, which is left to it with no write; (false, nil) that it held none such, and now has no public IP, after exactly one write if there was one; an error means no write, and either one call failed or the address is a reserved one in between states |
| OciAssigner.OciAssigner.TryAssignAddress | internal/address/oci.go:294-315 | one re-check, made at this candidate in a state of the run, and a bind only of an address that was available in that state; a success holds it, after one write, and a failure means exactly that one of the two calls failed |
| OciAssigner.OciAssigner.TryInOrder | internal/address/oci.go:105-113 | the fallback loop: the states of the re-checks are named, one for each candidate from the first to the one bound, or to the last, in order; every one before the bound one was lost to one failing call, no later one is touched, and it fails only after all failed |
| OciAssigner.OciAssigner.Assign | internal/address/oci.go:67-114 | an address that the VNIC held on entry is reported, with no write and nothing tried, only if the filters select it, and nothing is bound then; otherwise the candidates are the available addresses matching the filters in a state that the run went through during the call, and they are tried as TryInOrder says; on success the last one tried is held and returned, after at most two writes, and it is the first one if no call failed; an error without a failing call means that there was no candidate or that the VNIC's address is in between states |
| OciAssigner.OciAssigner.Unassign | internal/address/oci.go:119-154 | it succeeds if and only if no call fails and the VNIC held an address that the filters select; success is one write that leaves the VNIC with no public IP, and a failure writes nothing |
| OciFilter.ParsesExactly | internal/types/filters.go:39-49 | a filter parses to (key, value) exactly when it is the print of a key and a value without '=' |
| OciFilter.ParseOCIFilters | internal/address/oci.go:323-345 | the loop builds the map in which the last filter of a key wins, or returns the first failing filter |
| OciFilter.CompilesExactly | internal/address/oci.go:329-340 | a list of filters compiles if and only if each is the print of a key and a value without '='; otherwise the error is that of the first that is not |
| OciFilter.MeansConjunctionExactly | internal/types/filters.go:16-34 | the compiled check is the conjunction of the filters, for every non-nil tag map, if and only if no key is given two values |
| OciFilter.NilTagsExcluded | internal/types/filters.go:22-25 | a parsed filter list, even an empty one, excludes an address with a nil tag map |
| AwsTheorems.Ownership | internal/cloud/aws_address.go:26-30 | in every interleaving with no lock: an elastic IP has at most one association, an instance gains one only by its own call, on a free address, when it had none, and only its own Unassign removes it |
| AwsTheorems.AtMostOne | internal/address/aws.go:257-268 | an instance that started with at most one elastic IP never has two |
| AwsTheorems.Conservation | internal/address/aws.go:193-219 | the pool keeps its size, free plus held is that size, and holders never outnumber it |
| AwsTheorems.AssignUnassignRestores | internal/address/aws.go:312-330 | an instance alone that starts with no elastic IP and ends with a successful Unassign has none and leaves all associations and the free pool exactly as they were |
| AwsProgress.ReleaseSucceeds | internal/address/aws.go:312-330 | interleaved with any steps of all others, an instance with an elastic IP that makes no failing call removes exactly one association, its own, with the last call of its Unassign, and keeps the one it had until then |
| AwsProgress.AssignThenRelease | internal/address/aws.go:193-330 | after any run in which a successful Assign of an instance that started with none just ended, and any further run in which it only releases, without a failing call, the association it was given, and only that one, is removed, whatever the others did meanwhile |
| AwsProgress.NeverStuck | internal/address/aws.go:312-330 | at every point of that Unassign one of its calls that do not fail can be made |
| AwsProgress.FirstListedBound | internal/address/aws.go:193-235 | interleaved with everybody else, an instance whose first candidate nobody else associates, and whose calls go through, has it associated after its third call |
| AwsTheorems.RoundTripRestores | internal/address/aws.go:168-330 | an instance alone: a successful Assign and then an Unassign without failing calls leave the free pool and all associations exactly as they were |
| AwsTheorems.ReleasedIsUnattached | internal/address/aws.go:312-321 | after a successful Unassign an instance that had one elastic IP has none |
| AwsTheorems.InvStep | internal/address/aws.go:168-330 | every step of every agent keeps what each agent relies on at each point of Assign and Unassign |
| AwsOutcome.FaultFreeAssign | internal/address/aws.go:168-220 | an Assign entered in any state of any run, interleaved with everybody else and with no lock, whose calls go through, ends in one way only: it reports an elastic IP that the instance had on entry; or, if it had none, it gets the first of its candidates that was not in use when it was looked at; or all of them were |
| AwsOutcome.NextOneTried | internal/address/aws.go:194-219 | a candidate seen in use, or for which a call fails, is followed by the next one and nothing is written; Assign fails after the last |
| AwsOutcome.NeverStuck | internal/address/aws.go:168-220 | until it has returned, one of its calls that go through can be made, an association being refused only for an address in use |
| AwsAssigner.AwsAssigner.CheckElasticIPAssigned | internal/address/aws.go:257-268 | unless its call fails, it answers whether the instance had an elastic IP on entry; nothing is written |
| AwsAssigner.AwsAssigner.GetAvailableElasticIPs | internal/address/aws.go:284-310 | the result is a permutation of the free addresses the query selects in a state of the run, ascending by the field asked for, or by the tag whenever that comparator is a strict weak order on them; a filter that does not parse is reported; a panic while sorting ends the agent and happens only if a field is missing among two addresses or more; any other error means that the call failed or that nothing was selected |
| AwsAssigner.AwsAssigner.TryAssignAddress | internal/address/aws.go:222-235 | the forced re-check comes first, made at this candidate in a state of the run; an address in use in that state is not associated, and one that was not is lost only to a failing call |
| AwsAssigner.AwsAssigner.TryInOrder | internal/address/aws.go:194-219 | the fallback loop: the states of the re-checks are named, one for each candidate from the first to the one associated, or to the last, in order; every one before it failed, and, if no call failed, was in use; no later one is touched, and it fails only after all failed |
| AwsAssigner.AwsAssigner.Assign | internal/address/aws.go:168-220 | an instance that had an elastic IP on entry gets no other; the candidates are the sorted listing made in a state that the run went through during the call, and they are tried as TryInOrder says; success is one write that associates the last one tried and returns its public IP; otherwise nothing is written; if no call failed, an instance that had one is reported as such, all candidates passed over were in use, and an error with no candidate means that nothing was selected |
| AwsAssigner.AwsAssigner.Unassign | internal/address/aws.go:312-330 | it succeeds if and only if no call fails and the instance had an elastic IP; success is one write, which removed exactly one association, of this instance, from the state in which it was made; a failure writes nothing |
| AwsFilter.AcceptsExactly | internal/address/aws.go:59-77 | the parser accepts exactly "Name=" n ",Values=" v with no ',' or '=' in n and no '=' in v |
| AwsFilter.RejectsExactly | internal/address/aws.go:60-74 | the format error means that there is no ',', and the name error that what precedes the first one is not "Name=" and a text without '=' |
| AwsFilter.PrintOfParse | internal/address/aws.go:59-77 | printing a parsed filter gives back the text |
| AwsFilter.ParseOfPrint | internal/address/aws.go:59-77 | parsing a printed name and non-empty list of comma- and equals-free values gives back the pair |
| AwsFilter.QueryMeansExactly | internal/address/aws.go:285-292 | the query built from several filters is their conjunction if and only if, for each name, the values of the last filter of that name are among those of every filter of that name |
| AwsFilter.LastFilterWins | internal/address/aws.go:285-292 | the query has exactly the names of the filters, and for each the values of the last filter of that name |
| AwsFilter.CompilesExactly | internal/address/aws.go:285-292 | a list of filters compiles if and only if each is a shorthand filter; otherwise the error is that of the first that is not |
| AwsAssigner.AwsAssigner.ParseFilters | internal/address/aws.go:285-292 | the loop builds that query, or returns the error of the first filter that does not parse |
| AwsSort.Less | internal/address/aws.go:80-97 | the nested scans compare the values of the first tags with the key, nil tag lists last |
| AwsSort.StrictPartialOrder | internal/address/aws.go:79-148 | every comparator is a strict partial order on all addresses |
| AwsSort.WeakOrderExactly | internal/address/aws.go:80-97 | the tag comparator is a strict weak order on a list if and only if the list does not mix a tagged address lacking the key with two different values of it |
| AwsSort.FieldWeakOrder | internal/address/aws.go:112-148 | the comparator of a field is a strict weak order on any addresses that all have it |
| AwsSort.SortAddressesByField | internal/address/aws.go:102-148 | in place, a permutation; it panics if and only if the pointer field that sortBy names is nil in one of at least two addresses; otherwise ascending by what sortBy names, field by field, and by a tag whenever that comparator is a strict weak order on the list; untouched if it names nothing known |
| AwsSort.SortsByName | internal/address/aws.go:102-148 | the comparator chosen for sortBy has a list sorted if and only if, for each of the nine names and for "Tag:" with any key, no later address has a lower value of just that field, or of the first tag with that key, nil tag lists coming last |
| AwsSort.BelowExactly | internal/address/aws.go:91-146 | a text is below another if and only if it is a proper prefix or has the lower character at the first difference |
| AwsSort.TagValueExactly | internal/address/aws.go:87-95 | the value compared is that of the first tag with the key, if there is one |
| AwsSort.SortAddressesByTag | internal/address/aws.go:79-98 | in place, a permutation, and sorted whenever the comparator is a strict weak order on the list |
| AwsSort.NilTagsLast | internal/address/aws.go:81-86 | in a list sorted by a tag the addresses with nil tags come last |
| GcpLists.ListAddresses | internal/address/gcp.go:317-328 | for every finite chain of pages the loop terminates with their concatenation in order, or with the error of the call that failed |
| GcpLists.CreateUserMap | internal/address/gcp.go:404-412 | every lookup in the map answers with the last listed address that names the user |
| GcpLists.LookupExactly | internal/address/gcp.go:284-290 | a lookup hits if and only if some listed address names the instance, and returns the last such |
| GcpLists.WaitForOperation | internal/address/gcp.go:123-150 | the polling loop stops at the first answer that is done or carries an error, at a failing poll, or when the deadline ends it |
| GcpLists.FirstPollDecides | internal/address/gcp.go:134-148 | an operation not yet done is decided by the first poll that does not leave it pending: an error, a success, a cancellation or a failing call |
| GcpLists.FoundFailedExactly | internal/address/gcp.go:134-148 | the operation is found failed if and only if it was not done when returned and that poll says that it failed |
| GcpLists.WaitTellsExactly | internal/address/gcp.go:134-148 | waiting tells whether the operation succeeded if and only if the operation had not already failed when it was returned |
| GcpMoves.OwnCallsAllowed | internal/address/gcp.go:152-207 | what one call of one instance does leaves every other instance, its address and the pool alone |
| GcpMoves.OthersAllowed | internal/address/gcp.go:152-207 | so does any sequence of calls of other instances: this is all the interference a script can make |
| GcpMoves.AssignMoves | internal/address/gcp.go:217-273 | whatever the script, an Assign amounts to a sequence of single calls, its own and those of others |
| GcpMoves.UnassignMoves | internal/address/gcp.go:331-366 | whatever the script, an Unassign amounts to a sequence of single calls, its own and those of others |
| GcpTheorems.ListedExactly | internal/address/gcp.go:275-291 | the listing of used addresses names the instance if and only if it holds a static address, and then gives that address |
| GcpTheorems.FirstThatBinds | internal/address/gcp.go:255-272 | the fallback loop is "first candidate in order that binds": every earlier candidate was tried and failed, no later one is touched, and an uncancelled loop fails only if all failed |
| GcpTheorems.AssignOutcome | internal/address/gcp.go:217-273 | a failing Assign leaves the instance as it was or with no access config, and as it was when the check, the listing or the deletion failed; a successful one leaves it with the address it returned, or with none if it was given just now and the operation of the last call had no effect without the wait finding it failed |
| GcpTheorems.FirstCallsDecide | internal/address/gcp.go:217-234 | an Assign of an instance with a static address succeeds if and only if the two calls of its check do, and changes nothing; without one it fails with nothing changed if one of its first three calls fails or the third lists no candidate, and otherwise goes on to the deletion with the candidates that call listed |
| GcpTheorems.NothingAvailable | internal/address/gcp.go:228-234 | in particular, with an empty candidate list Assign fails and the instance keeps the access config it has |
| GcpTheorems.NextCallsDecide | internal/address/gcp.go:241-251 | an access config that cannot be deleted, or an instance that cannot be read again, ends the Assign there; a missing access config does not |
| GcpTheorems.TryExactly | internal/address/gcp.go:388-402 | a candidate is added if and only if its status could be read, it was free then, and the add is accepted and not found failed; a candidate whose status call fails, or that is in use, is not added |
| GcpTheorems.MisledExactly | internal/address/gcp.go:123-180 | the caller believes in an operation that has no effect if and only if it had already failed when the call returned it |
| GcpTheorems.ReportsExactly | internal/address/gcp.go:171-179 | a call that went through counts as failed if and only if its operation was not done and the first decisive poll says that it failed; a deadline or a failing poll does not count |
| GcpTheorems.AssignTruthExactly | internal/address/gcp.go:183-273 | an Assign that reports a newly given address tells the truth if and only if the operation of its last call had not already failed when it was returned; otherwise the instance has no access config |
| GcpTheorems.AssignMisleads | internal/address/gcp.go:134-149 | an input on which it does not: every operation comes back DONE with an error, Assign returns the address and the instance is bare |
| GcpTheorems.FailuresLeave | internal/address/gcp.go:217-273 | any number of failing Assigns never takes the instance further than losing its access config |
| GcpTheorems.FaultFreeAssign | internal/address/gcp.go:217-273 | a fault-free Assign succeeds whatever others do meanwhile, from any access config, if some candidate of its own listing is taken by nobody else: it ends with that one or an earlier one, or with the static address already held |
| GcpTheorems.LockedAssign | internal/address/gcp.go:217-273 | in particular if others only make the calls of Unassign, which runs outside the lock: with any candidate it succeeds, and ends with the first one listed |
| GcpTheorems.RetrySucceeds | internal/address/gcp.go:217-273 | after any number of failures under any faults and interference, a later fault-free Assign with a candidate that nobody else takes succeeds, with that one or an earlier one, whatever else others do meanwhile |
| GcpTheorems.AddEphemeralExactly | internal/address/gcp.go:414-427 | whatever the others do, the retry loop reports success if and only if one of its attempts is accepted, with an operation that is not found failed, before any cancellation, and the first such is the last call made |
| GcpTheorems.UnassignOutcome | internal/address/gcp.go:331-366 | a successful Unassign of an instance with a static address leaves an ephemeral one, after at most ten adds, or none if the operation of the last call had no effect without the wait finding it failed; otherwise the instance is as it was or bare |
| GcpTheorems.UnassignTruthExactly | internal/address/gcp.go:331-366 | a successful Unassign of an instance with a static address leaves an ephemeral one if and only if the operation of its last call had not already failed when it was returned, and none otherwise |
| GcpTheorems.NothingToRelease | internal/address/gcp.go:331-366 | an Unassign of an instance without static address changes nothing and succeeds if and only if its two calls do and some address is in use in the state of its listing |
| GcpTheorems.TenAttempts | internal/address/gcp.go:348-365 | an Unassign whose first four calls go through succeeds if and only if one of the next ten is the first to be accepted before any cancellation |
| GcpTheorems.FaultFreeUnassign | internal/address/gcp.go:331-366 | a fault-free Unassign of an instance with a static address succeeds and leaves an ephemeral one, whatever others do meanwhile |
| GcpTheorems.RoundTripRestores | internal/address/gcp.go:217-366 | with no fault and no interference, Assign with a free candidate and then Unassign both succeed, restore exactly the free set and leave an ephemeral address |
| GcpTheorems.AssignUnassignRestores | internal/address/gcp.go:217-366 | with no interference, an Assign and an Unassign that report success restore exactly the free set, whatever became of the operations, and leave an ephemeral address if neither was misled by its last one |
| GcpMoves.Conservation | internal/address/gcp.go:152-207 | after any interleaving of single calls of any number of instances the pool keeps its size, free plus held is that size, an address has at most one instance, and holders never outnumber the held addresses |
| GcpAssigner.Assigner.DeleteInstanceAddress | internal/address/gcp.go:152-181 | the config of the first interface is deleted if there is one, and the operation is waited for: only one found failed is an error; a missing config and an instance without interface are told apart |
| GcpAssigner.Assigner.AddInstanceAddress | internal/address/gcp.go:183-207 | the config is added with the snapshot's fingerprint, static or ephemeral, and the operation is waited for: only one found failed is an error |
| GcpAssigner.Assigner.TryAssignAddress | internal/address/gcp.go:388-402 | the address is re-checked and added only if not in use |
| GcpAssigner.Assigner.CheckStaticIPAssigned | internal/address/gcp.go:275-291 | the user map's answer for the instance decides between the address already held and going on |
| GcpAssigner.Assigner.TryInOrder | internal/address/gcp.go:255-272 | the loop with its cancellation check is the fallback function of which FirstThatBinds is proved |
| GcpAssigner.Assigner.Assign | internal/address/gcp.go:217-273 | the method is the function of which AssignOutcome and RetrySucceeds are proved, for every script |
| GcpAssigner.Assigner.RetryAddEphemeralAddress | internal/address/gcp.go:414-427 | the loop is the function of which AddEphemeralExactly is proved, with ten attempts |
| GcpAssigner.Assigner.Unassign | internal/address/gcp.go:331-366 | the method is the function of which UnassignOutcome is proved, for every script |
| Agent.KubeIp.AttemptOnce | cmd/main.go:104-118 | Assign is called only after a successful Lock, and Unlock follows whatever it answered |
| Agent.KubeIp.AssignAddress | cmd/main.go:96-137 | the retry loop is the function of which AssignsExactly and AssigningLocks are proved |
| Agent.KubeIp.WaitForAddressToBeReported | cmd/main.go:148-194 | the polling loop with its scan of the node's addresses is the function of which ReportsExactly is proved |
| Agent.KubeIp.Run | cmd/main.go:197-273 | the whole life is the function of which Lifecycle, Locking and LifeExactly are proved |
| AgentTheorems.AssignsExactly | cmd/main.go:96-137 | a nil error with an address means exactly that the first attempt that got the lock and an answer other than a refusal was reached, and that this was the address it answered, or the empty text if it answered already-assigned |
| AgentTheorems.AttemptsExactly | cmd/main.go:96-137 | the last attempt made decides between its address, cancellation and exhaustion; up to it every attempt calls Lock once, and Assign if it got the lock |
| AgentTheorems.GivenIsUsed | cmd/main.go:117-230 | the address that the first successful attempt answered is the one returned, and with a taint key the taint removal is attempted if and only if some snapshot in reach lists that address |
| AgentTheorems.ReportsExactly | cmd/main.go:148-194 | waiting succeeds if and only if some snapshot in reach lists the address |
| AgentTheorems.LooksExactly | cmd/main.go:148-194 | the looks at the node are taken in order, once each, up to the one that lists the address, is cancelled or is the last, which decides the answer |
| AgentTheorems.AssigningLocks | cmd/main.go:96-137 | every Assign lies between one successful Lock and its Unlock, Unlocks equal successful Locks on every exit, and there are at most max(0, RetryAttempts+1) attempts |
| AgentTheorems.Locking | cmd/main.go:104-118 | the same over a whole life |
| AgentTheorems.Lifecycle | cmd/main.go:230-272 | the taint is removed at most once, after an assignment and a snapshot that listed its address; Unassign is called at most once, never before an assignment, and right after a failed taint removal; no Assign follows a successful one |
| AgentTheorems.LifeExactly | cmd/main.go:230-284 | exactly when the taint removal is attempted, when Unassign is called, when the agent ends without an error, and when with one because the taint or the address could not be removed |
| AgentTheorems.FailsExactly | cmd/main.go:197-240 | an agent that gets no address, or never sees it reported, fails with what ended its attempts or its looks: cancellation or exhaustion |
| AgentTheorems.AlreadyAssignedKeepsTaint | cmd/main.go:113-121 | if the first attempt to hold reports already-assigned and a taint key is set, the agent fails, the taint stays and nothing is released |
| Tainter.DeleteTaintsByKey | internal/node/tainter.go:24-37 | the loop keeps every taint without the key, in order, and reports a deletion if and only if some taint has it |
| Tainter.NothingDropped | internal/node/tainter.go:24-37 | nothing is dropped if and only if no taint has the key |
| Tainter.PatchSetsTaints | internal/node/tainter.go:59-64 | applying the document under section 2 of RFC 7396 changes only spec.taints, to the given taints, an array even when empty |
| Tainter.PatchRemovesExactly | internal/node/tainter.go:45-70 | applied to any node, the patch leaves no taint with the key, and removes exactly those if and only if the node's other taints are the ones that were read |
| Tainter.RemoveTaintKey | internal/node/tainter.go:45-70 | no patch is sent when the key is absent or a call fails; otherwise one patch sets the read taints without the key and leaves everything else |

## Left out

- SDK clients, constructors and credentials (internal/cloud, NewGCPAssigner, NewAwsAssigner, NewOCIAssigner): the services appear only through the behaviour listed above.
- Command line, configuration, kubeconfig, logging and version printing: no behaviour the properties depend on; failing setup is one flag of the agent's environment.
- internal/node/explorer.go: label lookups and field copying; a node snapshot is an answer of the environment.
- Azure: an empty stub in the source.
- LeaseLock.KubeLeaseLock.Lock: makes at most 100 attempts like the backoff's Steps; waiting times, jitter and the backoff's early end at its cap are not modelled.
- LeaseProgress.TwoAttemptsExactly: nobody else acts and the clock stands still meanwhile; under contention nothing bounds the attempts one client needs.
- LeaseLock.KubeLeaseLock.RenewLeasePeriodically: runs for a given number of ticker firings, because the loop has no end of its own.
- LeaseTheorems.TimedExclusion: still assumes undisturbed takeovers, no expiry of re-entered leases and no re-entry on a lease without a holder; no bound on delays implies them, and LeaseHazards shows that exclusion fails without each.
- The lease's LeaseDurationSeconds and AcquireTime fields: written and never read by the source.
- The internals of sort.Slice: AwsSort.SortSlice sorts by insertion; on a list where the tag comparator is not a strict weak order only the permutation is stated, and after a panic as well.
- AwsAssigner.AwsAssigner.GetNetworkInterface: whether the instance has a primary interface with a public IP is an answer of the environment; an instance has one such interface.
- AwsFilter.QueryMeansExactly: reads a value as a text to be equal to; the service's wildcards and multi-valued attributes are not modelled.
- OciAssigner.OciAssigner: an agent is its primary VNIC with one private IP; choosing the VNIC and its private IP from lists is one call each.
- Defined tags of OCI: parsing and checking them are stubs in the source.
- GcpAssigner.Assigner.AddInstanceAddress: an operation takes effect at its call or not at all; when the wait ends by deadline or by a failing poll, which the source logs and ignores (internal/address/gcp.go:177-178, 203-204), the script decides which.
- GcpLists.WaitForOperation: the nil operation it warns about is not produced by the project.
- GcpAssigner.Assigner.Assign: a paged listing is one call of the project; GcpLists.ListAddresses covers the pages.
- The text of access configs, filters sent to Compute Engine, regions and error messages.
- Eventual consistency, and calls that time out with unknown effect.
- Tainter.RemoveTaintKey: the patch is a JSON value; its serialisation to text is not modelled.
- The width of Go's int, durations and ticker: unbounded integers in milliseconds.
- Release after the agent was killed: a crash simply stops an agent.
