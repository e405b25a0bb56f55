# vCluster booter daemon: the command engine

The vCluster booter daemon creates, destroys and lists virtual clusters on an OpenNebula
installation. Each request carries a timestamp and a SHA-1 hash. The engine checks that
hash against its password, then dispatches on the command number. It keeps every cluster it
created in a registry keyed by a counter.

- **Create (0):** makes one `onevnet create` call per private network. Each network gets a
  generated name and one lease per VM. Then one `onevm create` call per VM template. It reads
  the leases and VM states back with `onevnet show` / `onevm show`, then registers the cluster
  under the counter.
- **Destroy (1):** deletes every VM of a registered cluster, then every network of it that is
  not public, and forgets the cluster.
- **List (2):** refreshes the status of every VM of every registered cluster in place.

The model is split into these modules:

- `Wrappers`: `Option`.
- `Text`: the Python string operations the engine relies on (`split`, `join`, `strip`, `int()`,
  `str()`), with their round trips.
- `Types`: the request, the cluster records, the backend calls and the outcome of a request.
- `Synthesis`: the pure steps of create. These are the lease addresses, the disk entries and
  root device, the NIC entries, and the check of a create reply.
- `Status`: the LCM state names, the lease lookup by VM id, and the fill-in of open IP slots.
- `Engine`:
  - class `Backend`, the `onevnet`/`onevm` tools. Its `respond` oracle gives what a call prints,
    given the calls made before. `None` means launching the tool raised. Its `history` is
    every call made.
  - class `CommandEngine`, with the registry `clusters`, the counter `nextId` and the operations.
- `Scenarios`: a short session with the engine.

Python exceptions are a `Result` whose failure is one of:

- `EngineError(code)`, for a `commandEngineError`;
- `Fault`, for any other exception (IndexError, KeyError, ValueError, TypeError, an XML parse
  error);
- `NoRootDevice`, for the 501 answer of create.

The engine's operations are methods over the registry and the backend. Each loop of the
source is proved against a specification function: the outcome of the loop computed from
the backend's replies (`CreateOutcome`, `ReadBackOutcome`, `RefreshStatuses`,
`ShownLeases`). Lemmas then state what those outcomes mean in the source's terms: the ids,
leases and statuses a create records, the answer code of each failure, and the calls made.
On success every method states the calls it made exactly. On failure the loops state a
prefix of their planned calls, and the create methods state only that no delete was made.
`Authentic` is `_authenticateUser` (lines 70-78 of `src/daemon/vclusterBooterd.py`). The
pure helpers `RootDevice`, `CheckReply`, `Leases`, `LeaseAddress`, `BaseOctet`, `NicFor`,
`NetworkUid`, `VmDeletes`, `VnetDeletes`, `DestroyCalls`, `Snapshot`, `ParseInt` and
`IntToString` are specified by the lemmas and methods about them in the table.

## Model

| member | source | states |
|---|---|---|
| Engine.CommandEngine.constructor | src/daemon/vclusterBooterd.py:29-32 | The registry starts empty, the counter at 0, and the password is the one given. |
| Engine.CommandEngine.Run | src/daemon/vclusterBooterd.py:38-68 | Without a command the answer is 400. An answer of 451 comes exactly when the hash is not the SHA-1 of timestamp plus password (`Authentic`, `_authenticateUser` at lines 70-78). For an unknown command number the answer is 401. None of these three cases touches the registry, the counter or the backend. A create answers 0 exactly when `CreateOutcome` of the request succeeds. It then stores that cluster under the old counter value and advances the counter; any other create outcome leaves the registry alone. For a destroy of a registered id, the answer is 0 exactly when all of that cluster's deletes launch. A successful destroy removes exactly that id, after exactly its delete sequence. A list answers 0 exactly when every registered cluster's refresh succeeds. Each refreshed status is then the one its own `onevm show` reply gives. The counter never goes back. |
| Engine.Backend.Invoke | src/daemon/vclusterBooterd.py:127-132 | One tool invocation: the call is appended to the history and the output is what the oracle gives for the calls made before it. |
| Engine.CommandEngine.ActionCreate | src/daemon/vclusterBooterd.py:80-260 | Without a cluster description the request raises. Otherwise the outcome is `CreateOutcome`, the create computed from the backend's replies. When it succeeds the answer is 0 with that cluster, the cluster is registered under the old counter value, the counter advances by one, and the calls made are exactly `CreatedCalls`. A missing root device gives the 501 answer, and any other failure is passed on. Every outcome but 0 leaves the registry and the counter unchanged. A create never deletes anything. |
| Engine.CommandEngine.BuildCluster | src/daemon/vclusterBooterd.py:88-252 | The result is exactly `CreateOutcome` of the request for the backend's replies. On success the history grew by exactly the network creates, the VM creates, the network shows and the VM shows of that cluster. With only public networks and a first template without a root disk, the answer is 501 and no call is made. No delete is ever made. |
| Engine.CommandEngine.CreateOutcomeRealizes | src/daemon/vclusterBooterd.py:251-258 | A create that succeeds records the cluster under the counter value, for `vmNR` as requested. Its networks are as planned and there is one VM per template index below `vmNR`, each with a root disk and shaped by its template. Every status is known. |
| Engine.CommandEngine.CreateOutcomeNetIds | src/daemon/vclusterBooterd.py:139-146 | A create that succeeds records, for each private network, the id token of the reply to that network's `onevnet create`. |
| Engine.CommandEngine.CreateOutcomeVmIds | src/daemon/vclusterBooterd.py:242-245 | A create that succeeds records, for each VM, `int()` of the id token of the reply to that VM's `onevm create`. |
| Engine.CommandEngine.CreateOutcomeStatuses | src/daemon/vclusterBooterd.py:307-316 | A create that succeeds records, for each VM, the status the reply to its own `onevm show` gives. |
| Engine.CommandEngine.CreateOutcomeLeases | src/daemon/vclusterBooterd.py:335-339 | A create that succeeds fills each IP slot the request left open with the VM's lease. That lease is taken from the leases the `onevnet show` of that network listed. |
| Engine.CommandEngine.CreateNeedsNoBackend | src/daemon/vclusterBooterd.py:89-156 | A request with no VM and only public networks always succeeds under the counter value, whatever the backend would answer. It makes no call, builds no VM, and its cluster has nothing to delete. |
| Engine.CommandEngine.BuildMachines | src/daemon/vclusterBooterd.py:179-252 | Once the networks exist, the result is exactly the VM part of `CreateOutcome`. On success the history grew by exactly the VM creates, the network shows and the VM shows. A first template without a root disk gives 501 before any call. No delete is made. |
| Engine.CommandEngine.ProvisionNetworks | src/daemon/vclusterBooterd.py:88-156 | The result is exactly the outcome of the network loop on the backend's replies. The history grows by a prefix of the planned `onevnet create` calls, and on success by all of them. On success the name map is the one the loop builds. |
| Engine.CommandEngine.NetsBuilt | src/daemon/vclusterBooterd.py:88-156 | A network loop that completes records every requested network as planned. A private one gets the generated name and FIXED mode under the id token of its `onevnet create` reply. A public one is recorded as `public-vnet`, RANGED, with id -1. |
| Engine.CommandEngine.PublicNetsSucceed | src/daemon/vclusterBooterd.py:148-156 | With only public networks, the network loop succeeds and makes no call. |
| Engine.CommandEngine.NetworkStep | src/daemon/vclusterBooterd.py:89-156 | One pass of the network loop keeps its invariant: the outcome is that of the first k+1 passes, and the history holds the planned calls of the first k+1 networks. |
| Engine.CommandEngine.NetworkPass | src/daemon/vclusterBooterd.py:89-156 | One pass with the name-map bookkeeping. On success the outcome, the name map and the history are those of k+1 passes. On failure the outcome is already that of the whole loop, and the history is a prefix of the planned calls. |
| Engine.CommandEngine.NetLoopStops | src/daemon/vclusterBooterd.py:130-141 | A failing pass ends the network loop: its failure is the loop's outcome, and the history is a prefix of the planned calls. |
| Engine.CommandEngine.ProvisionNetwork | src/daemon/vclusterBooterd.py:93-156 | The history grows by exactly that network's planned call (none for a public one). The result is what that call's reply gives. A public network always succeeds. |
| Engine.CommandEngine.NetReplyMeaning | src/daemon/vclusterBooterd.py:127-146 | A recorded network is the planned one. A private one takes the id token of its reply. A launch that raises gives 420. A reply not starting with `ID:` gives 422. The reply `ID: <token>` followed by newlines gives success with that token. |
| Engine.CreatedIdAnswers | src/daemon/vclusterBooterd.py:127-146 | For any create reply: `ID: <token>` followed by newlines gives that token. A launch that raises gives 420. A reply whose first word is not `ID:` gives the refusal code (422 for networks, 421 for VMs). |
| Engine.VmIdAnswers | src/daemon/vclusterBooterd.py:242-245 | The reply `ID: <n>` followed by newlines gives VM id n. |
| Engine.CommandEngine.VnetCallOfShape | src/daemon/vclusterBooterd.py:94-132 | At most one call per requested network. It is an `onevnet create`, and there is none for a public network. |
| Engine.CommandEngine.VnetCallsCreate | src/daemon/vclusterBooterd.py:94-128 | Every call the network loop plans is an `onevnet create`, and there is none when every network is public. |
| Engine.CommandEngine.VnetCallsPrefix | src/daemon/vclusterBooterd.py:89-128 | The calls planned for the first n networks come first among those for the first m >= n networks. |
| Engine.CommandEngine.NameMapForMeaning | src/daemon/vclusterBooterd.py:99-101 | `networkNameMap` holds every private network name and nothing else. Each name maps to `name-sha1(name-salt)` for an entry with that name. |
| Engine.CommandEngine.NameMapForPrefix | src/daemon/vclusterBooterd.py:99-101 | The same, for the map after the first n networks. |
| Engine.CommandEngine.RecordName | src/daemon/vclusterBooterd.py:99-101 | One pass of the network loop extends `networkNameMap` to the map of the first k+1 networks. |
| Engine.CommandEngine.ProvisionVms | src/daemon/vclusterBooterd.py:179-249 | The result is exactly the outcome of the VM loop on the backend's replies. The history grows by a prefix of the planned `onevm create` calls, and on success by all of them. A failure comes from the first failing pass, after exactly the calls up to and including that pass. |
| Engine.CommandEngine.VmStep | src/daemon/vclusterBooterd.py:179-249 | One pass of the VM loop keeps its invariant: the outcome is that of the first k+1 passes, and the history holds the calls of the first k+1 templates. |
| Engine.VmsBuilt | src/daemon/vclusterBooterd.py:179-249 | A VM loop that completes records one VM per template index below `vmNR`. Each template has a root disk, and each VM is shaped by its template with the addresses the request fixed. Each VM's id is `int()` of the id token of the reply to its own `onevm create`. |
| Engine.NoRootStopsVms | src/daemon/vclusterBooterd.py:196-197 | A first template without a root disk stops the VM loop with 501 at its first pass, before any call. |
| Engine.VmCallsCreate | src/daemon/vclusterBooterd.py:233 | Every call of the VM loop is an `onevm create`. |
| Engine.VmCallsPrefix | src/daemon/vclusterBooterd.py:179-249 | The calls of fewer passes of the VM loop come first among those of more. |
| Engine.CommandEngine.ProvisionVm | src/daemon/vclusterBooterd.py:180-247 | The history grows by exactly the template's `onevm create` call. That call carries the name, memory, root device, DISK entries and NIC entries, and there is no call when the root device is missing or a NIC does not resolve. The result is what the reply gives. The answer is 501 exactly when the root device is empty, whether no disk is root-marked or the last marked one has an empty target. A VM built has its template's shape, the addresses the request fixed, and status "N/A". |
| Engine.VmReplyMeaning | src/daemon/vclusterBooterd.py:180-247 | A VM is built exactly when the root device is found, every NIC resolves, and the reply carries a numeric id. It then has the template's shape and that id. No root device gives 501. A launch that raises gives 420. A reply not starting with `ID:` gives 421. |
| Engine.LeasesFilledByFill | src/daemon/vclusterBooterd.py:335-339 | The fill-in puts the VM's own lease into exactly the slots the request left open. |
| Engine.ShapeKeptByFill | src/daemon/vclusterBooterd.py:335-339 | Filling the open IP slots keeps everything a VM took from its template, including the addresses of its public NICs. |
| Engine.CommandEngine.ReadBack | src/daemon/vclusterBooterd.py:251-252 | The result is exactly `ReadBackOutcome`: the leases read, the open IP slots filled from them, then the statuses read. On success the history grew by exactly the network shows and the VM shows. No delete is made. |
| Engine.CommandEngine.ReadBackMeaning | src/daemon/vclusterBooterd.py:320-339 | A read-back that succeeds keeps every VM except its open IP slots and its status. Each open slot gets the VM's lease on that network. Each status is the one the VM's own `onevm show` reply gives. |
| Engine.CommandEngine.ShowNetworks | src/daemon/vclusterBooterd.py:320-333 | The result is exactly the map the `onevnet show` replies give. The history grows by a prefix of one show per private network, and on success by all of them. |
| Engine.CommandEngine.ShowStep | src/daemon/vclusterBooterd.py:324-333 | One pass of that loop: a show call for a private network only. The result is what its reply gives. |
| Engine.CommandEngine.LeasesReplyMeaning | src/daemon/vclusterBooterd.py:325-333 | A network's leases are read exactly when its show launches and the reply parses. They are then the reply's LEASE records. A launch that raises gives 423. |
| Engine.CommandEngine.ShownLeasesSucceeds | src/daemon/vclusterBooterd.py:323-333 | The lease read-back succeeds exactly when every private network's show launches and its reply parses. It fails with 423 or another exception only. |
| Engine.CommandEngine.ShownLeasesContents | src/daemon/vclusterBooterd.py:321-333 | After a successful read-back, the map's keys are exactly the private networks' names. A name maps to the LEASE records of the reply to the show of the last network with that name. |
| Engine.LeaseMapMeaning | src/daemon/vclusterBooterd.py:321-333 | The lease map holds exactly the private names, and a name maps to the leases of its last network. |
| Engine.VnetShowsAreShows | src/daemon/vclusterBooterd.py:324-327 | Reading the networks back makes `onevnet show` calls only, and none when no network is private. |
| Engine.VnetShowsPrefix | src/daemon/vclusterBooterd.py:323-327 | The shows for a prefix of the networks come first. |
| Engine.CommandEngine.ShownStatus | src/daemon/vclusterBooterd.py:309-316 | The answer is 424 exactly when the launch raises. Otherwise the status is read exactly when the reply parses, and it is always one of the state names or "N/A"; any other failure is a plain exception. |
| Engine.CommandEngine.RefreshStatusesMeaning | src/daemon/vclusterBooterd.py:307-318 | The status refresh succeeds exactly when every VM's `onevm show` launches and its reply parses. Each VM then carries the status its own reply gives and is otherwise unchanged. It fails with 424 or another exception only. |
| Engine.CommandEngine.FillInStatusInfo | src/daemon/vclusterBooterd.py:307-318 | The outcome is exactly `RefreshStatuses`. On success the history grew by exactly one `onevm show` per VM. On a failure at VM k, the VMs before k carry their new status, the others are unchanged, and the history ends with VM k's show. The cluster changes in its VM statuses only. |
| Engine.CommandEngine.StatusLoop | src/daemon/vclusterBooterd.py:308-316 | The loop either records every status, or stops at the first VM whose pass fails, keeping the statuses recorded before it. |
| Engine.CommandEngine.StatusRound | src/daemon/vclusterBooterd.py:308-316 | One pass either gives VM k the status its reply gives, or fails at VM k with nothing more recorded. |
| Engine.CommandEngine.StatusStep | src/daemon/vclusterBooterd.py:309-316 | One `onevm show` for VM k. The result is what its reply gives. |
| Engine.CommandEngine.Register | src/daemon/vclusterBooterd.py:255-258 | The cluster is stored under the old counter value and the counter advances by one. Every key stays below the counter and equal to its cluster's id, so ids are never reused. |
| Engine.CommandEngine.ActionDestroy | src/daemon/vclusterBooterd.py:262-298 | An argument count other than 1 gives 402. A non-numeric id raises. An unknown id gives 403 naming it. None of these three touches the registry or the backend. For a registered id, the calls are a prefix of its delete sequence. The answer is 0 exactly when every delete launches. It is 421 exactly when a VM delete raises, and another exception exactly when a network delete raises. Only the answer 0 removes the id, and it is made after exactly the full delete sequence. |
| Engine.CommandEngine.DeleteCluster | src/daemon/vclusterBooterd.py:277-294 | The calls are a prefix of the cluster's delete sequence: every VM, then every non-public network. It succeeds exactly when all of them launch, and then it made all of them. It gives 421 exactly when a VM delete raises, and another exception exactly when a network delete raises. A failure comes right after the launch that raised. |
| Engine.CommandEngine.DeleteVms | src/daemon/vclusterBooterd.py:278-283 | The calls are a prefix of one `onevm delete` per VM. It succeeds exactly when all of them launch, and then it made all of them. On a failure the last call made is the one that raised. |
| Engine.CommandEngine.DeleteNetworks | src/daemon/vclusterBooterd.py:286-294 | The calls are a prefix of one `onevnet delete` per network that is not public. It succeeds exactly when all of them launch, and then it made all of them. On a failure the last call made is the one that raised. |
| Engine.DestroyLaunches | src/daemon/vclusterBooterd.py:277-294 | A destroy's deletes all launch exactly when the VM deletes do and then the network deletes do. |
| Engine.DestroyStopsInVms | src/daemon/vclusterBooterd.py:278-283 | A VM delete that raises leaves the destroy's calls a prefix of its delete sequence, and the sequence does not launch. |
| Engine.DestroyOrder | src/daemon/vclusterBooterd.py:277-294 | In a destroy's call sequence no VM delete follows a network delete. |
| Engine.VmDeletesExact | src/daemon/vclusterBooterd.py:278-283 | The VM deletes are one per VM, with its id, in order. |
| Engine.VnetDeletesExact | src/daemon/vclusterBooterd.py:286-294 | Every network delete names a network that is not public, and every such network gets one: public networks are never deleted. |
| Engine.PublicNetsKept | src/daemon/vclusterBooterd.py:286-288 | A cluster whose networks are all public has no network to delete. |
| Engine.VmDeletesPrefix | src/daemon/vclusterBooterd.py:278-283 | The deletes for the first n VMs come first among the deletes for all of them. |
| Engine.VnetDeletesPrefix | src/daemon/vclusterBooterd.py:286-294 | The deletes for the first n networks come first among the deletes for all of them. |
| Engine.CommandEngine.ActionList | src/daemon/vclusterBooterd.py:300-305 | The registry keeps its keys and its counter. The answer is 0 exactly when every registered cluster's refresh succeeds. Every cluster then carries the statuses its own `onevm show` replies give, the history grew by exactly those shows by ascending id, and the answer lists the registry. A failure at a cluster leaves the clusters before it refreshed and those after it untouched. That cluster is then refreshed up to the VM whose reply failed. |
| Engine.CommandEngine.RefreshEntry | src/daemon/vclusterBooterd.py:302-303 | One pass of the list loop. On success the refreshed part of the registry grows by this cluster, with the history to match. On failure the registry is as `ListStopped` describes: earlier clusters refreshed, later ones untouched, and this one stopped at the failing VM. |
| Engine.SnapshotContents | src/daemon/vclusterBooterd.py:305 | The listed clusters are exactly the registered ones. |
| Synthesis.SynthesizeLeases | src/daemon/vclusterBooterd.py:106-116 | The lease loop gives one address per VM index, in order, each the base address with its fourth field replaced by that field plus the index. It fails (the source raises) when the base has fewer than four fields or a non-numeric fourth one. |
| Synthesis.LeasesOfBase | src/daemon/vclusterBooterd.py:106-116 | For base `a.b.c.d` and n VMs, the leases are exactly `a.b.c.(d+i)` for i = 0..n-1, in order. |
| Synthesis.LeaseFields | src/daemon/vclusterBooterd.py:110-113 | A lease keeps every field of the base address except the fourth, which reads back as the base's fourth field plus the index. |
| Synthesis.FieldsOfBase | src/daemon/vclusterBooterd.py:111-112 | A dotted address splits back into its four fields, and its fourth field parses to its number. |
| Synthesis.LeaseOfFields | src/daemon/vclusterBooterd.py:111-113 | Lease i of a four-field base is the base with its fourth field replaced by d+i. |
| Synthesis.NoOctetBoundCheck | src/daemon/vclusterBooterd.py:109-113 | No range check is made: a base ending in 255 leases an address ending in 256 to the second VM. |
| Synthesis.SynthesizeDisks | src/daemon/vclusterBooterd.py:186-194 | One `name:target` string and one DISK entry under `/srv/cloud/images/` per disk, in order. The root device is the one `RootDevice` specifies. |
| Synthesis.RootDeviceIsLastMarked | src/daemon/vclusterBooterd.py:192-197 | With no root-marked disk the root device is empty, which gives 501. Otherwise it is the target of the last root-marked disk, which is also empty, and so also gives 501, when that target is empty. |
| Synthesis.RootFromMarkedDisk | src/daemon/vclusterBooterd.py:192-197 | A non-empty root device is the target of some root-marked disk. |
| Synthesis.LookupNetwork | src/daemon/vclusterBooterd.py:209 | The lookup fails (KeyError) exactly when no requested network has the name. Otherwise it gives the setting of the first entry with that name. |
| Synthesis.ResolveNics | src/daemon/vclusterBooterd.py:207-219 | The NIC loop succeeds exactly when every network name resolves. Then it gives one NIC entry, network name and IP per name, in order, as `NicFor` gives them. A public network is attached as `public-vnet` with its configured address. A private one is attached by its generated name with IP "N/A". |
| Synthesis.CheckReplyAccepts | src/daemon/vclusterBooterd.py:138-146 | The backend reply `ID: <id>` with any trailing newlines is accepted with that id. |
| Synthesis.CheckReplyMeans | src/daemon/vclusterBooterd.py:242-245 | A reply is accepted with an id only if, once its newlines are stripped, it starts with `ID: ` followed by that id, and the id holds no space. |
| Status.StatusName | src/daemon/vclusterBooterd.py:364-399 | Each state 0..16 maps to its fixed name, in the source's spelling (`LCM_INIT`, `UNKOWN`). Every other number maps to "N/A". |
| Status.VmStatus | src/daemon/vclusterBooterd.py:357-401 | The translation is total and never raises. Its result is always one of the 17 names or "N/A". |
| Status.UnreadableStatus | src/daemon/vclusterBooterd.py:358-362 | A missing LCM_STATE element, or one whose text is not a number, reads as "N/A". |
| Status.StatusOfRenderedState | src/daemon/vclusterBooterd.py:361-362 | A state number written in decimal, padded with newlines and spaces, reads back as that state's name. |
| Status.StatusNamesDistinct | src/daemon/vclusterBooterd.py:364-397 | No two states in 0..16 share a name, and none of them reads as "N/A". |
| Status.LeaseIp | src/daemon/vclusterBooterd.py:343-355 | The IP is the one of the first lease held by the VM id, or "N/A" when no lease matches. |
| Status.SearchPastFirst | src/daemon/vclusterBooterd.py:346-353 | A lease that does not match is skipped: the answer for the remaining leases is the answer for all of them. |
| Status.ExtractIp | src/daemon/vclusterBooterd.py:343-355 | The search loop returns at the first match, and its result is what `LeaseIp` specifies. |
| Status.FillOnlyOpenSlots | src/daemon/vclusterBooterd.py:335-339 | The fill-in keeps the number of IP slots and leaves every slot that held an address unchanged. Each "N/A" slot gets the VM's lease on that network. |
| Status.FillVm | src/daemon/vclusterBooterd.py:336-339 | The in-place fill of one VM fails (KeyError or IndexError) exactly when an open slot names an unknown network or there are fewer IP slots than names. Otherwise only its IPs change, as `FilledIps` specifies. |
| Status.FillIps | src/daemon/vclusterBooterd.py:335-339 | The fill over all VMs fails exactly when some VM cannot be filled. Otherwise it keeps the count and fills each VM as `FillVm` does. |
| Text.Split | src/daemon/vclusterBooterd.py:111 | A split always has at least one part. |
| Text.SplitPartsPlain | src/daemon/vclusterBooterd.py:111 | No part of a split holds the separator. |
| Text.JoinSplit | src/daemon/vclusterBooterd.py:111-113 | Joining the parts of a split gives back the string. |
| Text.SplitJoin | src/daemon/vclusterBooterd.py:111-113 | Splitting a join of separator-free parts gives back the parts. |
| Text.StripPadded | src/daemon/vclusterBooterd.py:139 | Stripping removes padding made of the stripped characters and nothing of a core that neither starts nor ends with one. |
| Text.NatToStringDigits | src/daemon/vclusterBooterd.py:112 | `str(n)` of a natural number is a non-empty run of digits whose value is n. |
| Text.RenderingCharacters | src/daemon/vclusterBooterd.py:112 | `str(n)` holds no dot, no space and no whitespace. |
| Text.ParseIntToString | src/daemon/vclusterBooterd.py:112 | `int(str(n)) == n`. |
| Scenarios.IdsAreNotReused | src/daemon/vclusterBooterd.py:255-298 | Create a cluster, destroy it, create again. The destroy answers 0 and frees id 0, yet the second cluster gets id 1. |

## Left out

- The `Listener` socket loop, pickling and framing, and the daemon's configuration bootstrap. These are I/O and process setup.
- Mapping a `commandEngineError` or other exception to the 430/440 answers happens in the listener. Here the failure stays a `Result` failure.
- The 501 path of create: the source returns a two-element list while `run` unpacks three values, so in the source this surfaces as an exception. The model answers the intended 501 reply with no cluster.
- `subprocess.Popen`, the template files in `/tmp` and `os.remove` are out. Each backend invocation is a `Call` value answered by the `respond` oracle, and the exact text layout of the VM and network templates is abstracted into the fields of that value.
- SHA-1 and the XML parser (`minidom`) are function-valued constants of the engine (`sha1`, `parseXml`). `random.random()` becomes the `salt` parameter of `Run`, indexed by network position.
- The random file names are not modelled, since they never reach the backend's state.
- An XML description is abstracted to its LEASE records (`vid`, `ip`) and the text of its LCM_STATE element. The `int()` of a lease's VID, which may raise, is folded into that abstraction.
- `time.sleep(sleepCycle)` and the `sleepCycle` argument of `run`: timing only.
- Template memory and the disk root flag are integers in the model. The `int()` calls on them, which raise on malformed text, are not modelled.
- The `vmNR` of a request is an integer. The `int()` on it is not modelled.
- The footer's `FREEMEMORY` requirement (memory times 1024) is template text only.
- Engine error message texts are not modelled; the error codes are.
- Dictionary order: a request's networks are a sequence in the order of the dictionary's `keys()`, and list walks the registry by ascending id. The reply of list is `Snapshot`, the clusters ordered by id, where the source gives `values()` in dictionary order.
- Engine.CommandEngine.DeleteCluster: a failed `onevnet delete` gives a plain exception (`Fault`), not 422. The source formats that error message with `%d` on the network id, which is a string, and the formatting raises first.
- No rollback: a create that fails partway leaves the networks and VMs it created on the backend. The model states this as the history, but does not model cleanup.
- BuildCluster: on failure the history is stated only as containing no delete, not as a prefix of the planned calls.
- BuildMachines: on failure the history is stated only as containing no delete.
- ReadBack: on failure the history is stated only as containing no delete.
- ActionCreate: on failure the history is stated only as containing no delete. A successful create's history is stated exactly.
