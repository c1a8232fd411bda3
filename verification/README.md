# Driver manager and driver host, verified

A Dafny model of the two processes that run device drivers, and proofs about
whole runs of them.

**driver_manager** keeps the tree of devices. A *composite device* is assembled
from *fragments*; each fragment is matched to a device by a small bytecode
program, and once every fragment is ready all of them are placed in a single
driver host and the composite is created there. Fragments come and go, and the
composite with them. **devfs** is the namespace over this tree: nodes under their
parents, links in class directories, exported services, a path printer and a path
walker, paged directory reading and watchers. **driver_host** runs the drivers:
it counts references to devices, tears them down when the last one goes, keeps
connections from proxies and answers bind requests.

`dafny verify dfyconfig.toml` checks everything.

## How it is built

State that the program changes step by step is a value here, each operation is a
function on it, and a run is a sequence of steps, so that what holds after every
run can be stated. Beside it a class has the same fields and methods that change
them in place, with the program's own loops; each method is proved to do exactly
what its function says. What a function does is in turn stated from the state
before it, in other terms than its own (`CompositeEffects`, `DevfsEffects`,
`DevfsExportEffects`, `LifetimeEffects`, `BindRules`, `Hosts.SetHostExactly`).

| modules | of |
|---|---|
| BindProgram, BindRules | the bind-program interpreter, and what a program means |
| Composites, CompositeRuns, CompositeOrder, CompositeRemoval, CompositeMatching, CompositeSystem, CompositeEffects, CompositeObject | composites, their fragments and the devices these are bound to |
| Hosts, Assembly, AssemblyFaults, AssemblyLoop, AssemblySystem, Placement | driver hosts, the ids of devices in them, and the loop that places a composite's fragments |
| Children, Metadata, MetadataRuns | the children of a device, and metadata lookup, over the same state |
| Devfs, DevfsForest, DevfsExport, DevfsSystem, DevfsOwners, DevfsEffects, DevfsExportEffects, DevfsObject | the nodes of devfs and everything that changes them |
| DevfsNames, DevfsPath, DevfsPathRuns, DevfsReaddir, DevfsListing, DevfsWatch, DevfsWatchRuns | sequence names, paths, directory reading and watchers |
| Lifetime, LifetimeRuns, LifetimeEffects, LifetimeHooks, LifetimeObject | the life of a device in a driver host |
| ProxyIostate, BindCompletion | proxy connections, and the completion of bind requests |
| Common | optional values, and lists |

Numbers stand for pointers. Numbers of devices, of devfs nodes and of
connections are given out in order, so that parents have smaller numbers than
their children and a freed node can be told from a new one. In what is modelled, a
failed ZX_ASSERT, a self-deadlock, the use of a freed node and of a null pointer
are outcomes of their own, and the theorems say when they occur. Where the answer
of another process, a driver or the system decides, it is a parameter of the step.

## What does not hold

Properties one might expect of the code and that it does not have. Each comes with
the exact condition under which it holds, and those about runs with a run that
breaks it.

- The arrival of a fragment device can fire the assertion in TryAssemble. When the
  first assembly has used up a device's outgoing directory, a fragment of the
  assembled composite looks as if it waited for a fragment device
  (`CompositeSystem.StepGood`, `ArrivalCanAssert`).
- Removing a device of the fragment driver that no fragment was given fires an
  assertion (`CompositeRemoval.RemoveDeviceInv`, `CompositeSystem.RemovalCanAssert`).
- Unbinding a fragment clears the composite association of the device it was bound
  to, which for a composite built over another is the wrong one
  (`CompositeSystem.ReleaseKeepsMarks`, `MarkCanBeLost`).
- The assembly loop does not always end with all fragments in one host. A fragment
  gets in the way of a later one if both are bound to one device with an outgoing
  directory, or if the later one is bound to the fragment device of the first and
  that device is given its first proxy. Unless the later fragment's own device is in
  the chosen host already, the loop then reads a null fragment device or sends the
  host the id of a device in another (`AssemblyLoop.OneHost` and `OneHostPairs` have
  the exact condition, `EndsExactly` and `AllSitIff` tell the two apart,
  `MixedHosts` and `NullReads` have inputs, and `AssemblySystem.ChainReachable` and
  `SharedOutgoingReachable` runs that lead to them).
- A composite whose fragment is bound directly to a device of the fragment driver
  is not among that device's children (`Children.ShownAtHome`,
  `CompositeWithoutParent`).
- A metadata read into a small buffer can succeed with the entry of a later
  fragment instead of being refused (`Metadata.SmallBufferRead`,
  `MetadataRuns.SmallReadSucceeds`).
- devfs_seq_name can miss a free name when its counter crosses 2^32
  (`DevfsNames.CompleteIff`).
- The directory entry that does not fit a page is skipped for good
  (`DevfsReaddir.StoppedIff`, `SessionComplete`, `EntryIsLost`).
- Announcing a modification of an invisible device misleads watchers
  (`DevfsWatch.ModifiedTracks`, `InvisibleModified`).
- Making a device visible or announcing a modification uses a null node if the
  device is not published, and a freed one if its parent was unpublished
  (`DevfsSystem.StepGood`, `AnnouncementCanDangle`).
- A composite called "root", one with a name of 255 characters or more, one that
  was dissociated, and everything below them are printed with a path that does not
  lead to them (`DevfsPath.FoundIff`, `CompositeFoundIff`,
  `DevfsPathRuns.CompositeCalledRoot`, `DissociatedComposite`).
- If the wait of a proxy connection cannot be begun, making the connection blocks
  the thread on a lock it holds itself (`ProxyIostate.CreateWithoutWait`).
- A bind whose child finished its initialization before the bind reply stays
  pending (`BindCompletion.StaysPending`, `PendingForGood`, `BindStaysPending`).
- A device that is refused because it is invisible and added in create() stays busy
  and is never finalized (`LifetimeRuns.StrandedIff`, `StrandedForever`,
  `RefusalStrands`).

## Model

| member | source | states |
|---|---|---|
| BindProgram.LookupBindProperty | src/devices/bin/driver_manager/binding.cc:23-40 | The first property of an id gives the value; without one the protocol or the autobind flag is used, else 0. |
| BindProgram.FindLabel | src/devices/bin/driver_manager/binding.cc:92-102 | The jump target of a GOTO is the first matching label after it. |
| BindProgram.Evaluate | src/devices/bin/driver_manager/binding.cc:42-117 | The interpreter loop terminates on every instruction array and computes the recursive meaning of the program, which BindRules.ProgramMeans gives in terms of the program's rules. |
| BindProgram.EvalIffRoute | src/devices/bin/driver_manager/binding.cc:42-117 | A program matches if and only if there is a chain of executed positions, each following from the one before, that ends in a MATCH. |
| BindProgram.DependsOnlyOnTested | src/devices/bin/driver_manager/binding.cc:42-117 | Two devices that agree on the properties a program tests are treated alike by it. |
| BindProgram.AppendKeepsMatch | src/devices/bin/driver_manager/binding.cc:42-117 | A program that matches still matches with any instructions appended. |
| BindRules.ProgramMeans | src/devices/bin/driver_manager/binding.cc:42-117 | A program written as words matches if and only if its rules do, where a rule tests the value of a property (equal, different or always) and aborts, matches, jumps to the next mark of a label or is a mark, and the value is that of the first property of the id, else the protocol, the autobind flag or 0. |
| BindRules.OneTest | src/devices/bin/driver_manager/binding.cc:42-90 | For every id and value: the word 0x11000000 + id matches exactly the devices whose value is the tested one, 0x21000000 + id the others, and both forms of aborting after a test do the opposite. |
| BindRules.TwoRules | src/devices/bin/driver_manager/binding.cc:42-117 | A test that skips a match leaves it to the next rule. |
| BindRules.IllegalWord | src/devices/bin/driver_manager/binding.cc:51-75 | A program that starts with a condition code other than the three known ones matches nothing. |
| Hosts.SetHostLinked | src/devices/bin/driver_manager/device.cc:628-638 | Changing hosts keeps devices and the device lists of hosts in agreement, each device listed once. |
| Hosts.SetHostNamed | src/devices/bin/driver_manager/device.cc:628-638 | Changing hosts keeps ids non-zero exactly on hosted devices and distinct within a host. |
| Hosts.SetHostExactly | src/devices/bin/driver_manager/device.cc:628-638 | In every linked world: without a target the device ends with no host, id 0 and on nobody's list; with one it is last on that host's list and on no other, has the id the host's counter stood at, and the counter moves on. Every other device, the order of the others in each list and the other counters stay. |
| Hosts.NamedOverRuns | src/devices/bin/driver_manager/device.cc:628-638 | Both hold after every sequence of set_host calls within the 64-bit counter. |
| Hosts.IdsNeverReused | src/devices/bin/driver_manager/driver_host.h:74-75 | No id of a host is handed out twice over such a sequence, nor one from before it. |
| Hosts.IdNonZeroIff | src/devices/bin/driver_manager/driver_host.h:74-75 | A device gets a non-zero id if and only if the counter of its host is not zero, and the counter becomes zero exactly at the 64-bit wrap. |
| Hosts.LocalIds.Set | src/devices/bin/driver_host/zx_device.cc:236-257 | In the host process the old map entry is this device's and the new key is free, and the map is again the inverse of the ids. |
| Hosts.FreshIdsKeepInverse | src/devices/bin/driver_host/zx_device.cc:236-266 | Over every run with new ids the map from ids to devices is exactly the inverse of the non-zero ids. |
| Hosts.ManagerIdsKeepInverse | src/devices/bin/driver_host/zx_device.cc:231-266 | If the host process is given only ids the manager issued for it, no insertion collides and looking up an id finds the device that has it, throughout the run. |
| Assembly.PrepareNewProxyEffect | src/devices/bin/driver_manager/coordinator.cc:687-719 | Preparing a new proxy asserts if and only if the device is not marked to be isolated; without a fault it otherwise leaves the device with a new proxy, its own or one just made, in the requested host or one just launched, and without its outgoing directory. |
| Assembly.PrepareProxyEffect | src/devices/bin/driver_manager/coordinator.cc:614-685 | Preparing an old proxy asserts if and only if the device is a proxy or not marked to be isolated; without a fault it otherwise leaves the device with a proxy, which keeps its host if it has one. |
| Assembly.PlaceCases | src/devices/bin/driver_manager/composite_device.cc:290-358 | One turn of the loop in any situation: which branch it takes, whether it reads a null fragment device, refuses or asserts, and what it changes. |
| Assembly.PlaceKeeps | src/devices/bin/driver_manager/composite_device.cc:290-358 | A turn that succeeds takes no host, id, proxy or use of an outgoing directory back. |
| AssemblyFaults.NewProxyFaults | src/devices/bin/driver_manager/coordinator.cc:687-719 | Preparing a new proxy fails exactly if it cannot be made, no host can be launched for it or the host cannot be told; and what each failure leaves behind: nothing, a proxy without a host, or a proxy in its host and the outgoing directory used up. |
| AssemblyFaults.OldProxyFaults | src/devices/bin/driver_manager/coordinator.cc:614-685 | The same for an old proxy, which is left alone if it has a host. |
| AssemblyFaults.PlaceFaults | src/devices/bin/driver_manager/composite_device.cc:290-358 | A turn that does not succeed chooses no host and leaves exactly what the failed preparation left. |
| AssemblyFaults.LoopThenTurn | src/devices/bin/driver_manager/composite_device.cc:284-358 | The loop over one fragment more is the loop and, if that got through, one turn; what was placed and prepared before a failure stays. |
| AssemblyLoop.LoopEnds | src/devices/bin/driver_manager/composite_device.cc:284-358 | For every list of fragments and any faults, told from the state before the call: the loop gets as far as the first fragment that makes it read null, refuse or assert, or the first fault; if it gets through, each slot holds the local id of a device that sits in the chosen host exactly if its fragment does not stray. |
| AssemblyLoop.EndsExactly | src/devices/bin/driver_manager/composite_device.cc:284-358 | Without faults the loop gets through if and only if no fragment stops it; it reads a null fragment device, refuses or asserts if and only if the first fragment that stops it does so. |
| AssemblyLoop.AllSitIff | src/devices/bin/driver_manager/composite_device.cc:284-358 | A loop that gets through puts all fragments in one host if and only if none strays. |
| AssemblyLoop.OneHost | src/devices/bin/driver_manager/composite_device.cc:284-358 | One driver host: without faults the loop gets through with every fragment in the one chosen host if and only if each fragment could be placed by itself, or an earlier one gave its device a side there and it is there already. |
| AssemblyLoop.OneHostPairs | src/devices/bin/driver_manager/composite_device.cc:284-358 | Where fragment devices are in the host of the side they were added through, that is so if and only if each fragment could be placed by itself and no fragment gets in the way of a later one, by sharing a device with an outgoing directory or by having as fragment device, still without a proxy, the one the later is bound to. |
| AssemblyLoop.DistinctIds | src/devices/bin/driver_manager/composite_device.cc:284-358 | The ids sent to the host are non-zero and of distinct devices; two of them are equal only if one of their fragments strays. |
| Assembly.NamedThroughLoop | src/devices/bin/driver_manager/composite_device.cc:289-358 | The loop keeps ids distinct within every host. |
| AssemblyLoop.MixedHosts | src/devices/bin/driver_manager/composite_device.cc:306-312 | An input on which the loop sends one host the id of a device in another, and two slots hold the same id. |
| AssemblyLoop.NullReads | src/devices/bin/driver_manager/composite_device.cc:306-312 | An input of each of the two kinds on which the loop reads a null fragment device. |
| AssemblySystem.ReachablePlan | src/devices/bin/driver_manager/composite_device.cc:259-282 | In every reachable state a composite that TryAssemble goes on with has one slot per index, every fragment ready, a fragment device exactly where the bound device has no outgoing directory, no fragment device shared or its own parent, and, if it was matched, distinct bound devices. |
| AssemblySystem.Assembles | src/devices/bin/driver_manager/composite_device.cc:259-402 | The loop as a step of the fragment graph: the composite is assembled if and only if the loop gets through, graph and host tables still agree on outgoing directories, only bound devices have lost theirs, and on success all of them have. |
| AssemblySystem.SharedOutgoingReachable | src/devices/bin/driver_manager/composite_device.cc:232-257 | A run to a composite with both fragments on one device with an outgoing directory, ready to be assembled. |
| AssemblySystem.ChainReachable | src/devices/bin/driver_manager/v1/device_manager.cc:97-117 | A run to a composite whose second fragment is bound to the fragment device of the first, ready to be assembled. |
| Placement.HostTable.SetHost | src/devices/bin/driver_manager/device.cc:628-638 | set_host in place does what the step on values does, of which Hosts.SetHostExactly says what it is. |
| Placement.HostTable.PrepareNewProxy | src/devices/bin/driver_manager/coordinator.cc:687-719 | PrepareNewProxy in place, its assertion and error paths included. |
| Placement.HostTable.PrepareProxy | src/devices/bin/driver_manager/coordinator.cc:614-685 | PrepareProxy in place, its assertion and error paths included. |
| Placement.HostTable.PlaceOne | src/devices/bin/driver_manager/composite_device.cc:290-358 | One turn of the assembly loop in place. |
| Placement.HostTable.PlaceFragments | src/devices/bin/driver_manager/composite_device.cc:284-358 | The loop in place: on success every slot 0..n-1 of the fragment vector has been written, slot i with the id placed for the fragment of index i. |
| Placement.HostTable.ChooseHost | src/devices/bin/driver_manager/composite_device.cc:274-282 | A colocated composite starts from the host of the device its primary fragment is bound to, any other from none. |
| Placement.HostTable.Assemble | src/devices/bin/driver_manager/composite_device.cc:274-358 | From the choice of a host on, in place: the loop ends as told from the tables before the call. |
| Composites.FirstMatch | src/devices/bin/driver_manager/composite_device.cc:191-214 | The first fragment of a list whose program accepts the device. |
| CompositeRuns.TryAssembleInv | src/devices/bin/driver_manager/composite_device.cc:259-272 | Assembling keeps the invariant, and its assertion fires if and only if the composite is assembled already. |
| CompositeRuns.BindFragmentInv | src/devices/bin/driver_manager/composite_device.cc:232-257 | Binding a fragment never meets an assertion, that of TryAssemble included, and keeps the invariant. |
| CompositeRuns.TryMatchInv | src/devices/bin/driver_manager/composite_device.cc:216-230 | Matching and binding a device never meets an assertion and keeps the invariant. |
| CompositeEffects.AssembleEffect | src/devices/bin/driver_manager/composite_device.cc:259-424 | A composite that is not assembled gets its device in a call if and only if each of its fragments is bound and has a fragment device or an outgoing directory to go by, and they can be placed; the device is new, live, parentless and marked with the composite, directories are handed over, and nothing else changes. |
| CompositeEffects.BindEffect | src/devices/bin/driver_manager/composite_device.cc:232-257 | Binding moves the fragment to the end of the bound list and of the device's list and then, if the device has an outgoing directory, tries to assemble; nothing happens if the fragment is bound, or if the fragment driver is needed and cannot be bound. |
| CompositeEffects.MatchEffect | src/devices/bin/driver_manager/composite_device.cc:191-230 | A device is bound to the first unbound fragment whose program takes it, asked with autobind, unless the composite came from the index or a bound fragment takes the device. |
| CompositeEffects.ArrivalEffect | src/devices/bin/driver_manager/v1/device_manager.cc:84-117 | A new device is its parent's last child. One of the fragment driver goes to the first fragment of the parent that has no fragment device, if the parent has no outgoing directory, and assembly is tried. |
| CompositeEffects.ReleaseEffect | src/devices/bin/driver_manager/composite_device.cc:433-491 | Unbinding puts the fragment at the end of the unbound list and takes it off its device's list, the others in order; its composite loses its device, and that device and the bound one their composite marks. |
| CompositeEffects.RemovalEffect | src/devices/bin/driver_manager/v1/device_manager.cc:203-382 | Removing a live device makes it dead and takes it off its parent's list; the fragment it was given to is unbound, and so are, if it is a composite's device, the fragments without fragment devices; exactly these composites lose their devices. |
| CompositeEffects.NewCompositeEffect | src/devices/bin/driver_manager/composite_device.cc:63-123 | A new composite has one unbound fragment for each program, in order, and nothing else changes. |
| CompositeRuns.ReleaseInv | src/devices/bin/driver_manager/composite_device.cc:433-491 | Unbinding a fragment of a device never meets the assertions of Unbind and UnbindFragment, forgets the assembled device, unbinds this fragment alone and keeps the invariant. |
| CompositeOrder.ReadyAgrees | src/devices/bin/driver_manager/composite_device.cc:264-272 | Of the fragments of a composite on one device, when all are ready, all or none have a fragment device. |
| CompositeOrder.BindOrderly | src/devices/bin/driver_manager/composite_device.cc:232-257 | Binding keeps the order in which a device lists a composite's fragments that of the composite's own bound list. |
| CompositeRemoval.RightFragment | src/devices/bin/driver_manager/v1/device_manager.cc:258-281 | While a composite device is removed, the fragment found on the bound device's list is the one the loop is at, however many fragments share the device. |
| CompositeRemoval.DisbandInv | src/devices/bin/driver_manager/v1/device_manager.cc:255-284 | Removing a composite device meets no assertion; every fragment without a fragment device ends up unbound and the device forgotten. |
| CompositeRuns.AddDeviceInv | src/devices/bin/driver_manager/v1/device_manager.cc:97-117 | The arrival of a device keeps the invariant; the assertion in TryAssemble fires if and only if the first waiting fragment of the parent belongs to an assembled composite. |
| CompositeRemoval.RemoveDeviceInv | src/devices/bin/driver_manager/v1/device_manager.cc:203-382 | Removing a device keeps the invariant; an assertion fires if and only if it is a live device of the fragment driver that no fragment was given. |
| CompositeRuns.AddCompositeInv | src/devices/bin/driver_manager/composite_device.cc:63-123 | A new composite starts with all fragments unbound and keeps the invariant. |
| CompositeMatching.ExclusiveOnce | src/devices/bin/driver_manager/composite_device.cc:191-257 | With unambiguous matching no device is bound to two fragments of a composite. |
| CompositeMatching.EvolvesExclusive | src/devices/bin/driver_manager/composite_device.cc:191-257 | Unambiguous matching survives every change that only removes bound fragments. |
| CompositeSystem.MatchExclusive | src/devices/bin/driver_manager/composite_device.cc:191-257 | Binding through matching keeps it so: each bound fragment's program accepts its own device and rejects those bound after it. |
| CompositeSystem.StepGood | src/devices/bin/driver_manager/composite_device.cc:191-491 | Every step of bind, arrival, assembly, unbind and removal keeps all invariants, and an assertion fires if and only if the step is one of two named kinds. |
| CompositeSystem.RunGood | src/devices/bin/driver_manager/composite_device.cc:191-491 | The same over whole runs. |
| CompositeSystem.Reachable | src/devices/bin/driver_manager/composite_device.cc:191-491 | In every reachable state, whatever index offers devices to composites and how often, the two lists partition 0..n-1, a fragment is on the bound list if and only if it has a bound device, which lists it in the order of the bound list, an assembled composite has no unbound fragment, and no device serves two fragments of a matched composite. |
| CompositeSystem.ArrivalCanAssert | src/devices/bin/driver_manager/v1/device_manager.cc:104-117 | A run in which a fragment device arrives and the assertion in TryAssemble fires. |
| CompositeSystem.RemovalCanAssert | src/devices/bin/driver_manager/v1/device_manager.cc:286-302 | A run in which removing a device of the fragment driver that serves no fragment fires an assertion. |
| CompositeSystem.ReleaseKeepsMarks | src/devices/bin/driver_manager/composite_device.cc:484-491 | Unbinding keeps the association of assembled devices with their composites if and only if the bound device is not itself an assembled composite. |
| CompositeSystem.MarkCanBeLost | src/devices/bin/driver_manager/composite_device.cc:484-491 | A run in which a composite built over another costs the latter its association. |
| CompositeObject.Manager.TryAssemble | src/devices/bin/driver_manager/composite_device.cc:259-272 | TryAssemble in place, with the loop over the bound fragments. |
| CompositeObject.Manager.BindFragment | src/devices/bin/driver_manager/composite_device.cc:232-257 | BindFragment in place. |
| CompositeObject.Manager.TryMatchBindFragments | src/devices/bin/driver_manager/composite_device.cc:216-230 | TryMatchBindFragments in place, with the two searches. |
| CompositeObject.Manager.Remove | src/devices/bin/driver_manager/composite_device.cc:444-449 | Remove in place. |
| CompositeObject.Manager.Unbind | src/devices/bin/driver_manager/composite_device.cc:433-491 | Unbind and UnbindFragment in place. |
| CompositeObject.Manager.AddDevice | src/devices/bin/driver_manager/v1/device_manager.cc:84-117 | Adding a device in place, with the search for a waiting fragment. |
| CompositeObject.Manager.DisbandAll | src/devices/bin/driver_manager/v1/device_manager.cc:255-284 | The loop over the fragments of a removed composite device in place. |
| CompositeObject.Manager.RemoveDevice | src/devices/bin/driver_manager/v1/device_manager.cc:203-382 | RemoveDevice in place. |
| Children.ChildIterator.constructor | src/devices/bin/driver_manager/device.h:130-133 | A new iterator stands on the first child or at the end, with all children to come. |
| Children.ChildIterator.SkipInvalidStates | src/devices/bin/driver_manager/device.h:177-256 | Skipping terminates, loses no element, and ends on an element or at the end. |
| Children.ChildIterator.Current | src/devices/bin/driver_manager/device.h:159-172 | The iterator yields the first element still to come. |
| Children.ChildIterator.Next | src/devices/bin/driver_manager/device.h:144-157 | Advancing drops exactly that element. |
| Children.Collect | src/devices/bin/driver_manager/device.h:126-263 | Iterating over children() terminates and yields the child list followed by the qualifying composites. |
| Children.ChildrenEffect | src/devices/bin/driver_manager/device.h:126-263 | The children of a device are those on its list, in order, and then the assembled composites of its fragments without fragment devices, or for a device of the fragment driver of its parent's fragments that have this device, in order. |
| Children.ShownAtHome | src/devices/bin/driver_manager/device.h:177-256 | A fragment of an assembled composite is shown by its fragment device, else its bound device, and by no other, once; except that a fragment bound without a fragment device to a device of the fragment driver is shown by none. |
| Children.CompositeChildren | src/devices/bin/driver_manager/device.h:126-263 | An assembled composite occurs in the children of a device exactly as often as it has fragments at home there. |
| Children.CompositeWithoutParent | src/devices/bin/driver_manager/device.h:177-256 | A run after which an assembled composite is nobody's child. |
| Metadata.GetFirstFit | src/devices/bin/driver_manager/coordinator.cc:557-593 | A lookup finds the first reachable entry that fits the buffer; the order is the ancestor chain first, then the fragments of the topmost device's composite. |
| Metadata.SizeThenRead | src/devices/bin/driver_manager/coordinator.h:175-179 | If the size query returns s, every read with a buffer of at least s bytes returns the entry whose size it was. |
| Metadata.SmallBufferRead | src/devices/bin/driver_manager/coordinator.cc:557-593 | A read into a smaller buffer is refused if and only if the device or an ancestor holds the entry; otherwise it finds something if and only if some reachable entry fits. |
| MetadataRuns.SmallReadSucceeds | src/devices/bin/driver_manager/coordinator.cc:557-593 | A run and a store for which the size query reports one fragment's entry and a read with less room succeeds with the other's. |
| Metadata.NearestNewest | src/devices/bin/driver_manager/coordinator.cc:562-581 | The nearest device of the ancestor chain with an entry decides, by its most recently added one: that is found if it fits the buffer, and otherwise the call is refused. |
| Metadata.AddThenGet | src/devices/bin/driver_manager/coordinator.cc:595-608 | A newly added entry is what its device gets. |
| Metadata.AddOtherKind | src/devices/bin/driver_manager/coordinator.cc:595-608 | Adding an entry changes no lookup of another type, on any device. |
| Metadata.GetMetadata | src/devices/bin/driver_manager/coordinator.cc:557-593 | The loops and the recursion in place: they terminate, agree with the lookup on values, and write the entry to the front of the buffer and nothing else. |
| Devfs.LookupIn | src/devices/bin/driver_manager/devfs.cc:339-346 | A lookup finds the first child of the name, and none if and only if there is none. |
| DevfsForest.ContainerIsParent | src/devices/bin/driver_manager/devfs.cc:490-493 | A node is on at most one list, its parent's, and on it if and only if the parent is live. |
| DevfsForest.DeleteShape | src/devices/bin/driver_manager/devfs.cc:490-539 | Freeing a node keeps the forest and removes it from its parent's list alone. |
| DevfsForest.RemoveInv | src/devices/bin/driver_manager/devfs.cc:490-533 | Freeing a node dereferences no freed one and keeps nodes and devices in agreement. |
| DevfsForest.MkdirInv | src/devices/bin/driver_manager/devfs.cc:318-337 | Making a directory keeps the forest. |
| DevfsForest.PublishInv | src/devices/bin/driver_manager/devfs.cc:598-651 | Publishing uses no freed node and keeps the forest, refused or not. |
| DevfsForest.PublishGrows | src/devices/bin/driver_manager/devfs.cc:598-651 | Publishing only appends nodes, the device's own one below its parent's, and changes no other device. |
| DevfsEffects.PublishEffect | src/devices/bin/driver_manager/devfs.cc:598-651 | Publishing, told from the state before: when it is refused and how, which nodes and references it adds and where, that links are named after a console or by the first free number in the order tried, and that the class directory and then the parent's are told, unless the device is invisible. |
| DevfsEffects.UnpublishEffect | src/devices/bin/driver_manager/devfs.cc:490-533 | The watchers of the node learn that it is deleted and those of its directory which name went, first for the device's own node and then for its link; an invisible device goes silently. |
| DevfsEffects.RemoveEffect | src/devices/bin/driver_manager/devfs.cc:490-533 | The same for a node freed alone, with or without a device. |
| DevfsEffects.VisibleEffect | src/devices/bin/driver_manager/coordinator.cc:535-552 | A device that is ready and invisible becomes visible and is told once in each of its directories; otherwise nothing happens. A null or freed node is used if and only if it is not published or its parent's node is gone. |
| DevfsEffects.ModifiedEffect | src/devices/bin/driver_manager/devfs.cc:576-586 | A modification is told as a removal and an addition in the class directory and then in the parent's. |
| DevfsForest.UnpublishInv | src/devices/bin/driver_manager/devfs.cc:655-664 | Unpublishing frees exactly the nodes of the device and uses none that was freed. |
| DevfsForest.AdvertiseSafe | src/devices/bin/driver_manager/devfs.cc:565-586 | Announcing a device uses no freed node if and only if the device is published and its node is a root or on a list. |
| DevfsSystem.StepGood | src/devices/bin/driver_manager/devfs.cc:490-915 | Every step of mkdir, publish, unpublish, announcing, export and export close keeps the forest; a freed or null node is used if and only if a device is announced that is not published or whose node has lost its parent. |
| DevfsSystem.RunForest | src/devices/bin/driver_manager/devfs.cc:490-915 | The same over whole runs. |
| DevfsSystem.Reachable | src/devices/bin/driver_manager/devfs.cc:318-337 | In every reachable state each listed child names its lister, each list ascends strictly in inode number, and the parent a node would be taken from is live. |
| DevfsOwners.OneOwner | src/devices/bin/driver_manager/devfs_exporter.cc:32-82 | Over every run no node leaks and none has two owners: one without a device is static or belongs to exactly one export that is still open, and one with a device is that device's own node or its link. |
| DevfsSystem.AnnouncementCanDangle | src/devices/bin/driver_manager/coordinator.cc:535-552 | A run in which a device becomes visible after its parent was unpublished, and a freed node is used. |
| DevfsNames.SeqNameInjective | src/devices/bin/driver_manager/devfs.cc:588-596 | The 1000 sequence names are different. |
| DevfsNames.SeqNameReads | src/devices/bin/driver_manager/devfs.cc:588-596 | A sequence name is its number in three decimal digits. |
| DevfsNames.ScanTries | src/devices/bin/driver_manager/devfs.cc:588-596 | devfs_seq_name fails if and only if every name it tries is taken. |
| DevfsNames.ScanFirst | src/devices/bin/driver_manager/devfs.cc:588-596 | A scan that succeeds gives the first free name in the order tried, and leaves the counter behind it. |
| DevfsNames.ScanComplete | src/devices/bin/driver_manager/devfs.cc:588-596 | If the counter does not cross 2^32, it fails if and only if all 1000 names are taken. |
| DevfsNames.Skipped | src/devices/bin/driver_manager/devfs.cc:588-596 | If it does cross, some name is never tried. |
| DevfsNames.CompleteIff | src/devices/bin/driver_manager/devfs.cc:588-596 | It finds a free name in every directory that has one if and only if 1000 more steps of the counter stay within 2^32. |
| DevfsNames.PublishNames | src/devices/bin/driver_manager/devfs.cc:617-639 | Publishing adds to a class directory at most one link, under a free name. |
| DevfsNames.RunNames | src/devices/bin/driver_manager/devfs.cc:588-639 | Names in class directories stay pairwise distinct over every run. |
| DevfsExport.PartsSplit | src/devices/bin/driver_manager/devfs.cc:842-859 | A separator splits a path into its components wherever it stands and however many follow. |
| DevfsExport.PartsOfJoin | src/devices/bin/driver_manager/devfs.cc:842-859 | Splitting undoes joining. |
| DevfsExport.ExportInv | src/devices/bin/driver_manager/devfs.cc:831-915 | An export uses no freed node, keeps the forest, and adds exactly the nodes it hands to its owner. |
| DevfsExport.ExportAdds | src/devices/bin/driver_manager/devfs.cc:861-915 | A successful export adds the missing components as one chain with the service at its end, and at most one class entry, changes no other list, and looking up the path then reaches the end of the chain. |
| DevfsExportEffects.ExportReplies | src/devices/bin/driver_manager/devfs.cc:831-915 | An export is refused for an improper path, for one that leads to a node already, when every sequence name that is tried is taken and when the service cannot be cloned, each with its status; the new components are announced from the top down and then the class entry. |
| DevfsExportEffects.ResolveLeads | src/devices/bin/driver_manager/devfs.cc:861-869 | The first pass goes down by the first child of each name, as far as there are such children. |
| DevfsExport.RemoveAllInv | src/devices/bin/driver_manager/devfs_exporter.cc:73-82 | Freeing the nodes of an export, in any order, uses no freed node and removes just those nodes. |
| DevfsExport.Rollback | src/devices/bin/driver_manager/devfs_exporter.cc:32-42 | A failed export, once its nodes are dropped in whatever order, leaves every child list, name, parent and service as it was. |
| DevfsPath.PathFits | src/devices/bin/driver_manager/coordinator.cc:424-465 | The path call succeeds if and only if the recursively defined path and its NUL fit, and then yields it. |
| DevfsPath.ProxyPath | src/devices/bin/driver_manager/coordinator.cc:424-465 | A proxy goes by the path of the device it stands for; without one, a null pointer is read. |
| DevfsPath.GetTopologicalPath | src/devices/bin/driver_manager/coordinator.cc:424-465 | The loop that fills a buffer from the end, in place: path and NUL at the front of the caller's buffer, or an error and nothing written. |
| DevfsPath.WalkPath | src/devices/bin/driver_manager/devfs.cc:404-430 | The loop over path components, in place. |
| DevfsPath.FindFirst | src/devices/bin/driver_manager/devfs.cc:404-430 | A component is looked for among the children without a device or with a visible one, and the first of its name is taken. |
| DevfsPath.WalkSplit | src/devices/bin/driver_manager/devfs.cc:404-430 | Walking a longer path is walking its front and then its last component. |
| DevfsPath.PathIsRel | src/devices/bin/driver_manager/coordinator.cc:424-465 | The printed path is "/dev" and the path below it, composites and their descendants included. |
| DevfsPath.RoundTripIff | src/devices/bin/driver_manager/devfs.cc:404-430 | Walking the printed path finds the device's own node if and only if at each component that node is the first visible one of its name. |
| DevfsPath.RoundTrip | src/devices/bin/driver_manager/devfs.cc:404-430 | For a published device whose ancestors are published, visible and uniquely and properly named, walking its path without "/dev/" ends at its own node. |
| DevfsPath.FoundIff | src/devices/bin/driver_manager/devfs.cc:404-430 | For every published device with published ancestors and plain names: its path starts with "/dev/" and walking the rest finds its own node if and only if the composite it descends from, if any, is still associated, not called "root" and shorter than 255 characters, and every component resolves. |
| DevfsPath.CompositeFoundIff | src/devices/bin/driver_manager/coordinator.cc:440-450 | A composite published under the root is found by its path if and only if its name is not "root" and shorter than 255 characters, it is still associated, and its node is the first visible one of that name. |
| DevfsPath.NotPrintableNotFound | src/devices/bin/driver_manager/coordinator.cc:440-450 | A composite called "root", one whose name is cut and one that was dissociated are not found by their paths, nor is any device below them. |
| DevfsPath.DissociatedPath | src/devices/bin/driver_manager/coordinator.cc:440-450 | A published composite device that was dissociated is printed without "/dev". |
| DevfsPathRuns.StepNest | src/devices/bin/driver_manager/devfs.cc:598-664 | Every step keeps each device's node below that of its parent, or of the root for a composite, or below a freed node. |
| DevfsPathRuns.RunRoundTrip | src/devices/bin/driver_manager/devfs.cc:404-430 | After every run from start-up, in which composites may also be dissociated, a device that stands with its ancestors is found by its printed path if and only if its composite, if any, is printed as what it is and every component resolves; which is so if each is visible and uniquely named. |
| DevfsPathRuns.CompositeCalledRoot | src/devices/bin/driver_manager/coordinator.cc:440-441 | A run after which a published composite is printed as "/dev". |
| DevfsPathRuns.DissociatedComposite | src/devices/bin/driver_manager/device.h:426-426 | A run after which a published composite "c" is printed as "/c". |
| DevfsReaddir.ReadPage | src/devices/bin/driver_manager/devfs.cc:363-402 | A page fits the buffer, ascends strictly from above the old cursor, and holds exactly the listable children up to the new cursor, save the one that stopped the call, which does not fit what is left of the buffer; a call that is not stopped lists everything. |
| DevfsReaddir.OnlyPage | src/devices/bin/driver_manager/devfs.cc:363-402 | There is only one page that meets these requirements. |
| DevfsListing.NeverListed | src/devices/bin/driver_manager/devfs.cc:363-402 | No page holds the node of an invisible device, or one without a device that has neither a service nor children and is not special. |
| DevfsListing.ListedExactly | src/devices/bin/driver_manager/devfs.cc:363-402 | A call that is not stopped lists exactly the children above the cursor that belong to a visible device, or have no device and a service, children or a special meaning. |
| DevfsListing.ListedIffFound | src/devices/bin/driver_manager/devfs.cc:363-430 | In a directory with distinct plain names a device's node is listed by a complete read from the start if and only if walking its name finds it. |
| DevfsReaddir.StoppedIff | src/devices/bin/driver_manager/devfs.cc:363-402 | A call is stopped if and only if the listable children above the cursor take more bytes than there is room, or one of their names is too long. |
| DevfsReaddir.SessionAscends | src/devices/bin/driver_manager/devfs.cc:363-402 | No entry repeats over several calls without a rewind, whatever happens to the directory in between. |
| DevfsReaddir.StopperIsLost | src/devices/bin/driver_manager/devfs.cc:363-402 | The entry that stopped a call is not returned by any later one. |
| DevfsReaddir.Layout | src/devices/bin/driver_manager/devfs.cc:348-361 | An entry is ten bytes and its name: the inode number from the lowest byte up, the length of the name, and the type of a directory. |
| DevfsReaddir.SessionComplete | src/devices/bin/driver_manager/devfs.cc:363-402 | A directory that does not change is read completely, over however many calls, if and only if the first call has room for all its listable children above the cursor and none of their names is too long. |
| DevfsReaddir.EntryIsLost | src/devices/bin/driver_manager/devfs.cc:363-402 | A directory of two entries and a room that either fits by itself, but not both: the second is never listed. |
| DevfsReaddir.DecodeEncode | src/devices/bin/driver_manager/devfs.cc:348-361 | The entries can be read back from the bytes they are written as. |
| DevfsReaddir.FillDirent | src/devices/bin/driver_manager/devfs.cc:348-361 | One entry is written at its offset, or refused with nothing written. |
| DevfsReaddir.Readdir | src/devices/bin/driver_manager/devfs.cc:363-402 | The loop in place: the page is written to the front of the buffer, the rest is untouched, and the cursor moves as for the page. |
| DevfsWatch.WatchKnows | src/devices/bin/driver_manager/devfs.cc:281-312 | A new all-events watcher is told exactly the visible names. |
| DevfsWatch.WatchEffect | src/devices/bin/driver_manager/devfs.cc:281-312 | A new watcher hears, in order, of each child without a device or with a visible one whose name is not too long, and then that this was all, if and only if it asked for each of these. |
| DevfsWatch.DeliverEffect | src/devices/bin/driver_manager/devfs.cc:226-262 | Of later events a watcher hears those of its directory that it asked for, in order, and it is gone exactly when its directory is. |
| DevfsWatch.StartWatching | src/devices/bin/driver_manager/devfs.cc:281-312 | The loop over the children in place. |
| DevfsWatch.EmptySynced | src/devices/bin/driver_manager/devfs.cc:264-270 | Replay can begin with any class directory that is still empty. |
| DevfsWatch.PublishTracks | src/devices/bin/driver_manager/devfs.cc:598-651 | Replaying the events of publishing takes a client from the visible names before to those after. |
| DevfsWatch.UnpublishTracks | src/devices/bin/driver_manager/devfs.cc:655-664 | The same for unpublishing. |
| DevfsWatch.VisibleTracks | src/devices/bin/driver_manager/coordinator.cc:535-552 | The same for becoming visible. |
| DevfsWatch.ModifiedTracks | src/devices/bin/driver_manager/devfs.cc:576-586 | The same for an announced modification if and only if the device is visible or has no link in the directory. |
| DevfsWatch.InvisibleModified | src/devices/bin/driver_manager/devfs.cc:576-586 | An invisible device whose announced modification makes a client believe in its name. |
| DevfsWatchRuns.RunReplay | src/devices/bin/driver_manager/devfs.cc:226-312 | After every run of devfs in which nothing but device links is made in a class directory, while directories and exported services come and go elsewhere, replaying what a live all-events watcher of it has heard gives exactly the visible link names. |
| DevfsObject.Filesystem.Lookup | src/devices/bin/driver_manager/devfs.cc:339-346 | devfs_lookup in place. |
| DevfsObject.Filesystem.Mkdir | src/devices/bin/driver_manager/devfs.cc:329-337 | devfs_mkdir in place. |
| DevfsObject.Filesystem.SeqName | src/devices/bin/driver_manager/devfs.cc:588-596 | devfs_seq_name in place, with its counter. |
| DevfsObject.Filesystem.Advertise | src/devices/bin/driver_manager/devfs.cc:565-574 | devfs_advertise in place. |
| DevfsObject.Filesystem.AdvertiseModified | src/devices/bin/driver_manager/devfs.cc:576-586 | devfs_advertise_modified in place. |
| DevfsObject.Filesystem.Publish | src/devices/bin/driver_manager/devfs.cc:598-651 | devfs_publish in place, error paths and events included. |
| DevfsObject.Filesystem.Remove | src/devices/bin/driver_manager/devfs.cc:490-533 | devfs_remove in place, events included. |
| DevfsObject.Filesystem.Unpublish | src/devices/bin/driver_manager/devfs.cc:655-664 | devfs_unpublish in place. |
| DevfsObject.Filesystem.NextPart | src/devices/bin/driver_manager/devfs.cc:842-859 | One component of an export path, excess separators skipped. |
| DevfsObject.Filesystem.FindMissing | src/devices/bin/driver_manager/devfs.cc:861-874 | The first pass of an export in place. |
| DevfsObject.Filesystem.CreateMissing | src/devices/bin/driver_manager/devfs.cc:876-886 | The second pass in place. |
| DevfsObject.Filesystem.ExportClass | src/devices/bin/driver_manager/devfs.cc:888-914 | The class entry of an export in place. |
| DevfsObject.Filesystem.Export | src/devices/bin/driver_manager/devfs.cc:831-915 | devfs_export in place, error paths included. |
| DevfsObject.Filesystem.MakeVisible | src/devices/bin/driver_manager/coordinator.cc:535-552 | MakeVisible in place. |
| DevfsObject.Filesystem.RemoveAll | src/devices/bin/driver_manager/devfs_exporter.cc:73-82 | Freeing the nodes of an export in place. |
| LifetimeRuns.BeginInv | src/devices/bin/driver_host/core.cc:183-199 | Beginning a finalization takes the deferred devices off their parents' lists and keeps the invariant. |
| LifetimeRuns.UnrefInv | src/devices/bin/driver_host/zx_device.cc:195-229 | Giving up a reference keeps counts right; the last one defers the device or starts its finalization. |
| LifetimeRuns.AddInv | src/devices/bin/driver_host/core.cc:406-506 | Adding a device keeps the invariant, refused or not. |
| LifetimeEffects.AddEffect | src/devices/bin/driver_host/core.cc:406-506 | A device is added once, below a parent that is not dead, unless the manager refuses; it then holds a reference to the parent and is its last child. A device that is refused is dead, and no other device is touched. |
| LifetimeEffects.AddProxyEffect | src/devices/bin/driver_host/core.cc:452-458 | In a create() call the first device is added, without a parent, unless the creating device is dead; one that is invisible is refused and stays busy. |
| LifetimeEffects.DropEffect | src/devices/bin/driver_host/zx_device.cc:195-229 | A reference that is not the last changes counts only. The last one strands a busy device; any other goes to the end of the deferred list, which a new finalization takes over in order unless devices are being enumerated. |
| LifetimeEffects.EnumEffect | src/devices/bin/driver_host/driver_host_context.h:145-156 | Enumerations are counted, and the last one to end starts a finalization of what was deferred. |
| LifetimeEffects.FrameEffect | src/devices/bin/driver_host/core.cc:204-215 | A finalization takes its devices in order and starts each with the hook of its parent, with its own, or with letting go, and is gone when its list is done. |
| LifetimeRuns.ReleaseFamily | src/devices/bin/driver_host/core.cc:204-215 | When a device is released, nobody has it as parent any more, so all its children were released before. |
| LifetimeRuns.DropParentInv | src/devices/bin/driver_host/core.cc:217-244 | Letting go of the parent, which may re-enter finalization, keeps the invariant. |
| LifetimeRuns.LateGraves | src/devices/bin/driver_host/core.cc:169-181 | From the eighth destruction on, each one frees the device destroyed seven before it. |
| LifetimeRuns.StepInv | src/devices/bin/driver_host/core.cc:151-245 | Every section under the lock keeps the invariant, in whatever order those of several finalizations come. |
| LifetimeRuns.RunInv | src/devices/bin/driver_host/core.cc:151-245 | The same over whole runs. |
| LifetimeRuns.PostOrder | src/devices/bin/driver_host/core.cc:151-245 | Over every run a release hook runs at most once, exactly for added devices whose finalization got that far, a child's before its parent's, and a device without references has no children. |
| LifetimeHooks.HookOrder | src/devices/bin/driver_host/core.cc:204-215 | Over every run the hook of the parent is called once for each released device that was added to one, before the device's own release hook, which is before the parent's; and for no other device. |
| LifetimeHooks.StepHooks | src/devices/bin/driver_host/core.cc:204-215 | Every step keeps the log of hooks in agreement with how far devices have come. |
| LifetimeRuns.FreedLate | src/devices/bin/driver_host/core.cc:169-181 | A destroyed device is freed exactly when the seventh device after it is destroyed. |
| LifetimeRuns.EnumerationStable | src/devices/bin/driver_host/driver_host_context.h:145-156 | While an enumeration goes on, lists of children only grow. |
| LifetimeRuns.StrandedIff | src/devices/bin/driver_host/zx_device.cc:210-215 | Giving up the last reference strands a device if and only if it is busy. |
| LifetimeRuns.StrandedForever | src/devices/bin/driver_host/zx_device.cc:210-215 | A stranded device is never finalized or released, whatever happens after. |
| LifetimeRuns.RefusalStrands | src/devices/bin/driver_host/core.cc:452-458 | A run in which an invisible device is added in create() and ends up stranded. |
| LifetimeObject.Context.FinalizeDyingDevices | src/devices/bin/driver_host/core.cc:183-199 | Taking over the deferred list and detaching its devices, in place. |
| LifetimeObject.Context.QueueDeviceForFinalization | src/devices/bin/driver_host/core.cc:875-883 | Queueing in place. |
| LifetimeObject.Context.EnumLockAcquire | src/devices/bin/driver_host/driver_host_context.h:150 | Taking the enumeration lock in place. |
| LifetimeObject.Context.PopFront | src/devices/bin/driver_host/core.cc:204-208 | Taking the next device from the snapshot, in place. |
| LifetimeObject.Context.CallPreRelease | src/devices/bin/driver_host/core.cc:209-212 | The pre-release hook of the parent in place. |
| LifetimeObject.Context.CallRelease | src/devices/bin/driver_host/core.cc:213-214 | The release hook in place. |
| LifetimeObject.Context.EnumLockRelease | src/devices/bin/driver_host/driver_host_context.h:152-156 | Releasing the enumeration lock in place. |
| LifetimeObject.Context.DeviceAdd | src/devices/bin/driver_host/core.cc:406-506 | DeviceAdd in place, with the busy flag, the failure paths and the context of a create() call. |
| LifetimeObject.Context.Recycle | src/devices/bin/driver_host/zx_device.cc:195-229 | fbl_recycle in place: a busy device is left alone, any other one queued. |
| LifetimeObject.Context.DeviceDestroy | src/devices/bin/driver_host/core.cc:151-181 | DeviceDestroy in place, with the queue of dead devices. |
| LifetimeObject.Context.Finish | src/devices/bin/driver_host/core.cc:217-244 | Letting go of the parent in place. |
| ProxyIostate.StepInv | src/devices/bin/driver_host/proxy_iostate.cc:16-104 | Every step keeps each connection owned once: by the loop, a handler or a queued deletion. |
| ProxyIostate.Ownership | src/devices/bin/driver_host/proxy_iostate.cc:16-104 | Over every run in which waits can be begun no assertion fails, no connection is deleted twice or used after deletion, proxy_ios is null or a live connection with no deletion queued, and every connection ever made is deleted, queued for it or pointed at. |
| ProxyIostate.DeletedByTask | src/devices/bin/driver_host/proxy_iostate.cc:26-39 | A connection with a queued deletion is deleted by that task alone. |
| ProxyIostate.CancelEffect | src/devices/bin/driver_host/proxy_iostate.cc:97-104 | Cancelling takes the connection away from its device and queues its deletion behind the others. |
| ProxyIostate.HandlerEnds | src/devices/bin/driver_host/proxy_iostate.cc:25-39 | At the end of a connection the one its device points at is deleted at once and one that was cancelled is left to its task; after any other request the loop waits for it again. |
| ProxyIostate.CreateWithoutWait | src/devices/bin/driver_host/proxy_iostate.cc:16-19 | If the wait cannot be begun, making a connection always ends with the thread waiting for itself: Create destroys the connection under the lock its destructor takes. |
| ProxyIostate.AgainWithoutWait | src/devices/bin/driver_host/async_loop_owned_rpc_handler.h:34-55 | If it cannot be begun again, the assertion fails, or the connection is deleted with its deletion still queued. |
| ProxyIostate.Loop.Open | src/devices/bin/driver_host/proxy_iostate.cc:67-95 | Create in place. |
| ProxyIostate.Loop.CancelLocked | src/devices/bin/driver_host/proxy_iostate.cc:97-104 | CancelLocked in place: its assertion holds. |
| ProxyIostate.Loop.HandleDestroy | src/devices/bin/driver_host/proxy_iostate.cc:25-39 | The end of a handler in place. |
| ProxyIostate.Loop.RunTask | src/devices/bin/driver_host/proxy_iostate.cc:100-103 | A posted deletion in place. |
| BindCompletion.StepInv | src/devices/bin/driver_host/core.cc:524-584 | Every handler keeps stored callbacks distinct, uncalled and at most one per place. |
| BindCompletion.CompletionSafe | src/devices/bin/driver_host/device_controller_connection.cc:26-49 | Over every run a bind or rebind callback is called at most once, and never with success while a child of its device is invisible. |
| BindCompletion.BindReplyCalls | src/devices/bin/driver_host/device_controller_connection.cc:26-49 | A bind reply calls the pending callback if and only if no child is invisible or has an init hook. |
| BindCompletion.CompletionCalls | src/devices/bin/driver_host/device_controller_connection.cc:26-49 | A completing bind reply, the completing init reply of a child, the removal of an invisible child and a rebind that cannot be started call each callback stored for the device once, with the status of the reply or a failure, and take it; nothing else is called. |
| BindCompletion.Answered | src/devices/bin/driver_host/core.cc:524-584 | Over every run each callback ever issued is stored, was called exactly once, or was replaced by a later bind or rebind of its device, and only one of these. |
| BindCompletion.DeferredCompletes | src/devices/bin/driver_host/core.cc:524-562 | A bind reply that finds a child with something to initialize puts the completion off and never loses it: after any run, the init reply of a child that leaves none invisible calls what is stored for the device, with the status of that reply. |
| BindCompletion.InvisibleUntil | src/devices/bin/driver_host/core.cc:524-562 | Over every run a device is invisible exactly from its arrival with an init hook to its init reply. |
| BindCompletion.InitStarts | src/devices/bin/driver_host/core.cc:508-522 | There is an init reply to come exactly for devices with an init hook. |
| BindCompletion.StaysPending | src/devices/bin/driver_host/device_controller_connection.cc:26-49 | Over every run from a state with a pending bind, it is still pending and its callback uncalled if and only if no step was one of four named kinds: another bind of the device, a bind reply with nothing to initialize, the last init reply of a child after a bind reply, the removal of an invisible child. |
| BindCompletion.PendingForGood | src/devices/bin/driver_host/device_controller_connection.cc:26-49 | After a bind reply that finds a child with an init hook, the bind stays pending over every run without a bind or bind reply of the device and without an init reply or removal of a child. |
| BindCompletion.BindStaysPending | src/devices/bin/driver_host/device_controller_connection.cc:26-49 | A run after which a bind stays pending though no child has anything left to initialize. |
| BindCompletion.Host.OnBindReply | src/devices/bin/driver_host/device_controller_connection.cc:26-49 | The scan of the children in place. |
| BindCompletion.Host.OnInitReply | src/devices/bin/driver_host/core.cc:524-562 | DeviceInitReply in place. |
| BindCompletion.Host.TakeBoth | src/devices/bin/driver_host/zx_device.cc:42-64 | Callbacks are taken before they are called, in place. |

## Left out

- Hosts.NamedOverRuns: for runs that stay within the 64-bit counter of a host; `Hosts.IdNonZeroIff` says what happens at the wrap.
- AssemblyLoop.OneHostPairs: for fragment devices that are in the host of the side (the device or its proxy) they were added through; `AssemblyLoop.OneHost`, which does not ask for that, has the exact condition in general.
- AssemblySystem.Assembles: the host tables are assumed to know the devices of the fragment graph, as no proxies, with their outgoing directories, and with hosts for fragment devices and the sides they were added through; the two are not one state machine. A null read or an assertion inside the loop counts as not getting through, while in the program it ends the process.
- DevfsWatchRuns.RunReplay: for class directories that hold device links only; exported nodes, console links and the root directory are sent no matching Removed events, so exports may go anywhere but there. A watcher whose channel cannot be written to hangs up, which is a step of its own.
- DevfsPathRuns.RunRoundTrip: for runs that publish devices under their parents, and composites under the root, as device.cc does; the length limit of the path copy in the public devfs_walk is not modelled.
- DevfsNames.RunNames: for runs that make no directories inside class directories by hand; console links are named after their devices and are excepted.
- CompositeSystem.StepGood: a composite is bound either through matching only or through an index chosen elsewhere only; unambiguous matching is kept for the former.
- Children.ChildIterator.constructor: the iterator runs over a state that does not change under it, as the source demands.
- LifetimeObject.Context.DeviceAdd: instance devices and the checks of DeviceValidate other than "already added" are not modelled.
- Bytecode version 2, the matching of composites by the driver index and device groups: calls into other libraries.
- The constants of bind programs, protocols and flags, the size of a directory entry header (10 bytes), the longest name in one (255) and the longest file name (255) are defined outside these two directories; the values used are written in BindProgram, Devfs and DevfsReaddir.
- FIDL, channels, VMOs, processes, the event loop itself, logging, inspect trees and tracing.
- The init, suspend, resume, unbind and remove tasks of driver_manager, and power states.
- Opening, cloning and describing devfs connections, the diagnostics directory and the built-in null and zero devices.
- Forced removal of a whole driver host, and the rebinding of its parent devices.
- Inode numbers, device numbers and reference counts do not wrap around.
- Characters are not limited to bytes; `DevfsReaddir.DecodeEncode` asks for names of byte-sized characters.
