# Verification model of xdpd

xdpd is a datapath daemon: it keeps switches (LSIs), attaches ports to them, reads a
configuration file, speaks a management protocol, and translates between OpenFlow and the packet
pipeline of the ROFL library. This project models the parts of it where correctness is subtle,
and proves what they are for.

| files | subject |
|---|---|
| `LockProtocol.dfy`, `LockSafety.dfy`, `LockAlone.dfy`, `LockEffects.dfy`, `LockRefinement.dfy` | the four locks around the switch registry, for any number of threads |
| `SwitchManager.dfy`, `VlinkCache.dfy` | the registry and the cache of virtual links, used by one thread |
| `ConfigScope.dfy`, `ConfigExecution.dfy`, `ConfigRuns.dfy`, `ConfigNesting.dfy`, `ConfigExact.dfy`, `ConfigTree.dfy`, `ConfigPaths.dfy` | scopes executed against a configuration file |
| `XmpCodec.dfy`, `XmpRoundTrip.dfy`, `XmpPacking.dfy`, `XmpObjects.dfy`, `XmpWire.dfy` | the management protocol (XMP) codec |
| `PacketInLimiter.dfy` | the packet-in rate limiter (PIRL) |
| `OpenFlow10Actions.dfy`, `OpenFlow10Meaning.dfy` | OpenFlow 1.0 action lists |
| `OpenFlow13PortMod.dfy` | OpenFlow 1.3 port modification |

`dafny verify dfyconfig.toml` checks everything. Code that works by changing objects is modelled by
classes with methods; their effect is stated by functions, and the theorems are about those
functions.

## What the proofs found

* A TAINT scope below another TAINT scope with a smaller priority number is run without its
  subscopes, and its own turn is then skipped. The normal scopes of which it is the nearest TAINT
  scope never run and are never checked (`ConfigRuns.InversionHides`); a configuration that lacks
  what they demand is accepted (`ConfigRuns.InversionAccepts`). Runs call the
  hooks of every present scope once, whatever the configuration, if and only if no starved scope hides
  a scope of the tree (`ConfigExact.OnceEachCondition`); they accept only what conforms if and only if
  nothing that a scope demands is left unchecked (`ConfigExact.RunsAcceptConforming`).
* A MULTIPART with an inner element of a type that is not supported unpacks to a null pointer, which
  packing would go through (`XmpRoundTrip.NullPointer`). Packing what unpacks goes through none if
  and only if the last MULTIPART frame holds supported types only (`XmpPacking.DecodedIsPackable`).
* The constructors of two XMP elements, PORTINFO and LSIINFO, check for the size of a name instead
  of their own: a PORTINFO of 36 bytes unpacks (`XmpRoundTrip.ShortPortInfo`), and packing it lets
  bytes of the caller's buffer through (`XmpPacking.ShortShowsBuffer`). What unpacks is packed
  as its image if and only if neither this nor a null pointer is found in the last frame of a type
  (`XmpRoundTrip.DecodedIsWellFormed`).
* A last XMP element that is a header only is packed but not found again
  (`XmpRoundTrip.LostHeader`); nothing else is lost (`XmpRoundTrip.RoundTripCondition`).
* From slot 2^31 on (about 6.8 years after the start of the machine) the rate limiter refills for
  every packet (`PacketInLimiter.LateSlotIsUnlimited`). In slot 0 it never refills, and lets as
  many packets through as it found tokens in memory (`PacketInLimiter.FirstSlotCount`).
* A reconfiguration of the limiter restarts its slot, so one slot can admit one quota for each
  configuration (`PacketInLimiter.SlotWithTwoQuotas`).
* The comment on the limiter's clock (`src/xdpd/openflow/pirl/pirl_config.h`, line 23) speaks of the
  epoch, and that on a deleted virtual link end (`src/xdpd/management/port_manager.h`, line 216) of
  the pair; the code reads a monotonic clock, and erases the one end only. The model follows the code.
* An OpenFlow 1.0 OUTPUT that follows an ENQUEUE goes through the queue of the ENQUEUE
  (`OpenFlow10Meaning.QueueStays`).
* The deletion of a blacklisted virtual link end is ignored; the stale entry makes a later link of
  the same name fail (`VlinkCache.StaleEntryFails`).
* A creation inserts into the map without the lock its readers hold, so it can meet one
  (`LockEffects.InsertMeetsReader`); an erase cannot (`LockEffects.UnlinkExcludesReaders`).
* A destruction that fails at a port leaves the dpid marked as under destruction
  (`SwitchManager.Manager.DestroySwitch`). The lock protocol stays safe and free of deadlock, but the
  switch gets no notifications until a later destruction succeeds or marks another switch. When all operations have
  ended the mark is 0 or the dpid of a destruction that failed (`LockRefinement.MarkAtRest`); while it
  is 0, a switch with dpid 0 gets no notifications (`LockEffects.Delivery`).

## Model

| member | source | states |
|---|---|---|
| `LockSafety.RegistryIsSafe` | src/xdpd/management/switch_manager.cc:116-173 | In every interleaving of any number of operations no dangling or null pointer to a switch is used or deleted, entries are keyed by their own dpid, names are unique, no switch is both live and deleted, and exclusive locks have one holder |
| `LockSafety.UsersHaveTheSwitch` | src/xdpd/management/switch_manager.cc:465-611 | A thread about to use a switch pointer holds one that is live, still registered and of the dpid asked for, and no other thread is past its erase |
| `LockSafety.DeadlockFree` | src/xdpd/management/port_manager.cc:217-388 | While any operation is unfinished some thread can take a step that is not a spin: waiting follows the order switch mutex, port mutex, reader/writer locks |
| `LockSafety.FollowHolders` | src/xdpd/management/switch_manager.cc:109-177 | From a waiting thread, the holders of the wanted locks lead to a thread that can step |
| `LockSafety.SchedulesAreBounded` | src/xdpd/management/switch_manager.cc:473-478 | However the pending operations are scheduled, they take no more steps than their total weight |
| `LockSafety.OperationsCanFinish` | src/xdpd/management/switch_manager.cc:109-177 | From every reachable state, failed detachments included, all pending operations can be brought to their end |
| `LockSafety.QuietMeansClean` | src/xdpd/management/switch_manager.cc:155-173 | When all operations have ended every lock is free, and exactly the switches in the map are live |
| `LockSafety.StepKeepsInv` | src/xdpd/management/switch_manager.cc:31-611 | One step of any thread keeps the invariant over the shared state and all threads |
| `LockAlone.LoneStory` | src/xdpd/management/switch_manager.cc:31-611 | For every operation that runs alone, on every schedule: which switches it uses and under which lock, which dpids it looks up, which names it looks at and when it locks the cache of virtual links, in order; but for creations and destructions the shared state stays |
| `LockAlone.CallsReach` | src/xdpd/cmm.cc:17-150 | Every call of the driver about a switch, from a thread of its own or during a creation, connection or port administration, uses that switch once, with the read lock, if and only if it is registered and not marked and the operation gets as far as the driver |
| `LockAlone.CallReaches` | src/xdpd/management/switch_manager.cc:465-611 | So a single packet-in, flow-removed or port notification from the driver reaches its switch if and only if that is registered and not marked |
| `LockAlone.AttachReaches` | src/xdpd/management/port_manager.cc:217-275 | Besides what the driver calls, an attached port is made known to its switch if and only if port and switch exist, the driver succeeds and the switch is not marked |
| `LockAlone.DetachReaches` | src/xdpd/management/port_manager.cc:335-388 | The same for a detached port that still exists |
| `LockAlone.DestroyIsSilent` | src/xdpd/management/switch_manager.cc:109-177 | A switch gets no notification during its own destruction, whatever the driver calls |
| `LockAlone.DestroyReachesOthers` | src/xdpd/management/switch_manager.cc:109-177 | Every other switch gets all that the driver calls for up to the first port that fails, also a switch left marked before |
| `LockAlone.ReadersReach` | src/xdpd/management/switch_manager.cc:225-237 | exists, the statistics of a switch, its reconfiguration and get_vlink_pair: what each looks at or uses, under a read or a write lock |
| `LockAlone.LinksWritten` | src/xdpd/management/port_manager.cc:277-333 | The cache of virtual links is locked for writing once for each deleted end the driver calls about, and once for a link, if and only if both switches exist and the driver makes it |
| `LockAlone.SearchLooks` | src/xdpd/management/switch_manager.cc:239-277 | A search by name looks at all registered switches, in ascending order |
| `LockAlone.CreationLooks` | src/xdpd/management/switch_manager.cc:43-62 | A creation of an unused dpid looks at the switches up to the first one that has the name |
| `LockEffects.LoneOperation` | src/xdpd/management/switch_manager.cc:31-177 | A creation or destruction that runs alone ends, on every schedule, with the registry and the mark that the sequential model of the manager says, whatever the driver calls in between |
| `LockEffects.Delivery` | src/xdpd/management/switch_manager.cc:465-611 | A notification whose steps are not interleaved and that can read at once reaches its switch if and only if the switch is registered and its dpid is not the mark |
| `LockEffects.DeliveryIsCertain` | src/xdpd/management/switch_manager.cc:465-545 | A notification that holds the lock while its switch is registered reaches it, whatever other threads do before it is scheduled again |
| `LockEffects.ReaderKeepsSwitch` | src/xdpd/management/switch_manager.cc:465-545 | No step of another thread takes a switch from the map, or puts another in its place, while a thread holds the reader/writer lock |
| `LockRefinement.StepRefines` | src/xdpd/management/switch_manager.cc:31-177 | In every interleaving, each insertion and each erase changes the registry as the sequential model of the manager says for the operation of that thread, which meets none of its errors at that moment; no other step changes it |
| `LockRefinement.RefinesManager` | src/xdpd/management/switch_manager.cc:31-177 | After every interleaving the registry is the one that a sequence of creations and destructions of the sequential model makes of an empty one, all successful and each one of those started |
| `LockRefinement.MarkAtRest` | src/xdpd/management/switch_manager.cc:109-177 | When all operations have ended, the mark is 0 or the dpid of a started destruction that failed at a port |
| `LockEffects.UnlinkExcludesReaders` | src/xdpd/management/switch_manager.cc:155-162 | In every reachable state no other thread holds the reader/writer lock when a switch is erased from the map |
| `LockEffects.InsertMeetsReader` | src/xdpd/management/switch_manager.cc:95-98 | A run in which a thread is about to insert into the map while another iterates it under the read lock |
| `LockProtocol.ProgramsAreDisciplined` | src/xdpd/management/switch_manager.cc:31-611 | Every operation takes locks in rank order, gives them back, uses pointers only under a lock that keeps them registered, inserts only under an unused dpid and name, and deletes only what it unlinked |
| `LockProtocol.NotifyDisciplined` | src/xdpd/management/switch_manager.cc:465-545 | A notification keeps the discipline whatever mutexes the calling thread holds |
| `LockProtocol.CallbacksDisciplined` | src/xdpd/cmm.cc:17-150 | Any sequence of calls from the driver keeps it, from inside the operations that hold mutexes too |
| `LockProtocol.CreateDisciplined` | src/xdpd/management/switch_manager.cc:31-103 | create_switch with its scan for the name, and every way it gives up |
| `LockProtocol.DestroyDisciplined` | src/xdpd/management/switch_manager.cc:109-177 | destroy_switch with its detachments, their failure included, and the driver's calls during the delete |
| `LockProtocol.EraseDisciplined` | src/xdpd/management/switch_manager.cc:155-164 | Erase under the write lock, then delete |
| `LockProtocol.DetachDisciplined` | src/xdpd/management/port_manager.cc:335-388 | detach_port_from_switch on all its paths, from inside destroy_switch or alone |
| `LockProtocol.AttachDisciplined` | src/xdpd/management/port_manager.cc:217-275 | attach_port_to_switch on all its paths |
| `LockProtocol.ConnectDisciplined` | src/xdpd/management/port_manager.cc:277-333 | connect_switches on all its paths |
| `LockProtocol.ExistsDisciplined` | src/xdpd/management/switch_manager.cc:225-237 | exists, called with the port mutex held |
| `LockProtocol.ReadersDisciplined` | src/xdpd/management/switch_manager.cc:239-277 | The searches by name iterate the map under the read lock |
| `LockProtocol.UseDisciplined` | src/xdpd/management/switch_manager.cc:430-449 | reconfigure_pirl uses the pointer under the write lock only |
| `SwitchManager.RunsKeepKeyed` | src/xdpd/management/switch_manager.cc:43-98 | Every run of creations and destructions keeps each switch under its own dpid and names unique |
| `SwitchManager.NamesHaveOneOwner` | src/xdpd/management/switch_manager.cc:256-277 | After every run from an empty registry a name in use has exactly one owner, found under the dpid it says |
| `SwitchManager.RegisteredWhen` | src/xdpd/management/switch_manager.cc:31-177 | After every run a switch is registered, with that name and version, if and only if one of its creations met no obstacle and no destruction of it succeeded since |
| `SwitchManager.Manager.CreateSwitch` | src/xdpd/management/switch_manager.cc:31-103 | All error cases in their order, and the new registry |
| `SwitchManager.Manager.DestroySwitch` | src/xdpd/management/switch_manager.cc:109-177 | All error cases; after a failed detachment the switch stays registered and marked as under destruction |
| `SwitchManager.Manager.DestroyAllSwitches` | src/xdpd/management/switch_manager.cc:180-189 | If no switch fails the map ends empty; otherwise exactly the switches below the first that fails are gone |
| `SwitchManager.Manager.ExistsByName` | src/xdpd/management/switch_manager.cc:239-254 | The loop finds a name exactly if a switch has it |
| `SwitchManager.Manager.GetSwitchDpid` | src/xdpd/management/switch_manager.cc:256-277 | The loop that goes on after a match ends with the only owner, and finds one exactly if exists_by_name does |
| `VlinkCache.CachedPairs` | src/xdpd/management/port_manager.h:202-260 | After every run the driver may make in which no blacklisted end is deleted: no end is its own pair, a cached pair points back or was deleted, a link with both ends deleted left nothing, and no link failed to be added |
| `VlinkCache.StepFollows` | src/xdpd/management/port_manager.h:202-221 | An event keeps the cache equal to the ends that exist, if and only if it is not the deletion of a blacklisted end |
| `VlinkCache.RunFollows` | src/xdpd/management/port_manager.cc:277-333 | The cache follows the links of the driver over every run in which no blacklisted end is deleted |
| `VlinkCache.BlacklistedWhen` | src/xdpd/management/port_manager.cc:97-151 | After every run exactly the ports are on the list that were put on it and not taken off since, and only for those a deletion is ignored |
| `VlinkCache.StaleEntryFails` | src/xdpd/management/port_manager.h:202-221 | A run of events that are possible one after the other, from connecting over detaching and blacklisting to both deletions, the one of the blacklisted end ignored, after which a new link of that name is refused |
| `VlinkCache.PortManager.AddVlink` | src/xdpd/management/port_manager.h:244-260 | Both ends are added, or neither if one is cached |
| `VlinkCache.PortManager.NotifyPortDeleted` | src/xdpd/management/port_manager.h:202-221 | Only the deleted name is erased, and nothing if it is blacklisted |
| `VlinkCache.PortManager.GetVlinkPair` | src/xdpd/management/port_manager.cc:23-45 | As long as the cache follows the driver, a pair is found exactly for ends that exist, and the pair of the pair is the port itself while both do |
| `VlinkCache.PortManager.Whitelist` | src/xdpd/management/port_manager.cc:127-151 | Only existing ports are taken off the list |
| `VlinkCache.PortManager.Blacklist` | src/xdpd/management/port_manager.cc:97-125 | Only existing, unattached ports are added; for an attached port the exception leaves the port mutex locked |
| `ConfigRuns.RunHasEffect` | src/xdpd/management/plugins/config/scope.cc:101-240 | A run ends without exception if and only if every check it makes succeeds; then exactly the present scopes that no starved scope hides are processed |
| `ConfigRuns.ExactlyOnce` | src/xdpd/management/plugins/config/scope.cc:101-178 | In a run that does not throw both hooks of a scope are called exactly once if it is present and not hidden, else never |
| `ConfigRuns.NoInversionCondition` | src/xdpd/management/plugins/config/scope.cc:101-106 | No scope is starved or hidden by a starved one, if and only if no TAINT scope lies below one with a smaller priority number |
| `ConfigExact.OnceEachCondition` | src/xdpd/management/plugins/config/scope.cc:101-178 | Every run of every configuration that does not throw calls both hooks of every present scope once, if and only if no starved scope hides a scope of the tree |
| `ConfigExact.RunsAcceptConforming` | src/xdpd/management/plugins/config/scope.cc:101-240 | Runs accept exactly what conforms to the whole tree, for all configurations, if and only if every scope that is not executed declares nothing and every one that is not entered has no mandatory subscope, but for those it demands as a parameter too and that refuse what is not a group |
| `ConfigExact.AcceptedCondition` | src/xdpd/management/plugins/config/scope.cc:101-240 | The same of the checks that are made: they imply conformity if and only if nothing is left unchecked |
| `ConfigExact.FullConforms` | src/xdpd/management/plugins/config/scope.cc:113-169 | For every tree a configuration that conforms and in which every scope is present |
| `ConfigRuns.SoundWithoutInversion` | src/xdpd/management/plugins/config/scope.cc:113-169 | For every tree, what conforms to the whole tree is accepted; without such a nesting only that is (a sufficient condition; the exact one is in ConfigExact) |
| `ConfigRuns.NeverExecuted` | src/xdpd/management/plugins/config/scope.cc:101-178 | In every run, also one that throws, no hook is called of a scope that is absent or hidden by a starved scope |
| `ConfigRuns.InversionHides` | src/xdpd/management/plugins/config/scope.cc:101-106 | For every starved scope and every normal scope of which it is the nearest TAINT scope: whatever the configuration, no run calls a hook of it |
| `ConfigRuns.InversionAccepts` | src/xdpd/management/plugins/config/scope.cc:101-169 | A tree with such a nesting and a configuration that does not conform, whose run ends without exception |
| `ConfigRuns.PriorityOrder` | src/xdpd/management/plugins/config/scope.cc:187-201 | All hooks of what the turns before t processed come before all hooks of everything else, the root included |
| `ConfigRuns.AscendingPriorities` | src/xdpd/management/plugins/config/scope.cc:187-201 | A priority scope and the subtree it takes along come before every scope outside TAINT scopes that is normal or has a larger number |
| `ConfigNesting.HooksNest` | src/xdpd/management/plugins/config/scope.cc:101-178 | By positions in the log of every run that does not throw: a hook of q is called between the two hooks of p if and only if q is below p with no TAINT scope in between, the first call on p runs its subscopes, and q was not processed in an earlier turn |
| `ConfigNesting.BothBetween` | src/xdpd/management/plugins/config/scope.cc:166-174 | Whenever one hook of a scope is called between the two of another, both are, in their order |
| `ConfigNesting.NormalEncloses` | src/xdpd/management/plugins/config/scope.cc:140-176 | So a normal scope always has the hooks of the normal scopes below it between its own, with no TAINT scope in between |
| `ConfigNesting.SiblingOrder` | src/xdpd/management/plugins/config/scope.h:47-49 | Hooks of a scope below an earlier registered subscope come first, if and only if the other scope is not processed in an earlier turn |
| `ConfigNesting.RunsThrowAt` | src/xdpd/management/plugins/config/scope.cc:108-156 | A run that throws ends right behind the first hook of a scope whose checks fail, with the exception that names the failed check, or at a mandatory subscope that is missing |
| `ConfigRuns.TurnsHaveEffect` | src/xdpd/management/plugins/config/scope.cc:187-197 | What is processed, hooked and checked in the turns before t, for every t |
| `ConfigExecution.ScopeHasEffect` | src/xdpd/management/plugins/config/scope.cc:101-178 | A normal call processes what it covers, calls both hooks once of what is new, keeps hooks nested, and throws exactly if a check fails |
| `ConfigExecution.TurnHasEffect` | src/xdpd/management/plugins/config/scope.cc:101-178 | The same for the priority turn of a scope; nothing for a TAINT scope that was processed |
| `ConfigTree.ScopeTree.GetSubscope` | src/xdpd/management/plugins/config/scope.h:89-97 | The loop finds a name exactly if it is registered |
| `ConfigTree.ScopeTree.RegisterSubscope` | src/xdpd/management/plugins/config/scope.cc:83-90 | Refuses a duplicate, else adds a leaf; the nodes stay a tree with distinct siblings |
| `ConfigTree.ScopeTree.RegisterPrioritySubscope` | src/xdpd/management/plugins/config/scope.cc:57-81 | A taken priority is refused only after the scope was added; otherwise priorities and scopes stay in bijection |
| `ConfigTree.ScopeTree.RegisterParameter` | src/xdpd/management/plugins/config/scope.cc:92-99 | Refuses a duplicate, else declares the parameter |
| `ConfigTree.ScopeTree.Execute` | src/xdpd/management/plugins/config/scope.cc:101-178 | Processed scopes, hook log and exception are those of RunScope |
| `ConfigTree.ScopeTree.ExecuteSubscopes` | src/xdpd/management/plugins/config/scope.cc:145-169 | The loop over the subscopes is RunSubs, its stop at a missing mandatory group included |
| `ConfigTree.ScopeTree.ExecuteConfig` | src/xdpd/management/plugins/config/scope.cc:180-240 | The whole run is RunConfig |
| `ConfigTree.Check` | src/xdpd/management/plugins/config/scope.cc:113-142 | Unknown names are looked for only where something is declared, and before missing parameters |
| `ConfigPaths.PathRoundTrip` | src/xdpd/management/plugins/config/scope.h:127-138 | A printed path splits into the names again if and only if none contains a dot and the first and last are not empty |
| `ConfigPaths.ResolveRoundTrip` | src/xdpd/management/plugins/config/scope.cc:29-55 | get_scope_abs_path of get_path gives the scope back under exactly that condition |
| `ConfigPaths.DistinctPaths` | src/xdpd/management/plugins/config/scope.h:127-138 | Different printable paths are printed differently |
| `ConfigPaths.Resolve` | src/xdpd/management/plugins/config/scope.cc:29-55 | The getline loop finds what the split names, and nothing for an empty path or a name that is missing |
| `ConfigPaths.ResolvedIsRegistered` | src/xdpd/management/plugins/config/scope.cc:29-55 | Only registered scopes are found |
| `XmpCodec.FramesAreAFraming` | src/xdpd/management/plugins/xmp/cxmpies.cc:91-107 | For every byte string the frames cut off are a prefix, each sound, and no more can be cut off behind them |
| `XmpCodec.FramingIsUnique` | src/xdpd/management/plugins/xmp/cxmpies.cc:91-107 | There is only one such framing |
| `XmpCodec.LastFrameWins` | src/xdpd/management/plugins/xmp/cxmpies.cc:110-154 | A decoding that succeeds keeps for each type the element of its last frame, and nothing else |
| `XmpWire.HeldByNumber` | src/xdpd/management/plugins/xmp/cxmpie_multipart.cc:145-180 | For the types 1, 2, 3, 5, 6, 7 and 8, with their sizes in bytes: a MULTIPART with any such element unpacks to exactly its bytes, and packs to itself |
| `XmpWire.NullByNumber` | src/xdpd/management/plugins/xmp/cxmpie_multipart.cc:172-180 | Types 0, 4, and 9 and above in a MULTIPART unpack to a null pointer |
| `XmpWire.RefusedByNumber` | src/xdpd/management/plugins/xmp/cxmpie_multipart.cc:145-171 | An element in a MULTIPART below the size its constructor asks for throws, and nothing is unpacked |
| `XmpWire.SlotsByNumber` | src/xdpd/management/plugins/xmp/cxmpie_multipart.cc:99-126 | For a MULTIPART of any length: when it is refused, and which of its elements are kept and which become null |
| `XmpWire.PlainByNumber` | src/xdpd/management/plugins/xmp/cxmpies.cc:110-154 | Outside a MULTIPART every type but 0 and 4 unpacks to its own bytes, if there are as many as its constructor asks for, in numbers |
| `XmpWire.NoneByNumber` | src/xdpd/management/plugins/xmp/cxmpies.cc:119-121 | Type 0 is dropped |
| `XmpWire.LengthByNumber` | src/xdpd/management/plugins/xmp/xdpd_mgmt_protocol.h:81-150 | A packed element starts with its type and the length of its struct, for each type in bytes, and has only so many bytes |
| `XmpWire.MessageBytes` | src/xdpd/management/plugins/xmp/cxmpmsg.cc:87-98 | The bytes of a packed message: version, type, big-endian length, transaction id, elements |
| `XmpRoundTrip.InnerRoundTrip` | src/xdpd/management/plugins/xmp/cxmpie_multipart.cc:79-126 | Order, number and contents of the elements of a MULTIPART survive packing and unpacking |
| `XmpRoundTrip.ImageIsFramed` | src/xdpd/management/plugins/xmp/cxmpie.cc:78-86 | The length field written is the number of bytes written, for a MULTIPART 4 plus the inner ones |
| `XmpRoundTrip.ElementRoundTrip` | src/xdpd/management/plugins/xmp/cxmpie.cc:78-99 | Building a packed element gives its canonical form |
| `XmpRoundTrip.NormalIsStable` | src/xdpd/management/plugins/xmp/cxmpie.cc:78-86 | The canonical form packs to the same bytes and is its own canonical form |
| `XmpRoundTrip.ElementsRoundTrip` | src/xdpd/management/plugins/xmp/cxmpies.cc:76-107 | Unpacking packed elements gives all of them back, but for a last one that is a header only |
| `XmpRoundTrip.RoundTripCondition` | src/xdpd/management/plugins/xmp/cxmpies.cc:97-106 | The round trip is exact if and only if the last element is more than its header |
| `XmpRoundTrip.UnpacksWhen` | src/xdpd/management/plugins/xmp/cxmpies.cc:91-154 | A byte string unpacks without exception if and only if no frame, and no supported frame in a MULTIPART, is shorter than its constructor checks for |
| `XmpRoundTrip.DecodedIsWellFormed` | src/xdpd/management/plugins/xmp/cxmpies.cc:91-154 | For every byte string that unpacks, the result is packed as its image if and only if the last frame of each type is not a short PORTINFO or LSIINFO and, for a MULTIPART, holds no such frame and none of an unsupported type |
| `XmpPacking.DecodedIsPackable` | src/xdpd/management/plugins/xmp/cxmpie_multipart.cc:79-180 | For every byte string that unpacks, packing the result goes through no null pointer if and only if the last MULTIPART frame, if there is one, holds supported types only |
| `XmpRoundTrip.KeptIsWellFormed` | src/xdpd/management/plugins/xmp/cxmpies.cc:91-154 | The same for what is left after an exception, on the frames that were kept |
| `XmpRoundTrip.Canonicalisation` | src/xdpd/management/plugins/xmp/cxmpies.cc:76-154 | Under that condition decode, encode, decode gives the canonical form if and only if the last element is more than its header, and the canonical form encodes and decodes to itself |
| `XmpRoundTrip.ShortMeansShort` | src/xdpd/management/plugins/xmp/cxmpie_portinfo.cc:66-71 | Of the elements a constructor accepts, exactly a PORTINFO under 72 and an LSIINFO under 57 bytes are shorter than their struct |
| `XmpRoundTrip.NullPointer` | src/xdpd/management/plugins/xmp/cxmpie_multipart.cc:145-180 | Twelve bytes that unpack to a MULTIPART with a null pointer |
| `XmpRoundTrip.ShortPortInfo` | src/xdpd/management/plugins/xmp/cxmpie_portinfo.cc:66-71 | Every PORTINFO of 36 bytes unpacks, and is not a whole struct |
| `XmpRoundTrip.LostHeader` | src/xdpd/management/plugins/xmp/cxmpies.cc:97 | A single element that is a header only can be packed, and unpacks to nothing |
| `XmpPacking.LengthIsExact` | src/xdpd/management/plugins/xmp/cxmpie_multipart.cc:68-77 | length() of a well-formed element is the number of bytes of its image |
| `XmpPacking.ImageWritten` | src/xdpd/management/plugins/xmp/cxmpie_multipart.cc:79-97 | Packing a well-formed element writes its image and nothing else; a MULTIPART first copies its own memory for the whole length and then writes over all but the header |
| `XmpPacking.AllImagesWritten` | src/xdpd/management/plugins/xmp/cxmpies.cc:76-88 | Packing well-formed elements writes their images in ascending order of type, as many bytes as length() says, and nothing else |
| `XmpPacking.ShortShowsBuffer` | src/xdpd/management/plugins/xmp/cxmpie.cc:78-86 | An element shorter than its struct leaves bytes of the buffer among those it counts as its own |
| `XmpPacking.PackedTwice` | src/xdpd/management/plugins/xmp/cxmpie.cc:78-86 | The lengths left in the elements change neither that the message can be packed nor the bytes a second packing writes |
| `XmpObjects.PackPlain` | src/xdpd/management/plugins/xmp/cxmpie.cc:78-86 | Copies at most what the memory holds, short elements included, and leaves the length in the memory |
| `XmpObjects.PackInner` | src/xdpd/management/plugins/xmp/cxmpie_multipart.cc:89-96 | The loop is the packing of one element behind the other |
| `XmpObjects.PackMulti` | src/xdpd/management/plugins/xmp/cxmpie_multipart.cc:79-97 | The memory for the whole length, then the elements behind its header |
| `XmpObjects.Bakery` | src/xdpd/management/plugins/xmp/cxmpie_multipart.cc:145-180 | A new element, an exception for a supported one that is too short, or null |
| `XmpObjects.UnpackMultipart` | src/xdpd/management/plugins/xmp/cxmpie_multipart.cc:99-126 | The loop keeps order and nulls, stops silently at a bad length, and throws only for a supported element that is too short |
| `XmpObjects.Ies.Length` | src/xdpd/management/plugins/xmp/cxmpies.cc:65-73 | The sum over the map; it goes through all pointers |
| `XmpObjects.Ies.Pack` | src/xdpd/management/plugins/xmp/cxmpies.cc:76-88 | Refuses a buffer that is too small and then changes nothing; else packs all elements in ascending order of type, short ones included |
| `XmpObjects.Ies.MapAndInsert` | src/xdpd/management/plugins/xmp/cxmpies.cc:110-154 | The element replaces the one of its type; the old one is gone also if the new one cannot be built |
| `XmpObjects.Ies.Unpack` | src/xdpd/management/plugins/xmp/cxmpies.cc:91-107 | Reads within the given length only, and gives the last-wins decoding of it |
| `XmpObjects.Message.Pack` | src/xdpd/management/plugins/xmp/cxmpmsg.cc:87-98 | Refuses a buffer that is too small and then changes nothing; else writes header and elements, and stores the length |
| `XmpObjects.MessageWritten` | src/xdpd/management/plugins/xmp/cxmpmsg.cc:87-98 | A message of well-formed elements is written as header and images, as many bytes as length() says |
| `XmpObjects.Message.Unpack` | src/xdpd/management/plugins/xmp/cxmpmsg.cc:102-113 | Refuses less than a header; else takes the bytes as they are and decodes what is behind the header |
| `XmpObjects.HeaderRoundTrip` | src/xdpd/management/plugins/xmp/cxmpmsg.cc:87-113 | Version, type and transaction id survive; the length is true if and only if it fits 16 bits |
| `XmpObjects.MessageRoundTrip` | src/xdpd/management/plugins/xmp/cxmpmsg.cc:87-113 | The elements of a packed message are found again if and only if the last is more than its header |
| `PacketInLimiter.LimiterRefinesReference` | src/xdpd/openflow/pirl/pirl.h:76-121 | On every trace, reconfigurations and slot 0 included, a packet passes exactly if fewer than a tenth of the rate came before it in its slot and configuration, or in slot 0 fewer than the tokens found, or the limiter is off, or the slot number exceeds an int |
| `PacketInLimiter.SlotCountIsExact` | src/xdpd/openflow/pirl/pirl.h:76-121 | In each slot from 1 on exactly the sum of the shares of its configurations passes |
| `PacketInLimiter.FirstSlotCount` | src/xdpd/openflow/pirl/pirl.h:76-121 | In slot 0 as many packets pass as there were tokens in memory, besides those that come while the limiter is off |
| `PacketInLimiter.ReconfiguredSlotBound` | src/xdpd/openflow/pirl/pirl.cc:16-27 | With reconfigurations a slot admits at most the sum of the quotas active in it |
| `PacketInLimiter.SlotAdmitsTheMinimum` | src/xdpd/openflow/pirl/pirl.h:98-101 | Without reconfiguration a slot admits the minimum of arrivals and quota; from slot 2^31 on it admits all, so the limit holds there if and only if arrivals stay within it |
| `PacketInLimiter.LateSlotIsUnlimited` | src/xdpd/openflow/pirl/pirl.h:98-101 | For every n a trace of which all n packets of slot 2^31 pass, with a quota of one |
| `PacketInLimiter.SlotWithTwoQuotas` | src/xdpd/openflow/pirl/pirl.cc:16-27 | A trace with one reconfiguration in which a slot admits two quotas, the bound for it |
| `PacketInLimiter.WindowBound` | src/xdpd/openflow/pirl/pirl.h:76-121 | In any window of w ms at most ((w+98)/100+1) tenths of the rate pass |
| `PacketInLimiter.TenSlotsBound` | src/xdpd/openflow/pirl/pirl.h:76-121 | In any ten consecutive slots at most the rate passes |
| `PacketInLimiter.TenBusySlots` | src/xdpd/openflow/pirl/pirl.h:76-121 | The limit is reached: if at least a tenth of the rate arrives in each of ten consecutive slots, exactly rate - rate % 10 packets pass in that second |
| `PacketInLimiter.Limiter.FilterPkt` | src/xdpd/openflow/pirl/pirl.h:76-121 | Decision and new bucket of one packet, with the 32-bit truncation of the slot |
| `PacketInLimiter.Limiter.Reconfigure` | src/xdpd/openflow/pirl/pirl.cc:16-27 | A refused rate changes nothing; an accepted one restarts the slot but keeps the tokens |
| `OpenFlow10Meaning.MeaningKept` | src/xdpd/openflow/openflow10/of10_translation_utils.cc:200-277 | The translation sends the same packets, changed the same way, to the same ports in the same order; through the same queues if and only if no OUTPUT comes while the queue of an ENQUEUE is still set |
| `OpenFlow10Meaning.MeaningKeptBack` | src/xdpd/openflow/openflow10/of10_translation_utils.cc:455-568 | The way back keeps the meaning of every list that says nothing OpenFlow 1.0 cannot, queues under the same condition |
| `OpenFlow10Meaning.PortMeaningKept` | src/xdpd/openflow/openflow10/of10_translation_utils.cc:712-780 | A translated port stands for the same, flood for flood, all for all and so on; the way back keeps what a number stands for if and only if it is a special port or fits 16 bits without being special there |
| `OpenFlow10Meaning.QueueStays` | src/xdpd/openflow/openflow10/of10_translation_utils.cc:262-268 | A concrete list whose OUTPUT goes through the queue of the ENQUEUE before it |
| `OpenFlow10Meaning.EnqueuesLast` | src/xdpd/openflow/openflow10/of10_translation_utils.cc:200-277 | A list without an OUTPUT behind an ENQUEUE keeps its meaning, queues included |
| `OpenFlow10Actions.ActionsRoundTrip` | src/xdpd/openflow/openflow10/of10_translation_utils.cc:455-568 | For every list the way back never runs past the end and restores the actions in order, up to the two low bits of a type of service |
| `OpenFlow10Actions.ExactRoundTrip` | src/xdpd/openflow/openflow10/of10_translation_utils.cc:455-568 | The list is restored exactly if and only if no type of service uses those bits |
| `OpenFlow10Actions.TranslatedQueuesFollowed` | src/xdpd/openflow/openflow10/of10_translation_utils.cc:262-268 | In a translated list every SET_QUEUE is directly followed by an OUTPUT |
| `OpenFlow10Actions.PipelineRoundTrip` | src/xdpd/openflow/openflow10/of10_translation_utils.cc:455-568 | The other direction is the identity on exactly the lists a translation can produce |
| `OpenFlow10Actions.TranslatedIsImage` | src/xdpd/openflow/openflow10/of10_translation_utils.cc:200-277 | Every translated list has that shape |
| `OpenFlow10Actions.PortsRoundTrip` | src/xdpd/openflow/openflow10/of10_translation_utils.cc:712-780 | Port renumbering is undone, and reaches exactly the ports that are undone the other way |
| `OpenFlow10Actions.MapFlowEntryActions` | src/xdpd/openflow/openflow10/of10_translation_utils.cc:200-277 | The loop appends the translation of the whole list to the group |
| `OpenFlow10Actions.MapFlowEntryAction` | src/xdpd/openflow/openflow10/of10_translation_utils.cc:218-276 | One case appends one action, or two for an ENQUEUE |
| `OpenFlow10Actions.MapReverseActions` | src/xdpd/openflow/openflow10/of10_translation_utils.cc:471-484 | The loop with its skip and early exit gives the folded list, and finds nothing behind a SET_QUEUE, which the source asserts against, exactly for one at the end of the list |
| `OpenFlow10Actions.MapReverseFlowEntryActions` | src/xdpd/openflow/openflow10/of10_translation_utils.cc:455-488 | Only the first APPLY_ACTIONS with a list is translated |
| `OpenFlow13PortMod.ReportedConfig` | src/xdpd/openflow/openflow13/of13_endpoint.cc:1354-1450 | After any sequence of messages the configuration reported for a port in use is the fold of (old and not mask) or (config and mask) over the messages for it; all other slots are unchanged |
| `OpenFlow13PortMod.ChangedConfig` | src/xdpd/openflow/openflow13/of13_endpoint.cc:1411-1450 | The driver calls for one message change the reported configuration by that formula |
| `OpenFlow13PortMod.ConfigBits` | src/xdpd/openflow/openflow13/of13_endpoint.cc:952-960 | What the bits 0x01, 0x04, 0x20 and 0x40 of a reported configuration say, and that there are no others |
| `OpenFlow13PortMod.Advertised` | src/xdpd/openflow/openflow13/of13_endpoint.cc:1433-1436 | After any sequence of messages a port in use advertises what the last message for it asked for that asked for anything |
| `OpenFlow13PortMod.RefusedChangesNothing` | src/xdpd/openflow/openflow13/of13_endpoint.cc:1370-1379 | A message that throws changes nothing |
| `OpenFlow13PortMod.Endpoint.PortSetConfig` | src/xdpd/openflow/openflow13/of13_endpoint.cc:1411-1450 | Succeeds for a port that is not in use exactly if the message asks for nothing; changes that port only |
| `OpenFlow13PortMod.Endpoint.HandlePortMod` | src/xdpd/openflow/openflow13/of13_endpoint.cc:1354-1407 | Which messages are refused and how, and the new state of all ports |
| `OpenFlow13PortMod.Endpoint.SetAll` | src/xdpd/openflow/openflow13/of13_endpoint.cc:1387-1396 | ALL and ANY change every port in use and no other slot |
| `OpenFlow13PortMod.Endpoint.DescribedConfig` | src/xdpd/openflow/openflow13/of13_endpoint.cc:952-960 | The configuration put together for a description |
| `OpenFlow13PortMod.Endpoint.NotifiedConfig` | src/xdpd/openflow/openflow13/of13_endpoint.cc:1081-1087 | The one for a notification, put together in another order, is the same |

## Left out

What is assumed of code outside the repository:

- ROFL's memory class: packing n bytes copies the first n bytes it holds, or all of them if it holds fewer, and leaves the rest of the buffer as it was. This matters for elements shorter than their struct, and for a new MULTIPART, which holds a header but is asked for its whole length.
- The driver: every setter changes the named flag of a port that is attached and fails for any other; its calls back come from the calling thread or from its own threads; it makes links between unused names and deletes each end once; an end of a virtual link that was detached can go on existing.
- The pipeline constants and macros of ROFL: the OF1X ports have the numbers of section A.2.1 of the OpenFlow 1.3.0 specification; a type of service is shifted by two bits to a DSCP and back; pushing an action to a group appends it.
- The pipeline: a set-field action does to a packet what the OpenFlow 1.0 action of that name does, a queue stays set until another is, and queue 0 is the default.
- libconfig: a group has each name once; a path finds what its names find one after the other; lists and arrays as settings and other path separators are not modelled.

What the model simplifies:

- LockProtocol: one access to std::map is one atomic step, also where a creation inserts without the lock of a reader, and an iteration visits the dpids one by one; the unlocked readers list_sw_names and destroy_all_switches, use of the pointer create_switch returns, exceptions in the constructor of a switch, and blacklist(), which throws with the mutex held, are not among the concurrent operations.
- LockEffects.Delivery: not stated of a thread that is interrupted between its look at the mark and the lock; what comes after the lock is in LockEffects.DeliveryIsCertain.
- LockAlone.LoneStory: of an operation that is started when all others have ended; for the notifications among others, LockEffects.DeliveryIsCertain says what is certain.
- LockRefinement.StepRefines: compares dpids and names; the version of a switch is only in SwitchManager.
- LockRefinement.RefinesManager: that each started operation is used once is not stated.
- LockSafety: fairness of the locks and of the scheduler is not modelled; no deadlock and bounded progress are shown, not that a given thread is never overtaken.
- SwitchManager: the driver's answers are parameters; flow and group snapshots are not modelled.
- VlinkCache: the cache of one thread; its reader/writer lock is part of LockProtocol.
- VlinkCache.StaleEntryFails: needs a driver that keeps an end when it is detached, or that detaches a port without the port mutex. The two drivers of the repository that make virtual links (`src/xdpd/drivers/gnu_linux/src/hal-imp/driver.cc`, lines 453-501, and `hal_driver_detach_port_from_switch` of `src/xdpd/drivers/gnu_linux_dpdk/src/hal-imp/driver.cc`) delete both ends inside the detachment.
- ConfigTree: scopes are named by their path, not by pointer; subscopes are registered top down, while the constructors of the source register those below first; hooks only leave an entry in the log and do not throw or register scopes.
- ConfigTree.ScopeTree.ExecuteConfig: starts with nothing processed, as config.cc does with a new root for each execution.
- XmpObjects: the fields inside the typed elements are opaque bytes; copy construction and assignment of the containers, and the print operators, are not modelled.
- XmpObjects.Bakery: the default build, in which assertions are compiled out (`config/debug.m4`, line 15). A debug build stops at the assertion for an inner MULTIPART, LSIXLSI or unknown type.
- XmpObjects.Ies.MapAndInsert: the new element is built before its place in the map is made. The order is not specified before C++17; the other way round, an exception leaves a null pointer under the type.
- XmpRoundTrip.KeptIsWellFormed: with the order of XmpObjects.Ies.MapAndInsert.
- XmpObjects.Ies.Length: a null pointer in a MULTIPART is undefined in the source, and so excluded here.
- XmpObjects.Ies.Pack: null pointers, and memory without room for a header, are undefined in the source, and so excluded here.
- XmpObjects.Message.constructor: only lengths for which the source does not throw.
- PacketInLimiter: concurrent use and the variant with locking are not modelled; the clock is a parameter.
- PacketInLimiter.Limiter.constructor: only rates for which the source does not throw.
- OpenFlow10Actions.MapReverseActions: in the default build, in which assertions are compiled out, a SET_QUEUE at the end makes the loop go through a null pointer.
- OpenFlow10Actions: PUSH_VLAN, EXPERIMENTER and other pipeline actions give nothing on the way back; the source tries to add a push-vlan action that OpenFlow 1.0 does not have. Flow and packet matches are not modelled.
- OpenFlow13PortMod: a missing snapshot of the switch, hardware addresses, names, speeds and states of ports are not modelled.

Parts of the repository without a model: OpenFlow 1.2 and the other handlers of OpenFlow 1.3, match
and bitmap translation, statistics, the REST, QMF, netlink and node-orchestrator plugins, logging,
command line, and the drivers.
