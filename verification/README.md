# Verification of the bridge client's core

A Dafny model of the parts of the Direct3D 9 bridge whose correctness rests on reasoning across many calls, with
the properties those parts are there to provide proved for all inputs and all runs.

| files | what they model |
|---|---|
| `object_graph.dfy`, `graph_counting.dfy`, `graph_drops.dfy`, `object_ops.dfy` | the client's reference-counted objects as one graph: two counts per object, parents, `D3DAutoPtr` slots, containers that share one counter with their children, cascading destruction, revival |
| `device_lifecycle.dfy`, `device_teardown.dfy`, `device_world.dfy`, `device_release.dfy`, `device_death.dfy`, `device_slots.dfy`, `device_reset.dfy`, `client_ops.dfy`, `client_runs.dfy` | the device on top of that graph: implicit swapchain, render target and depth stencil, teardown on the last visible `Release`, `Reset`, and arbitrary runs of application calls |
| `client_calls.dfy`, `client_deaths.dfy`, `client_devices.dfy`, `client_counts.dfy`, `client_homes.dfy`, `client_examples.dfy` | what each call leaves behind, what every step does to containers and their members, what a device looks like after its creation and after Reset, the counts AddRef and Release report, which runs may call getters without care, and runs that show the exceptional cases |
| `client_objects.dfy` | the same operations in place, with the source's loops and recursion, proved to do what the graph functions say |
| `fused_refcount.dfy` | two 32-bit counts fused into one 64-bit word |
| `ring_arithmetic.dfy`, `circular_queue.dfy`, `queue_history.dfy` | the single-producer single-consumer ring: atomic steps of two threads with stale snapshots, the retry loops over an array, and the command histories |
| `device_state.dfy`, `setter_effects.dfy`, `setter_elimination.dfy`, `setter_reset.dfy`, `device_setters.dfy` | the client's shadow of the device state, state blocks, and the elimination of redundant setter messages |
| `bool_constants.dfy` | bool shader constants packed 32 to a word, and how many registers a call may touch |
| `heap_buffer.dfy`, `shadow_buffer.dfy`, `lockable_buffer.dfy` | lock and unlock of vertex and index buffers, in shared-heap mode and in shadow mode, and the server's unlock |
| `crc32_table.dfy`, `crc32.dfy` | the table-driven CRC-32 used as texture identity |
| `shader_scan.dfy` | the shader token scanner |
| `options.dfy` | the option type |

`dafny verify dfyconfig.toml` checks everything.

Each area has the same shape: functions give the step the code takes, an invariant says what the fields mean, and
the theorems are about every run. The imperative parts of the source are classes and methods over fields and
arrays whose postconditions tie the new state to those functions.

Conventions of the model:

- Every live object is a node under the id the client gave it; ids are handed out in increasing order. A member of
  a container has an id but no counter: `Target` is the object whose counter and deleter it refers to. The
  operations of a run take members like any other object and go to their target, as the code does; slots and the
  application's references are recorded on the counter they were counted on.
- References the application holds are a multiset of tokens, one per reference; `Revivable` is the chain of live
  parents that `AddRef` walks.
- The counts of the graph are unbounded; `fused_refcount.dfy` proves that the 64-bit word behaves like two
  unbounded counts exactly as long as both stay below 2^32.
- The runtime below the bridge is a map of state slots, a recording map, and buffers of bytes.
- Whether the shared heap finds room, what a discarding lock returns on the server, and which point of the other
  side's history an index load returns are parameters.

## Results worth knowing

- `Reset` preserves the reference count the application sees if and only if nothing holds an old implicit object;
  otherwise the count grows by the number of those that are held (`DeviceReset.ResetKeeps`,
  `ClientExamples.ResetGrows`).
- A device survives its own teardown if and only if some implicit object is held, whichever object's `Release`
  started it (`DeviceDeath.TeardownOrder`). The last `Release` on such a device deletes it and then reads its flag
  and its implicit count; no other `Release` reads a device that is gone (`DeviceDeath.ReleaseReadsDevice`).
- An object bound in a slot may have interface count 0 and then does not keep its parent alive, but a getter that
  shows it calls `AddRef`, which follows the parent. Along every run whose bindings stay within one device the
  parent is alive (`ClientHomes.GettersAreSafe`); a binding across devices leads to one that is gone as soon as the
  application gives up its only references on the object and its device (`ClientExamples.AbroadFails`,
  `ClientExamples.AbroadRun`).
- `D3DAutoPtr::reset` to the object a slot already holds destroys it if and only if the slot was its last
  reference; copy assignment is guarded against that, move assignment references the new object first
  (`ObjectOps.ResetToSame`).
- In shared-heap mode an allocation is lost by exactly two events: a discarding lock that finds the heap full, and
  the unlock of a lock with both DISCARD and READONLY. The destructor additionally leaves behind what queued locks
  still had to free (`HeapBuffer.LiveAllocations`, `HeapBuffer.DestroyLeaves`); both events occur
  (`HeapBuffer.FullHeapLoses`, `HeapBuffer.ReadOnlyDiscardLoses`).
- `unlock` takes the oldest lock, where its comment says the most recent; the model follows the code.
- The version 1 size table is right for every instruction but def (a destination and four constants) and, in pixel
  shaders 1.4, texcrd and texld (a destination and a source), for which it is one token short
  (`ShaderScan.TableAgainstReference`). The scan is still exact whenever the last operand of each such instruction,
  read as an instruction, has size one and is no end token; the first last operand that is not so decides where the
  scan goes, and if it looks like an end token the scan stops there (`ShaderScan.FirstLooseOperand`). For the last
  instruction of a shader the condition is necessary as well (`ShaderScan.LastInstructionExactly`).
  `ShaderScan.DefCutsShort` and `ShaderScan.TexldOverruns` are shaders that are measured wrongly.
- `commonGetSetConstants` lets a call past the hardware registers exactly when the start register is in the upper
  half of the 32-bit range and start plus count wraps around (`BoolConstants.AdjustedCount`,
  `BoolConstants.WrappingCall`).
- Elimination is invisible if and only if client and server start from the same values
  (`SetterReset.InvisibleExactly`). `Reset` leaves transforms and lights in the client's shadow as they were and
  takes depth buffering to be off, so across a `Reset` elimination stays invisible if and only if the runtime does
  the same (`SetterReset.InvisibleAcrossReset`, `SetterReset.ResetIsSeen`).
- Four differing bytes always change the CRC; five need not (`Crc32.FiveBytesCollide`).

## Model

| member | source | states |
|---|---|---|
| GraphDrops.DropAllKeepsInv | src/client/base.h:189-203 | dropping any list of pointers, with every destruction this leads to, keeps all counts, links, members and the destruction log exact |
| GraphDrops.DropAllShrinks | src/client/base.h:189-203 | dropping pointers never destroys an object with a positive interface count, changes no survivor but in its object count, and only appends to the destruction log |
| GraphDrops.LastReference | src/client/base.h:196-202 | when the last reference goes, no token, no referencing child, no slot and no other pending pointer names the object |
| GraphDrops.EraseKeepsInv | src/client/base.h:342-345 | destroying an object turns exactly its own slots into pending pointers and takes its members along |
| GraphDrops.ContainerDiesWhole | src/client/d3d9_resource.h:158-166 | a container that dies in a cascade is logged together with all its members, nothing in between |
| ObjectOps.DecInterfaceIsDrop | src/client/base.h:189-203 | the early return of decRef on the interface count never skips a destruction that is due |
| ObjectOps.DecInterfaceKeepsInv | src/client/base.h:425-445 | giving up an interface reference keeps all counts exact and hands the parent's reference to the caller exactly when the interface count reaches zero |
| ObjectOps.AddRefCommutes | src/client/base.h:409-423 | referencing the object before its ancestors, as the code does, equals referencing the ancestors first |
| ObjectOps.AddRefKeepsInv | src/client/base.h:409-423 | AddRef of an object whose ancestors are alive, as far as it goes, adds one token and keeps every count exact, also when it revives a chain of objects with interface count 0 |
| ObjectOps.CreateKeepsInv | src/client/base.h:327-361 | construction yields one token on the new object and one parent reference |
| ObjectOps.CreateMemberKeepsInv | src/client/base.h:363-376 | a member's construction yields one token on the container whose counter it shares |
| ObjectOps.AttachChildKeepsInv | src/client/d3d9_resource.h:174-180 | setting an empty place of the child vector keeps members and containers naming each other |
| ObjectOps.ReleaseSlotKeepsInv | src/client/base.h:285-296 | reset(nullptr) gives back exactly the slot's pointer |
| ObjectOps.MoveAssignKeepsInv | src/client/base.h:279-283 | binding an object keeps the counts exact even if the slot already held the same object, and the slot then holds it |
| ObjectOps.CopyAssignKeepsInv | src/client/base.h:271-277 | copying a slot keeps the counts exact and the target then holds what the source slot holds |
| ObjectOps.ResetToSame | src/client/base.h:285-296 | resetting a slot to what it holds destroys the object if and only if the slot was its last reference |
| DeviceTeardown.DestroyRenderTargetStep | src/client/d3d9_device.cpp:3890-3895 | releasing the implicit render target spends one token, forgets the pointer, and cannot start a teardown |
| DeviceTeardown.DestroyDepthStencilStep | src/client/d3d9_device.cpp:3897-3904 | the same for the implicit depth stencil |
| DeviceTeardown.DestroySwapchainStep | src/client/d3d9_device.cpp:3906-3914 | one release per back buffer and one for the swapchain spend exactly the device's tokens on the shared counter |
| DeviceTeardown.DismantleStages | src/client/d3d9_device.cpp:74-103 | the state before the compensating releases: all implicit tokens are spent, every state slot is empty and the device is alive |
| DeviceTeardown.Dismantle | src/client/d3d9_device.cpp:74-108 | releaseInternalObjects spends exactly the device's own tokens, starts no teardown, and changes interface counts only of the implicit objects, the device and the module |
| DeviceWorld.Preserved | src/client/base.h:239-296 | any step that keeps object identities, counts and binding rules keeps the whole client's invariant, devices included |
| DeviceWorld.DismantleKeeps | src/client/d3d9_device.cpp:74-108 | dismantling one device keeps every other device intact and leaves the application's references as they were |
| DeviceRelease.ReleaseKeepsWInv | src/client/d3d9_device.cpp:142-160 | any Release keeps the client's invariant and tears down the device TornBy names, once, or none |
| DeviceRelease.TornBySame | src/client/base.h:425-445 | giving back one reference does not change which device the references of older objects lead to |
| DeviceRelease.TeardownsStayOk | src/client/d3d9_device.cpp:147-149 | the torn-down devices are exactly the flagged ones, each once |
| DeviceRelease.FullDeviceCounts | src/client/d3d9_device.cpp:3806-3886 | the implicit reference count is the number of implicit objects, all of them referencing children of the device |
| DeviceDeath.ImplicitSurvives | src/client/d3d9_device.cpp:3889-3915 | an implicit object outlives the teardown's release if and only if the application or a child of it holds it |
| DeviceDeath.Compensate | src/client/d3d9_device.cpp:105-107 | after k compensating releases the device still owns the remaining ones and no implicit object has changed |
| DeviceDeath.TeardownOrder | src/client/d3d9_device.cpp:74-160 | teardown, whichever object's Release starts it, runs once; implicit objects nobody holds are gone before the compensating releases, while the device lives; the device survives all of those but the last, and that one if and only if an implicit object is held |
| DeviceDeath.UpToTheDevice | src/client/base.h:436-441 | the last references on the way up to a device are given back before its teardown starts, and it starts with no reference of the application and no other child left |
| DeviceDeath.ReleaseReadsDevice | src/client/d3d9_device.cpp:142-160 | the base class's Release has deleted the device whose flag is read next if and only if it had survived its own teardown and this was the last reference |
| DeviceSlots.ReleaseSlots | src/client/d3d9_device.cpp:74-108 | a Release, with whatever it tears down, leaves the slots of all objects but devices as they were |
| ClientOps.AddRefKeepsWInv | src/client/base.h:409-423 | AddRef of an object whose ancestors are alive, as far as it goes, keeps the client's invariant |
| ClientOps.CreateKeepsWInv | src/client/base.h:353-361 | construction of a standalone object keeps the client's invariant and disturbs no other object |
| ClientOps.CreateMemberKeepsWInv | src/client/base.h:366-376 | construction of a member keeps the client's invariant |
| ClientOps.BindKeepsWInv | src/client/base.h:279-283 | binding an object in a state slot keeps the client's invariant |
| ClientOps.CopyKeepsWInv | src/client/base.h:271-277 | copying a slot, as state blocks do, keeps the client's invariant |
| ClientOps.UnbindKeepsWInv | src/client/base.h:285-296 | emptying a slot keeps the client's invariant |
| DeviceReset.CreateMembersKeeps | src/client/d3d9_swapchain.h:52-71 | the swapchain constructor's loop takes one reference on the shared counter per back buffer |
| DeviceReset.InitSwapchainKeeps | src/client/d3d9_device.cpp:3815-3830 | the new swapchain becomes an implicit object holding the device |
| DeviceReset.InitSurfaceKeeps | src/client/d3d9_device.cpp:3833-3886 | the new surface becomes an implicit object, bound in the device's state, holding the device |
| DeviceReset.InitImplicitKeeps | src/client/d3d9_device.cpp:3806-3812 | a bare device becomes a full one whose implicit objects add exactly the implicit count to its children |
| DeviceReset.BareDevice | src/client/d3d9_device.cpp:422-424 | dropping the implicit objects outside a teardown leaves a live, bare device and tears down nothing |
| DeviceReset.ResetKeeps | src/client/d3d9_device.cpp:415-453 | Reset with any parameters keeps the invariant, tears down nothing, and changes the visible count by the number of held old implicit objects: it is preserved if and only if there are none |
| ClientRuns.NewDeviceKeeps | src/client/d3d9_device.cpp:3806-3886 | a new device has its implicit objects and shows the application a count of one |
| ClientRuns.StepKeeps | src/client/base.h:239-445 | every operation the application may call, on members as on any object, keeps the invariant |
| ClientRuns.RunKeeps | src/client/base.h:239-445 | so does every sequence of such calls |
| ClientRuns.CountsAfterEveryRun | src/client/base.h:409-445 | after every run an interface count is the application's references, the device's own, and the children with a nonzero interface count; the object count adds one per slot; the parent is referenced exactly while the interface count is nonzero |
| ClientRuns.DestroyedExactlyOnce | src/client/base.h:342-345 | after every run each id ever handed out is alive or was destroyed exactly once, and no device was torn down twice |
| ClientCalls.SlotCalls | src/client/base.h:271-296 | binding, copying and clearing store the right object in that slot and in no other, change nothing else but object counts, and let die exactly what is neither referenced nor bound any more |
| ClientCalls.ObjectCalls | src/client/base.h:353-361 | a new object has one reference, which the application holds, the parent asked for or that member's container, and its slots and places for members all empty; the others change in their counts only |
| ClientCalls.MemberCall | src/client/base.h:366-376 | a new member takes its place in the container, and the application holds one reference more on the container |
| ClientCalls.AddRefCall | src/client/base.h:409-423 | AddRef raises both counts of the object's counter by one; an object without references references its parent again, otherwise no other object is touched; nothing dies |
| ClientDeaths.MembersDieTogether | src/client/d3d9_resource.h:158-180 | in every step, whichever reference or D3DAutoPtr on the container or a member it drops last, each member lives on exactly if its container does, and a container that dies is logged in one stretch with all its members |
| ClientDevices.CreateBuilds | src/client/d3d9_device.cpp:3806-3886 | a new device has as many back buffers as asked for, one if none were, all of them members of its swapchain; render target and depth stencil are bound in slots of their own |
| ClientDevices.ResetBuilds | src/client/d3d9_device.cpp:415-453 | and so has a device after Reset, by the parameters given there |
| ClientHomes.AtHandIsRevivable | src/client/base.h:409-423 | with bindings within one device, whatever a slot of a referenced object shows has a live parent if it has one |
| ClientHomes.StepKeepsHomes | src/client/base.h:285-296 | calls an application can judge by itself are allowed and keep bindings within one device |
| ClientHomes.GettersAreSafe | src/client/base.h:409-423 | after every such run, whatever the application references or a slot of a referenced object shows can be referenced again |
| ClientExamples.AbroadFails | src/client/base.h:409-423 | an object bound across devices is shown by a slot and has lost its parent, once the application has given up its only references on it and its device |
| ClientExamples.AbroadRun | src/client/base.h:409-423 | a run of allowed calls that gets there |
| ClientExamples.ResetGrows | src/client/d3d9_device.cpp:415-453 | a run in which Reset takes the visible count from 1 to 2 |
| ClientExamples.SurvivesTeardown | src/client/d3d9_device.cpp:142-160 | a run in which a device survives its own teardown |
| ClientObjects.DropAllConcat | src/client/base.h:189-203 | cascades compose: dropping two lists one after the other is dropping their concatenation |
| ClientObjects.Objects.DestroyMembers | src/client/d3d9_resource.h:158-166 | the loop over the child vector destroys exactly the listed members |
| ClientObjects.Objects.Destroy | src/client/base.h:342-345 | destroy does what Erase specifies |
| ClientObjects.Objects.DecRefObject | src/client/base.h:189-203 | decRef on the object count, with its recursive destruction, does what DropAll specifies |
| ClientObjects.Objects.DecRefInterface | src/client/base.h:189-203 | decRef on both counts does what DecInterface specifies and returns the interface count |
| ClientObjects.Objects.IncRefInterface | src/client/base.h:184-187 | incRef on both counts, returning the interface count |
| ClientObjects.Objects.ResetSlot | src/client/base.h:285-296 | reset does what Reset specifies |
| ClientObjects.Objects.BindSlot | src/client/base.h:279-283 | move assignment does what MoveAssign specifies |
| ClientObjects.Objects.CopySlot | src/client/base.h:271-277 | copy assignment does what CopyAssign specifies |
| ClientObjects.Objects.BaseAddRef | src/client/base.h:415-423 | AddRef of a standalone object does what the function of that name specifies and returns the new interface count |
| ClientObjects.Objects.AddRefShown | src/client/d3d9_device.cpp:134-139 | a device's AddRef returns the count less its implicit references |
| ClientObjects.Objects.BaseReleaseRef | src/client/base.h:431-445 | D3DBase::Release of a standalone object does what BaseRelease specifies and returns the remaining interface count |
| ClientObjects.Objects.ReleaseRef | src/client/d3d9_device.cpp:142-160 | Release does what the function of that name specifies and returns the visible count, never below zero |
| ClientObjects.Objects.AddRefAny | src/client/base.h:409-413 | AddRef of a member goes to its container, AddRef of any other object to itself |
| ClientObjects.Objects.ReleaseAny | src/client/base.h:425-429 | and so does Release |
| ClientCounts.ReleaseShows | src/client/d3d9_device.cpp:142-160 | what Release returns, read off the state it leaves: 0 if it destroyed the object or started its teardown, else the interface count, less the implicit references on a device and never below zero |
| ClientCounts.ReleaseUnreferenced | src/client/base.h:431-445 | Release of an object with interface count 0 does nothing and returns 0 |
| ClientCounts.AddRefThenRelease | src/client/d3d9_device.cpp:134-160 | AddRef shows one more, and the Release after it restores the state and shows one less again |
| ClientObjects.Objects.BindAny | src/client/base.h:279-283 | a D3DAutoPtr to a member counts on its container |
| ClientObjects.Objects.ReleaseInternal | src/client/d3d9_device.cpp:74-108 | releaseInternalObjects with its loops does what the function of that name specifies |
| ClientObjects.Objects.DestroyImplicitSwapchain | src/client/d3d9_device.cpp:3906-3914 | the loop of back buffer releases does what DestroySwapchain specifies |
| ClientObjects.Objects.Construct | src/client/base.h:353-361 | the standalone constructor does what Create specifies |
| ClientObjects.Objects.ConstructMember | src/client/base.h:366-376 | the member constructor and setChild do what CreateMember specifies |
| ClientObjects.Objects.ConstructImplicit | src/client/d3d9_swapchain.h:39-88 | the swapchain constructor's loop does what NewImplicit specifies |
| ClientObjects.Objects.ResetPresentation | src/client/d3d9_device.cpp:415-453 | Reset does what ResetDevice specifies |
| FusedRefCount.ShiftsAreArithmetic | src/client/base.h:216-230 | the shifts and the bitwise or on 64-bit registers are the arithmetic of the model |
| FusedRefCount.AdjustRefines | src/client/base.h:185-203 | a legal adjustment, the first one from zero included, moves no carry or borrow between the halves, and the deleter is called exactly when a decrement leaves no object reference |
| FusedRefCount.LegalExactly | src/client/base.h:153-162 | an adjustment is legal exactly if it leaves no more interface than object references, neither below zero, both below 2^32 |
| FusedRefCount.CarryExactly | src/client/base.h:185-187 | an object increment leaves the interface half alone if and only if the object count stays below 2^32 |
| FusedRefCount.RunRefines | src/client/base.h:153-236 | in every order of atomic adjustments the word is the packed counts, and the deleter fires once, at the last step, if and only if that is a decrement and the object count ends at zero |
| FusedRefCount.LifeRefines | src/client/base.h:327-361 | the same from the zero word of a new object, whose first reference is the constructor's: the deleter fires exactly once if the count ends at zero and never otherwise |
| FusedRefCount.WholeLife | src/client/base.h:153-203 | lives in which references of both kinds come and go until none is left |
| FusedRefCount.D3DRefCounted.IncRef | src/client/base.h:185-187 | adds to both counts or one and returns the adjusted one |
| FusedRefCount.D3DRefCounted.DecRef | src/client/base.h:190-203 | subtracts, returns the adjusted count, and deletes exactly when the object count reaches zero |
| FusedRefCount.D3DRefCounted.AdjustRefs | src/client/base.h:205-211 | a signed adjustment moves both counts by that amount |
| CircularQueue.RoomExactly | src/util/util_atomiccircularqueue.h:92-95 | the producer's test passes exactly when its possibly stale snapshot leaves a slot to spare |
| CircularQueue.ItemExactly | src/util/util_atomiccircularqueue.h:150-153 | the consumer's test passes exactly when its snapshot shows something not yet pulled |
| CircularQueue.StepKeepsInv | src/util/util_atomiccircularqueue.h:88-172 | every atomic step of push, pull and peek keeps the ring invariant |
| CircularQueue.HeldDenotes | src/util/util_atomiccircularqueue.h:154-158 | the reference returned by pull denotes the item pulled last, although its index is already free |
| CircularQueue.PeekedDenotes | src/util/util_atomiccircularqueue.h:123-127 | the reference returned by peek denotes the next item to be pulled |
| CircularQueue.PeekReturns | src/util/util_atomiccircularqueue.h:119-135 | a peek returns exactly when its snapshot shows an item, and then the item the next pull will return |
| CircularQueue.PulledIsPrefixOfPushed | src/util/util_atomiccircularqueue.h:88-172 | in every interleaving the values read are a prefix of the values pushed, and at most one less than the queue size is pending |
| CircularQueue.ReferencesStayValid | src/util/util_atomiccircularqueue.h:119-158 | a returned reference's slot is unchanged until the consumer's next successful pull publishes its index |
| RingArithmetic.IncIsNext | src/util/util_atomiccircularqueue.h:208-210 | queueIdxInc steps to the slot of the next sequence number |
| RingArithmetic.DecIsPrevious | src/util/util_atomiccircularqueue.h:212-214 | queueIdxDec steps to the slot of the previous one |
| QueueHistory.WriterHistory | src/util/util_atomiccircularqueue.h:196-200 | with no push under way the slots behind the writer's index are the pushes, newest first, up to min(limit, size, pushes) or the first invalid command |
| QueueHistory.ReaderHistoryEarly | src/util/util_atomiccircularqueue.h:202-206 | before the ring has gone around, the reader's view is exactly the pulls, newest first |
| QueueHistory.ReaderHistoryLate | src/util/util_atomiccircularqueue.h:202-206 | afterwards it is the pulls whose slots are not reused, followed by the items still pending |
| QueueHistory.AtomicCircularQueue.Push | src/util/util_atomiccircularqueue.h:88-110 | the retry loop pushes once, on the first snapshot that leaves room, and fails if none does |
| QueueHistory.AtomicCircularQueue.Pull | src/util/util_atomiccircularqueue.h:148-172 | the retry loop returns the next pushed item, on the first snapshot that shows one |
| QueueHistory.AtomicCircularQueue.Peek | src/util/util_atomiccircularqueue.h:119-145 | the retry loop returns the next item on the first snapshot that shows one, and leaves indices and history alone |
| QueueHistory.AtomicCircularQueue.BuildQueueData | src/util/util_atomiccircularqueue.h:182-194 | the loop lists the commands from an index backwards up to the limit or the first invalid one |
| QueueHistory.AtomicCircularQueue.GetWriterQueueData | src/util/util_atomiccircularqueue.h:196-200 | the most recent pushes, newest first |
| QueueHistory.AtomicCircularQueue.GetReaderQueueData | src/util/util_atomiccircularqueue.h:202-206 | at least the last min(limit, pulls, size - pending) pulls, newest first |
| DeviceState.Covered | src/client/d3d9_stateblock.cpp:92-112 | the slots a set of dirty flags moves: a slot is moved exactly when the flag over it is raised |
| DeviceState.TransferLookup | src/client/d3d9_stateblock.cpp:72-191 | after a transfer each flagged slot has the source's value and every other slot its own |
| DeviceState.WritesWholeFlags | src/client/d3d9_device.cpp:1975-1982 | every setter writes all slots under a flag or none of them |
| DeviceState.StaysInStep | src/client/d3d9_device.cpp:1193-1207 | one setter call, recorded or direct, keeps block and device in step, reading through the block where it is flagged |
| DeviceState.RecordThenApply | src/client/d3d9_stateblock.cpp:209-211 | recording any sequence of setters, MultiplyTransform included, and applying the block equals making the calls directly, with and without elimination |
| DeviceState.RecordingLeavesDevice | src/client/d3d9_device.cpp:1193-1207 | recording changes nothing of the device but the vertex declaration |
| SetterEffects.ProductIs | src/client/d3d9_device.cpp:1250-1257 | each cell is the sum of current row times given column, in this order |
| SetterEffects.DirectLeaves | src/client/d3d9_device.cpp:1193-1265 | what every setter leaves in every slot, written out call by call, with and without elimination |
| SetterEffects.RecordLeaves | src/client/d3d9_device.cpp:1193-1265 | the same in a block seen over the device, which itself stays as it is but for a vertex declaration |
| SetterElimination.IndexMapsInjective | src/client/d3d9_device.cpp:1143-1154 | different valid keys have different slots |
| SetterElimination.LastSetWins | src/client/d3d9_device.cpp:2016-2038 | a setter changes what its own key reads and no other |
| SetterElimination.IndicesInBounds | src/client/d3d9_device_base.h:247-300 | every slot index lies within the arrays of the state |
| SetterElimination.SetterKeepsMatch | src/client/d3d9_device.cpp:1188-1216 | whether or not its message is dropped, after a setter the server mirrors the client |
| SetterElimination.SetterCall | src/client/d3d9_device.cpp:1528-1547 | an eliminating setter is rejected, dropped with nothing changed, or stored where it belongs and sent, under the conditions of the source |
| SetterElimination.StateBlockCalls | src/client/d3d9_device.cpp:1788-1832 | begin, end, capture and apply: when each is refused and what each leaves and sends |
| SetterElimination.CaptureKeepsBlock | src/client/d3d9_stateblock.cpp:193-207 | Capture updates client block and server block alike |
| SetterElimination.ApplyKeepsLive | src/client/d3d9_stateblock.cpp:209-216 | Apply updates client state and server state alike |
| SetterElimination.RunKeepsMatch | src/client/d3d9_device.cpp:1788-1832 | the server mirrors the client over every sequence of calls, with and without elimination |
| SetterElimination.EliminationIsInvisible | src/client/d3d9_device.cpp:1188-1208 | the server fed the reduced stream ends with the same live values, recording and blocks as one fed every message |
| SetterReset.InvisibleExactly | src/client/d3d9_device.cpp:1188-1208 | outside recordings elimination is invisible to every sequence of calls if and only if client and server hold the same values |
| SetterReset.InvisibleAcrossReset | src/client/d3d9_device.cpp:3655-3803 | across Reset it stays so if and only if the runtime's new values are those ResetState assigns and, for the rest, those set before |
| SetterReset.ResetIsSeen | src/client/d3d9_device.cpp:3655-3803 | a transform the runtime resets to another value, or depth buffering turned on, makes the difference |
| DeviceSetters.Device.Set | src/client/d3d9_device.cpp:1528-1547 | a setter is rejected, dropped, or stored and sent exactly as the specification says |
| DeviceSetters.Device.BeginStateBlock | src/client/d3d9_device.cpp:1788-1805 | starts a recording, or is rejected while one is under way |
| DeviceSetters.Device.EndStateBlock | src/client/d3d9_device.cpp:1808-1832 | ends the recording and yields its block |
| DeviceSetters.Device.Capture | src/client/d3d9_stateblock.cpp:197-207 | refreshes the flagged slots of a block |
| DeviceSetters.Device.Apply | src/client/d3d9_stateblock.cpp:209-216 | writes a block's flagged slots to the device |
| DeviceSetters.StateTransfer | src/client/d3d9_stateblock.cpp:72-191 | the loop over flagged slots does what Transfer specifies |
| BoolConstants.OrSetsBit | src/client/d3d9_device.cpp:3566-3568 | or-ing a mask in raises its bit and no other |
| BoolConstants.AndNotClearsBit | src/client/d3d9_device.cpp:3566-3566 | and-ing the complement clears its bit and no other |
| BoolConstants.HasIsBit | src/client/d3d9_device.cpp:3618-3619 | testing the mask tests the bit |
| BoolConstants.SetBools | src/client/d3d9_device.cpp:3559-3577 | set replaces exactly the addressed booleans and raises exactly their dirty flags when recording |
| BoolConstants.GetBools | src/client/d3d9_device.cpp:3612-3621 | get returns TRUE or FALSE for exactly the addressed booleans |
| BoolConstants.TransferBools | src/client/d3d9_stateblock.cpp:163-171 | a transfer copies exactly the flagged booleans |
| BoolConstants.AdjustedCount | src/client/d3d9_device.cpp:3633-3652 | on success the count never exceeds the request; it stays within the hardware registers if and only if start plus count does not wrap around from the upper half |
| BoolConstants.RegisterCounts | src/client/d3d9_device_base.h:101-134 | how many registers each kind has, in hardware and in software |
| BoolConstants.RefusedExactly | src/client/d3d9_device.cpp:3633-3652 | without wrap-around exactly what is refused: a range past the software registers, or no data where a hardware register would be touched |
| BoolConstants.WrappingCall | src/client/d3d9_device.cpp:3633-3652 | a call past the hardware registers that succeeds |
| BoolConstants.BoolRegistersFit | src/client/d3d9_device_base.h:79-88 | without wrap-around the registers addressed lie within the packed arrays |
| HeapBuffer.LockKeepsInv | src/client/lockable_buffer.h:114-144 | a lock in shared-heap mode keeps the accounting, whether it discards, allocates or fails |
| HeapBuffer.UnlockKeepsInv | src/client/lockable_buffer.h:173-228 | an unlock keeps the accounting and frees only what no outstanding lock refers to |
| HeapBuffer.UnlockReports | src/client/lockable_buffer.h:180-226 | the range reported: everything, everything from the offset on, or exactly what was asked for |
| HeapBuffer.FreedAtMostOnce | src/client/lockable_buffer.h:224-226 | no allocation is freed twice |
| HeapBuffer.LiveAllocations | src/client/lockable_buffer.h:114-228 | after every run the live allocations are the current one, those queued in locks, and those lost; nothing is lost if and only if neither losing event happened; every outstanding lock's allocation is live |
| HeapBuffer.FullHeapLoses | src/client/lockable_buffer.h:114-144 | a run that loses an allocation to a discard with the heap full |
| HeapBuffer.ReadOnlyDiscardLoses | src/client/lockable_buffer.h:173-228 | a run that loses one to a lock with DISCARD and READONLY |
| HeapBuffer.DestroyLeaves | src/client/lockable_buffer.h:100-104 | destruction leaves nothing live if and only if nothing was lost and no queued lock still had to free anything |
| ShadowBuffer.DrainFirst | src/server/main.cpp:2464-2494 | the server may process the stream message by message at any time |
| ShadowBuffer.UnlockSends | src/client/lockable_buffer.h:180-222 | the bytes sent: everything, everything from the offset on, or exactly what was asked for |
| ShadowBuffer.UnlockKeepsInv | src/client/lockable_buffer.h:173-228 | an unlock sends what makes its range right again |
| ShadowBuffer.RunKeepsInv | src/client/lockable_buffer.h:145-228 | so does every interleaving of locks, writes, unlocks and server steps |
| ShadowBuffer.ServerFollowsShadow | src/client/lockable_buffer.h:145-228 | once the stream is drained the server's buffer equals the shadow outside ranges open for writing, and everywhere when no lock is outstanding |
| LockableBuffer.LockableBuffer.Lock | src/client/lockable_buffer.h:114-171 | lock does what the two modes' functions specify, with its three results |
| LockableBuffer.LockableBuffer.Unlock | src/client/lockable_buffer.h:173-229 | unlock does what the two modes' functions specify |
| LockableBuffer.LockableBuffer.Destroy | src/client/lockable_buffer.h:100-104 | the destructor frees the current allocation |
| LockableBuffer.ServerUnlock | src/server/main.cpp:2464-2494 | the server's lock, copy and unlock write exactly the sent range |
| CrcTable.TableEntry | src/client/di_hook.cpp:729-762 | each of the 256 table entries is its index shifted eight bits through the register |
| Crc32.ShiftNLinear | src/client/di_hook.cpp:729-729 | shifting the register any number of bits is linear over exclusive or |
| Crc32.TableStepIsShift8 | src/client/di_hook.cpp:765-766 | one step of the loop is eight register shifts |
| Crc32.TableIsBitSerial | src/client/di_hook.cpp:728-768 | the table loop equals the bit-serial reflected CRC, for every register value and input |
| Crc32.ComputeCrc32 | src/client/di_hook.cpp:728-768 | the loop over data and size returns the CRC-32 of the bytes |
| Crc32.PresetAndComplement | src/client/di_hook.cpp:763-768 | the register starts as ones and is exclusive-ored with ones at the end |
| Crc32.CheckValue | src/client/di_hook.cpp:763-768 | the CRC-32 of the digits 1 to 9 is CBF43926 |
| Crc32.RegisterInjective | src/client/di_hook.cpp:765-766 | the register update is injective |
| Crc32.WindowAtOnce | src/client/di_hook.cpp:765-766 | up to four bytes enter the register as one word |
| Crc32.WindowChangesCrc | src/client/di_hook.cpp:764-767 | strings that differ only in a window of up to four bytes have different CRCs |
| Crc32.DifferingWithinFourBytes | src/client/di_hook.cpp:764-767 | the same, stated on positions |
| Crc32.FiveBytesCollide | src/client/di_hook.cpp:764-767 | five bytes are too many: two windows that never change the CRC |
| ShaderScan.MasksAreArithmetic | src/client/d3d9_commonshader.h:32-41 | the masks and shifts on 32-bit registers are the arithmetic of the model |
| ShaderScan.FieldsOfToken | src/client/d3d9_commonshader.h:32-39 | opcode, comment size and instruction length of a token put together from them |
| ShaderScan.FieldsOfVersion | src/client/d3d9_commonshader.h:137-139 | major and minor version likewise |
| ShaderScan.ScanPasses | src/client/d3d9_commonshader.h:128-135 | the scan passes over items without looking inside them |
| ShaderScan.ScanFindsEnd | src/client/d3d9_commonshader.h:128-135 | the scan stops at the end token whatever operands and comments contain and whatever follows |
| ShaderScan.ScanOnlyAccepts | src/client/d3d9_commonshader.h:128-135 | what a finished scan passed over is a shader of the scanner's grammar |
| ShaderScan.ReferenceFromVersion2 | src/client/d3d9_commonshader.h:34-39 | from version 2 on the scanner's grammar is the reference grammar |
| ShaderScan.TableAgainstReference | src/client/d3d9_commonshader.h:40-123 | the size table is the reference's destinations, sources and constants plus one for every version 1 instruction except exactly the undersized ones, for which it is one short |
| ShaderScan.ScanOfWellFormed | src/client/d3d9_commonshader.h:30-142 | every well-formed shader is measured exactly: always from version 2 on, before that if the last operand of every undersized instruction is inert |
| ShaderScan.FirstLooseOperand | src/client/d3d9_commonshader.h:128-135 | the first last operand that is not inert is scanned as an instruction, at any position: if it looks like an end token the scan stops there, short of the end |
| ShaderScan.LastInstructionExactly | src/client/d3d9_commonshader.h:128-135 | for an undersized instruction right before the end token that condition is exact |
| ShaderScan.DefCutsShort | src/client/d3d9_commonshader.h:106-106 | a well-formed version 1.1 shader that the scan cuts short |
| ShaderScan.TexldOverruns | src/client/d3d9_commonshader.h:90-92 | a well-formed pixel shader 1.4 whose end token the scan steps over |
| ShaderScan.GetShaderByteSize | src/client/d3d9_commonshader.h:128-135 | the loop returns the byte size up to and including the end token the scan finds |

## Left out

- Hooks, input, camera, window procedure, memory patching, the launcher and build scripts: foreign calls and glue. SetTransform's camera redirect is treated as absent.
- The data-queue overwrite handshake and `BlockingCircularQueue`: half of each is not in the files modelled.
- `CreateStateBlock`: it flags sampler slots by raw type while values are stored at type minus one, so it is no part of the elimination property; `MultiplyTransform` is modelled on the client only, because it sends no message.
- `SetFVF`: the value is stored outside the recorded state.
- `ResetEx`: it keeps the device's state slots, where an application may have bound old implicit objects a second time.
- Timeouts, tick counts, logging, semaphores, response waits and device locks. A retry loop tries once per snapshot it is given.
- C++ memory order beyond stale index snapshots: slot accesses are taken as ordered by the fences around them.
- LockableBuffer.LockableBuffer.Lock: does not model optimized dynamic locks, which reserve a blob of the data channel and write into it directly; the contents of shared-heap buffers are not modelled either.
- LockableBuffer.LockableBuffer.Unlock: does not model the check value that follows such a blob.
- The heap's chunk allocator, the texture manager, surface and volume copies, and the remote API serializers.
- Aliasing of C++ objects: objects are nodes of a map under their ids, as in the client's shadow map, rather than heap objects with pointers, and struct State is one map from slots to values rather than a struct of arrays. StateTransfer's loops are one loop over the flagged slots.
- ScanOfWellFormed: below version 2 the condition is necessary for the last instruction only: elsewhere a scan that has gone astray may fall into step again.
- AddRefKeepsInv: says nothing of AddRef through a parent that has been destroyed, which reads freed memory; GettersAreSafe says which runs never do that.
- ReleaseRef: asks whether the device is still there where the source reads the flag of a deleted object; ReleaseReadsDevice says exactly when that happens.
- Floating-point rounding: matrices are products over the reals, and memcmp on them is equality.
- Render state, stream, clip plane and light indices beyond the arrays' bounds, and invalid transform types in MultiplyTransform: the source does not check them; here such a MultiplyTransform writes nothing.
