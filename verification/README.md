# Tiara core logic, modelled in Dafny

Tiara is a C++ window library built on GLFW, Vulkan and Skia. This project
models its sequential core and proves properties about it. Every GPU, Skia and
GLFW call becomes an input of the model: an acquire result and index, flush and
submit results, a present result, a framebuffer size, the devices a Vulkan
instance lists, or a surface's formats and present modes. What remains is
deterministic state-machine and list logic. The parts are:

- **The per-window frame-pacing state machine** (`detail::Window`).
  - `draw()` runs one frame and `stop()` ends drawing. The window has a single draw-handler slot.
  - `_recreate_swapchain()` chooses the image count, format, extent and present mode. It rebuilds the render targets and surfaces, grows the three semaphore pools and recomputes the frame budget.
  - The destructor and the presentable flush's finish callback share the global table of undeleted semaphores.
  - Modules: `SwapchainRules`, `WindowSpec`, `WindowProperties`, `WindowModel`, `Reclamation`.
- **Device and queue selection.**
  - `find_devices` filters the devices and then sorts them by the stock comparer.
  - `find_queue_families` yields indices in ascending order. `simple_queue_filter` accepts a family with any of the required flag bits and enough queues.
  - `select_queue_for_surface` takes the lowest family that has graphics and surface support.
  - `select_device_queue_for_surface` tries the preferred device, or else the candidates in order, and keeps the first one that yields a queue.
  - Modules: `DeviceSelection`, `WmCommon`, `Sorting`.
- **Initialisation and the extension lifecycle.**
  - `Tiara::init` runs in steps and keeps a LIFO stack of undo actions. `rollback` unwinds that stack.
  - The instance-extension list is merged, sorted and deduplicated.
  - `init_ext` and `ExtensionInitHandle` give an extension an owner that runs init and deinit.
  - `WMExtension` is tiara::wm's own extension.
  - Modules: `CoreInit`, `ExtensionType`, `WmExtension`.
- **Subscription lists**, all append/filter operations with identity equality.
  - `remove_erase` and `remove_erase_if` (module `RemoveErase`).
  - The managed handler's weak subscription lists (module `ManagedHandlers`).
  - The keep-alive dispatcher (module `KeepAlive`).
  - The monitor handler registries and monitor callback (module `MonitorEvents`).
  - The test dispatcher and the subscription scenario of `tests/core/managed_handler.cpp` (modules `TestDispatcher`, `ManagedHandlerScenario`).
- **Predicate combinators**: `and_`, `or_`, `make_and_` and `make_or_` (module `PredicateCombinators`).

Code that changes state in place is modelled as classes with `modifies` clauses. This covers the window, the reclamation table, the handler registries, the init stack and the extension handles. Each method is proved against a specification function on values, for example `Window.Draw` against `DrawSpec`. The lemmas state the source's promises about those functions.

Some external objects are modelled by identity:
- A window's identity (`this`) is a number.
- A semaphore is `Sem(window, serial)`. A semaphore created by `createSemaphore` is modelled as the creating window's next serial number.
- A handler is its id. Handler equality is address identity, as in `include/tiara/core/event/handler.hpp`.

## Model

| member | source | states |
|---|---|---|
| WindowModel.Window.constructor | include/tiara/wm/window.hpp:561-564 | A new window runs, has no frames enqueued, a frame budget of 0, no image held (SENTINEL 0xFFFFFFFF) and no draw handler |
| WindowModel.Window.StartDrawDispatch | include/tiara/wm/window.hpp:169-171 | The draw handler slot holds `h` afterwards; nothing else changes |
| WindowModel.Window.StopDrawDispatch | include/tiara/wm/window.hpp:172-174 | The slot is emptied only when it holds `h`; otherwise nothing changes |
| WindowModel.Window.Stop | include/tiara/wm/window.hpp:249-251 | Only the run flag changes, to false |
| WindowModel.GrowPool | include/tiara/wm/window.hpp:485-504 | A pool grown by the back_inserter loop equals `Grow`: the old entries are kept, and fresh semaphores fill up to the target |
| WindowModel.Window.BuildSurfaces | include/tiara/wm/window.hpp:460-480 | One surface per render target, in order. If Skia refuses a target, the result reports failure and holds the surfaces made before it |
| WindowModel.Window.Configure | include/tiara/wm/window.hpp:402-456 | The new state is `Configured`: the new swapchain and extent, no image held, the new images, one render target per image; pools and counters kept |
| WindowModel.Window.GrowPools | include/tiara/wm/window.hpp:483-547 | The new state is `PoolsGrown`: pools grown to images+1, images and images, and the frame budget recomputed |
| WindowModel.Window.RecreateSwapchain | include/tiara/wm/window.hpp:326-549 | New state and outcome are exactly `RebuildSpec` of the old state |
| WindowModel.Window.AcquireImage | include/tiara/wm/window.hpp:179-184 | With no image held, the acquired index is held and its renderable slot is swapped with the last one (`AcquireStep`) |
| WindowModel.Window.PresentImage | include/tiara/wm/window.hpp:213-241 | The counter grows by 1, or by 2 when the presentable flush was not submitted. The held image is presented with its presentable semaphore, and none is held afterwards (`PresentStep`) |
| WindowModel.Window.Draw | include/tiara/wm/window.hpp:176-248 | New state and outcome are exactly `DrawSpec` of the old state |
| WindowModel.Window.Destroy | include/tiara/wm/window.hpp:124-153 | A running window, or one with frames enqueued, parks renderable++rendered++presentable under its identity, only if the table has no entry for it. Only pools that were not parked are freed |
| WindowModel.Open | include/tiara/wm/window.hpp:609-644 | A new window whose state and outcome are `RebuildSpec` of the initial state |
| WindowSpec.Initial | include/tiara/wm/window.hpp:561-564 | The member initialisers: running, counters 0, SENTINEL, no swapchain, no handler |
| WindowSpec.Swap | include/tiara/wm/window.hpp:183 | std::swap of two slots exchanges them, keeps every other slot and is a permutation |
| WindowSpec.Run | include/tiara/wm/window.hpp:493-502 | `k` new semaphores of the window, numbered consecutively |
| WindowSpec.Grow | include/tiara/wm/window.hpp:485-504 | A pool never shrinks and keeps its prefix, and new slots hold fresh semaphores |
| WindowSpec.Targets | include/tiara/wm/window.hpp:432-456 | One render target per swapchain image, in image order, with the swapchain extent |
| WindowSpec.Surfaces | include/tiara/wm/window.hpp:460-480 | One Skia surface per render target, in order |
| WindowSpec.Configured | include/tiara/wm/window.hpp:402-456 | SENTINEL, the new images, one target per image; pools, counters and traces kept |
| WindowSpec.PoolsGrown | include/tiara/wm/window.hpp:483-547 | Pools at least images+1, images and images, and frame budget = FrameBudget(images) |
| WindowSpec.RebuildSpec | include/tiara/wm/window.hpp:326-549 | _recreate_swapchain as a state function: no preferred format throws with the state unchanged, a refused surface throws after the swapchain and targets are replaced, otherwise the pools grow. `RebuildWithoutFormat`, `RebuildEffects`, `RebuildGrowsPools`, `RebuildKeepsHistory` and `RebuildSurfaceFailure` state its meaning |
| WindowSpec.AcquireStep | include/tiara/wm/window.hpp:179-185 | With no image held, the acquired index is held and its renderable slot is swapped with the last one; otherwise nothing changes. `AcquireStepKeepsValid` and `DrawAcquireRotates` state its effect |
| WindowSpec.PresentStep | include/tiara/wm/window.hpp:213-247 | Counts 1, or 2 when the presentable flush was not submitted, records the present with the image's presentable semaphore and releases the image. `PresentStepKeepsValid`, `DrawCounter` and `DrawPresents` state its effect |
| WindowSpec.DrawSpec | include/tiara/wm/window.hpp:176-248 | draw() as a state function: the budget and handler/run guards, acquire, the handler call, present, and rebuild on OutOfDate/Suboptimal or DrawWindowError otherwise. `DrawIdleTicks`, `DrawKeepsValid`, `DrawCounter`, `DrawPresents`, `DrawHandlerFailureHoldsImage`, `DrawAcquireRotates` and `DrawKeepsDrawnPrefix` state its meaning |
| WindowProperties.RebuildWithoutFormat | include/tiara/wm/window.hpp:353-363 | Without a B8G8R8A8Unorm/sRGB format the rebuild fails with CreateWindowError and changes nothing |
| WindowProperties.RebuildEffects | include/tiara/wm/window.hpp:330-547 | After a completed rebuild: the swapchain uses the selected count, format, clamped extent and mode; current_image is SENTINEL; one target and one surface per image in order; max_frames_enqueued = images-1; the counter, run flag and handler are kept |
| WindowProperties.RebuildGrowsPools | include/tiara/wm/window.hpp:483-547 | A completed rebuild grows the pools to at least images+1, images and images, never shrinks them, leaves old entries untouched, and re-establishes the window invariant |
| WindowProperties.RebuildKeepsHistory | include/tiara/wm/window.hpp:326-549 | Whatever the outcome, a rebuild keeps existing pool entries, the counter, the handler and the run flag |
| WindowProperties.RebuildSurfaceFailure | include/tiara/wm/window.hpp:471-475 | A Skia surface failure throws after the swapchain and targets are replaced, leaving fewer surfaces than images |
| WindowProperties.PoolsGrownKeepsFresh | include/tiara/wm/window.hpp:493-502 | Growing the pools with newly created semaphores keeps all pool entries distinct and owned by the window |
| WindowProperties.SwapKeepsFresh | include/tiara/wm/window.hpp:183 | The acquire swap keeps the pool entries distinct |
| WindowProperties.GrowOneFresh | include/tiara/wm/window.hpp:485-504 | Growing one pool with semaphores created after all existing ones keeps every pool entry distinct and owned by the window |
| WindowProperties.GrowChainFresh | include/tiara/wm/window.hpp:483-546 | Growing the renderable, rendered and presentable pools in turn, each numbering on from the previous one, keeps all entries distinct |
| WindowProperties.InsertFresh | include/tiara/wm/window.hpp:493-502 | Semaphores created after the existing ones can be inserted anywhere without clashing |
| WindowProperties.DrawIdleTicks | include/tiara/wm/window.hpp:176-185 | A tick changes nothing when the budget is spent, there is no handler, the window is stopped, or the acquire neither succeeds nor is suboptimal |
| WindowProperties.AcquireStepKeepsValid | include/tiara/wm/window.hpp:179-184 | The acquire step holds an index below the image count, swaps the acquired slot with the back, keeps the pool a permutation of itself, changes nothing else, and keeps the invariant. With an image already held it changes nothing |
| WindowProperties.PresentStepKeepsValid | include/tiara/wm/window.hpp:213-241 | Counting and presenting keep the window invariant |
| WindowProperties.DrawKeepsDrawnPrefix | include/tiara/wm/window.hpp:188-248 | After a tick, the renderable pool starts with the pool the handler call saw |
| WindowProperties.DrawAcquireRotates | include/tiara/wm/window.hpp:179-188 | A tick past the guards calls the current handler once, on the held or newly acquired image, with the renderable pool rotated by the acquire swap |
| WindowProperties.DrawCounter | include/tiara/wm/window.hpp:213-233 | A tick that reaches present adds 1, or 2 when the presentable flush returns kNo. Any other tick adds nothing, and the counter never decreases |
| WindowProperties.DrawPresents | include/tiara/wm/window.hpp:234-247 | The held image is presented with its presentable semaphore, and current_image is SENTINEL afterwards. Out-of-date or suboptimal rebuilds (passing iff the rebuild can complete), success passes, and any other result throws DrawWindowError |
| WindowProperties.DrawHandlerFailureHoldsImage | include/tiara/wm/window.hpp:187-188 | A throwing draw handler leaves its image held, the counter unchanged and nothing presented |
| WindowProperties.DrawKeepsValid | include/tiara/wm/window.hpp:176-248 | Every tick keeps the window invariant (distinct pool semaphores, pool sizes, frame budget, image held in range), unless its rebuild failed on a Skia surface |
| SwapchainRules.ImageCount | include/tiara/wm/window.hpp:330-333 | min(minImageCount+1 with uint32 wrap, maxImageCount or unbounded when it is 0) |
| SwapchainRules.ImageCountCases | include/tiara/wm/window.hpp:330-333 | One more than the minimum unless the maximum caps it; a minimum of UINT32_MAX wraps to 0 |
| SwapchainRules.FindPreferredFormat | include/tiara/wm/window.hpp:353-358 | The first index holding B8G8R8A8Unorm/SrgbNonlinear, or none iff no entry has it |
| SwapchainRules.SelectFormat | include/tiara/wm/window.hpp:353-363 | The selected format is a preferred one from the list; none (CreateWindowError) iff the list has no preferred format |
| SwapchainRules.ToU32 | include/tiara/wm/window.hpp:375-376 | static_cast<uint32_t> keeps in-range values and wraps negative ones |
| SwapchainRules.ToI32 | include/tiara/wm/window.hpp:378 | static_cast<int> lands in the int range and casts back to the same uint32 |
| SwapchainRules.Clamp | include/tiara/wm/window.hpp:375-376 | std::clamp result lies within [lo, hi] and keeps in-range values |
| SwapchainRules.ChooseExtent | include/tiara/wm/window.hpp:374-377 | Each axis is clamped to [minImageExtent, maxImageExtent] |
| SwapchainRules.ChooseExtentCases | include/tiara/wm/window.hpp:374-377 | An in-range framebuffer size is kept, and a negative width wraps and clamps to the maximum |
| SwapchainRules.SelectPresentMode | include/tiara/wm/window.hpp:390-395 | Mailbox iff offered, otherwise Fifo |
| SwapchainRules.FrameBudget | include/tiara/wm/window.hpp:547 | images-1 in size_t arithmetic: images-1 for a positive count, SIZE_MAX for 0 |
| SwapchainRules.TypicalSurface | include/tiara/wm/window.hpp:330-333 | A 2..3 surface requests 3 images; with 3 images returned the budget is 2 |
| Reclamation.Parked | include/tiara/wm/window.hpp:127-152 | emplace parks `sems` under `id` only when `id` has no entry, and keeps every other entry |
| Reclamation.Reclaimed | include/tiara/wm/window.hpp:218-219 | erase removes exactly the entry of `id` |
| Reclamation.Cleared | include/tiara/wm/wm.hpp:24-26 | Every value is emptied and every key is kept |
| Reclamation.ParkThenReclaim | include/tiara/wm/window.hpp:127-152 | The finish callback undoes a park |
| Reclamation.SecondParkKeepsFirst | include/tiara/wm/window.hpp:127-130 | A second teardown under the same identity parks nothing and keeps the first entry |
| Reclamation.ReclaimIsLocal | include/tiara/wm/window.hpp:218-219 | Erasing one window's entry leaves every other entry untouched |
| Reclamation.ClearedIdempotent | include/tiara/wm/wm.hpp:24-26 | Clearing twice is clearing once, and a park under a cleared key adds nothing |
| Reclamation.ReclamationTable.Park | include/tiara/wm/window.hpp:127-152 | Inserts iff no entry existed, and the table becomes `Parked` with the three pools in order |
| Reclamation.ReclamationTable.Finish | include/tiara/wm/window.hpp:218-219 | The table becomes `Reclaimed` |
| Reclamation.ReclamationTable.ClearAll | include/tiara/wm/wm.hpp:24-26 | The loop over the entries leaves the table `Cleared` |
| DeviceSelection.Rank | include/tiara/core/core.hpp:502-508 | device_type_rank indexed by the type's underlying value; `RankInjective` states that distinct types rank differently |
| DeviceSelection.SimpleDeviceLess | include/tiara/core/core.hpp:501-515 | simple_device_comparer: by rank across types, by maximum 2D image dimension within a type. `SimpleDeviceLessIsStrictWeakOrder` and `SimpleDeviceNotLess` state its properties |
| DeviceSelection.SimpleQueueFilter | include/tiara/core/core.hpp:517-519 | simple_queue_filter: any required flag bit and at least the minimum queue count; `SimpleQueueFilterAnyBit` states its cases |
| DeviceSelection.RankInjective | include/tiara/core/core.hpp:502-508 | Distinct device types have distinct ranks |
| DeviceSelection.SimpleDeviceLessIsStrictWeakOrder | include/tiara/core/core.hpp:501-515 | simple_device_comparer is a strict weak order, as std::ranges::sort requires: irreflexive, transitive, and with transitive incomparability. Two devices are equivalent iff they share type and maximum 2D image dimension |
| DeviceSelection.SimpleDeviceNotLess | include/tiara/core/core.hpp:510-514 | A device is not less than another iff its type ranks at least as high and, within the same type, its maximum 2D image dimension is at least as large |
| DeviceSelection.SortedRanksAscend | include/tiara/core/core.hpp:378 | Along a list sorted by the comparer, type ranks never decrease |
| DeviceSelection.SortedPutsCpuBeforeDiscrete | include/tiara/core/core.hpp:378 | The ascending sort puts CPU devices before discrete GPUs, and the first device has the least rank |
| DeviceSelection.FindDevices | include/tiara/core/core.hpp:367-385 | Given a strict weak order, the result is a permutation of the accepted devices, sorted by the comparer, and holds exactly the accepted devices |
| DeviceSelection.FindDevicesSimple | include/tiara/core/core.hpp:367-385 | With the stock comparer the accepted devices are sorted by simple_device_comparer: by rank, and within a type by maximum 2D image dimension. The result is a permutation of the accepted devices |
| DeviceSelection.FindQueueFamilies | include/tiara/core/core.hpp:415-433 | Strictly increasing indices, exactly those the filter accepts |
| DeviceSelection.SimpleQueueFilterAnyBit | include/tiara/core/core.hpp:517-519 | A family with the required bit and enough queues passes, one without that bit fails, one without queues fails with the default minimum, and an empty mask never passes |
| DeviceSelection.CreateQueues | include/tiara/core/core.hpp:436-499 | One queue list per create info, in order, with the queues 0..count-1 of its family |
| Sorting.Insert | include/tiara/core/core.hpp:378 | Inserting adds exactly the element |
| Sorting.SortBy | include/tiara/core/core.hpp:378 | Defined for a strict weak order, as std::sort demands; the result is a permutation of the input |
| Sorting.InsertKeepsSorted | include/tiara/core/core.hpp:378 | Insertion into a sorted list under a strict order keeps it sorted |
| Sorting.SortByIsSorted | include/tiara/core/core.hpp:378 | Under a strict weak order, the sort result is a sorted permutation of its input |
| WmCommon.SurfaceQueueFilter | include/tiara/wm/common.hpp:79-86 | The make_and_ of the graphics queue filter and surface support; `SurfaceQueueFilterMeans` states what it accepts |
| WmCommon.QueueForSurface | include/tiara/wm/common.hpp:74-101 | Queue 0 of the lowest accepted family on a new device, or none; `QueueForSurfaceIsLowest` states this and `SelectQueueForSurface` computes it |
| WmCommon.DeviceFilter | include/tiara/wm/common.hpp:110-137 | The make_and_ of extension inclusion, surface formats and present modes; `DeviceFilterMeans` and `DeviceFilterNeedsSwapchain` state what it accepts |
| WmCommon.SurfaceQueueFilterMeans | include/tiara/wm/common.hpp:77-86 | The make_and_ filter accepts a family iff it has the graphics bit, a queue and surface support |
| WmCommon.FirstFamilyFrom | include/tiara/wm/common.hpp:87-94 | The lowest accepted family index from `k` on, or none iff none is accepted |
| WmCommon.QueueForSurfaceIsLowest | include/tiara/wm/common.hpp:74-101 | Empty iff no family qualifies. Otherwise the queue is queue 0 of the lowest qualifying family, on a device created with the device extensions |
| WmCommon.SelectQueueForSurface | include/tiara/wm/common.hpp:74-101 | The method yields `QueueForSurface` |
| WmCommon.DeviceFilterMeans | include/tiara/wm/common.hpp:110-137 | A device passes iff it offers every required extension, some surface format and some present mode |
| WmCommon.DeviceFilterNeedsSwapchain | include/tiara/wm/common.hpp:25 | With the default list, a device lacking VK_KHR_swapchain is refused |
| WmCommon.FirstCandidateWithQueue | include/tiara/wm/common.hpp:107-144 | Candidates are tried in order. The first one that yields a queue is kept and the loop stops; none are kept iff none yields one |
| WmCommon.LeastDeviceChosen | include/tiara/wm/common.hpp:107-144 | No accepted device with a queue is less than the kept one by simple_device_comparer, so none ranks lower and none of the same type has a smaller maximum 2D image dimension |
| WmCommon.FirstWithLeast | include/tiara/wm/common.hpp:107-144 | In a list sorted by an irreflexive comparer, no accepted device with the property is less than the first entry that has it |
| WmCommon.NoCandidateHasQueue | include/tiara/wm/common.hpp:107-144 | If no candidate yields a queue, no accepted device does |
| WmCommon.WmGlobals.constructor | include/tiara/wm/common.hpp:25-31 | Device extensions ["VK_KHR_swapchain"], no preferred device, no present queue, no Skia |
| WmCommon.WmGlobals.SelectDeviceQueueForSurface | include/tiara/wm/common.hpp:103-171 | An existing present queue is never reselected: the call fails iff its device lacks formats or present modes for the surface. Otherwise the preferred device is the only candidate, or an accepted device with a queue is chosen that no other such device precedes by simple_device_comparer (rank, then maximum 2D image dimension). The call fails iff no queue results, and Skia is set up only when a queue is newly selected |
| CoreInit.StringLess | include/tiara/core/core.hpp:167 | std::string's operator<, lexicographic by character; `StringLessIrreflexive`, `StringLessTransitive`, `StringLessTotal` and `StringLessIsStrictWeakOrder` state its properties |
| CoreInit.StringLessIsStrictWeakOrder | include/tiara/core/core.hpp:167 | std::string's operator< is a strict weak order in which only equal names are equivalent, so std::ranges::sort may use it |
| CoreInit.StringLessIrreflexive | include/tiara/core/core.hpp:167 | No name sorts before itself |
| CoreInit.StringLessTransitive | include/tiara/core/core.hpp:167 | The lexicographic order is transitive |
| CoreInit.StringLessTotal | include/tiara/core/core.hpp:167 | Any two distinct names are ordered one way or the other |
| CoreInit.Dedup | include/tiara/core/core.hpp:168 | unique: drops each element equal to its predecessor; `DedupOfSorted` states its result on a sorted list and `Unique` computes it |
| CoreInit.DedupOfSorted | include/tiara/core/core.hpp:168 | unique on a sorted list gives a strictly sorted list with the same names |
| CoreInit.StrictlySortedUnique | include/tiara/core/core.hpp:162-174 | Two strictly sorted lists with the same names are equal, so the merge result is determined |
| CoreInit.MergedExtensions | include/tiara/core/core.hpp:147-174 | GLFW's list alone, or sort and unique of both lists; `MergedExtensionsUnion` and `StrictlySortedUnique` state its meaning |
| CoreInit.MergedExtensionsUnion | include/tiara/core/core.hpp:147-174 | With user extensions the list is sorted, duplicate-free and the union of both lists. Without them it is GLFW's list unchanged |
| CoreInit.Unique | include/tiara/core/core.hpp:168-169 | unique plus cut equals `Dedup` |
| CoreInit.InstanceExtensions | include/tiara/core/core.hpp:147-174 | The merge method yields the sorted duplicate-free union, or GLFW's list |
| CoreInit.RollbackSpec | include/tiara/core/core.hpp:236-245 | Rollback leaves a prefix of the stack and runs the rest from the top. The stack is empty iff nothing threw; the action that threw is on top of what is left |
| CoreInit.RollbackRunsAllInReverse | include/tiara/core/core.hpp:236-245 | When no undo throws, all run in reverse registration order and the stack ends empty |
| CoreInit.RollbackStopsAtThrow | include/tiara/core/core.hpp:238-241 | When an undo throws, the ones above it ran in reverse order, and it stays on top |
| CoreInit.UndoEffectsAppend | include/tiara/core/core.hpp:112-116 | Running one more undo applies its effect after the others |
| CoreInit.Tiara.constructor | include/tiara/core/core.hpp:247 | Empty undo stack, no context, GLFW not running |
| CoreInit.Tiara.IsInit | include/tiara/core/core.hpp:221-223 | is_init: the context exists |
| CoreInit.Tiara.RunTop | include/tiara/core/core.hpp:239-240 | The top undo action runs and is popped: the stack loses its last entry, the trace gains it, and its effect is applied |
| CoreInit.Tiara.Rollback | include/tiara/core/core.hpp:236-245 | The stack, the run trace and the GLFW/context state follow `RollbackSpec`; the error of the throwing undo propagates |
| CoreInit.Tiara.StepOrRollback | include/tiara/core/core.hpp:226-234 | A returning step registers its undo and nothing else changes. A throwing step rolls everything back and rethrows its own error, or the rollback's |
| CoreInit.Tiara.Init | include/tiara/core/core.hpp:104-215 | Succeeds iff glfwInit, the required extensions, the instance and every called extension init() succeed. On success three undos are registered and the context holds the merged extensions and one handle per extension not yet initialised. On failure at glfwInit, the steps registered before are rolled back; at the instance step, GLFW's termination and those before it are; at an extension's init(), the instance is destroyed (with the handles built so far), then GLFW terminated, then the earlier steps undone. In each case the undo trace, the GLFW/context state and the stack follow `RollbackSpec`, and the step's own error is rethrown unless an undo threw, whose error then propagates |
| CoreInit.UndoEffectsKeepGlfwDown | include/tiara/core/core.hpp:104-215 | No undo action starts GLFW again |
| CoreInit.UndoEffectsKeepNoContext | include/tiara/core/core.hpp:193-197 | No undo action creates a context again |
| CoreInit.FailedExtensionStepTearsDown | include/tiara/core/core.hpp:199-213 | An extension init() that throws, with no throwing undo, makes the rollback destroy the instance, then terminate GLFW, then empty the stack, leaving neither context nor GLFW |
| CoreInit.FailedInstanceStepTerminatesGlfw | include/tiara/core/core.hpp:112-123 | A failed instance step after GLFW came up, with no throwing undo, runs every undo with GLFW's termination first, empties the stack and leaves GLFW down |
| CoreInit.Tiara.Deinit | include/tiara/core/core.hpp:216-220 | Rolls back every registered step as `RollbackSpec` says, and propagates the error of an undo that throws |
| ExtensionType.Inits | include/tiara/core/extension/extensiontype.hpp:28-30 | Counts init() calls, at most the record's length |
| ExtensionType.Deinits | include/tiara/core/extension/extensiontype.hpp:38-40 | Counts deinit() calls, at most the record's length |
| ExtensionType.CountsAppend | include/tiara/core/extension/extensiontype.hpp:28-40 | One more call adds one to its own count only |
| ExtensionType.ExtensionState.Init | include/tiara/core/extension/extensiontype.hpp:20 | init() sets the flag and is recorded |
| ExtensionType.ExtensionState.Deinit | include/tiara/core/extension/extensiontype.hpp:21 | deinit() clears the flag and is recorded |
| ExtensionType.ExtensionInitHandle.constructor | include/tiara/core/extension/extensiontype.hpp:28-30 | Takes the object and calls init() once iff it is not null |
| ExtensionType.ExtensionInitHandle.Moved | include/tiara/core/extension/extensiontype.hpp:33 | The move takes the object and leaves the source empty; no init() |
| ExtensionType.ExtensionInitHandle.MoveAssign | include/tiara/core/extension/extensiontype.hpp:36 | Takes the source's object, empties the source, and returns the previously owned object. Self-move changes nothing |
| ExtensionType.ExtensionInitHandle.Destroy | include/tiara/core/extension/extensiontype.hpp:38-40 | deinit() is called once iff the handle still owns an object |
| ExtensionType.InitExt | include/tiara/core/extension/extensiontype.hpp:50-54 | Nothing when already initialised. Otherwise a handle owning the new object, with init() called once |
| ExtensionType.Lifecycle | include/tiara/core/extension/extensiontype.hpp:28-54 | init_ext, a refused second init_ext, a move, then destroying both handles: init and deinit run exactly once each, and the extension can be initialised again |
| WmExtension.WmExtension.constructor | include/tiara/wm/wm.hpp:37 | The flag starts false |
| WmExtension.WmExtension.IsInit | include/tiara/wm/wm.hpp:33-35 | is_init: the `_init` flag |
| WmExtension.WmExtension.Init | include/tiara/wm/wm.hpp:9-15 | Every connected monitor gets a Monitor, then is_init() is true |
| WmExtension.WmExtension.Deinit | include/tiara/wm/wm.hpp:16-32 | Skia released, every parked vector emptied with its key kept, no present queue, no preferred device, Monitors deleted, is_init() false |
| WmExtension.DeinitAfterReinit | include/tiara/wm/wm.hpp:16-32 | Deinit, init, deinit: the second deinit finds nothing more to free and the table stays `Cleared` |
| RemoveErase.Filtered | include/tiara/core/utilities/remove_erase.hpp:31-39 | The kept elements are exactly those the predicate rejects |
| RemoveErase.FilteredAppend | include/tiara/core/utilities/remove_erase.hpp:31-39 | Relative order is preserved: filtering distributes over concatenation |
| RemoveErase.FilteredKeepsAll | include/tiara/core/utilities/remove_erase.hpp:31-39 | Nothing to remove leaves the container as it is |
| RemoveErase.FilteredIdempotent | include/tiara/core/utilities/remove_erase.hpp:31-39 | remove_erase_if twice equals once |
| RemoveErase.FilteredTwice | include/tiara/core/utilities/remove_erase.hpp:31-39 | Removing by one predicate then another is removing by their disjunction |
| RemoveErase.WithoutIdempotent | include/tiara/core/utilities/remove_erase.hpp:15-23 | remove_erase twice equals once |
| RemoveErase.WithoutAppended | include/tiara/core/utilities/remove_erase.hpp:15-23 | Removing right after appending the same value undoes the append. Removing after appending a different value keeps it at the end |
| RemoveErase.WithoutCommutes | include/tiara/core/utilities/remove_erase.hpp:15-23 | Removing two values in either order gives the same container |
| RemoveErase.RemoveIf | include/tiara/core/utilities/remove_erase.hpp:33 | In-place remove_if: the prefix up to the returned end is the filtered input |
| RemoveErase.RemoveEraseIf | include/tiara/core/utilities/remove_erase.hpp:31-39 | Result is the input filtered by `!pred`, order preserved |
| RemoveErase.RemoveErase | include/tiara/core/utilities/remove_erase.hpp:15-23 | Result is the input without `value`, order preserved, and `value` no longer occurs |
| ManagedHandlers.Unsubscribed | include/tiara/core/event/managed_handler.hpp:48-73 | Survivors are live, differ from `d` and come from the list. Every other live entry survives |
| ManagedHandlers.UnsubscribedKeepsOrder | include/tiara/core/event/managed_handler.hpp:51-58 | Survivors keep their relative order |
| ManagedHandlers.SubscribeThenUnsubscribe | include/tiara/core/event/managed_handler.hpp:43-73 | Unsubscribing right after subscribing removes the new entry with the old ones |
| ManagedHandlers.UnsubscribeIdempotent | include/tiara/core/event/managed_handler.hpp:48-73 | Unsubscribing twice equals once |
| ManagedHandlers.ManagedHandler.constructor | include/tiara/core/event/managed_handler.hpp:30 | Both subscription lists start empty |
| ManagedHandlers.ManagedHandler.SubscribeAsync | include/tiara/core/event/managed_handler.hpp:43-46 | Registers with the dispatcher, then appends it |
| ManagedHandlers.ManagedHandler.UnsubscribeAsync | include/tiara/core/event/managed_handler.hpp:48-73 | Deregisters, then drops expired entries and entries for `d` |
| ManagedHandlers.ManagedHandler.Subscribe | include/tiara/core/event/managed_handler.hpp:76-79 | The same for the synchronous list |
| ManagedHandlers.ManagedHandler.Unsubscribe | include/tiara/core/event/managed_handler.hpp:82-107 | The same for the synchronous list |
| ManagedHandlers.ManagedHandler.StopAll | include/tiara/core/event/managed_handler.hpp:33-39 | Every live dispatcher in the list has the handler removed, and every other dispatcher is untouched |
| ManagedHandlers.ManagedHandler.Destroy | include/tiara/core/event/managed_handler.hpp:32-41 | Every live subscribed dispatcher, from either list, no longer holds the handler |
| TestDispatcher.EventDispatcher.constructor | tests/core/managed_handler.cpp:43 | No handlers at first |
| TestDispatcher.EventDispatcher.StartDispatch | tests/core/managed_handler.cpp:28-30 | Appends the handler |
| TestDispatcher.EventDispatcher.StopDispatch | tests/core/managed_handler.cpp:31-38 | Removes every reference to the handler, keeping the others' order |
| TestDispatcher.EventDispatcher.Emit | tests/core/managed_handler.cpp:39-42 | Every handler is called once, in registration order |
| ManagedHandlerScenario.Scenario | tests/core/managed_handler.cpp:46-61 | The four emits reach [1,2], [2], [2,3] and [3] |
| KeepAlive.StartAsWritten | include/tiara/core/event/dispatcher.hpp:34-37 | The as-written half of the finding, with the inner call qualified: `h` is kept, then the emptied pointer is dereferenced; `StartAsWrittenDereferencesNull` states the outcome |
| KeepAlive.StartAsWrittenDereferencesNull | include/tiara/core/event/dispatcher.hpp:34-37 | With the inner call qualified so that it compiles and the statements in the written order, a real handler is kept alive but never registered: the null pointer is dereferenced |
| KeepAlive.StartSpec | include/tiara/core/event/dispatcher.hpp:34-37 | Corrected: the pointer is appended to the keep-alive list and its handler is registered |
| KeepAlive.StopSpec | include/tiara/core/event/dispatcher.hpp:38-47 | Deregisters the handler and drops every copy of `h`, keeping all other entries |
| KeepAlive.StartThenStop | include/tiara/core/event/dispatcher.hpp:34-47 | Start then stop equals stop alone |
| KeepAlive.StopIsLocal | include/tiara/core/event/dispatcher.hpp:38-47 | Stopping one handler keeps the others, and stops commute |
| KeepAlive.KeepAliveDispatcher.constructor | include/tiara/core/event/dispatcher.hpp:32 | Empty keep-alive list over the base dispatcher |
| KeepAlive.KeepAliveDispatcher.StartDispatch | include/tiara/core/event/dispatcher.hpp:34-37 | The state becomes `StartSpec` |
| KeepAlive.KeepAliveDispatcher.StopDispatch | include/tiara/core/event/dispatcher.hpp:38-42 | The intended stop (the base's stop_dispatch, then the ranges remove of `h`): the state becomes `StopSpec` |
| MonitorEvents.MonitorEventDispatcher.constructor | include/tiara/wm/monitor.hpp:137-139 | Not initialised, empty registries, no Monitors |
| MonitorEvents.MonitorEventDispatcher.StartDispatchConnected | include/tiara/wm/monitor.hpp:111-113 | Appends to the connected registry only |
| MonitorEvents.MonitorEventDispatcher.StopDispatchConnected | include/tiara/wm/monitor.hpp:114-122 | Removes every reference to the handler from the connected registry, keeping the order of the rest |
| MonitorEvents.MonitorEventDispatcher.StartDispatchDisconnected | include/tiara/wm/monitor.hpp:123-125 | Appends to the disconnected registry only |
| MonitorEvents.MonitorEventDispatcher.StopDispatchDisconnected | include/tiara/wm/monitor.hpp:126-134 | Removes every reference from the disconnected registry, keeping the order of the rest |
| MonitorEvents.MonitorEventDispatcher.CallAll | include/tiara/wm/monitor.hpp:77-79 | Calls every handler once, in registry order |
| MonitorEvents.MonitorEventDispatcher.Callback | include/tiara/wm/monitor.hpp:69-90 | Nothing before init. Otherwise a Monitor is created if missing; on connect the connected handlers run in order; on disconnect the disconnected handlers run and the Monitor is deleted; other events call nothing |
| MonitorEvents.MonitorEventDispatcher.Init | include/tiara/wm/monitor.hpp:92-98 | Every current monitor gets a Monitor, existing ones are kept, and then _init is set |
| MonitorEvents.MonitorEventDispatcher.Deinit | include/tiara/wm/monitor.hpp:101-109 | _init is cleared first, then the Monitor of every current monitor is deleted |
| MonitorEvents.CallbackAfterDeinit | include/tiara/wm/monitor.hpp:69-109 | After deinit the callback calls no handler and creates no Monitor |
| PredicateCombinators.AndPredicate.Eval | include/tiara/core/utilities/predicate_combinators.hpp:30-37 | and_'s operator(): the `&&` fold over the stored predicates; `AndHoldsIffAll`, `AndCalls` and `AndShortCircuits` state its meaning |
| PredicateCombinators.OrPredicate.Eval | include/tiara/core/utilities/predicate_combinators.hpp:73-80 | or_'s operator(): the `||` fold over the stored predicates; `OrHoldsIffSome`, `OrCalls` and `OrShortCircuits` state its meaning |
| PredicateCombinators.AndCalls | include/tiara/core/utilities/predicate_combinators.hpp:33 | The && fold stops at the first false predicate; all earlier ones held |
| PredicateCombinators.OrCalls | include/tiara/core/utilities/predicate_combinators.hpp:76 | The \|\| fold stops at the first true predicate; all earlier ones failed |
| PredicateCombinators.AndHoldsIffAll | include/tiara/core/utilities/predicate_combinators.hpp:30-37 | and_ holds iff every member predicate holds |
| PredicateCombinators.OrHoldsIffSome | include/tiara/core/utilities/predicate_combinators.hpp:73-80 | or_ holds iff some member predicate holds |
| PredicateCombinators.AndShortCircuits | include/tiara/core/utilities/predicate_combinators.hpp:33 | The result is the value of the last predicate the fold calls |
| PredicateCombinators.OrShortCircuits | include/tiara/core/utilities/predicate_combinators.hpp:76 | The result is the value of the last predicate the fold calls |
| PredicateCombinators.MakeAnd | include/tiara/core/utilities/predicate_combinators.hpp:51-54 | An and_ over exactly the given predicates, in order, true iff all hold |
| PredicateCombinators.MakeOr | include/tiara/core/utilities/predicate_combinators.hpp:94-97 | An or_ over exactly the given predicates, in order, true iff one holds |

## Left out

- GLFW callback plumbing and window creation (include/tiara/wm/window.hpp:255-324 and the GLFW, surface and device-selection calls of 609-640) are platform I/O. `WindowModel.Open` starts from the member initialisers and the constructor's `_recreate_swapchain()`.
- The Vulkan, Skia and GLFW calls are inputs of the model, not modelled. These are acquire, present, flush, submit, `setBackendRenderTargetState`, `getImages`, the `getSurface*` queries, `glfwGetMonitors`, `glfwInit` and instance creation.
- Results that the source only logs are not modelled: the rendered flush, both `submit()` calls and `setBackendRenderTargetState` (window.hpp:189-212, 229-232).
- The busy-waits on the renderable and rendered semaphores (window.hpp:187, 204) are taken as eventually signalled.
- The draw handler's drawing on the canvas is opaque. The model records only the call, with the handler and the image, and whether it threw.
- The finish callback can run asynchronously on the GPU backend; `ReclamationTable.Finish` is an ordinary call. No concurrency is modelled.
- `Context` construction, `_setup_skia` and `_skia_get_vk_proc`, and all logging are not modelled. Setting up Skia is the `skiaReady` flag.
- `create_queues_from_device` is modelled only for its output shape; no device is created.
- `queue_priority`, `WindowScaleEvent` and other floating-point values are not modelled.
- The public `tiara::wm::Window` wrapper (window.hpp:569-657) only delegates and is not modelled.
- The type-only files are not modelled, nor is `handler.hpp` beyond address identity of handlers. These are vectors.hpp, concept_invocable*.hpp, is_tuple.hpp, stdincludes.hpp, common/events/draw.hpp and widgets/widgettype.hpp.
- tests/wm/window.cpp needs a GPU and a window, and is not modelled.
- A null `shared_ptr` is not modelled: `KeepAliveDispatcher.StartDispatch` and `StopDispatch` require a non-null pointer, because the source dereferences it unconditionally.
- `KeepAlive.KeepAliveDispatcher.StopDispatch`: as written, `stop_dispatch(*h)` (dispatcher.hpp:39) names only the class's own `shared_ptr` overload and does not compile once instantiated; nothing in the repository instantiates it. The model is the intended `Dispatch::stop_dispatch(*h)` followed by the ranges remove and erase (dispatcher.hpp:41-42). The non-ranges branch (dispatcher.hpp:44) passes the pointer to `remove_if` as a predicate and is not modelled.
- Asynchronous dispatchers are not modelled separately. Both subscription lists of a managed handler point to the synchronous test dispatcher, whose `start_dispatch`/`stop_dispatch` contract is the same.
- `ManagedHandlers.ManagedHandler.UnsubscribeAsync`: whether a weak pointer has expired is the parameter `live`, not tracked lifetimes.
- `Sorting.SortBy`: std::sort may order equivalent elements (same type and same maxImageDimension2D) in any way. The model fixes one such order, an insertion sort, and states only what every order shares: sorted, and a permutation. `DeviceSelection.FindDevices` sorts a `seq`, not the vector in place.
- `WindowProperties.DrawCounter`: `current_frames_enqueued` is a size_t, and its wrap-around after 2^64 increments is not modelled. The counter is never decremented anywhere in the source, so once it reaches `max_frames_enqueued` every later `draw()` returns at its first guard. The model keeps this as written.
- `ExtensionType.ExtensionInitHandle.MoveAssign`: an object the target owned before the move-assign is deleted without deinit() (unique_ptr reset). The model returns it as `dropped` and records no deinit call.
- Exceptions thrown by vulkan-hpp RAII constructors (swapchain creation, semaphore creation) are not modelled. With exceptions enabled, `acquireNextImage` and `presentKHR` throw on `eErrorOutOfDateKHR` instead of returning it; the model takes OutOfDate, like every acquire and present result, as a returned value. Its rebuild on an OutOfDate present follows the check at window.hpp:242 as written, which a build with vulkan-hpp exceptions enabled never reaches for that result. Only the exceptions the library itself throws are modelled: CreateWindowError, DrawWindowError, DeviceQueueSelectionError and the init errors.
- An extension's `init()` is modelled as the flag-setting of WMExtension. The handle's own effects are init/deinit calls on an `ExtensionState`.
- `CoreInit.Tiara.Init`: a throwing extension `init()` is the input `failingInit`, the first extension type whose init() throws when called. When the rollback destroys the context, the deinit() of the handles already built is not recorded, and the throwing extension's object is deleted without deinit(); neither appears in the model.
- `CoreInit.Tiara.Init`: `Context::vk_extensions` (core.hpp:54) holds `const char*` values. In the user-extension branch these are `c_str()` pointers into the local `combine_extensions` (core.hpp:162-188), which is destroyed when the step returns, so the stored pointers dangle when `_setup_skia` reads them later (common.hpp:49-50). The model's `Context` stores the names by value and does not capture this lifetime. In the branch without user extensions the pointers come from GLFW and stay valid.
- `WindowModel.Window.Draw` requires `Valid()`. This excludes a draw after a rebuild that failed on a Skia surface (`WindowProperties.RebuildSurfaceFailure`): the source would then index `_window_skia_surfaces[current_image]` past the shortened vector (window.hpp:187), which is undefined behaviour.
- The stock comparer sorts in ascending `device_type_rank`, so "other" and CPU devices are tried before integrated and discrete GPUs (`DeviceSelection.SortedPutsCpuBeforeDiscrete`). The rank table may intend the opposite order, but nothing in the source says which; the model keeps the order as written.
- Tiara's third undo action pops the extension handles. In the model this empties the context's handle list and does not run each handle's deinit.

## Findings

| source | as written | input that shows it | evidently intended | confidence | as-written member | corrected member |
|---|---|---|---|---|---|---|
| include/tiara/core/event/dispatcher.hpp:35-36 | The unqualified `start_dispatch(*h)` at line 36 (and `stop_dispatch(*h)` at line 39) names only the class's own `shared_ptr` overload, because the dependent base's `Handler&` overloads are hidden and no `using` brings them in (window.hpp:165-166 has one). `Hdlr&` does not convert to `shared_ptr<Hdlr>`, so neither member compiles once instantiated; nothing in the repository instantiates them. With the evident qualification `Dispatch::start_dispatch(*h)`, line 35 moves `h` into `_keep_shared_alive` before line 36 dereferences the moved-from, null pointer | any non-null `h`, e.g. `Ptr(7)`: after the qualification, the handler is kept alive but registration dereferences null and the handler is never registered | call `Dispatch::start_dispatch(*h)` (and `Dispatch::stop_dispatch(*h)`), registering `*h` before `h` is moved into the keep-alive list | high (not executed) | KeepAlive.StartAsWrittenDereferencesNull | KeepAlive.KeepAliveDispatcher.StartDispatch |
