/**
 * Device and queue selection for a window surface, include/tiara/wm/common.hpp:
 * select_queue_for_surface picks the lowest queue family with graphics
 * support that can present to the surface; select_device_queue_for_surface
 * picks, once per process, the device whose queue every window shares.
 */
module WmCommon {
  import opened Wrappers
  import opened PredicateCombinators
  import opened DeviceSelection
  import opened Sorting

  /** vk::SurfaceFormatKHR: format and colour space, as their Vulkan codes. */
  datatype SurfaceFormat = SurfaceFormat(format: nat, colorSpace: nat)

  const FormatB8G8R8A8Unorm: nat := 44
  const ColorSpaceSrgbNonlinear: nat := 0

  /** vk::PresentModeKHR codes. */
  const PresentImmediate: nat := 0
  const PresentMailbox: nat := 1
  const PresentFifo: nat := 2
  const PresentFifoRelaxed: nat := 3

  /**
   * What the driver reports about one surface: whether a device's queue
   * family can present to it, and the formats and present modes a device
   * offers for it.
   */
  datatype SurfaceQueries = SurfaceQueries(
    support: (PhysicalDevice, nat) -> bool,
    formats: PhysicalDevice -> seq<SurfaceFormat>,
    presentModes: PhysicalDevice -> seq<nat>)

  datatype WmError = DeviceQueueSelectionError

  /** The queue filter of select_queue_for_surface: graphics (one queue at least), then surface support. */
  function SurfaceQueueFilter(d: PhysicalDevice, q: SurfaceQueries): (nat, QueueFamily) -> bool {
    (i: nat, f: QueueFamily) => MakeAnd(SurfaceQueuePreds(d, q)).Eval((i, f))
  }

  function SurfaceQueuePreds(d: PhysicalDevice, q: SurfaceQueries): seq<((nat, QueueFamily)) -> bool> {
    [(p: (nat, QueueFamily)) => SimpleQueueFilter(GraphicsBit, 1)(p.0, p.1),
     (p: (nat, QueueFamily)) => q.support(d, p.0)]
  }

  /** A family passes the filter iff it has the graphics bit, a queue, and can present to the surface. */
  lemma SurfaceQueueFilterMeans(d: PhysicalDevice, q: SurfaceQueries, i: nat, f: QueueFamily)
    ensures SurfaceQueueFilter(d, q)(i, f) <==> f.flags & GraphicsBit != 0 && f.queueCount >= 1 && q.support(d, i)
  {
    var preds := SurfaceQueuePreds(d, q);
    AndHoldsIffAll(preds, (i, f));
    assert preds[0]((i, f)) == SimpleQueueFilter(GraphicsBit, 1)(i, f);
    assert SimpleQueueFilter(GraphicsBit, 1)(i, f) == (f.flags & GraphicsBit != 0 && f.queueCount >= 1);
    assert preds[1]((i, f)) == q.support(d, i);
  }

  /** The lowest index from `k` on whose family `accept` takes. */
  function FirstFamilyFrom(families: seq<QueueFamily>, accept: (nat, QueueFamily) -> bool, k: nat): (r: Option<nat>)
    requires k <= |families|
    ensures r.Some? ==>
      && k <= r.value < |families| && accept(r.value, families[r.value])
      && forall j :: k <= j < r.value ==> !accept(j, families[j])
    ensures r.None? ==> forall j :: k <= j < |families| ==> !accept(j, families[j])
    decreases |families| - k
  {
    if k == |families| then None
    else if accept(k, families[k]) then Some(k)
    else FirstFamilyFrom(families, accept, k + 1)
  }

  /** What select_queue_for_surface yields for `d`: queue 0 of its lowest suitable family, on a new device. */
  function QueueForSurface(d: PhysicalDevice, q: SurfaceQueries, extensions: seq<string>, layers: seq<string>): Option<Queue> {
    match FirstFamilyFrom(d.queueFamilies, SurfaceQueueFilter(d, q), 0)
    case None => None
    case Some(k) => Some(Queue(Device(d, extensions, layers), k, 0))
  }

  /** A selected queue's family has graphics, a queue and surface support, and no lower family has all three. */
  lemma QueueForSurfaceIsLowest(d: PhysicalDevice, q: SurfaceQueries, extensions: seq<string>, layers: seq<string>)
    ensures var r := QueueForSurface(d, q, extensions, layers);
      && (r.Some? ==>
          && r.value.device.physical == d && r.value.device.extensions == extensions && r.value.queueIndex == 0
          && r.value.familyIndex < |d.queueFamilies|
          && d.queueFamilies[r.value.familyIndex].flags & GraphicsBit != 0
          && d.queueFamilies[r.value.familyIndex].queueCount >= 1
          && q.support(d, r.value.familyIndex)
          && forall j :: 0 <= j < r.value.familyIndex ==> !SurfaceQueueFilter(d, q)(j, d.queueFamilies[j]))
      && (r.None? <==> forall j :: 0 <= j < |d.queueFamilies| ==>
            !(d.queueFamilies[j].flags & GraphicsBit != 0 && d.queueFamilies[j].queueCount >= 1 && q.support(d, j)))
  {
    forall j | 0 <= j < |d.queueFamilies| {
      SurfaceQueueFilterMeans(d, q, j, d.queueFamilies[j]);
    }
  }

  /** select_queue_for_surface. */
  method SelectQueueForSurface(d: PhysicalDevice, q: SurfaceQueries, extensions: seq<string>, layers: seq<string>)
    returns (r: Option<Queue>)
    ensures r == QueueForSurface(d, q, extensions, layers)
  {
    var accept := SurfaceQueueFilter(d, q);
    var families := FindQueueFamilies(d.queueFamilies, accept);
    var first := FirstFamilyFrom(d.queueFamilies, accept, 0);
    if families == [] {
      r := None;
      assert forall k :: 0 <= k < |d.queueFamilies| ==> !accept(k, d.queueFamilies[k]);
    } else {
      var created := CreateQueues(d, extensions, layers, [QueueCreateInfo(families[0], 1)]);
      r := Some(created.1[0][0]);
      assert accept(families[0], d.queueFamilies[families[0]]);
      assert first.Some?;
      assert families[0] == first.value by {
        assert first.value in families;
        assert forall m :: 0 < m < |families| ==> families[0] < families[m];
      }
    }
  }

  /** The device filter of select_device_queue_for_surface: the required extensions, then formats, then present modes. */
  function DeviceFilter(required: seq<string>, q: SurfaceQueries): PhysicalDevice -> bool {
    d => MakeAnd(DevicePreds(required, q)).Eval(d)
  }

  /** std::ranges::includes of the sorted required names in the sorted offered names is multiset inclusion. */
  function DevicePreds(required: seq<string>, q: SurfaceQueries): seq<PhysicalDevice -> bool> {
    [(e: PhysicalDevice) => multiset(required) <= multiset(e.extensions),
     (e: PhysicalDevice) => q.formats(e) != [],
     (e: PhysicalDevice) => q.presentModes(e) != []]
  }

  /** A device passes iff it offers every required extension, some surface format and some present mode. */
  lemma DeviceFilterMeans(required: seq<string>, q: SurfaceQueries, d: PhysicalDevice)
    ensures DeviceFilter(required, q)(d) <==>
      multiset(required) <= multiset(d.extensions) && q.formats(d) != [] && q.presentModes(d) != []
  {
    AndHoldsIffAll(DevicePreds(required, q), d);
  }

  /** With the default list, a device lacking VK_KHR_swapchain is refused. */
  lemma DeviceFilterNeedsSwapchain(q: SurfaceQueries, d: PhysicalDevice)
    requires "VK_KHR_swapchain" !in d.extensions
    ensures !DeviceFilter(["VK_KHR_swapchain"], q)(d)
  {
    DeviceFilterMeans(["VK_KHR_swapchain"], q, d);
    assert multiset(d.extensions)["VK_KHR_swapchain"] == 0;
  }

  /**
   * The loop over find_devices' result in select_device_queue_for_surface:
   * the first candidate select_queue_for_surface yields a queue for, and its
   * position (|candidates| when there is none).
   */
  method FirstCandidateWithQueue(candidates: seq<PhysicalDevice>, q: SurfaceQueries, extensions: seq<string>, layers: seq<string>)
    returns (r: Option<Queue>, i: nat)
    ensures i <= |candidates|
    ensures forall j :: 0 <= j < i ==> QueueForSurface(candidates[j], q, extensions, layers).None?
    ensures r.Some? ==> i < |candidates| && r == QueueForSurface(candidates[i], q, extensions, layers)
    ensures r.None? ==> i == |candidates|
  {
    r := None;
    i := 0;
    while i < |candidates|
      invariant 0 <= i <= |candidates|
      invariant r.None?
      invariant forall j :: 0 <= j < i ==> QueueForSurface(candidates[j], q, extensions, layers).None?
    {
      r := SelectQueueForSurface(candidates[i], q, extensions, layers);
      if r.Some? {
        return;
      }
      i := i + 1;
    }
  }

  /**
   * The first candidate with a queue is least by simple_device_comparer
   * among all accepted devices that have one: no such device ranks lower,
   * and none of the same type has a smaller maximum 2D image dimension.
   */
  lemma LeastDeviceChosen(devices: seq<PhysicalDevice>, keep: PhysicalDevice -> bool, candidates: seq<PhysicalDevice>, i: nat,
                          q: SurfaceQueries, extensions: seq<string>, layers: seq<string>)
    requires SortedBy(candidates, SimpleDeviceLess)
    requires forall n :: 0 <= n < |devices| && keep(devices[n]) ==> devices[n] in candidates
    requires i < |candidates|
    requires forall j :: 0 <= j < i ==> QueueForSurface(candidates[j], q, extensions, layers).None?
    ensures forall d ::
      (d in devices && keep(d) && QueueForSurface(d, q, extensions, layers).Some?)
      ==> !SimpleDeviceLess(d, candidates[i])
    ensures forall d ::
      (d in devices && keep(d) && QueueForSurface(d, q, extensions, layers).Some?)
      ==> Rank(candidates[i].properties.deviceType) <= Rank(d.properties.deviceType)
  {
    var has := (d: PhysicalDevice) => QueueForSurface(d, q, extensions, layers).Some?;
    FirstWithLeast(devices, keep, candidates, i, has, SimpleDeviceLess);
    forall d | d in devices && keep(d) && has(d)
      ensures Rank(candidates[i].properties.deviceType) <= Rank(d.properties.deviceType)
    {
      SimpleDeviceNotLess(d, candidates[i]);
    }
  }

  /** In a list sorted by an irreflexive `less`, no accepted device with property `has` is less than the first entry with it. */
  lemma FirstWithLeast(devices: seq<PhysicalDevice>, keep: PhysicalDevice -> bool, candidates: seq<PhysicalDevice>, i: nat,
                       has: PhysicalDevice -> bool, less: (PhysicalDevice, PhysicalDevice) -> bool)
    requires forall x :: !less(x, x)
    requires SortedBy(candidates, less)
    requires forall n :: 0 <= n < |devices| && keep(devices[n]) ==> devices[n] in candidates
    requires i < |candidates|
    requires forall j :: 0 <= j < i ==> !has(candidates[j])
    ensures forall d :: d in devices && keep(d) && has(d) ==> !less(d, candidates[i])
  {
    forall d | d in devices && keep(d) && has(d)
      ensures !less(d, candidates[i])
    {
      var n :| 0 <= n < |devices| && devices[n] == d;
      var m :| 0 <= m < |candidates| && candidates[m] == d;
      assert i <= m;
    }
  }

  /** When no candidate yields a queue, no accepted device does. */
  lemma NoCandidateHasQueue(devices: seq<PhysicalDevice>, keep: PhysicalDevice -> bool, candidates: seq<PhysicalDevice>,
                            q: SurfaceQueries, extensions: seq<string>, layers: seq<string>)
    requires forall n :: 0 <= n < |devices| && keep(devices[n]) ==> devices[n] in candidates
    requires forall j :: 0 <= j < |candidates| ==> QueueForSurface(candidates[j], q, extensions, layers).None?
    ensures forall d :: d in devices && keep(d) ==> QueueForSurface(d, q, extensions, layers).None?
  {
    forall d | d in devices && keep(d) ensures QueueForSurface(d, q, extensions, layers).None? {
      var n :| 0 <= n < |devices| && devices[n] == d;
    }
  }

  /** The namespace-level state of tiara::wm that selection reads and writes. */
  class WmGlobals {
    /** vulkan_device_extensions */
    var deviceExtensions: seq<string>
    /** preferred_physical_device (None for nullptr) */
    var preferredDevice: Option<PhysicalDevice>
    /** present_queue */
    var presentQueue: Option<Queue>
    /** Whether the Skia context has been set up (_setup_skia). */
    var skiaReady: bool

    constructor ()
      ensures deviceExtensions == ["VK_KHR_swapchain"] && preferredDevice == None
      ensures presentQueue == None && !skiaReady
    {
      deviceExtensions := ["VK_KHR_swapchain"];
      preferredDevice := None;
      presentQueue := None;
      skiaReady := false;
    }

    /**
     * select_device_queue_for_surface. `devices` are the instance's physical
     * devices and `layers` its layers. Without a present queue it selects one
     * (on the preferred device if there is one, otherwise on the first
     * device, in the stock comparer's order, that passes the filter and
     * yields a queue: no other such device is less by that comparer) and sets up Skia; with one, it only checks that the device
     * still offers formats and present modes for this surface.
     */
    method SelectDeviceQueueForSurface(devices: seq<PhysicalDevice>, layers: seq<string>, q: SurfaceQueries)
      returns (r: Outcome<WmError>)
      modifies this
      ensures deviceExtensions == old(deviceExtensions) && preferredDevice == old(preferredDevice)
      ensures old(presentQueue).Some? ==>
        && presentQueue == old(presentQueue) && skiaReady == old(skiaReady)
        && (r.Fail? <==> q.formats(presentQueue.value.device.physical) == [] || q.presentModes(presentQueue.value.device.physical) == [])
      ensures old(presentQueue).None? ==> (r.Pass? <==> presentQueue.Some?) && skiaReady == (old(skiaReady) || presentQueue.Some?)
      ensures old(presentQueue).None? && preferredDevice.Some? ==>
        presentQueue == QueueForSurface(preferredDevice.value, q, deviceExtensions, layers)
      ensures old(presentQueue).None? && preferredDevice.None? && presentQueue.Some? ==>
        var chosen := presentQueue.value.device.physical;
        && chosen in devices && DeviceFilter(deviceExtensions, q)(chosen)
        && presentQueue == QueueForSurface(chosen, q, deviceExtensions, layers)
        && forall d :: d in devices && DeviceFilter(deviceExtensions, q)(d) && QueueForSurface(d, q, deviceExtensions, layers).Some?
             ==> !SimpleDeviceLess(d, chosen)
      ensures old(presentQueue).None? && preferredDevice.None? && presentQueue.None? ==>
        forall d :: d in devices && DeviceFilter(deviceExtensions, q)(d) ==> QueueForSurface(d, q, deviceExtensions, layers).None?
    {
      if presentQueue.None? {
        if preferredDevice.Some? {
          presentQueue := SelectQueueForSurface(preferredDevice.value, q, deviceExtensions, layers);
        } else {
          var keep := DeviceFilter(deviceExtensions, q);
          var candidates := FindDevicesSimple(devices, keep);
          var i;
          presentQueue, i := FirstCandidateWithQueue(candidates, q, deviceExtensions, layers);
          if presentQueue.Some? {
            LeastDeviceChosen(devices, keep, candidates, i, q, deviceExtensions, layers);
          } else {
            NoCandidateHasQueue(devices, keep, candidates, q, deviceExtensions, layers);
          }
        }
        if presentQueue.Some? {
          skiaReady := true;
        }
      } else {
        var physical := presentQueue.value.device.physical;
        if q.formats(physical) == [] || q.presentModes(physical) == [] {
          return Fail(DeviceQueueSelectionError);
        }
      }
      if presentQueue.None? {
        return Fail(DeviceQueueSelectionError);
      }
      r := Pass;
    }
  }
}
