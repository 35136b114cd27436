/**
 * Physical device and queue family selection of include/tiara/core/core.hpp:
 * find_devices (filter, then sort by a comparer), find_queue_families (the
 * indices of the families a filter accepts), create_queues_from_device, and
 * the stock comparer and queue filter the library ships.
 */
module DeviceSelection {
  import opened RemoveErase
  import opened Sorting

  /** vk::PhysicalDeviceType, in the order of its underlying values 0..4. */
  datatype DeviceType = Other | IntegratedGpu | DiscreteGpu | VirtualGpu | Cpu

  /** The part of vk::PhysicalDeviceProperties the library reads. */
  datatype DeviceProperties = DeviceProperties(deviceType: DeviceType, maxImageDimension2D: nat)

  /** vk::QueueFamilyProperties: queue flag bits and queue count. */
  datatype QueueFamily = QueueFamily(flags: bv32, queueCount: nat)

  /** A physical device as the library sees it: its handle, properties, extensions and queue families. */
  datatype PhysicalDevice = PhysicalDevice(
    handle: nat,
    properties: DeviceProperties,
    extensions: seq<string>,
    queueFamilies: seq<QueueFamily>)

  const GraphicsBit: bv32 := 0x1
  const ComputeBit: bv32 := 0x2
  const TransferBit: bv32 := 0x4

  /** device_type_rank, indexed by the type's underlying value. */
  function Rank(t: DeviceType): nat {
    match t
    case Other => 0
    case IntegratedGpu => 3
    case DiscreteGpu => 4
    case VirtualGpu => 2
    case Cpu => 1
  }

  /** Distinct device types have distinct ranks. */
  lemma RankInjective(s: DeviceType, t: DeviceType)
    ensures s != t ==> Rank(s) != Rank(t)
  {
  }

  /** simple_device_comparer: by type rank, and by maximum 2D image dimension within a type. */
  predicate SimpleDeviceLess(a: PhysicalDevice, b: PhysicalDevice) {
    if a.properties.deviceType != b.properties.deviceType then
      Rank(a.properties.deviceType) < Rank(b.properties.deviceType)
    else
      a.properties.maxImageDimension2D < b.properties.maxImageDimension2D
  }

  /**
   * The comparer is a strict weak order, so std::sort may be given it: two
   * devices are equivalent exactly when they share type and maximum 2D
   * image dimension.
   */
  lemma SimpleDeviceLessIsStrictWeakOrder()
    ensures StrictWeakOrder(SimpleDeviceLess)
    ensures forall a, b :: Incomparable(SimpleDeviceLess, a, b) <==>
      a.properties.deviceType == b.properties.deviceType && a.properties.maxImageDimension2D == b.properties.maxImageDimension2D
  {
    forall x, y, z | SimpleDeviceLess(x, y) && SimpleDeviceLess(y, z)
      ensures SimpleDeviceLess(x, z)
    {
      RankInjective(x.properties.deviceType, z.properties.deviceType);
    }
    forall a, b ensures Incomparable(SimpleDeviceLess, a, b) <==>
      a.properties.deviceType == b.properties.deviceType && a.properties.maxImageDimension2D == b.properties.maxImageDimension2D
    {
      RankInjective(a.properties.deviceType, b.properties.deviceType);
    }
  }

  /**
   * A device is not less than `b` iff its type ranks at least as high and,
   * within the same type, its maximum 2D image dimension is at least as
   * large.
   */
  lemma SimpleDeviceNotLess(a: PhysicalDevice, b: PhysicalDevice)
    ensures !SimpleDeviceLess(a, b) <==>
      && Rank(b.properties.deviceType) <= Rank(a.properties.deviceType)
      && (a.properties.deviceType == b.properties.deviceType ==> b.properties.maxImageDimension2D <= a.properties.maxImageDimension2D)
  {
  }

  /** Along a list sorted by the comparer, type ranks never decrease. */
  lemma SortedRanksAscend(s: seq<PhysicalDevice>)
    requires SortedBy(s, SimpleDeviceLess)
    ensures forall i, j :: 0 <= i < j < |s| ==> Rank(s[i].properties.deviceType) <= Rank(s[j].properties.deviceType)
  {
    forall i, j | 0 <= i < j < |s|
      ensures Rank(s[i].properties.deviceType) <= Rank(s[j].properties.deviceType)
    {
      assert !SimpleDeviceLess(s[j], s[i]);
      RankInjective(s[i].properties.deviceType, s[j].properties.deviceType);
    }
  }

  /**
   * The ascending sort puts the lowest ranked type first: in a sorted list,
   * every CPU device comes before every discrete GPU, and the first device
   * has the least rank of all.
   */
  lemma SortedPutsCpuBeforeDiscrete(s: seq<PhysicalDevice>)
    requires SortedBy(s, SimpleDeviceLess)
    ensures forall i, j ::
      (0 <= i < |s| && 0 <= j < |s| && s[i].properties.deviceType == Cpu && s[j].properties.deviceType == DiscreteGpu)
      ==> i < j
    ensures s != [] ==> forall j :: 0 <= j < |s| ==> Rank(s[0].properties.deviceType) <= Rank(s[j].properties.deviceType)
  {
    SortedRanksAscend(s);
  }

  /** The complement of a device filter: the elements remove_if drops. */
  function Not<T>(keep: T -> bool): T -> bool {
    x => !keep(x)
  }

  /** Any reordering of the devices `keep` accepts holds exactly those devices. */
  lemma KeptMembers(devices: seq<PhysicalDevice>, keep: PhysicalDevice -> bool, r: seq<PhysicalDevice>)
    requires multiset(r) == multiset(Filtered(devices, Not(keep)))
    ensures forall i :: 0 <= i < |r| ==> keep(r[i]) && r[i] in devices
    ensures forall i :: 0 <= i < |devices| && keep(devices[i]) ==> devices[i] in r
  {
    var kept := Filtered(devices, Not(keep));
    forall i | 0 <= i < |r| ensures keep(r[i]) && r[i] in devices {
      assert r[i] in multiset(kept);
    }
    forall i | 0 <= i < |devices| && keep(devices[i]) ensures devices[i] in r {
      assert devices[i] in kept;
      assert devices[i] in multiset(r);
    }
  }

  /**
   * find_devices: keep the devices `keep` accepts (remove_if of its
   * negation) and sort them with `less`. Yields a permutation of the
   * accepted devices, ordered by `less`.
   */
  method FindDevices(devices: seq<PhysicalDevice>, keep: PhysicalDevice -> bool, less: (PhysicalDevice, PhysicalDevice) -> bool)
    returns (r: seq<PhysicalDevice>)
    requires StrictWeakOrder(less)
    ensures multiset(r) == multiset(Filtered(devices, Not(keep)))
    ensures SortedBy(r, less)
    ensures forall i :: 0 <= i < |r| ==> keep(r[i]) && r[i] in devices
    ensures forall i :: 0 <= i < |devices| && keep(devices[i]) ==> devices[i] in r
  {
    var pairs := new PhysicalDevice[|devices|](i requires 0 <= i < |devices| => devices[i]);
    assert pairs[..] == devices;
    var last := RemoveIf(pairs, Not(keep));
    var kept := pairs[..last];
    r := SortBy(kept, less);
    SortByIsSorted(kept, less);
    KeptMembers(devices, keep, r);
  }

  /**
   * find_devices with the stock comparer: the accepted devices sorted by
   * simple_device_comparer, hence by type rank and, within a type, by
   * maximum 2D image dimension.
   */
  method FindDevicesSimple(devices: seq<PhysicalDevice>, keep: PhysicalDevice -> bool) returns (r: seq<PhysicalDevice>)
    ensures multiset(r) == multiset(Filtered(devices, Not(keep)))
    ensures SortedBy(r, SimpleDeviceLess)
    ensures forall i, j :: 0 <= i < j < |r| ==> Rank(r[i].properties.deviceType) <= Rank(r[j].properties.deviceType)
    ensures forall i :: 0 <= i < |r| ==> keep(r[i]) && r[i] in devices
    ensures forall i :: 0 <= i < |devices| && keep(devices[i]) ==> devices[i] in r
  {
    SimpleDeviceLessIsStrictWeakOrder();
    r := FindDevices(devices, keep, SimpleDeviceLess);
    SortedRanksAscend(r);
  }

  /**
   * find_queue_families: the indices, in ascending order, of the queue
   * families that `accept` takes (it is given the index and the family).
   */
  method FindQueueFamilies(families: seq<QueueFamily>, accept: (nat, QueueFamily) -> bool) returns (r: seq<nat>)
    ensures forall i, j :: 0 <= i < j < |r| ==> r[i] < r[j]
    ensures forall i :: 0 <= i < |r| ==> r[i] < |families| && accept(r[i], families[r[i]])
    ensures forall k :: 0 <= k < |families| && accept(k, families[k]) ==> k in r
  {
    r := [];
    var k := 0;
    while k < |families|
      invariant 0 <= k <= |families|
      invariant forall i, j :: 0 <= i < j < |r| ==> r[i] < r[j]
      invariant forall i :: 0 <= i < |r| ==> r[i] < k && accept(r[i], families[r[i]])
      invariant forall m :: 0 <= m < k && accept(m, families[m]) ==> m in r
    {
      if accept(k, families[k]) {
        r := r + [k];
      }
      k := k + 1;
    }
  }

  /**
   * simple_queue_filter: a family passes when it has ANY of the required
   * flag bits and at least `minCount` queues.
   */
  function SimpleQueueFilter(required: bv32, minCount: nat): (nat, QueueFamily) -> bool {
    (index: nat, family: QueueFamily) => family.flags & required != 0 && family.queueCount >= minCount
  }

  /**
   * A family with the required bit and enough queues passes, a family
   * without queues never passes with the default minimum of 1, and no flags
   * at all never pass. The mask is a `bv32`, wider than the single
   * vk::QueueFlagBits the source takes; for a single bit "any of" is "the".
   */
  lemma SimpleQueueFilterAnyBit(index: nat, family: QueueFamily, minCount: nat)
    ensures family.queueCount >= minCount ==>
      SimpleQueueFilter(ComputeBit, minCount)(index, family.(flags := ComputeBit | TransferBit))
    ensures family.flags & GraphicsBit == 0 ==> !SimpleQueueFilter(GraphicsBit, minCount)(index, family)
    ensures family.queueCount == 0 ==> !SimpleQueueFilter(family.flags, 1)(index, family)
    ensures !SimpleQueueFilter(0, minCount)(index, family)
  {
  }

  /** vk::DeviceQueueCreateInfo: a family index and how many of its queues to create. */
  datatype QueueCreateInfo = QueueCreateInfo(familyIndex: nat, queueCount: nat)

  /** A logical device: its physical device, the device extensions it enabled and the instance layers. */
  datatype Device = Device(physical: PhysicalDevice, extensions: seq<string>, layers: seq<string>)

  /** A queue: the device it belongs to, its family and its index inside the family. */
  datatype Queue = Queue(device: Device, familyIndex: nat, queueIndex: nat)

  /**
   * create_queues_from_device: a device with the given extensions, and for
   * every create info, in order, the queues 0..count-1 of its family.
   */
  function CreateQueues(physical: PhysicalDevice, extensions: seq<string>, layers: seq<string>, infos: seq<QueueCreateInfo>)
    : (r: (Device, seq<seq<Queue>>))
    ensures r.0.physical == physical && r.0.extensions == extensions && r.0.layers == layers
    ensures |r.1| == |infos|
    ensures forall i :: 0 <= i < |infos| ==> |r.1[i]| == infos[i].queueCount
    ensures forall i, j :: 0 <= i < |infos| && 0 <= j < |r.1[i]| ==>
      r.1[i][j] == Queue(r.0, infos[i].familyIndex, j)
  {
    var device := Device(physical, extensions, layers);
    (device, seq(|infos|, i requires 0 <= i < |infos| =>
      seq(infos[i].queueCount, j requires 0 <= j < infos[i].queueCount => Queue(device, infos[i].familyIndex, j))))
  }
}
