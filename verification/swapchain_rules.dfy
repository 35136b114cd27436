/**
 * The selection rules `_recreate_swapchain` applies before it creates a
 * swapchain (include/tiara/wm/window.hpp): image count, image format,
 * image extent, present mode, and the frame budget derived from the number
 * of images. Integer widths are those of the source: uint32_t for Vulkan
 * quantities, int for the framebuffer size, size_t for the frame budget.
 */
module SwapchainRules {
  import opened Wrappers
  import opened WmCommon

  const U32_MOD: nat := 0x1_0000_0000
  const U32_MAX: nat := 0xFFFF_FFFF
  const SIZE_MOD: nat := 0x1_0000_0000_0000_0000
  const SIZE_MAX: nat := 0xFFFF_FFFF_FFFF_FFFF

  /** uint32_t */
  type U32 = x: nat | x < 0x1_0000_0000

  /** vk::Extent2D */
  datatype Extent = Extent(width: U32, height: U32)

  /** The part of vk::SurfaceCapabilitiesKHR the rules read (a maxImageCount of 0 means no limit). */
  datatype SurfaceCapabilities = SurfaceCapabilities(
    minImageCount: U32,
    maxImageCount: U32,
    minImageExtent: Extent,
    maxImageExtent: Extent)

  /** std::min(minImageCount + 1, maxImageCount == 0 ? UINT32_MAX : maxImageCount), with the uint32_t addition wrapping. */
  function ImageCount(caps: SurfaceCapabilities): (n: U32)
    ensures n <= (caps.minImageCount + 1) % U32_MOD
    ensures caps.maxImageCount != 0 ==> n <= caps.maxImageCount
    ensures n == (caps.minImageCount + 1) % U32_MOD || n == caps.maxImageCount || n == U32_MAX
  {
    var wanted := (caps.minImageCount + 1) % U32_MOD;
    var limit := if caps.maxImageCount == 0 then U32_MAX else caps.maxImageCount;
    if limit < wanted then limit else wanted
  }

  /** One image more than the minimum, unless the maximum forbids it; a minimum of UINT32_MAX wraps to 0. */
  lemma ImageCountCases(caps: SurfaceCapabilities)
    ensures caps.minImageCount < U32_MAX && (caps.maxImageCount == 0 || caps.minImageCount < caps.maxImageCount)
      ==> ImageCount(caps) == caps.minImageCount + 1
    ensures caps.maxImageCount != 0 && caps.maxImageCount <= caps.minImageCount && caps.minImageCount < U32_MAX
      ==> ImageCount(caps) == caps.maxImageCount
    ensures caps.minImageCount == U32_MAX ==> ImageCount(caps) == 0
  {
  }

  /** The format the swapchain wants: B8G8R8A8Unorm in the sRGB non-linear colour space. */
  predicate IsPreferredFormat(f: SurfaceFormat) {
    f.format == FormatB8G8R8A8Unorm && f.colorSpace == ColorSpaceSrgbNonlinear
  }

  /** std::ranges::find_if from position k: the index of the first preferred format, if any. */
  function FindPreferredFormat(formats: seq<SurfaceFormat>, k: nat): (r: Option<nat>)
    requires k <= |formats|
    ensures r.Some? ==> k <= r.value < |formats| && IsPreferredFormat(formats[r.value])
    ensures r.Some? ==> forall j :: k <= j < r.value ==> !IsPreferredFormat(formats[j])
    ensures r.None? <==> forall j :: k <= j < |formats| ==> !IsPreferredFormat(formats[j])
    decreases |formats| - k
  {
    if k == |formats| then None
    else if IsPreferredFormat(formats[k]) then Some(k)
    else FindPreferredFormat(formats, k + 1)
  }

  /** The selected format: the first preferred one, or None, upon which the source throws CreateWindowError. */
  function SelectFormat(formats: seq<SurfaceFormat>): (r: Option<SurfaceFormat>)
    ensures r.Some? ==> IsPreferredFormat(r.value) && r.value in formats
    ensures r.None? <==> forall j :: 0 <= j < |formats| ==> !IsPreferredFormat(formats[j])
  {
    match FindPreferredFormat(formats, 0)
    case None => None
    case Some(k) => Some(formats[k])
  }

  /** static_cast<uint32_t> of an int: two's complement wrap-around. */
  function ToU32(v: int): (r: U32)
    ensures 0 <= v < U32_MOD ==> r == v
    ensures -(U32_MOD as int) <= v < 0 ==> r == v + U32_MOD
  {
    v % U32_MOD
  }

  /** static_cast<int> of a uint32_t (32-bit int). */
  function ToI32(u: U32): (r: int)
    ensures -0x8000_0000 <= r < 0x8000_0000
    ensures ToU32(r) == u
  {
    if u < 0x8000_0000 then u else u - U32_MOD
  }

  /** std::clamp(v, lo, hi): `v < lo ? lo : hi < v ? hi : v`. */
  function Clamp(v: U32, lo: U32, hi: U32): (r: U32)
    ensures lo <= hi ==> lo <= r <= hi
    ensures lo <= v <= hi ==> r == v
    ensures r == v || r == lo || r == hi
  {
    if v < lo then lo else if hi < v then hi else v
  }

  /** The swapchain extent: the framebuffer size, cast to uint32_t and clamped per axis. */
  function ChooseExtent(width: int, height: int, caps: SurfaceCapabilities): (e: Extent)
    ensures caps.minImageExtent.width <= caps.maxImageExtent.width ==>
      caps.minImageExtent.width <= e.width <= caps.maxImageExtent.width
    ensures caps.minImageExtent.height <= caps.maxImageExtent.height ==>
      caps.minImageExtent.height <= e.height <= caps.maxImageExtent.height
  {
    Extent(Clamp(ToU32(width), caps.minImageExtent.width, caps.maxImageExtent.width),
           Clamp(ToU32(height), caps.minImageExtent.height, caps.maxImageExtent.height))
  }

  /** A framebuffer size within the limits is kept; a negative one wraps to a huge width and is clamped to the maximum. */
  lemma ChooseExtentCases(width: int, height: int, caps: SurfaceCapabilities)
    ensures caps.minImageExtent.width <= width <= caps.maxImageExtent.width
      && caps.minImageExtent.height <= height <= caps.maxImageExtent.height
      ==> ChooseExtent(width, height, caps) == Extent(width, height)
    ensures -0x8000_0000 <= width < 0 && caps.maxImageExtent.width < 0x8000_0000
      && caps.minImageExtent.width <= caps.maxImageExtent.width
      ==> ChooseExtent(width, height, caps).width == caps.maxImageExtent.width
  {
  }

  /** Mailbox if the surface offers it, otherwise FIFO (which every surface supports). */
  function SelectPresentMode(modes: seq<nat>): (m: nat)
    ensures m == PresentMailbox || m == PresentFifo
    ensures m == PresentMailbox <==> PresentMailbox in modes
  {
    if PresentMailbox in modes then PresentMailbox else PresentFifo
  }

  /**
   * max_frames_enqueued = images - 1 in size_t arithmetic, for an image
   * count that is itself a size_t: only zero wraps, to SIZE_MAX.
   */
  function FrameBudget(images: nat): (m: nat)
    requires images < SIZE_MOD
    ensures m < SIZE_MOD && m == (images + SIZE_MOD - 1) % SIZE_MOD
    ensures 0 < images ==> m == images - 1
    ensures images == 0 ==> m == SIZE_MAX
  {
    if images == 0 then SIZE_MAX else images - 1
  }

  /**
   * A surface allowing 2..3 images gets a request for 3; if the driver
   * returns 3 images, the frame budget is 2 (a cap on the frames counted
   * in total, since the counter is never decremented).
   */
  lemma TypicalSurface(caps: SurfaceCapabilities)
    requires caps.minImageCount == 2 && caps.maxImageCount == 3
    ensures ImageCount(caps) == 3 && FrameBudget(ImageCount(caps)) == 2
  {
  }
}
