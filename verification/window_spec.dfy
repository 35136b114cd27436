/**
 * The per-window frame-pacing state machine of `detail::Window`
 * (include/tiara/wm/window.hpp) as values: the window's state, one tick of
 * `draw()` and one `_recreate_swapchain()` as pure functions of the state
 * and of what the GPU, Skia and GLFW report (the oracle inputs), and the
 * properties of both. The class in window.dfy is proved to follow them.
 */
module WindowSpec {
  import opened Wrappers
  import opened WmCommon
  import opened SwapchainRules
  import opened Reclamation

  /** std::numeric_limits<uint32_t>::max(): no image acquired. */
  const SENTINEL: nat := 0xFFFF_FFFF

  /** The vk::Result codes draw() distinguishes. */
  datatype VkResult = Success | NotReady | Timeout | SuboptimalKHR | ErrorOutOfDateKHR | ErrorCode(code: int)

  datatype WindowError =
    | DrawWindowError     // present failed with another error
    | NoSuitableFormat    // CreateWindowError: no B8G8R8A8Unorm/sRGB format
    | SkiaSurfaceFailed   // CreateWindowError: a Skia surface could not wrap a swapchain image
    | DrawHandlerFailed   // the draw handler threw

  /** What the swapchain was created with. */
  datatype SwapchainConfig = SwapchainConfig(minImageCount: U32, format: SurfaceFormat, extent: Extent, presentMode: nat)

  /** GrBackendRenderTarget: size, wrapped image, format and owning queue family. */
  datatype RenderTarget = RenderTarget(width: int, height: int, image: nat, format: nat, queueFamily: nat)

  /** An SkSurface over a render target. */
  datatype SkSurface = SkSurface(target: RenderTarget)

  /** The swapchain's images; their count is a uint32_t. */
  type ImageList = s: seq<nat> | |s| <= 0xFFFF_FFFF witness []

  /**
   * What the device reports during `_recreate_swapchain`: surface
   * capabilities, formats, present modes, the framebuffer size GLFW gives,
   * the swapchain's images, and the index of the first image Skia cannot
   * wrap in a surface (None when it wraps all).
   */
  datatype RebuildInputs = RebuildInputs(
    caps: SurfaceCapabilities,
    formats: seq<SurfaceFormat>,
    presentModes: seq<nat>,
    framebufferWidth: int,
    framebufferHeight: int,
    images: ImageList,
    surfaceFailsAt: Option<nat>)

  /**
   * What one draw() tick observes: the acquire result and index, whether
   * the draw handler threw, whether the presentable-semaphore flush was
   * submitted (not kNo), the present result, and what a rebuild would see.
   */
  datatype Tick = Tick(
    acquireResult: VkResult,
    acquiredIndex: U32,
    handlerFails: bool,
    presentableFlushSubmitted: bool,
    presentResult: VkResult,
    rebuild: RebuildInputs)

  /**
   * The fields of detail::Window that the logic reads and writes, plus two
   * traces: `drawn` (handler, image) for every draw-handler call, and
   * `presented` (image, wait semaphore) for every present; and the count of
   * semaphores created so far, which numbers them.
   */
  datatype WindowState = WindowState(
    handler: Option<nat>,
    run: bool,
    framesEnqueued: nat,
    maxFrames: nat,
    currentImage: nat,
    swapchain: Option<SwapchainConfig>,
    extent: (int, int),
    images: seq<nat>,
    renderTargets: seq<RenderTarget>,
    surfaces: seq<SkSurface>,
    renderable: seq<Sem>,
    rendered: seq<Sem>,
    presentable: seq<Sem>,
    semaphoresCreated: nat,
    drawn: seq<(nat, nat)>,
    presented: seq<(nat, Sem)>)

  /** The state after the constructor's member initialisers, before its `_recreate_swapchain()`. */
  function Initial(): (s: WindowState)
    ensures s.run && s.framesEnqueued == 0 && s.maxFrames == 0 && s.currentImage == SENTINEL
    ensures s.swapchain == None && s.handler == None
  {
    WindowState(None, true, 0, 0, SENTINEL, None, (0, 0), [], [], [], [], [], [], 0, [], [])
  }

  /** Every semaphore of `all` was created by window `id`, is numbered below `created`, and occurs once. */
  predicate Fresh(all: seq<Sem>, id: nat, created: nat) {
    && (forall i :: 0 <= i < |all| ==> all[i].window == id && all[i].serial < created)
    && (forall i, j :: 0 <= i < j < |all| ==> all[i] != all[j])
  }

  /** The three pools hold distinct semaphores of this window. */
  predicate PoolsFresh(s: WindowState, id: nat) {
    Fresh(s.renderable + s.rendered + s.presentable, id, s.semaphoresCreated)
  }

  /** The invariant of a window whose last rebuild completed. */
  predicate ValidState(s: WindowState, id: nat) {
    && s.swapchain.Some?
    && |s.images| <= SENTINEL
    && |s.renderTargets| == |s.images| && |s.surfaces| == |s.images|
    && |s.renderable| >= |s.images| + 1 && |s.rendered| >= |s.images| && |s.presentable| >= |s.images|
    && (s.currentImage == SENTINEL || s.currentImage < |s.images|)
    && s.maxFrames == FrameBudget(|s.images|)
    && PoolsFresh(s, id)
  }

  /** The driver returns an image index below the image count. */
  predicate AcquireInRange(s: WindowState, t: Tick) {
    Acquired(t.acquireResult) ==> t.acquiredIndex < |s.images|
  }

  predicate Acquired(r: VkResult) {
    r == Success || r == SuboptimalKHR
  }

  predicate NeedsRebuild(r: VkResult) {
    r == ErrorOutOfDateKHR || r == SuboptimalKHR
  }

  /** std::swap of two elements. */
  function Swap<T>(s: seq<T>, i: nat, j: nat): (r: seq<T>)
    requires i < |s| && j < |s|
    ensures |r| == |s| && r[i] == s[j] && r[j] == s[i]
    ensures forall k :: 0 <= k < |s| && k != i && k != j ==> r[k] == s[k]
    ensures multiset(r) == multiset(s)
  {
    s[i := s[j]][j := s[i]]
  }

  /** `k` new semaphores of window `id`, numbered from `next`. */
  function Run(id: nat, next: nat, k: nat): (r: seq<Sem>)
    ensures |r| == k && forall i :: 0 <= i < k ==> r[i] == Sem(id, next + i)
  {
    if k == 0 then [] else Run(id, next, k - 1) + [Sem(id, next + k - 1)]
  }

  /** A pool grown to `target` entries with fresh semaphores numbered from `next` (never shrunk). */
  function Grow(pool: seq<Sem>, target: nat, id: nat, next: nat): (r: seq<Sem>)
    ensures |r| == if |pool| < target then target else |pool|
    ensures r[..|pool|] == pool
    ensures forall k :: |pool| <= k < |r| ==> r[k] == Sem(id, next + k - |pool|)
  {
    if |pool| < target then pool + Run(id, next, target - |pool|) else pool
  }

  /** One render target per swapchain image, in image order. */
  function Targets(images: seq<nat>, width: int, height: int, format: nat, family: nat): (r: seq<RenderTarget>)
    ensures |r| == |images|
    ensures forall i :: 0 <= i < |images| ==> r[i].image == images[i] && r[i].width == width && r[i].height == height
  {
    if images == [] then []
    else Targets(images[..|images| - 1], width, height, format, family) + [RenderTarget(width, height, images[|images| - 1], format, family)]
  }

  function Surfaces(targets: seq<RenderTarget>): (r: seq<SkSurface>)
    ensures |r| == |targets| && forall i :: 0 <= i < |r| ==> r[i].target == targets[i]
  {
    if targets == [] then [] else Surfaces(targets[..|targets| - 1]) + [SkSurface(targets[|targets| - 1])]
  }

  /**
   * The first half of a rebuild with the chosen `format`: the new swapchain
   * (image count, format, clamped extent, present mode), no image held, the
   * swapchain's images and one render target per image.
   */
  function Configured(s: WindowState, r: RebuildInputs, format: SurfaceFormat, family: nat): (s': WindowState)
    ensures s'.currentImage == SENTINEL && s'.images == r.images && |s'.renderTargets| == |r.images|
    ensures s'.renderable == s.renderable && s'.rendered == s.rendered && s'.presentable == s.presentable
    ensures s'.semaphoresCreated == s.semaphoresCreated && s'.maxFrames == s.maxFrames
    ensures s'.framesEnqueued == s.framesEnqueued && s'.drawn == s.drawn && s'.presented == s.presented
  {
    var e := ChooseExtent(r.framebufferWidth, r.framebufferHeight, r.caps);
    var width := ToI32(e.width);
    var height := ToI32(e.height);
    s.(swapchain := Some(SwapchainConfig(ImageCount(r.caps), format, e, SelectPresentMode(r.presentModes))),
       extent := (width, height),
       currentImage := SENTINEL,
       images := r.images,
       renderTargets := Targets(r.images, width, height, format.format, family))
  }

  /**
   * The second half of a rebuild for `n` images: the renderable pool grown
   * to n + 1, the rendered and presentable pools to n, with fresh
   * semaphores numbered on, and the frame budget recomputed.
   */
  function PoolsGrown(s: WindowState, n: nat, id: nat): (s': WindowState)
    requires n < SIZE_MOD
    ensures s'.semaphoresCreated >= s.semaphoresCreated && s'.maxFrames == FrameBudget(n)
    ensures |s'.renderable| >= n + 1 && |s'.rendered| >= n && |s'.presentable| >= n
  {
    var renderable := Grow(s.renderable, n + 1, id, s.semaphoresCreated);
    var c1 := s.semaphoresCreated + (|renderable| - |s.renderable|);
    var rendered := Grow(s.rendered, n, id, c1);
    var c2 := c1 + (|rendered| - |s.rendered|);
    var presentable := Grow(s.presentable, n, id, c2);
    var c3 := c2 + (|presentable| - |s.presentable|);
    s.(renderable := renderable, rendered := rendered, presentable := presentable,
       semaphoresCreated := c3, maxFrames := FrameBudget(n))
  }

  /**
   * `_recreate_swapchain()` of window `id` on the present queue's family
   * `family`: select, create the swapchain, rebuild render targets and
   * surfaces, grow the three pools, recompute the frame budget.
   */
  function RebuildSpec(s: WindowState, r: RebuildInputs, id: nat, family: nat): (WindowState, Outcome<WindowError>) {
    match SelectFormat(r.formats)
    case None => (s, Fail(NoSuitableFormat))
    case Some(format) =>
      var s1 := Configured(s, r, format, family);
      if r.surfaceFailsAt.Some? && r.surfaceFailsAt.value < |r.images| then
        (s1.(surfaces := Surfaces(s1.renderTargets[..r.surfaceFailsAt.value])), Fail(SkiaSurfaceFailed))
      else
        (PoolsGrown(s1.(surfaces := Surfaces(s1.renderTargets)), |r.images|, id), Pass)
  }

  /** Acquire when no image is held: hold the acquired image and swap its renderable slot with the last one. */
  function AcquireStep(s: WindowState, t: Tick): (s': WindowState)
    requires 0 < |s.renderable|
    requires s.currentImage == SENTINEL ==> t.acquiredIndex < |s.renderable|
  {
    if s.currentImage == SENTINEL then
      s.(currentImage := t.acquiredIndex, renderable := Swap(s.renderable, t.acquiredIndex, |s.renderable| - 1))
    else s
  }

  /** Count the frame (twice when the presentable flush was not submitted), present the held image, hold none. */
  function PresentStep(s: WindowState, t: Tick): (s': WindowState)
    requires s.currentImage < |s.presentable|
  {
    s.(framesEnqueued := s.framesEnqueued + (if t.presentableFlushSubmitted then 1 else 2),
       presented := s.presented + [(s.currentImage, s.presentable[s.currentImage])],
       currentImage := SENTINEL)
  }

  /**
   * One `draw()` tick of window `id`. Returns the new state and whether the
   * tick returned normally or threw.
   */
  function DrawSpec(s: WindowState, t: Tick, id: nat, family: nat): (WindowState, Outcome<WindowError>)
    requires ValidState(s, id) && AcquireInRange(s, t)
  {
    if s.framesEnqueued >= s.maxFrames then (s, Pass)
    else if s.handler.None? || !s.run then (s, Pass)
    else if s.currentImage == SENTINEL && !Acquired(t.acquireResult) then (s, Pass)
    else
      var s1 := AcquireStep(s, t);
      var s2 := s1.(drawn := s1.drawn + [(s1.handler.value, s1.currentImage)]);
      if t.handlerFails then (s2, Fail(DrawHandlerFailed))
      else
        var s3 := PresentStep(s2, t);
        if NeedsRebuild(t.presentResult) then RebuildSpec(s3, t.rebuild, id, family)
        else if t.presentResult != Success then (s3, Fail(DrawWindowError))
        else (s3, Pass)
  }
}
