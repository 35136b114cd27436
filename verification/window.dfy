/**
 * `tiara::wm::detail::Window` (include/tiara/wm/window.hpp) as a class
 * whose fields the methods update in place. Each method is proved to move
 * the window from `old(Snapshot())` to the state the value-level
 * specification in window_spec.dfy prescribes; the properties of those
 * specifications are the lemmas of window_properties.dfy.
 */
module WindowModel {
  import opened Wrappers
  import opened WmCommon
  import opened SwapchainRules
  import opened Reclamation
  import opened WindowSpec

  /** Grows `pool` to `target` entries, creating one semaphore per missing slot. */
  method GrowPool(pool: seq<Sem>, target: nat, id: nat, next: nat) returns (r: seq<Sem>)
    ensures r == Grow(pool, target, id, next)
  {
    r := pool;
    var k := |pool|;
    while k < target
      invariant |pool| <= k <= (if |pool| < target then target else |pool|) && |r| == k
      invariant r[..|pool|] == pool
      invariant forall i :: |pool| <= i < k ==> r[i] == Sem(id, next + i - |pool|)
    {
      r := r + [Sem(id, next + k - |pool|)];
      k := k + 1;
    }
    assert |r| == |Grow(pool, target, id, next)|;
  }

  /**
   * The three back_inserter loops of a rebuild for `n` images: the renderable
   * pool to n + 1, then the rendered and presentable pools to n, numbering
   * the new semaphores on from the creation count `c3` ends at.
   */
  method GrowAllPools(s: WindowState, n: nat, id: nat) returns (r1: seq<Sem>, r2: seq<Sem>, r3: seq<Sem>, c3: nat)
    requires n < SIZE_MOD
    ensures PoolsGrown(s, n, id) == s.(renderable := r1, rendered := r2, presentable := r3, semaphoresCreated := c3, maxFrames := FrameBudget(n))
  {
    r1 := GrowPool(s.renderable, n + 1, id, s.semaphoresCreated);
    var c1 := s.semaphoresCreated + (|r1| - |s.renderable|);
    r2 := GrowPool(s.rendered, n, id, c1);
    var c2 := c1 + (|r2| - |s.rendered|);
    r3 := GrowPool(s.presentable, n, id, c2);
    c3 := c2 + (|r3| - |s.presentable|);
  }

  /**
   * The swapchain creation of a rebuild: the image count, `format`, the
   * clamped extent and the present mode, and one render target per image of
   * the new swapchain.
   */
  method CreateSwapchain(s: WindowState, r: RebuildInputs, format: SurfaceFormat, family: nat)
    returns (sc: Option<SwapchainConfig>, ext: (int, int), targets: seq<RenderTarget>)
    ensures Configured(s, r, format, family)
      == s.(swapchain := sc, extent := ext, currentImage := SENTINEL, images := r.images, renderTargets := targets)
  {
    var e := ChooseExtent(r.framebufferWidth, r.framebufferHeight, r.caps);
    sc := Some(SwapchainConfig(ImageCount(r.caps), format, e, SelectPresentMode(r.presentModes)));
    ext := (ToI32(e.width), ToI32(e.height));
    targets := Targets(r.images, ext.0, ext.1, format.format, family);
  }

  class Window {
    /** The window's identity (`this` in the reclamation table). */
    const id: nat
    var handler: Option<nat>
    var run: bool
    var framesEnqueued: nat
    var maxFrames: nat
    var currentImage: nat
    var swapchain: Option<SwapchainConfig>
    var extent: (int, int)
    var images: seq<nat>
    var renderTargets: seq<RenderTarget>
    var surfaces: seq<SkSurface>
    var renderable: seq<Sem>
    var rendered: seq<Sem>
    var presentable: seq<Sem>
    var semaphoresCreated: nat
    /** (handler, image) of every draw-handler call. */
    var drawn: seq<(nat, nat)>
    /** (image, wait semaphore) of every presentKHR. */
    var presented: seq<(nat, Sem)>

    /** The fields as a value. */
    function Snapshot(): WindowState
      reads this
    {
      WindowState(handler, run, framesEnqueued, maxFrames, currentImage, swapchain, extent, images,
                  renderTargets, surfaces, renderable, rendered, presentable, semaphoresCreated, drawn, presented)
    }

    predicate Valid()
      reads this
    {
      ValidState(Snapshot(), id)
    }

    /** The member initialisers; the constructor body's `_recreate_swapchain()` is `Open`. */
    constructor (id: nat)
      ensures this.id == id && Snapshot() == Initial()
    {
      this.id := id;
      handler := None;
      run := true;
      framesEnqueued := 0;
      maxFrames := 0;
      currentImage := SENTINEL;
      swapchain := None;
      extent := (0, 0);
      images := [];
      renderTargets := [];
      surfaces := [];
      renderable := [];
      rendered := [];
      presentable := [];
      semaphoresCreated := 0;
      drawn := [];
      presented := [];
    }

    /** `start_dispatch` for draw events: the window keeps one draw handler. */
    method StartDrawDispatch(h: nat)
      modifies this
      ensures Snapshot() == old(Snapshot()).(handler := Some(h))
    {
      handler := Some(h);
    }

    /** `stop_dispatch` for draw events: forgets the handler only when it is `h`. */
    method StopDrawDispatch(h: nat)
      modifies this
      ensures Snapshot() == if old(handler) == Some(h) then old(Snapshot()).(handler := None) else old(Snapshot())
    {
      if handler.Some? && handler.value == h {
        handler := None;
      }
    }

    /** `stop()`: later draws do nothing. */
    method Stop()
      modifies this
      ensures Snapshot() == old(Snapshot()).(run := false)
    {
      run := false;
    }

    /** Builds one Skia surface per render target, stopping at the first one Skia refuses. */
    method BuildSurfaces(failsAt: Option<nat>) returns (built: seq<SkSurface>, ok: bool)
      ensures ok <==> !(failsAt.Some? && failsAt.value < |renderTargets|)
      ensures ok ==> built == Surfaces(renderTargets)
      ensures !ok ==> built == Surfaces(renderTargets[..failsAt.value])
    {
      built := [];
      var i := 0;
      while i < |renderTargets|
        invariant 0 <= i <= |renderTargets|
        invariant built == Surfaces(renderTargets[..i])
        invariant failsAt.Some? ==> failsAt.value >= i
      {
        if failsAt == Some(i) {
          return built, false;
        }
        built := built + [SkSurface(renderTargets[i])];
        i := i + 1;
      }
      assert renderTargets[..i] == renderTargets;
      ok := true;
    }

    /** Creates the swapchain with `format` and rebuilds the render targets over its images. */
    method Configure(r: RebuildInputs, format: SurfaceFormat, family: nat)
      modifies this
      ensures Snapshot() == Configured(old(Snapshot()), r, format, family)
    {
      var sc, ext, targets := CreateSwapchain(Snapshot(), r, format, family);
      swapchain, extent, currentImage, images, renderTargets := sc, ext, SENTINEL, r.images, targets;
    }

    /** Grows the three semaphore pools for `n` images and recomputes the frame budget. */
    method GrowPools(n: nat)
      requires n < SIZE_MOD
      modifies this
      ensures Snapshot() == PoolsGrown(old(Snapshot()), n, id)
    {
      var r1, r2, r3, c3 := GrowAllPools(Snapshot(), n, id);
      renderable, rendered, presentable, semaphoresCreated, maxFrames := r1, r2, r3, c3, FrameBudget(n);
    }

    /** `_recreate_swapchain()` on the present queue's family `family`. */
    method RecreateSwapchain(r: RebuildInputs, family: nat) returns (out: Outcome<WindowError>)
      modifies this
      ensures (Snapshot(), out) == RebuildSpec(old(Snapshot()), r, id, family)
    {
      var format := SelectFormat(r.formats);
      if format.None? {
        return Fail(NoSuitableFormat);
      }
      Configure(r, format.value, family);
      var built, ok := BuildSurfaces(r.surfaceFailsAt);
      surfaces := built;
      if !ok {
        return Fail(SkiaSurfaceFailed);
      }
      GrowPools(|images|);
      out := Pass;
    }

    /** The acquire of `draw()`: with no image held, hold the acquired one and rotate its renderable semaphore to the back. */
    method AcquireImage(t: Tick)
      requires 0 < |renderable|
      requires currentImage == SENTINEL ==> t.acquiredIndex < |renderable|
      modifies this
      ensures Snapshot() == AcquireStep(old(Snapshot()), t)
    {
      if currentImage == SENTINEL {
        currentImage := t.acquiredIndex;
        var last := |renderable| - 1;
        renderable := renderable[currentImage := renderable[last]][last := renderable[currentImage]];
      }
    }

    /** The flushes, the frame count and the present of `draw()`. */
    method PresentImage(t: Tick)
      requires currentImage < |presentable|
      modifies this
      ensures Snapshot() == PresentStep(old(Snapshot()), t)
    {
      if !t.presentableFlushSubmitted {
        framesEnqueued := framesEnqueued + 1;
      }
      framesEnqueued := framesEnqueued + 1;
      presented := presented + [(currentImage, presentable[currentImage])];
      currentImage := SENTINEL;
    }

    /** `draw()`: one frame of the window, given what the GPU, Skia and the handler report. */
    method Draw(t: Tick, family: nat) returns (out: Outcome<WindowError>)
      requires Valid() && AcquireInRange(Snapshot(), t)
      modifies this
      ensures (Snapshot(), out) == DrawSpec(old(Snapshot()), t, id, family)
    {
      if framesEnqueued >= maxFrames || handler.None? || !run {
        return Pass;
      }
      if currentImage == SENTINEL && !Acquired(t.acquireResult) {
        return Pass;
      }
      AcquireImage(t);
      drawn := drawn + [(handler.value, currentImage)];
      if t.handlerFails {
        return Fail(DrawHandlerFailed);
      }
      PresentImage(t);
      if NeedsRebuild(t.presentResult) {
        out := RecreateSwapchain(t.rebuild, family);
      } else if t.presentResult != Success {
        out := Fail(DrawWindowError);
      } else {
        out := Pass;
      }
    }

    /**
     * The destructor: a window still running or with frames in flight parks
     * its semaphores in the reclamation table (when it has no entry yet);
     * returns the semaphores destroyed with the window right away.
     */
    method Destroy(table: ReclamationTable) returns (freed: seq<Sem>)
      modifies table
      ensures var all := renderable + rendered + presentable;
        && (run || framesEnqueued > 0 ==> table.entries == Parked(old(table.entries), id, all))
        && (!(run || framesEnqueued > 0) ==> table.entries == old(table.entries))
        && freed == (if (run || framesEnqueued > 0) && id !in old(table.entries) then [] else all)
    {
      freed := renderable + rendered + presentable;
      if run || framesEnqueued > 0 {
        var inserted := table.Park(id, renderable, rendered, presentable);
        if inserted {
          freed := [];
        }
      }
    }
  }

  /** The constructor of `detail::Window`: member initialisers, then `_recreate_swapchain()`. */
  method Open(id: nat, r: RebuildInputs, family: nat) returns (w: Window, out: Outcome<WindowError>)
    ensures fresh(w) && w.id == id
    ensures (w.Snapshot(), out) == RebuildSpec(Initial(), r, id, family)
  {
    w := new Window(id);
    out := w.RecreateSwapchain(r, family);
  }
}
