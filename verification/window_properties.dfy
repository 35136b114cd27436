/**
 * Properties of one draw() tick and one `_recreate_swapchain()`
 * (include/tiara/wm/window.hpp:176-248, 326-549), stated on the pure
 * specification in WindowSpec.
 */
module WindowProperties {
  import opened Wrappers
  import opened SwapchainRules
  import opened Reclamation
  import opened WindowSpec

  /** Whether a tick gets past the guards and the acquire. */
  predicate PassesGuards(s: WindowState, t: Tick) {
    && s.framesEnqueued < s.maxFrames
    && s.handler.Some? && s.run
    && (s.currentImage != SENTINEL || Acquired(t.acquireResult))
  }

  /** The image a tick that passes the guards draws to: the one held, or the one just acquired. */
  function TickImage(s: WindowState, t: Tick): nat {
    if s.currentImage == SENTINEL then t.acquiredIndex else s.currentImage
  }

  // ---------------------------------------------------------------------
  // Semaphore freshness
  // ---------------------------------------------------------------------

  /** Fresh semaphores inserted anywhere keep a pool set fresh. */
  lemma {:induction false} InsertFresh(x: seq<Sem>, y: seq<Sem>, id: nat, created: nat, k: nat)
    requires Fresh(x + y, id, created)
    ensures Fresh(x + Run(id, created, k) + y, id, created + k)
  {
    var before := x + y;
    var r := Run(id, created, k);
    var all := x + r + y;
    forall p | 0 <= p < |all| ensures all[p].window == id && all[p].serial < created + k {
      if p < |x| {
        assert all[p] == before[p];
      } else if p < |x| + k {
        assert all[p] == r[p - |x|];
      } else {
        assert all[p] == before[p - k];
      }
    }
    forall p, q | 0 <= p < q < |all| ensures all[p] != all[q] {
      var pNew := |x| <= p < |x| + k;
      var qNew := |x| <= q < |x| + k;
      if pNew && qNew {
        assert all[p] == r[p - |x|] && all[q] == r[q - |x|];
      } else if pNew {
        assert all[p] == r[p - |x|];
        assert all[q] == before[q - k];
      } else if qNew {
        assert all[q] == r[q - |x|];
        var op := p;
        assert all[p] == before[op];
      } else {
        var op := if p < |x| then p else p - k;
        var oq := if q < |x| then q else q - k;
        assert all[p] == before[op] && all[q] == before[oq];
        assert op < oq;
      }
    }
  }

  /** A fresh set stays fresh when more semaphores have been created. */
  lemma FreshMonotone(all: seq<Sem>, id: nat, created: nat, more: nat)
    requires Fresh(all, id, created) && created <= more
    ensures Fresh(all, id, more)
  {
  }

  /** Swapping two renderable semaphores keeps the pools fresh. */
  lemma SwapKeepsFresh(s: WindowState, id: nat, i: nat, j: nat)
    requires PoolsFresh(s, id) && i < |s.renderable| && j < |s.renderable|
    ensures PoolsFresh(s.(renderable := Swap(s.renderable, i, j)), id)
  {
    var rest := s.rendered + s.presentable;
    var before := s.renderable + s.rendered + s.presentable;
    var sw := Swap(s.renderable, i, j);
    var all := sw + s.rendered + s.presentable;
    assert before == s.renderable + rest && all == sw + rest;
    forall p | 0 <= p < |all|
      ensures exists o :: 0 <= o < |before| && all[p] == before[o] && (o == p || (p == i && o == j) || (p == j && o == i))
    {
      if p == i { assert all[p] == before[j]; }
      else if p == j { assert all[p] == before[i]; }
      else { assert all[p] == before[p]; }
    }
    forall p, q | 0 <= p < q < |all| ensures all[p] != all[q] {
      var op := if p == i then j else if p == j then i else p;
      var oq := if q == i then j else if q == j then i else q;
      assert all[p] == before[op] && all[q] == before[oq];
      assert op != oq;
      if op > oq { assert before[oq] != before[op]; }
    }
  }

  /** Growing one pool, between two others, with semaphores numbered from the creation count keeps the pools fresh. */
  lemma GrowOneFresh(x: seq<Sem>, pool: seq<Sem>, y: seq<Sem>, target: nat, id: nat, created: nat)
    requires Fresh(x + pool + y, id, created)
    ensures var g := Grow(pool, target, id, created);
      Fresh(x + g + y, id, created + (|g| - |pool|))
  {
    var g := Grow(pool, target, id, created);
    var k := |g| - |pool|;
    assert g == pool + Run(id, created, k) by {
      if |pool| >= target { assert Run(id, created, 0) == []; }
    }
    InsertFresh(x + pool, y, id, created, k);
    assert x + pool + Run(id, created, k) + y == x + g + y;
  }

  /**
   * Growing three pools in turn (`a` to `a2` numbering from `created`, `b` to
   * `b2` from `c1`, `c` to `c2` from `n2`), each numbering on from where the
   * one before stopped, keeps them fresh.
   */
  lemma GrowChainFresh(a: seq<Sem>, b: seq<Sem>, c: seq<Sem>, a2: seq<Sem>, b2: seq<Sem>, c2: seq<Sem>,
                       id: nat, created: nat, n1: nat, n2: nat, n3: nat, na: nat, nb: nat, nc: nat)
    requires Fresh(a + b + c, id, created)
    requires a2 == Grow(a, na, id, created) && n1 == created + (|a2| - |a|)
    requires b2 == Grow(b, nb, id, n1) && n2 == n1 + (|b2| - |b|)
    requires c2 == Grow(c, nc, id, n2) && n3 == n2 + (|c2| - |c|)
    ensures Fresh(a2 + b2 + c2, id, n3)
  {
    assert Fresh(a2 + b2 + c, id, n2) by {
      assert Fresh(a2 + b + c, id, n1) by {
        assert [] + a + (b + c) == a + b + c;
        GrowOneFresh([], a, b + c, na, id, created);
        assert [] + a2 + (b + c) == a2 + b + c;
      }
      GrowOneFresh(a2, b, c, nb, id, n1);
    }
    assert a2 + b2 + c + [] == a2 + b2 + c;
    GrowOneFresh(a2 + b2, c, [], nc, id, n2);
    assert a2 + b2 + c2 + [] == a2 + b2 + c2;
  }

  /** The pool-growing half of a rebuild (renderable, then rendered, then presentable) keeps the pools fresh. */
  lemma PoolsGrownKeepsFresh(s: WindowState, n: nat, id: nat)
    requires PoolsFresh(s, id) && n < SIZE_MOD
    ensures PoolsFresh(PoolsGrown(s, n, id), id)
  {
    var n1: nat := s.semaphoresCreated + (|PoolsGrown(s, n, id).renderable| - |s.renderable|);
    var n2: nat := n1 + (|PoolsGrown(s, n, id).rendered| - |s.rendered|);
    assert
      && PoolsGrown(s, n, id).renderable == Grow(s.renderable, n + 1, id, s.semaphoresCreated)
      && PoolsGrown(s, n, id).rendered == Grow(s.rendered, n, id, n1)
      && PoolsGrown(s, n, id).presentable == Grow(s.presentable, n, id, n2)
      && PoolsGrown(s, n, id).semaphoresCreated == n2 + (|PoolsGrown(s, n, id).presentable| - |s.presentable|);
    GrowChainFresh(s.renderable, s.rendered, s.presentable,
                   PoolsGrown(s, n, id).renderable, PoolsGrown(s, n, id).rendered, PoolsGrown(s, n, id).presentable,
                   id, s.semaphoresCreated, n1, n2, PoolsGrown(s, n, id).semaphoresCreated, n + 1, n, n);
  }

  // ---------------------------------------------------------------------
  // _recreate_swapchain
  // ---------------------------------------------------------------------

  /** Without a B8G8R8A8Unorm/sRGB format the rebuild throws before it changes anything. */
  lemma RebuildWithoutFormat(s: WindowState, r: RebuildInputs, id: nat, family: nat)
    requires forall j :: 0 <= j < |r.formats| ==> !IsPreferredFormat(r.formats[j])
    ensures RebuildSpec(s, r, id, family) == (s, Fail(NoSuitableFormat))
  {
  }

  /**
   * A completed rebuild: the swapchain uses the selected count, format,
   * extent and mode; no image is held; one render target and one surface
   * per image, in image order; the frame budget is images-1; the counter,
   * the run flag and the handler are kept.
   */
  lemma RebuildEffects(s: WindowState, r: RebuildInputs, id: nat, family: nat)
    ensures var (s', out) := RebuildSpec(s, r, id, family);
      out.Pass? ==>
        && SelectFormat(r.formats).Some?
        && s'.swapchain == Some(SwapchainConfig(ImageCount(r.caps), SelectFormat(r.formats).value,
             ChooseExtent(r.framebufferWidth, r.framebufferHeight, r.caps), SelectPresentMode(r.presentModes)))
        && s'.currentImage == SENTINEL
        && s'.images == r.images
        && |s'.renderTargets| == |r.images| && |s'.surfaces| == |r.images|
        && (forall i :: 0 <= i < |r.images| ==> s'.renderTargets[i].image == r.images[i] && s'.surfaces[i].target == s'.renderTargets[i])
        && s'.maxFrames == FrameBudget(|r.images|)
        && s'.framesEnqueued == s.framesEnqueued && s'.run == s.run && s'.handler == s.handler
  {
  }

  /**
   * A completed rebuild grows the pools to images+1, images and images
   * without touching their entries, and leaves the window satisfying its
   * invariant.
   */
  lemma RebuildGrowsPools(s: WindowState, r: RebuildInputs, id: nat, family: nat)
    requires PoolsFresh(s, id)
    ensures var (s', out) := RebuildSpec(s, r, id, family);
      out.Pass? ==>
        && |s'.renderable| >= |r.images| + 1 && |s'.rendered| >= |r.images| && |s'.presentable| >= |r.images|
        && s'.renderable[..|s.renderable|] == s.renderable
        && s'.rendered[..|s.rendered|] == s.rendered
        && s'.presentable[..|s.presentable|] == s.presentable
        && ValidState(s', id)
  {
    match SelectFormat(r.formats)
    case None =>
    case Some(format) =>
      var s1 := Configured(s, r, format, family);
      if !(r.surfaceFailsAt.Some? && r.surfaceFailsAt.value < |r.images|) {
        PoolsGrownKeepsFresh(s1.(surfaces := Surfaces(s1.renderTargets)), |r.images|, id);
      }
  }

  /** Whatever its outcome, a rebuild keeps the pools' entries, the traces and the counter. */
  lemma RebuildKeepsHistory(s: WindowState, r: RebuildInputs, id: nat, family: nat)
    ensures var s' := RebuildSpec(s, r, id, family).0;
      && |s'.renderable| >= |s.renderable| && s'.renderable[..|s.renderable|] == s.renderable
      && s'.drawn == s.drawn && s'.presented == s.presented
      && s'.framesEnqueued == s.framesEnqueued && s'.handler == s.handler && s'.run == s.run
  {
  }

  /** A Skia surface failure leaves the surfaces made so far, fewer than the images: the invariant is lost. */
  lemma RebuildSurfaceFailure(s: WindowState, r: RebuildInputs, id: nat, family: nat)
    requires SelectFormat(r.formats).Some?
    requires r.surfaceFailsAt.Some? && r.surfaceFailsAt.value < |r.images|
    ensures var (s', out) := RebuildSpec(s, r, id, family);
      && out == Fail(SkiaSurfaceFailed)
      && |s'.surfaces| == r.surfaceFailsAt.value < |s'.images|
      && s'.currentImage == SENTINEL
      && s'.renderable == s.renderable && s'.maxFrames == s.maxFrames
      && !ValidState(s', id)
  {
  }

  // ---------------------------------------------------------------------
  // draw()
  // ---------------------------------------------------------------------

  /**
   * A tick does nothing when the budget of frames in flight is spent, when
   * no draw handler is set, when the window is stopped, or when it holds no
   * image and the acquire neither succeeded nor was suboptimal.
   */
  lemma DrawIdleTicks(s: WindowState, t: Tick, id: nat, family: nat)
    requires ValidState(s, id) && AcquireInRange(s, t)
    ensures !PassesGuards(s, t) ==> DrawSpec(s, t, id, family) == (s, Pass)
    ensures s.framesEnqueued >= s.maxFrames ==> DrawSpec(s, t, id, family) == (s, Pass)
  {
  }

  /** The acquire step keeps the invariant and only rotates the renderable pool. */
  lemma AcquireStepKeepsValid(s: WindowState, t: Tick, id: nat)
    requires ValidState(s, id) && AcquireInRange(s, t) && (s.currentImage != SENTINEL || Acquired(t.acquireResult))
    ensures var s1 := AcquireStep(s, t);
      && ValidState(s1, id)
      && s1.currentImage == TickImage(s, t) < |s.images|
      && s1 == s.(currentImage := s1.currentImage, renderable := s1.renderable)
      && multiset(s1.renderable) == multiset(s.renderable)
      && (s.currentImage == SENTINEL ==> s1.renderable == Swap(s.renderable, TickImage(s, t), |s.renderable| - 1))
      && (s.currentImage == SENTINEL ==> s1.renderable[s1.currentImage] == s.renderable[|s.renderable| - 1])
      && (s.currentImage != SENTINEL ==> s1 == s)
  {
    AcquireStepShape(s, t);
    AcquireStepValid(s, t, id);
  }

  /** The acquire step changes only the held image and the renderable pool, which it permutes by one swap. */
  lemma AcquireStepShape(s: WindowState, t: Tick)
    requires 0 < |s.renderable|
    requires s.currentImage == SENTINEL ==> t.acquiredIndex < |s.renderable|
    ensures var s1 := AcquireStep(s, t);
      && s1.currentImage == TickImage(s, t)
      && s1 == s.(currentImage := s1.currentImage, renderable := s1.renderable)
      && multiset(s1.renderable) == multiset(s.renderable)
      && (s.currentImage == SENTINEL ==> s1.renderable == Swap(s.renderable, TickImage(s, t), |s.renderable| - 1))
      && (s.currentImage == SENTINEL ==> s1.renderable[s1.currentImage] == s.renderable[|s.renderable| - 1])
      && (s.currentImage != SENTINEL ==> s1 == s)
  {
  }

  /** The acquire step keeps the window invariant and holds an image below the image count. */
  lemma AcquireStepValid(s: WindowState, t: Tick, id: nat)
    requires ValidState(s, id) && AcquireInRange(s, t) && (s.currentImage != SENTINEL || Acquired(t.acquireResult))
    ensures ValidState(AcquireStep(s, t), id) && AcquireStep(s, t).currentImage < |s.images|
  {
    if s.currentImage == SENTINEL {
      var sw := Swap(s.renderable, t.acquiredIndex, |s.renderable| - 1);
      var s1 := s.(currentImage := t.acquiredIndex, renderable := sw);
      assert AcquireStep(s, t) == s1;
      assert PoolsFresh(s1, id) by {
        SwapKeepsFresh(s, id, t.acquiredIndex, |s.renderable| - 1);
        assert s1.renderable + s1.rendered + s1.presentable == sw + s.rendered + s.presentable;
      }
    }
  }

  /** The present step keeps the invariant. */
  lemma PresentStepKeepsValid(s: WindowState, t: Tick, id: nat)
    requires ValidState(s, id) && s.currentImage < |s.images|
    ensures ValidState(PresentStep(s, t), id)
  {
  }

  /** The state a tick past the guards has after the draw-handler call. */
  function Drawn(s: WindowState, t: Tick): WindowState
    requires 0 < |s.renderable|
    requires s.currentImage == SENTINEL ==> t.acquiredIndex < |s.renderable|
    requires s.handler.Some?
  {
    var s1 := AcquireStep(s, t);
    s1.(drawn := s1.drawn + [(s1.handler.value, s1.currentImage)])
  }

  /** After the tick, the renderable pool starts with the pool the handler call saw; the traces grow from there. */
  lemma DrawKeepsDrawnPrefix(s: WindowState, t: Tick, id: nat, family: nat)
    requires ValidState(s, id) && AcquireInRange(s, t) && PassesGuards(s, t)
    ensures var s' := DrawSpec(s, t, id, family).0;
      var d := Drawn(s, t);
      && |s'.renderable| >= |d.renderable| && s'.renderable[..|d.renderable|] == d.renderable
      && s'.drawn == d.drawn
  {
    var d := Drawn(s, t);
    var s' := DrawSpec(s, t, id, family).0;
    if !t.handlerFails {
      var s3 := PresentStep(d, t);
      if NeedsRebuild(t.presentResult) {
        RebuildKeepsHistory(s3, t.rebuild, id, family);
      } else {
        assert s'.renderable == d.renderable;
      }
    } else {
      assert s'.renderable == d.renderable;
    }
  }

  /**
   * A tick past the guards draws to its image with the current handler, and
   * afterwards the renderable pool starts with the pool as the acquire step
   * left it (AcquireStepKeepsValid: rotated by a swap, a permutation).
   */
  lemma DrawAcquireRotates(s: WindowState, t: Tick, id: nat, family: nat)
    requires ValidState(s, id) && AcquireInRange(s, t) && PassesGuards(s, t)
    ensures var s' := DrawSpec(s, t, id, family).0;
      && TickImage(s, t) < |s.images|
      && s'.drawn == s.drawn + [(s.handler.value, TickImage(s, t))]
      && s'.renderable[..|s.renderable|] == AcquireStep(s, t).renderable
  {
    AcquireStepKeepsValid(s, t, id);
    DrawKeepsDrawnPrefix(s, t, id, family);
  }

  /**
   * The frames-enqueued counter: a tick that reaches present adds 1, or 2
   * when the presentable flush was not submitted; any other tick adds
   * nothing. It never decreases.
   */
  lemma DrawCounter(s: WindowState, t: Tick, id: nat, family: nat)
    requires ValidState(s, id) && AcquireInRange(s, t)
    ensures var s' := DrawSpec(s, t, id, family).0;
      && s'.framesEnqueued >= s.framesEnqueued
      && (PassesGuards(s, t) && !t.handlerFails ==>
            s'.framesEnqueued == s.framesEnqueued + (if t.presentableFlushSubmitted then 1 else 2))
      && (!(PassesGuards(s, t) && !t.handlerFails) ==> s'.framesEnqueued == s.framesEnqueued)
  {
  }

  /**
   * A tick that reaches present presents its image, waiting on that image's
   * presentable semaphore; afterwards no image is held; an out-of-date or
   * suboptimal result rebuilds the swapchain, any other non-success throws
   * DrawWindowError.
   */
  lemma DrawPresents(s: WindowState, t: Tick, id: nat, family: nat)
    requires ValidState(s, id) && AcquireInRange(s, t) && PassesGuards(s, t) && !t.handlerFails
    ensures var (s', out) := DrawSpec(s, t, id, family);
      var img := TickImage(s, t);
      && s'.presented == s.presented + [(img, s.presentable[img])]
      && s'.currentImage == SENTINEL
      && (NeedsRebuild(t.presentResult) ==>
            (out.Pass? <==> SelectFormat(t.rebuild.formats).Some?
                            && !(t.rebuild.surfaceFailsAt.Some? && t.rebuild.surfaceFailsAt.value < |t.rebuild.images|)))
      && (NeedsRebuild(t.presentResult) && out.Pass? ==>
            s'.images == t.rebuild.images && s'.maxFrames == FrameBudget(|t.rebuild.images|))
      && (t.presentResult == Success ==> out == Pass)
      && (!NeedsRebuild(t.presentResult) && t.presentResult != Success ==> out == Fail(DrawWindowError))
  {
    AcquireStepKeepsValid(s, t, id);
  }

  /** A draw handler that throws leaves its image held; the next tick skips the acquire and draws to it again. */
  lemma DrawHandlerFailureHoldsImage(s: WindowState, t: Tick, id: nat, family: nat)
    requires ValidState(s, id) && AcquireInRange(s, t) && PassesGuards(s, t) && t.handlerFails
    ensures var (s', out) := DrawSpec(s, t, id, family);
      && out == Fail(DrawHandlerFailed)
      && s'.currentImage == TickImage(s, t) != SENTINEL
      && s'.framesEnqueued == s.framesEnqueued
      && s'.presented == s.presented
      && ValidState(s', id)
  {
    AcquireStepKeepsValid(s, t, id);
  }

  /** Every tick keeps the invariant, except one whose rebuild could not create the Skia surfaces. */
  lemma DrawKeepsValid(s: WindowState, t: Tick, id: nat, family: nat)
    requires ValidState(s, id) && AcquireInRange(s, t)
    ensures var (s', out) := DrawSpec(s, t, id, family);
      out != Fail(SkiaSurfaceFailed) ==> ValidState(s', id)
  {
    if PassesGuards(s, t) {
      AcquireStepKeepsValid(s, t, id);
      var s1 := AcquireStep(s, t);
      var s2 := s1.(drawn := s1.drawn + [(s1.handler.value, s1.currentImage)]);
      if !t.handlerFails {
        var s3 := PresentStep(s2, t);
        PresentStepKeepsValid(s2, t, id);
        if NeedsRebuild(t.presentResult) {
          RebuildGrowsPools(s3, t.rebuild, id, family);
        }
      }
    }
  }
}
