/**
 * Tiara::init / deinit of include/tiara/core/core.hpp: three initialisation
 * steps guarded by `step_or_rollback`, whose undo actions form a LIFO stack
 * (`deinit_func`) unwound by `rollback`; and the merge of the instance
 * extension names GLFW requires with the ones the user configured.
 */
module CoreInit {
  import opened Wrappers
  import opened Sorting

  // ---------------------------------------------------------------------
  // Instance extension names
  // ---------------------------------------------------------------------

  /** std::string's operator<: lexicographic comparison of the characters. */
  predicate StringLess(a: string, b: string) {
    if a == [] then b != []
    else if b == [] then false
    else a[0] < b[0] || (a[0] == b[0] && StringLess(a[1..], b[1..]))
  }

  lemma {:induction false} StringLessIrreflexive(a: string)
    ensures !StringLess(a, a)
  {
    if a != [] { StringLessIrreflexive(a[1..]); }
  }

  lemma {:induction false} StringLessTransitive(a: string, b: string, c: string)
    requires StringLess(a, b) && StringLess(b, c)
    ensures StringLess(a, c)
  {
    if a != [] && b != [] && c != [] && a[0] == b[0] == c[0] {
      StringLessTransitive(a[1..], b[1..], c[1..]);
    }
  }

  lemma {:induction false} StringLessTotal(a: string, b: string)
    ensures a == b || StringLess(a, b) || StringLess(b, a)
  {
    if a != [] && b != [] && a[0] == b[0] {
      StringLessTotal(a[1..], b[1..]);
      if a[1..] == b[1..] {
        assert a == [a[0]] + a[1..] && b == [b[0]] + b[1..];
      }
    }
  }

  /** std::string's operator< is a strict weak order in which only equal names are equivalent. */
  lemma StringLessIsStrictWeakOrder()
    ensures StrictWeakOrder(StringLess)
    ensures forall a, b :: Incomparable(StringLess, a, b) <==> a == b
  {
    forall x { StringLessIrreflexive(x); }
    forall x, y, z | StringLess(x, y) && StringLess(y, z) ensures StringLess(x, z) {
      StringLessTransitive(x, y, z);
    }
    forall a, b ensures Incomparable(StringLess, a, b) <==> a == b {
      StringLessTotal(a, b);
    }
  }

  /** Sorted without duplicates. */
  predicate StrictlySorted(s: seq<string>) {
    forall i, j :: 0 <= i < j < |s| ==> StringLess(s[i], s[j])
  }

  /** What std::ranges::unique keeps of `s`: the first of every run of equal adjacent names. */
  function Dedup(s: seq<string>): seq<string> {
    if |s| <= 1 then s
    else if s[|s| - 1] == s[|s| - 2] then Dedup(s[..|s| - 1])
    else Dedup(s[..|s| - 1]) + [s[|s| - 1]]
  }

  /** Dedup keeps exactly the names of `s` and ends with its last name. */
  lemma {:induction false} DedupMembers(s: seq<string>)
    ensures forall x :: x in Dedup(s) <==> x in s
    ensures s != [] ==> Dedup(s) != [] && Dedup(s)[|Dedup(s)| - 1] == s[|s| - 1]
  {
    if |s| > 1 {
      var init := s[..|s| - 1];
      var last := s[|s| - 1];
      DedupMembers(init);
      assert s == init + [last];
      if last == s[|s| - 2] {
        assert last == init[|init| - 1];
        assert Dedup(s) == Dedup(init);
      } else {
        assert Dedup(s) == Dedup(init) + [last];
      }
    }
  }

  /** A strictly sorted list followed by a name above all of its names is strictly sorted. */
  lemma StrictlySortedSnoc(d: seq<string>, last: string)
    requires StrictlySorted(d)
    requires forall i :: 0 <= i < |d| ==> StringLess(d[i], last)
    ensures StrictlySorted(d + [last])
  {
    var e := d + [last];
    forall i, j | 0 <= i < j < |e| ensures StringLess(e[i], e[j]) {
      assert e[i] == d[i];
    }
  }

  /** Dedup of a sorted list is strictly sorted, has the same names, and ends with the last name. */
  lemma {:induction false} DedupOfSorted(s: seq<string>)
    requires SortedBy(s, StringLess)
    ensures StrictlySorted(Dedup(s))
    ensures forall x :: x in Dedup(s) <==> x in s
    ensures s != [] ==> Dedup(s) != [] && Dedup(s)[|Dedup(s)| - 1] == s[|s| - 1]
  {
    DedupMembers(s);
    if |s| > 1 {
      var init := s[..|s| - 1];
      var last := s[|s| - 1];
      assert SortedBy(init, StringLess) by {
        forall i, j | 0 <= i < j < |init| ensures !StringLess(init[j], init[i]) {
          assert init[i] == s[i] && init[j] == s[j];
        }
      }
      DedupOfSorted(init);
      var d := Dedup(init);
      if last == s[|s| - 2] {
        assert Dedup(s) == d;
      } else {
        assert Dedup(s) == d + [last];
        assert d[|d| - 1] == s[|s| - 2];
        assert !StringLess(last, s[|s| - 2]);
        StringLessTotal(s[|s| - 2], last);
        forall i | 0 <= i < |d| ensures StringLess(d[i], last) {
          if i < |d| - 1 { StringLessTransitive(d[i], d[|d| - 1], last); }
        }
        StrictlySortedSnoc(d, last);
      }
    }
  }

  lemma EmptyTogether(a: seq<string>, b: seq<string>)
    requires forall x :: x in a <==> x in b
    ensures a == [] <==> b == []
  {
    if a != [] { assert a[0] in b; }
    if b != [] { assert b[0] in a; }
  }

  /** Of two strictly sorted lists with the same names, the first name of one is not below the other's. */
  lemma FirstNotBelow(a: seq<string>, b: seq<string>)
    requires StrictlySorted(a) && StrictlySorted(b) && a != [] && b != []
    requires forall x :: x in a <==> x in b
    ensures !StringLess(a[0], b[0])
  {
    assert a[0] in b;
    var k :| 0 <= k < |b| && b[k] == a[0];
    if k == 0 {
      StringLessIrreflexive(a[0]);
    } else if StringLess(a[0], b[0]) {
      StringLessTransitive(a[0], b[0], b[k]);
      StringLessIrreflexive(a[0]);
    }
  }

  /** Two strictly sorted lists with the same names are the same list: the merge result is determined. */
  lemma {:induction false} StrictlySortedUnique(a: seq<string>, b: seq<string>)
    requires StrictlySorted(a) && StrictlySorted(b)
    requires forall x :: x in a <==> x in b
    ensures a == b
  {
    EmptyTogether(a, b);
    if a != [] {
      FirstNotBelow(a, b);
      FirstNotBelow(b, a);
      StringLessTotal(a[0], b[0]);
      StringLessIrreflexive(a[0]);
      forall x ensures x in a[1..] <==> x in b[1..] {
        if x in a[1..] {
          var k :| 1 <= k < |a| && a[k] == x;
          assert StringLess(a[0], x);
          assert x in a;
          var m :| 0 <= m < |b| && b[m] == x;
          assert m != 0;
          assert b[1..][m - 1] == x;
        }
        if x in b[1..] {
          var k :| 1 <= k < |b| && b[k] == x;
          assert StringLess(b[0], x);
          assert x in b;
          var m :| 0 <= m < |a| && a[m] == x;
          assert m != 0;
          assert a[1..][m - 1] == x;
        }
      }
      StrictlySortedUnique(a[1..], b[1..]);
      assert a == [a[0]] + a[1..] && b == [b[0]] + b[1..];
    }
  }

  /** The extension list handed to the Vulkan instance (core.hpp:147-174). */
  function MergedExtensions(required: seq<string>, user: seq<string>): seq<string> {
    if user == [] then required
    else
      StringLessIsStrictWeakOrder();
      Dedup(SortBy(required + user, StringLess))
  }

  /** With user extensions the list is sorted, duplicate free and is the union of both; without, GLFW's list as it is. */
  lemma MergedExtensionsUnion(required: seq<string>, user: seq<string>)
    ensures user == [] ==> MergedExtensions(required, user) == required
    ensures user != [] ==> StrictlySorted(MergedExtensions(required, user))
    ensures user != [] ==> forall x :: x in MergedExtensions(required, user) <==> x in required || x in user
  {
    if user != [] {
      StringLessIsStrictWeakOrder();
      var sorted := SortBy(required + user, StringLess);
      SortByIsSorted(required + user, StringLess);
      DedupOfSorted(sorted);
      forall x ensures x in sorted <==> x in required + user {
        assert x in sorted <==> x in multiset(sorted);
        assert x in required + user <==> x in multiset(required + user);
      }
    }
  }

  /** std::ranges::unique followed by cutting the vector at the returned end. */
  method Unique(s: seq<string>) returns (r: seq<string>)
    ensures r == Dedup(s)
  {
    r := [];
    var i := 0;
    while i < |s|
      invariant 0 <= i <= |s|
      invariant r == Dedup(s[..i])
    {
      assert s[..i + 1][..i] == s[..i];
      if i == 0 || s[i] != s[i - 1] {
        r := r + [s[i]];
      }
      i := i + 1;
    }
    assert s[..|s|] == s;
  }

  /** The extension merge in the second init step: combine, sort, unique, or pass GLFW's list through. */
  method InstanceExtensions(required: seq<string>, user: seq<string>) returns (r: seq<string>)
    ensures r == MergedExtensions(required, user)
    ensures user != [] ==> StrictlySorted(r)
    ensures user != [] ==> forall x :: x in r <==> x in required || x in user
  {
    MergedExtensionsUnion(required, user);
    if user == [] {
      r := required;
    } else {
      var combined := required + user;
      StringLessIsStrictWeakOrder();
      var sorted := SortBy(combined, StringLess);
      r := Unique(sorted);
    }
  }

  // ---------------------------------------------------------------------
  // step_or_rollback / rollback
  // ---------------------------------------------------------------------

  /** The undo actions Tiara::init registers, one per step. */
  datatype Undo = TerminateGlfw | DestroyInstance | DeinitExtensions

  datatype InitError =
    | GlfwInitFailed            // glfwInit returned false
    | NoRequiredExtensions      // glfwGetRequiredInstanceExtensions returned NULL
    | InstanceCreationFailed    // vk::raii::Instance's constructor threw
    | ExtensionInitFailed(index: nat)  // the init() of this extension type threw in init_ext
    | UndoFailed(action: Undo)  // an undo action threw while rolling back

  /** The Vulkan context: instance extensions, layers, and one entry per extension handle (true: it owns an extension). */
  datatype Context = Context(extensions: seq<string>, layers: seq<string>, extensionHandles: seq<bool>)

  /**
   * What `rollback` does to the stack `stack` when the actions in `throwing`
   * throw: the undo actions run from the top; each is popped only after it
   * returned. Yields the stack left, the actions that returned (in run
   * order) and the action that threw, if any.
   */
  function RollbackSpec(stack: seq<Undo>, throwing: set<Undo>): (r: (seq<Undo>, seq<Undo>, Option<Undo>))
    ensures |r.0| + |r.1| == |stack|
    ensures r.0 == stack[..|r.0|]
    ensures r.2.None? <==> r.0 == []
    ensures r.2.Some? ==> r.2.value == stack[|r.0| - 1] && r.2.value in throwing
  {
    if stack == [] then ([], [], None)
    else
      var top := stack[|stack| - 1];
      if top in throwing then (stack, [], Some(top))
      else
        var rest := RollbackSpec(stack[..|stack| - 1], throwing);
        (rest.0, [top] + rest.1, rest.2)
  }

  /** A returning top action is popped and recorded; the rest of the rollback goes on below it. */
  lemma RollbackPop(stack: seq<Undo>, throwing: set<Undo>)
    requires stack != [] && stack[|stack| - 1] !in throwing
    ensures var rest := RollbackSpec(stack[..|stack| - 1], throwing);
      && RollbackSpec(stack, throwing).0 == rest.0
      && RollbackSpec(stack, throwing).1 == [stack[|stack| - 1]] + rest.1
      && RollbackSpec(stack, throwing).2 == rest.2
  {
  }

  /** Popping a returning action keeps the loop's view of the rollback in step with `RollbackSpec` of the whole stack. */
  lemma RollbackInvariantStep(spec0: (seq<Undo>, seq<Undo>, Option<Undo>), stack: seq<Undo>, ran: seq<Undo>, throwing: set<Undo>)
    requires stack != [] && stack[|stack| - 1] !in throwing
    requires spec0.0 == RollbackSpec(stack, throwing).0
    requires spec0.1 == ran + RollbackSpec(stack, throwing).1
    requires spec0.2 == RollbackSpec(stack, throwing).2
    ensures var below := RollbackSpec(stack[..|stack| - 1], throwing);
      && spec0.0 == below.0
      && spec0.1 == (ran + [stack[|stack| - 1]]) + below.1
      && spec0.2 == below.2
  {
    RollbackPop(stack, throwing);
    var rest := RollbackSpec(stack[..|stack| - 1], throwing);
    assert ran + ([stack[|stack| - 1]] + rest.1) == (ran + [stack[|stack| - 1]]) + rest.1;
  }

  function Reverse<T>(s: seq<T>): seq<T> {
    if s == [] then [] else [s[|s| - 1]] + Reverse(s[..|s| - 1])
  }

  /** When no undo action throws, every one runs, in reverse registration order, and the stack ends empty. */
  lemma {:induction false} RollbackRunsAllInReverse(stack: seq<Undo>, throwing: set<Undo>)
    requires forall i :: 0 <= i < |stack| ==> stack[i] !in throwing
    ensures RollbackSpec(stack, throwing) == ([], Reverse(stack), None)
  {
    if stack != [] {
      RollbackRunsAllInReverse(stack[..|stack| - 1], throwing);
    }
  }

  /** When an undo action throws, the actions above it ran in reverse order and it stays on top of the stack. */
  lemma {:induction false} RollbackStopsAtThrow(stack: seq<Undo>, throwing: set<Undo>, k: nat)
    requires k < |stack| && stack[k] in throwing
    requires forall i :: k < i < |stack| ==> stack[i] !in throwing
    ensures RollbackSpec(stack, throwing) == (stack[..k + 1], Reverse(stack[k + 1..]), Some(stack[k]))
  {
    if k + 1 < |stack| {
      var init := stack[..|stack| - 1];
      var top := stack[|stack| - 1];
      assert top !in throwing;
      assert forall i :: k < i < |init| ==> init[i] !in throwing by {
        forall i | k < i < |init| ensures init[i] !in throwing {
          assert init[i] == stack[i];
        }
      }
      RollbackStopsAtThrow(init, throwing, k);
      var tail := stack[k + 1..];
      assert tail[|tail| - 1] == top;
      assert tail[..|tail| - 1] == init[k + 1..];
      assert Reverse(tail) == [top] + Reverse(init[k + 1..]);
      assert init[..k + 1] == stack[..k + 1];
    } else {
      assert stack[..k + 1] == stack;
      assert stack[k + 1..] == [];
    }
  }

  /** The effect of a completed undo action on the initialisation state (glfw running, context). */
  function UndoEffect(a: Undo, glfwUp: bool, ctx: Option<Context>): (bool, Option<Context>) {
    match a
    case TerminateGlfw => (false, ctx)
    case DestroyInstance => (glfwUp, None)
    case DeinitExtensions =>
      (glfwUp, if ctx.Some? then Some(ctx.value.(extensionHandles := [])) else ctx)
  }

  /** The effect of running `ran` in order. */
  function UndoEffects(ran: seq<Undo>, glfwUp: bool, ctx: Option<Context>): (bool, Option<Context>) {
    if ran == [] then (glfwUp, ctx)
    else
      var e := UndoEffect(ran[0], glfwUp, ctx);
      UndoEffects(ran[1..], e.0, e.1)
  }

  lemma UndoEffectsAppend(ran: seq<Undo>, a: Undo, glfwUp: bool, ctx: Option<Context>)
    ensures UndoEffects(ran + [a], glfwUp, ctx)
         == UndoEffect(a, UndoEffects(ran, glfwUp, ctx).0, UndoEffects(ran, glfwUp, ctx).1)
  {
    if ran != [] {
      assert (ran + [a])[1..] == ran[1..] + [a];
      var e := UndoEffect(ran[0], glfwUp, ctx);
      UndoEffectsAppend(ran[1..], a, e.0, e.1);
    }
  }

  /** No undo action starts GLFW: once it is down it stays down. */
  lemma {:induction false} UndoEffectsKeepGlfwDown(ran: seq<Undo>, ctx: Option<Context>)
    ensures !UndoEffects(ran, false, ctx).0
  {
    if ran != [] {
      UndoEffectsKeepGlfwDown(ran[1..], UndoEffect(ran[0], false, ctx).1);
    }
  }

  /**
   * When the instance step fails after GLFW came up and no undo action
   * throws, the rollback runs every action, GLFW's termination first,
   * empties the stack and leaves GLFW down.
   */
  lemma FailedInstanceStepTerminatesGlfw(stack: seq<Undo>, throwing: set<Undo>, ctx: Option<Context>)
    requires TerminateGlfw !in throwing
    requires forall i :: 0 <= i < |stack| ==> stack[i] !in throwing
    ensures var spec := RollbackSpec(stack + [TerminateGlfw], throwing);
      && spec.0 == [] && spec.2 == None
      && spec.1[0] == TerminateGlfw
      && !UndoEffects(spec.1, true, ctx).0
  {
    var full := stack + [TerminateGlfw];
    RollbackRunsAllInReverse(full, throwing);
    assert full[..|full| - 1] == stack;
    var ran := Reverse(full);
    assert ran == [TerminateGlfw] + Reverse(stack);
    UndoEffectsKeepGlfwDown(ran[1..], ctx);
  }

  /** The handles init_ext yields for extension types with these is_init values: an owning handle for each one not yet initialised. */
  function Handles(alreadyInit: seq<bool>): (r: seq<bool>)
    ensures |r| == |alreadyInit| && forall i :: 0 <= i < |r| ==> (r[i] <==> !alreadyInit[i])
  {
    seq(|alreadyInit|, i requires 0 <= i < |alreadyInit| => !alreadyInit[i])
  }

  /** Whether the third init step throws: the throwing extension type is listed and its init() is called, since it is not yet initialised. */
  predicate InitThrows(alreadyInit: seq<bool>, failingInit: Option<nat>) {
    failingInit.Some? && failingInit.value < |alreadyInit| && !alreadyInit[failingInit.value]
  }

  /** No undo action creates a context: once it is gone it stays gone. */
  lemma {:induction false} UndoEffectsKeepNoContext(ran: seq<Undo>, glfwUp: bool)
    ensures UndoEffects(ran, glfwUp, None).1 == None
  {
    if ran != [] {
      UndoEffectsKeepNoContext(ran[1..], UndoEffect(ran[0], glfwUp, None).0);
    }
  }

  /**
   * When an extension's init() throws after the instance was created and no
   * undo action throws, the rollback destroys the instance, then terminates
   * GLFW, runs everything registered before, and leaves neither a context
   * nor GLFW.
   */
  lemma FailedExtensionStepTearsDown(stack: seq<Undo>, throwing: set<Undo>, ctx: Context)
    requires TerminateGlfw !in throwing && DestroyInstance !in throwing
    requires forall i :: 0 <= i < |stack| ==> stack[i] !in throwing
    ensures var spec := RollbackSpec(stack + [TerminateGlfw, DestroyInstance], throwing);
      && spec.0 == [] && spec.2 == None
      && spec.1[..2] == [DestroyInstance, TerminateGlfw]
      && UndoEffects(spec.1, true, Some(ctx)) == (false, None)
  {
    var full := stack + [TerminateGlfw, DestroyInstance];
    RollbackRunsAllInReverse(full, throwing);
    assert full[..|full| - 1] == stack + [TerminateGlfw];
    assert (stack + [TerminateGlfw])[..|stack|] == stack;
    var ran := Reverse(full);
    assert ran == [DestroyInstance, TerminateGlfw] + Reverse(stack);
    var rest := Reverse(stack);
    assert ran[2..] == rest;
    UndoEffectsKeepNoContext(rest, false);
    UndoEffectsKeepGlfwDown(rest, None);
  }

  /** The process-wide state Tiara's static members hold. */
  class Tiara {
    /** deinit_func: the undo actions of the steps that completed, oldest first. */
    var deinitFuncs: seq<Undo>
    /** The undo actions that ran to completion, in run order (a trace, not a field of the source). */
    var undone: seq<Undo>
    var glfwUp: bool
    /** detail::ctx */
    var ctx: Option<Context>

    constructor ()
      ensures deinitFuncs == [] && undone == [] && !glfwUp && ctx == None
    {
      deinitFuncs, undone, glfwUp, ctx := [], [], false, None;
    }

    /** is_init: the context exists. */
    function IsInit(): bool
      reads this
    {
      ctx.Some?
    }

    /** Runs the top undo action, which returns, and pops it. */
    method RunTop()
      requires deinitFuncs != []
      modifies this
      ensures var top := old(deinitFuncs)[|old(deinitFuncs)| - 1];
        && deinitFuncs == old(deinitFuncs)[..|old(deinitFuncs)| - 1]
        && undone == old(undone) + [top]
        && (glfwUp, ctx) == UndoEffect(top, old(glfwUp), old(ctx))
    {
      var top := deinitFuncs[|deinitFuncs| - 1];
      var e := UndoEffect(top, glfwUp, ctx);
      glfwUp, ctx := e.0, e.1;
      undone := undone + [top];
      deinitFuncs := deinitFuncs[..|deinitFuncs| - 1];
    }

    /**
     * rollback: run the top undo action, pop it, repeat until the stack is
     * empty; an action that throws is left on top and the exception
     * propagates.
     */
    method Rollback(throwing: set<Undo>) returns (r: Outcome<InitError>)
      modifies this
      ensures var spec := RollbackSpec(old(deinitFuncs), throwing);
        && deinitFuncs == spec.0
        && undone == old(undone) + spec.1
        && (glfwUp, ctx) == UndoEffects(spec.1, old(glfwUp), old(ctx))
        && r == (if spec.2.Some? then Fail(UndoFailed(spec.2.value)) else Pass)
    {
      ghost var spec0 := RollbackSpec(deinitFuncs, throwing);
      ghost var undone0, glfw0, ctx0 := undone, glfwUp, ctx;
      ghost var ran: seq<Undo> := [];
      r := Pass;
      while deinitFuncs != []
        invariant r == Pass
        invariant undone == undone0 + ran
        invariant spec0.0 == RollbackSpec(deinitFuncs, throwing).0
        invariant spec0.1 == ran + RollbackSpec(deinitFuncs, throwing).1
        invariant spec0.2 == RollbackSpec(deinitFuncs, throwing).2
        invariant (glfwUp, ctx) == UndoEffects(ran, glfw0, ctx0)
        decreases |deinitFuncs|
      {
        var top := deinitFuncs[|deinitFuncs| - 1];
        if top in throwing {
          r := Fail(UndoFailed(top));
          assert RollbackSpec(deinitFuncs, throwing) == (deinitFuncs, [], Some(top));
          assert ran + [] == ran;
          return;
        }
        RollbackInvariantStep(spec0, deinitFuncs, ran, throwing);
        UndoEffectsAppend(ran, top, glfw0, ctx0);
        RunTop();
        ran := ran + [top];
      }
      assert ran + [] == ran;
    }

    /**
     * step_or_rollback for a step whose own effects were already applied
     * and which ended with `step`: a step that returned registers `undo`;
     * one that threw rolls everything back and rethrows its error (unless
     * the rollback itself threw, whose error then propagates instead).
     */
    method StepOrRollback(step: Outcome<InitError>, undo: Undo, throwing: set<Undo>) returns (r: Outcome<InitError>)
      modifies this
      ensures step.Pass? ==>
        && r == Pass && deinitFuncs == old(deinitFuncs) + [undo]
        && undone == old(undone) && glfwUp == old(glfwUp) && ctx == old(ctx)
      ensures step.Fail? ==> var spec := RollbackSpec(old(deinitFuncs), throwing);
        && deinitFuncs == spec.0
        && undone == old(undone) + spec.1
        && (glfwUp, ctx) == UndoEffects(spec.1, old(glfwUp), old(ctx))
        && r == (if spec.2.Some? then Fail(UndoFailed(spec.2.value)) else step)
    {
      if step.Pass? {
        deinitFuncs := deinitFuncs + [undo];
        r := Pass;
      } else {
        r := Rollback(throwing);
        if r.Pass? {
          r := step;
        }
      }
    }

    /**
     * Tiara::init. `glfwOk` is glfwInit's result, `glfwExtensions` what
     * glfwGetRequiredInstanceExtensions returned (None for NULL),
     * `instanceOk` whether the Vulkan instance could be created,
     * `alreadyInit[i]` the is_init of the i-th extension type, and
     * `failingInit` the extension type whose init() throws when init_ext
     * calls it (None: every init() returns).
     */
    method Init(glfwOk: bool, glfwExtensions: Option<seq<string>>, userExtensions: seq<string>,
                layers: seq<string>, instanceOk: bool, alreadyInit: seq<bool>, failingInit: Option<nat>,
                throwing: set<Undo>)
      returns (r: Outcome<InitError>)
      modifies this
      ensures r.Pass? <==> glfwOk && glfwExtensions.Some? && instanceOk && !InitThrows(alreadyInit, failingInit)
      ensures r.Pass? ==>
        && deinitFuncs == old(deinitFuncs) + [TerminateGlfw, DestroyInstance, DeinitExtensions]
        && glfwUp
        && ctx == Some(Context(MergedExtensions(glfwExtensions.value, userExtensions), layers, Handles(alreadyInit)))
      ensures r.Pass? ==> undone == old(undone)
      ensures !glfwOk ==> var spec := RollbackSpec(old(deinitFuncs), throwing);
        && deinitFuncs == spec.0
        && undone == old(undone) + spec.1
        && (glfwUp, ctx) == UndoEffects(spec.1, old(glfwUp), old(ctx))
        && r == (if spec.2.Some? then Fail(UndoFailed(spec.2.value)) else Fail(GlfwInitFailed))
      ensures glfwOk && !(glfwExtensions.Some? && instanceOk) ==>
        var spec := RollbackSpec(old(deinitFuncs) + [TerminateGlfw], throwing);
        && deinitFuncs == spec.0
        && undone == old(undone) + spec.1
        && (glfwUp, ctx) == UndoEffects(spec.1, true, old(ctx))
        && r == (if spec.2.Some? then Fail(UndoFailed(spec.2.value))
                 else Fail(if glfwExtensions.None? then NoRequiredExtensions else InstanceCreationFailed))
      ensures glfwOk && glfwExtensions.Some? && instanceOk && InitThrows(alreadyInit, failingInit) ==>
        var k := failingInit.value;
        var spec := RollbackSpec(old(deinitFuncs) + [TerminateGlfw, DestroyInstance], throwing);
        && deinitFuncs == spec.0
        && undone == old(undone) + spec.1
        && (glfwUp, ctx) == UndoEffects(spec.1, true,
             Some(Context(MergedExtensions(glfwExtensions.value, userExtensions), layers, Handles(alreadyInit[..k]))))
        && r == (if spec.2.Some? then Fail(UndoFailed(spec.2.value)) else Fail(ExtensionInitFailed(k)))
    {
      // step 1: glfw
      if glfwOk { glfwUp := true; }
      r := StepOrRollback(if glfwOk then Pass else Fail(GlfwInitFailed), TerminateGlfw, throwing);
      if r.Fail? { return; }
      // step 2: instance
      var step2: Outcome<InitError> := Pass;
      if glfwExtensions.None? {
        step2 := Fail(NoRequiredExtensions);
      } else {
        var extensions := InstanceExtensions(glfwExtensions.value, userExtensions);
        if instanceOk {
          ctx := Some(Context(extensions, layers, []));
        } else {
          step2 := Fail(InstanceCreationFailed);
        }
      }
      r := StepOrRollback(step2, DestroyInstance, throwing);
      if r.Fail? { return; }
      // step 3: extensions; init_ext yields an owning handle unless the extension is already initialised
      if InitThrows(alreadyInit, failingInit) {
        var k := failingInit.value;
        assert deinitFuncs == old(deinitFuncs) + [TerminateGlfw, DestroyInstance];
        ctx := Some(ctx.value.(extensionHandles := Handles(alreadyInit[..k])));
        r := StepOrRollback(Fail(ExtensionInitFailed(k)), DeinitExtensions, throwing);
      } else {
        ctx := Some(ctx.value.(extensionHandles := Handles(alreadyInit)));
        r := StepOrRollback(Pass, DeinitExtensions, throwing);
      }
    }

    /** Tiara::deinit: roll back every registered step. */
    method Deinit(throwing: set<Undo>) returns (r: Outcome<InitError>)
      modifies this
      ensures var spec := RollbackSpec(old(deinitFuncs), throwing);
        && deinitFuncs == spec.0
        && undone == old(undone) + spec.1
        && (glfwUp, ctx) == UndoEffects(spec.1, old(glfwUp), old(ctx))
        && r == (if spec.2.Some? then Fail(UndoFailed(spec.2.value)) else Pass)
    {
      r := Rollback(throwing);
    }
  }
}
