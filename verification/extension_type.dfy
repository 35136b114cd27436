/**
 * The extension lifecycle of include/tiara/core/extension/extensiontype.hpp:
 * `Extension<Ext>::init_ext` hands out an `ExtensionInitHandle` only while
 * the extension is not initialised; the handle owns the extension object
 * through a unique_ptr, calls `init()` when it is built and `deinit()` when
 * it is destroyed while it still owns the object. Handles move, never copy.
 *
 * The extension's own state is its `is_init()` flag, which `init()` sets
 * and `deinit()` clears (as WMExtension, the extension of this library,
 * does), and the record of those calls.
 */
module ExtensionType {
  import opened Wrappers

  /** A call to the extension's init() or deinit(), on the extension object `ext`. */
  datatype LifecycleCall = InitCall(ext: nat) | DeinitCall(ext: nat)

  /** The number of init() calls and of deinit() calls in a record. */
  function Inits(calls: seq<LifecycleCall>): (n: nat)
    ensures n <= |calls|
  {
    if calls == [] then 0 else Inits(calls[..|calls| - 1]) + (if calls[|calls| - 1].InitCall? then 1 else 0)
  }

  function Deinits(calls: seq<LifecycleCall>): (n: nat)
    ensures n <= |calls|
  {
    if calls == [] then 0 else Deinits(calls[..|calls| - 1]) + (if calls[|calls| - 1].DeinitCall? then 1 else 0)
  }

  /** Appending one call adds one to its own count and nothing to the other. */
  lemma {:induction false} CountsAppend(calls: seq<LifecycleCall>, c: LifecycleCall)
    ensures Inits(calls + [c]) == Inits(calls) + (if c.InitCall? then 1 else 0)
    ensures Deinits(calls + [c]) == Deinits(calls) + (if c.DeinitCall? then 1 else 0)
  {
    assert (calls + [c])[..|calls|] == calls;
  }

  /** The extension type's static state. */
  class ExtensionState {
    /** What Ext::is_init() reports. */
    var initialised: bool
    /** init()/deinit() calls so far, in order. */
    var calls: seq<LifecycleCall>

    constructor ()
      ensures !initialised && calls == []
    {
      initialised := false;
      calls := [];
    }

    /** Ext::init() */
    method Init(ext: nat)
      modifies this
      ensures initialised && calls == old(calls) + [InitCall(ext)]
    {
      initialised := true;
      calls := calls + [InitCall(ext)];
    }

    /** Ext::deinit() */
    method Deinit(ext: nat)
      modifies this
      ensures !initialised && calls == old(calls) + [DeinitCall(ext)]
    {
      initialised := false;
      calls := calls + [DeinitCall(ext)];
    }
  }

  class ExtensionInitHandle {
    /** _ext: the owned extension object, None once moved from. */
    var ext: Option<nat>
    const state: ExtensionState

    /** ExtensionInitHandle(unique_ptr): takes ownership and calls init() when the pointer is not null. */
    constructor (state: ExtensionState, ext: Option<nat>)
      modifies state
      ensures this.state == state && this.ext == ext
      ensures ext.Some? ==> state.initialised && state.calls == old(state.calls) + [InitCall(ext.value)]
      ensures ext.None? ==> state.initialised == old(state.initialised) && state.calls == old(state.calls)
    {
      this.state := state;
      this.ext := ext;
      new;
      if ext.Some? {
        state.Init(ext.value);
      }
    }

    /** The move constructor: the new handle takes the object, the source is left empty; no init() runs. */
    constructor Moved(src: ExtensionInitHandle)
      modifies src
      ensures state == src.state && ext == old(src.ext) && src.ext == None
    {
      state := src.state;
      ext := src.ext;
      new;
      src.ext := None;
    }

    /**
     * The move assignment (unique_ptr's `reset(src.release())`): this handle
     * takes `src`'s object, `src` is left empty. An object this handle owned
     * before is deleted, without deinit(); it is returned.
     */
    method MoveAssign(src: ExtensionInitHandle) returns (dropped: Option<nat>)
      modifies this, src
      ensures this != src ==> ext == old(src.ext) && src.ext == None && dropped == old(ext)
      ensures this == src ==> ext == old(ext) && dropped == None
    {
      var taken := src.ext;
      src.ext := None;
      dropped := ext;
      ext := taken;
    }

    /** The destructor: deinit() iff the handle still owns the object. */
    method Destroy()
      modifies state
      ensures ext.Some? ==> !state.initialised && state.calls == old(state.calls) + [DeinitCall(ext.value)]
      ensures ext.None? ==> state.initialised == old(state.initialised) && state.calls == old(state.calls)
    {
      if ext.Some? {
        state.Deinit(ext.value);
      }
    }
  }

  /** Extension<Ext>::init_ext: nothing when already initialised, otherwise a handle over a new extension object `ext`. */
  method InitExt(state: ExtensionState, ext: nat) returns (h: Option<ExtensionInitHandle>)
    modifies state
    ensures old(state.initialised) ==> h.None? && state.calls == old(state.calls) && state.initialised
    ensures !old(state.initialised) ==> h.Some? && h.value.ext == Some(ext) && h.value.state == state
    ensures !old(state.initialised) ==> state.initialised && state.calls == old(state.calls) + [InitCall(ext)]
  {
    if state.initialised {
      return None;
    }
    var handle := new ExtensionInitHandle(state, Some(ext));
    return Some(handle);
  }

  /**
   * A handle's life: init_ext succeeds once, a second init_ext gets
   * nothing, the handle is moved, the moved-from handle is destroyed (no
   * deinit) and then the new one (deinit): init and deinit ran once each,
   * and the extension can be initialised again.
   */
  method Lifecycle() returns (calls: seq<LifecycleCall>, second: bool, again: bool)
    ensures calls == [InitCall(0), DeinitCall(0)]
    ensures Inits(calls) == 1 && Deinits(calls) == 1
    ensures !second && again
  {
    var state := new ExtensionState();
    var first := InitExt(state, 0);
    var other := InitExt(state, 1);
    second := other.Some?;
    var moved := new ExtensionInitHandle.Moved(first.value);
    first.value.Destroy();
    moved.Destroy();
    calls := state.calls;
    CountsAppend([InitCall(0)], DeinitCall(0));
    CountsAppend([], InitCall(0));
    assert [InitCall(0)] + [DeinitCall(0)] == calls;
    var third := InitExt(state, 2);
    again := third.Some?;
  }
}
