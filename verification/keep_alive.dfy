/**
 * `KeepAliveDispatcher` (include/tiara/core/event/dispatcher.hpp): a
 * dispatcher that also holds a shared pointer to every handler given to it
 * by `shared_ptr`, so that the handler lives while it is registered. Its
 * base dispatcher is the synchronous test dispatcher.
 *
 * As written, the inner calls `start_dispatch(*h)` and `stop_dispatch(*h)`
 * are unqualified: inside the class they name only its own `shared_ptr`
 * overloads (the base is dependent and its `Handler&` overloads are
 * hidden), to which `Hdlr&` does not convert, so neither member compiles
 * once instantiated. This module models them with the evident
 * qualification `Dispatch::start_dispatch(*h)` / `Dispatch::stop_dispatch(*h)`.
 */
module KeepAlive {
  import opened Wrappers
  import opened RemoveErase
  import opened TestDispatcher

  /** std::shared_ptr<Hdlr>: empty, or pointing at the handler with this identity. Equality is pointer equality. */
  datatype SharedPtr = Null | Ptr(handler: nat)

  datatype DispatchError = NullDereference

  /** The keep-alive list and the base dispatcher's registrations. */
  datatype KeepAliveState = KeepAliveState(keepAlive: seq<SharedPtr>, registered: seq<nat>)

  /**
   * start_dispatch(shared_ptr) with its inner call qualified as
   * `Dispatch::start_dispatch(*h)` and its two statements in the written
   * order: `h` is moved into the list, then `*h` is passed to the base
   * dispatcher, dereferencing the moved-from, empty pointer.
   */
  function StartAsWritten(s: KeepAliveState, h: SharedPtr): (KeepAliveState, Outcome<DispatchError>) {
    // shared_ptr's move constructor leaves `h` empty, so `*h` dereferences null
    (s.(keepAlive := s.keepAlive + [h]), Fail(NullDereference))
  }

  /**
   * For a real handler, the written statement order keeps it alive but
   * never registers it: it dereferences null instead. This is what remains
   * once the inner call is qualified so that the member compiles.
   */
  lemma StartAsWrittenDereferencesNull(s: KeepAliveState, target: nat)
    ensures var (s', out) := StartAsWritten(s, Ptr(target));
      && out == Fail(NullDereference)
      && s'.keepAlive == s.keepAlive + [Ptr(target)]
      && s'.registered == s.registered
      && target !in s'.registered[|s.registered|..]
  {
  }

  /** start_dispatch(shared_ptr) as intended: register the handler `h` points at, and keep `h`. */
  function StartSpec(s: KeepAliveState, h: SharedPtr): (r: KeepAliveState)
    requires h.Ptr?
    ensures |r.keepAlive| == |s.keepAlive| + 1 && r.keepAlive[..|s.keepAlive|] == s.keepAlive && r.keepAlive[|s.keepAlive|] == h
    ensures |r.registered| == |s.registered| + 1 && r.registered[..|s.registered|] == s.registered
    ensures r.registered[|s.registered|] == h.handler
  {
    KeepAliveState(s.keepAlive + [h], s.registered + [h.handler])
  }

  /** stop_dispatch(shared_ptr): deregister the handler, then drop every copy of `h` from the list. */
  function StopSpec(s: KeepAliveState, h: SharedPtr): (r: KeepAliveState)
    requires h.Ptr?
    ensures h !in r.keepAlive && h.handler !in r.registered
    ensures forall p :: p in s.keepAlive && p != h ==> p in r.keepAlive
  {
    KeepAliveState(Without(s.keepAlive, h), Without(s.registered, h.handler))
  }

  /** Starting and then stopping a handler leaves the dispatcher as stopping alone would: nothing of it is kept alive. */
  lemma StartThenStop(s: KeepAliveState, h: SharedPtr)
    requires h.Ptr?
    ensures StopSpec(StartSpec(s, h), h) == StopSpec(s, h)
  {
    WithoutAppended(s.keepAlive, h, h);
    WithoutAppended(s.registered, h.handler, h.handler);
  }

  /** Stopping one handler keeps the other handlers' entries, and stopping two handlers does not depend on the order. */
  lemma StopIsLocal(s: KeepAliveState, h: SharedPtr, other: SharedPtr)
    requires h.Ptr? && other.Ptr? && other != h
    ensures other in s.keepAlive ==> other in StopSpec(s, h).keepAlive
    ensures StopSpec(StopSpec(s, other), h) == StopSpec(StopSpec(s, h), other)
  {
    WithoutCommutes(s.keepAlive, h, other);
    WithoutCommutes(s.registered, h.handler, other.handler);
  }

  class KeepAliveDispatcher {
    /** _keep_shared_alive */
    var keepAlive: seq<SharedPtr>
    /** The dispatcher this one extends. */
    const base: EventDispatcher

    constructor (base: EventDispatcher)
      ensures this.base == base && keepAlive == []
    {
      this.base := base;
      keepAlive := [];
    }

    function State(): KeepAliveState
      reads this, base
    {
      KeepAliveState(keepAlive, base.handlers)
    }

    /** start_dispatch(shared_ptr) as intended: `Dispatch::start_dispatch(*h)`, then `h` is moved into the list. */
    method StartDispatch(h: SharedPtr)
      requires h.Ptr?
      modifies this, base
      ensures State() == StartSpec(old(State()), h)
    {
      var target := h.handler;
      keepAlive := keepAlive + [h];
      base.StartDispatch(target);
    }

    /** stop_dispatch(shared_ptr) as intended: `Dispatch::stop_dispatch(*h)`, then the ranges remove and erase of `h`. */
    method StopDispatch(h: SharedPtr)
      requires h.Ptr?
      modifies this, base
      ensures State() == StopSpec(old(State()), h)
    {
      base.StopDispatch(h.handler);
      keepAlive := RemoveErase.RemoveErase(keepAlive, h);
    }
  }
}
