/**
 * The synchronous `EventDispatcher` of tests/core/managed_handler.cpp: a
 * list of handler references in registration order. Handlers are compared
 * by identity (include/tiara/core/event/handler.hpp), so a handler is its
 * id here.
 */
module TestDispatcher {
  import opened RemoveErase

  class EventDispatcher {
    /** _event_handlers */
    var handlers: seq<nat>

    constructor ()
      ensures handlers == []
    {
      handlers := [];
    }

    /** start_dispatch: registers `h` at the end. */
    method StartDispatch(h: nat)
      modifies this
      ensures handlers == old(handlers) + [h]
    {
      handlers := handlers + [h];
    }

    /** stop_dispatch: removes every registration of `h`, keeping the others in order. */
    method StopDispatch(h: nat)
      modifies this
      ensures handlers == Without(old(handlers), h)
      ensures h !in handlers
    {
      handlers := RemoveErase.RemoveErase(handlers, h);
    }

    /** emit: calls every registered handler once, in registration order; returns the handlers reached. */
    method Emit() returns (reached: seq<nat>)
      ensures reached == handlers
    {
      reached := [];
      for i := 0 to |handlers|
        invariant reached == handlers[..i]
      {
        reached := reached + [handlers[i]];
      }
      assert handlers[..|handlers|] == handlers;
    }
  }
}
