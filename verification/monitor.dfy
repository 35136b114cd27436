/**
 * `MonitorEventDispatcher` (include/tiara/wm/monitor.hpp): two handler
 * registries (connected, disconnected), the `_init` flag, and the GLFW
 * monitor callback that creates a `Monitor` object on first sight of a
 * GLFW monitor and deletes it on disconnection. A GLFW monitor has a
 * `Monitor` exactly when its user pointer is set, so the objects are the
 * set `attached` of GLFW monitors.
 */
module MonitorEvents {
  import opened RemoveErase

  /** The event code GLFW passes to the monitor callback. */
  datatype MonitorEvent = Connected | Disconnected | OtherEvent(code: int)

  /** The GLFW monitors listed in `monitors` that have no `Monitor` yet. */
  function Unattached(monitors: seq<nat>, attached: set<nat>): set<nat> {
    set m | m in monitors && m !in attached
  }

  class MonitorEventDispatcher {
    /** _init */
    var initialised: bool
    /** _monitor_connected_handlers */
    var connectedHandlers: seq<nat>
    /** _monitor_disconnected_handlers */
    var disconnectedHandlers: seq<nat>
    /** The GLFW monitors that have a `Monitor` object. */
    var attached: set<nat>

    constructor ()
      ensures !initialised && connectedHandlers == [] && disconnectedHandlers == [] && attached == {}
    {
      initialised := false;
      connectedHandlers := [];
      disconnectedHandlers := [];
      attached := {};
    }

    /** start_dispatch for connection events. */
    method StartDispatchConnected(h: nat)
      modifies this
      ensures connectedHandlers == old(connectedHandlers) + [h]
      ensures disconnectedHandlers == old(disconnectedHandlers) && attached == old(attached) && initialised == old(initialised)
    {
      connectedHandlers := connectedHandlers + [h];
    }

    /** stop_dispatch for connection events: every reference to `h` goes, the others keep their order. */
    method StopDispatchConnected(h: nat)
      modifies this
      ensures connectedHandlers == Without(old(connectedHandlers), h) && h !in connectedHandlers
      ensures disconnectedHandlers == old(disconnectedHandlers) && attached == old(attached) && initialised == old(initialised)
    {
      connectedHandlers := RemoveErase.RemoveErase(connectedHandlers, h);
    }

    /** start_dispatch for disconnection events. */
    method StartDispatchDisconnected(h: nat)
      modifies this
      ensures disconnectedHandlers == old(disconnectedHandlers) + [h]
      ensures connectedHandlers == old(connectedHandlers) && attached == old(attached) && initialised == old(initialised)
    {
      disconnectedHandlers := disconnectedHandlers + [h];
    }

    /** stop_dispatch for disconnection events. */
    method StopDispatchDisconnected(h: nat)
      modifies this
      ensures disconnectedHandlers == Without(old(disconnectedHandlers), h) && h !in disconnectedHandlers
      ensures connectedHandlers == old(connectedHandlers) && attached == old(attached) && initialised == old(initialised)
    {
      disconnectedHandlers := RemoveErase.RemoveErase(disconnectedHandlers, h);
    }

    /** Calls every handler of `registry` once, in registration order; returns the handlers reached. */
    static method CallAll(registry: seq<nat>) returns (reached: seq<nat>)
      ensures reached == registry
    {
      reached := [];
      for i := 0 to |registry|
        invariant reached == registry[..i]
      {
        reached := reached + [registry[i]];
      }
      assert registry[..|registry|] == registry;
    }

    /**
     * The monitor callback for GLFW monitor `m`: nothing before init;
     * otherwise make sure `m` has a `Monitor`, then call the connected
     * handlers, or call the disconnected handlers and delete the `Monitor`.
     * Returns the handlers called, in order.
     */
    method Callback(m: nat, event: MonitorEvent) returns (called: seq<nat>)
      modifies this
      ensures !old(initialised) ==> called == [] && attached == old(attached)
      ensures old(initialised) && event == Connected ==> called == connectedHandlers && attached == old(attached) + {m}
      ensures old(initialised) && event == Disconnected ==> called == disconnectedHandlers && attached == old(attached) - {m}
      ensures old(initialised) && event.OtherEvent? ==> called == [] && attached == old(attached) + {m}
      ensures initialised == old(initialised)
      ensures connectedHandlers == old(connectedHandlers) && disconnectedHandlers == old(disconnectedHandlers)
    {
      called := [];
      if !initialised {
        return;
      }
      if m !in attached {
        attached := attached + {m};
      }
      match event
      case Connected =>
        called := CallAll(connectedHandlers);
      case Disconnected =>
        called := CallAll(disconnectedHandlers);
        attached := attached - {m};
      case OtherEvent(_) =>
    }

    /** init: give every current GLFW monitor a `Monitor`, then set `_init`. */
    method Init(monitors: seq<nat>)
      modifies this
      ensures initialised
      ensures attached == old(attached) + Unattached(monitors, old(attached))
      ensures forall i :: 0 <= i < |monitors| ==> monitors[i] in attached
      ensures connectedHandlers == old(connectedHandlers) && disconnectedHandlers == old(disconnectedHandlers)
    {
      for i := 0 to |monitors|
        invariant attached == old(attached) + Unattached(monitors[..i], old(attached))
        invariant connectedHandlers == old(connectedHandlers) && disconnectedHandlers == old(disconnectedHandlers)
      {
        assert monitors[..i + 1] == monitors[..i] + [monitors[i]];
        if monitors[i] !in attached {
          attached := attached + {monitors[i]};
        }
      }
      assert monitors[..|monitors|] == monitors;
      initialised := true;
    }

    /** deinit: clear `_init` first, then delete the `Monitor` of every current GLFW monitor. */
    method Deinit(monitors: seq<nat>)
      modifies this
      ensures !initialised
      ensures forall m :: m in attached <==> m in old(attached) && m !in monitors
      ensures connectedHandlers == old(connectedHandlers) && disconnectedHandlers == old(disconnectedHandlers)
    {
      initialised := false;
      for i := 0 to |monitors|
        invariant !initialised
        invariant forall m :: m in attached <==> m in old(attached) && m !in monitors[..i]
        invariant connectedHandlers == old(connectedHandlers) && disconnectedHandlers == old(disconnectedHandlers)
      {
        assert monitors[..i + 1] == monitors[..i] + [monitors[i]];
        if monitors[i] in attached {
          attached := attached - {monitors[i]};
        }
      }
      assert monitors[..|monitors|] == monitors;
    }
  }

  /**
   * Once deinit has run, the callback is inert: a connection or
   * disconnection reported afterwards calls no handler and creates no
   * `Monitor`.
   */
  method CallbackAfterDeinit(d: MonitorEventDispatcher, monitors: seq<nat>, m: nat, event: MonitorEvent) returns (called: seq<nat>)
    modifies d
    ensures called == []
    ensures forall x :: x in d.attached <==> x in old(d.attached) && x !in monitors
  {
    d.Deinit(monitors);
    called := d.Callback(m, event);
  }
}
