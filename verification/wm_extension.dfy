/**
 * `WMExtension` (include/tiara/wm/wm.hpp), the extension through which
 * tiara::wm is initialised and torn down. Its init sets up the monitor
 * dispatcher and raises `_init`; its deinit releases the Skia context,
 * empties every entry of the deferred-reclamation table, drops the present
 * queue and the preferred device, deinitialises the monitor dispatcher and
 * lowers `_init`.
 */
module WmExtension {
  import opened Wrappers
  import opened Reclamation
  import opened WmCommon
  import opened MonitorEvents

  class WmExtension {
    /** _init: what is_init() reports. */
    var initialised: bool
    /** The namespace-level device, queue and Skia state. */
    const globals: WmGlobals
    /** detail::_undeleted_semaphores */
    const table: ReclamationTable
    /** The static state of MonitorEventDispatcher. */
    const monitors: MonitorEventDispatcher

    constructor (globals: WmGlobals, table: ReclamationTable, monitors: MonitorEventDispatcher)
      ensures this.globals == globals && this.table == table && this.monitors == monitors
      ensures !initialised
    {
      this.globals := globals;
      this.table := table;
      this.monitors := monitors;
      initialised := false;
    }

    /** is_init() */
    function IsInit(): bool
      reads this
    {
      initialised
    }

    /** init(): every GLFW monitor in `connected` gets a `Monitor`, then `_init` is set. */
    method Init(connected: seq<nat>)
      modifies this, monitors
      ensures IsInit() && monitors.initialised
      ensures forall i :: 0 <= i < |connected| ==> connected[i] in monitors.attached
      ensures monitors.attached == old(monitors.attached) + Unattached(connected, old(monitors.attached))
      ensures monitors.connectedHandlers == old(monitors.connectedHandlers)
      ensures monitors.disconnectedHandlers == old(monitors.disconnectedHandlers)
    {
      monitors.Init(connected);
      initialised := true;
    }

    /**
     * deinit(): Skia released, every parked semaphore freed (the windows'
     * keys stay in the table), no present queue, no preferred device, the
     * `Monitor` of every GLFW monitor in `connected` deleted, `_init`
     * cleared. The device extension list and the handler registries stay.
     */
    method Deinit(connected: seq<nat>)
      modifies this, globals, table, monitors
      ensures !IsInit() && !monitors.initialised
      ensures !globals.skiaReady && globals.presentQueue == None && globals.preferredDevice == None
      ensures globals.deviceExtensions == old(globals.deviceExtensions)
      ensures table.entries == Cleared(old(table.entries))
      ensures forall m :: m in monitors.attached <==> m in old(monitors.attached) && m !in connected
      ensures monitors.connectedHandlers == old(monitors.connectedHandlers)
      ensures monitors.disconnectedHandlers == old(monitors.disconnectedHandlers)
    {
      globals.skiaReady := false;
      table.ClearAll();
      globals.presentQueue := None;
      globals.preferredDevice := None;
      monitors.Deinit(connected);
      initialised := false;
    }
  }

  /**
   * Deinit, re-init and deinit again with no window in between: the second
   * deinit finds nothing left to free, and the table is as the first
   * deinit left it.
   */
  method DeinitAfterReinit(ext: WmExtension, connected: seq<nat>)
    modifies ext, ext.globals, ext.table, ext.monitors
    ensures !ext.IsInit()
    ensures ext.table.entries == Cleared(old(ext.table.entries))
    ensures ext.table.entries.Keys == old(ext.table.entries).Keys
    ensures forall k :: k in ext.table.entries ==> ext.table.entries[k] == []
  {
    ext.Deinit(connected);
    ghost var once := ext.table.entries;
    ext.Init(connected);
    ext.Deinit(connected);
    ClearedIdempotent(old(ext.table.entries), 0, []);
    assert ext.table.entries == Cleared(once);
  }
}
