/**
 * The deferred-reclamation table `_undeleted_semaphores` of
 * include/tiara/wm/window.hpp: a map from a window's identity to the
 * semaphores its destructor could not free because frames were still in
 * flight. The flush finish callback erases the window's entry (freeing
 * them); tiara::wm's deinit empties every entry but keeps the keys.
 */
module Reclamation {

  /** A Vulkan semaphore with its Skia wrapper: the window that created it and a serial unique to that window. */
  datatype Sem = Sem(window: nat, serial: nat)

  /** std::map::emplace: inserts `sems` under `id` only when `id` has no entry yet. */
  function Parked(m: map<nat, seq<Sem>>, id: nat, sems: seq<Sem>): (r: map<nat, seq<Sem>>)
    ensures id in r
    ensures id in m ==> r == m
    ensures id !in m ==> r[id] == sems && r.Keys == m.Keys + {id}
    ensures forall k :: k in m ==> k in r && (k != id ==> r[k] == m[k])
  {
    if id in m then m else m[id := sems]
  }

  /** std::map::erase by key. */
  function Reclaimed(m: map<nat, seq<Sem>>, id: nat): (r: map<nat, seq<Sem>>)
    ensures id !in r
    ensures r.Keys == m.Keys - {id}
    ensures forall k :: k in r ==> r[k] == m[k]
  {
    m - {id}
  }

  /** Every entry emptied, every key kept. */
  function Cleared(m: map<nat, seq<Sem>>): (r: map<nat, seq<Sem>>)
    ensures r.Keys == m.Keys
    ensures forall k :: k in r ==> r[k] == []
  {
    map k | k in m :: []
  }

  /** The finish callback undoes a park: afterwards the table is as if the window had never parked anything. */
  lemma ParkThenReclaim(m: map<nat, seq<Sem>>, id: nat, sems: seq<Sem>)
    ensures Reclaimed(Parked(m, id, sems), id) == Reclaimed(m, id)
  {
  }

  /** A second park under the same identity leaves the first window's semaphores in place and parks nothing. */
  lemma SecondParkKeepsFirst(m: map<nat, seq<Sem>>, id: nat, first: seq<Sem>, second: seq<Sem>)
    ensures Parked(Parked(m, id, first), id, second) == Parked(m, id, first)
    ensures Parked(Parked(m, id, first), id, second)[id] == (if id in m then m[id] else first)
  {
  }

  /** Reclaiming one window's entry leaves every other window's entry untouched. */
  lemma ReclaimIsLocal(m: map<nat, seq<Sem>>, id: nat, other: nat)
    requires other != id && other in m
    ensures other in Reclaimed(m, id) && Reclaimed(m, id)[other] == m[other]
  {
  }

  /** Clearing twice is clearing once, and a cleared entry can no longer receive a park. */
  lemma ClearedIdempotent(m: map<nat, seq<Sem>>, id: nat, sems: seq<Sem>)
    ensures Cleared(Cleared(m)) == Cleared(m)
    ensures id in m ==> Parked(Cleared(m), id, sems)[id] == []
  {
  }

  /** _undeleted_semaphores. */
  class ReclamationTable {
    var entries: map<nat, seq<Sem>>

    constructor ()
      ensures entries == map[]
    {
      entries := map[];
    }

    /**
     * The destructor's `_undeleted_semaphores.emplace(this, {})`, followed,
     * when it inserted, by moving the three pools in, in order.
     */
    method Park(id: nat, renderable: seq<Sem>, rendered: seq<Sem>, presentable: seq<Sem>) returns (inserted: bool)
      modifies this
      ensures inserted <==> id !in old(entries)
      ensures entries == Parked(old(entries), id, renderable + rendered + presentable)
    {
      inserted := id !in entries;
      if inserted {
        entries := entries[id := []];
        entries := entries[id := entries[id] + renderable];
        entries := entries[id := entries[id] + rendered];
        entries := entries[id := entries[id] + presentable];
        assert entries[id] == renderable + rendered + presentable;
      }
    }

    /** The presentable flush's fFinishedProc: `_undeleted_semaphores.erase(finish_context)`. */
    method Finish(id: nat)
      modifies this
      ensures entries == Reclaimed(old(entries), id)
    {
      entries := entries - {id};
    }

    /** WMExtension::deinit's loop: `semaphore_vec.clear()` for every entry. */
    method ClearAll()
      modifies this
      ensures entries == Cleared(old(entries))
    {
      var todo := entries.Keys;
      while todo != {}
        invariant todo <= entries.Keys
        invariant entries.Keys == old(entries).Keys
        invariant forall k :: k in entries && k !in todo ==> entries[k] == []
        invariant forall k :: k in todo ==> entries[k] == old(entries)[k]
        decreases todo
      {
        var k :| k in todo;
        entries := entries[k := []];
        todo := todo - {k};
      }
    }
  }
}
