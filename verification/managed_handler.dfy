/**
 * `ManagedHandler` (include/tiara/core/event/managed_handler.hpp): a
 * handler that remembers, through weak references, every dispatcher it
 * subscribed to, so that it can deregister itself when it is destroyed.
 * A weak reference is the dispatcher object itself; whether it can still
 * be locked is given by the set `live` of dispatchers still alive.
 */
module ManagedHandlers {
  import opened RemoveErase
  import opened TestDispatcher

  /** The unsubscribe predicate: the entry has expired, or it is the dispatcher being left. */
  function Stale<T(==)>(d: T, live: set<T>): T -> bool {
    e => e !in live || e == d
  }

  /** A subscription list after `unsubscribe(d)`: expired entries and entries for `d` removed, order kept. */
  function Unsubscribed<T(==)>(subs: seq<T>, d: T, live: set<T>): (r: seq<T>)
    ensures forall i :: 0 <= i < |r| ==> r[i] != d && r[i] in live && r[i] in subs
    ensures forall i :: 0 <= i < |subs| && subs[i] in live && subs[i] != d ==> subs[i] in r
  {
    Filtered(subs, Stale(d, live))
  }

  /** Unsubscribing distributes over the list: the survivors of `a` stay ahead of those of `b`. */
  lemma UnsubscribedKeepsOrder<T>(a: seq<T>, b: seq<T>, d: T, live: set<T>)
    ensures Unsubscribed(a + b, d, live) == Unsubscribed(a, d, live) + Unsubscribed(b, d, live)
  {
    FilteredAppend(a, b, Stale(d, live));
  }

  /** Subscribing to a live `d` and then unsubscribing from it leaves the list as unsubscribing alone would. */
  lemma SubscribeThenUnsubscribe<T>(subs: seq<T>, d: T, live: set<T>)
    ensures Unsubscribed(subs + [d], d, live) == Unsubscribed(subs, d, live)
  {
    UnsubscribedKeepsOrder(subs, [d], d, live);
    assert Unsubscribed([d], d, live) == [];
  }

  /** Unsubscribing twice from the same dispatcher is unsubscribing once. */
  lemma UnsubscribeIdempotent<T>(subs: seq<T>, d: T, live: set<T>)
    ensures Unsubscribed(Unsubscribed(subs, d, live), d, live) == Unsubscribed(subs, d, live)
  {
    FilteredIdempotent(subs, Stale(d, live));
  }

  class ManagedHandler {
    /** The handler's identity. */
    const id: nat
    /** _weak_subscribed_dispatchers */
    var asyncSubs: seq<EventDispatcher>
    /** _weak_subscribed_sync_dispatchers */
    var syncSubs: seq<EventDispatcher>

    constructor (id: nat)
      ensures this.id == id && asyncSubs == [] && syncSubs == []
    {
      this.id := id;
      asyncSubs := [];
      syncSubs := [];
    }

    /** subscribe(AsyncDispatcher): register with `d`, then remember it. */
    method SubscribeAsync(d: EventDispatcher)
      modifies this, d
      ensures d.handlers == old(d.handlers) + [id]
      ensures asyncSubs == old(asyncSubs) + [d] && syncSubs == old(syncSubs)
    {
      d.StartDispatch(id);
      asyncSubs := asyncSubs + [d];
    }

    /** unsubscribe(AsyncDispatcher): deregister from `d`, then drop `d` and every expired entry. */
    method UnsubscribeAsync(d: EventDispatcher, live: set<EventDispatcher>)
      modifies this, d
      ensures d.handlers == Without(old(d.handlers), id)
      ensures asyncSubs == Unsubscribed(old(asyncSubs), d, live) && syncSubs == old(syncSubs)
    {
      d.StopDispatch(id);
      asyncSubs := RemoveEraseIf(asyncSubs, Stale(d, live));
    }

    /** subscribe(Dispatcher): the same for the synchronous list. */
    method Subscribe(d: EventDispatcher)
      modifies this, d
      ensures d.handlers == old(d.handlers) + [id]
      ensures syncSubs == old(syncSubs) + [d] && asyncSubs == old(asyncSubs)
    {
      d.StartDispatch(id);
      syncSubs := syncSubs + [d];
    }

    /** unsubscribe(Dispatcher): the same for the synchronous list. */
    method Unsubscribe(d: EventDispatcher, live: set<EventDispatcher>)
      modifies this, d
      ensures d.handlers == Without(old(d.handlers), id)
      ensures syncSubs == Unsubscribed(old(syncSubs), d, live) && asyncSubs == old(asyncSubs)
    {
      d.StopDispatch(id);
      syncSubs := RemoveEraseIf(syncSubs, Stale(d, live));
    }

    /**
     * The destructor: every subscribed dispatcher that is still alive, in
     * either list, stops dispatching to this handler; the others are left
     * alone.
     */
    method Destroy(live: set<EventDispatcher>)
      modifies set d | d in asyncSubs + syncSubs && d in live
      ensures forall d :: d in asyncSubs + syncSubs && d in live ==> d.handlers == Without(old(d.handlers), id)
    {
      forall d | d in asyncSubs + syncSubs && d in live
        ensures Without(Without(d.handlers, id), id) == Without(d.handlers, id)
      {
        WithoutIdempotent(d.handlers, id);
      }
      StopAll(asyncSubs, live, asyncSubs + syncSubs);
      StopAll(syncSubs, live, asyncSubs + syncSubs);
    }

    /**
     * One of the destructor's loops: deregisters from every live dispatcher
     * of `subs`. `all` is the frame of both loops; dispatchers already
     * visited stay deregistered, since removal is idempotent.
     */
    method StopAll(subs: seq<EventDispatcher>, live: set<EventDispatcher>, all: seq<EventDispatcher>)
      requires forall i :: 0 <= i < |subs| ==> subs[i] in all
      modifies set d | d in all && d in live
      ensures forall d :: d in subs && d in live ==> d.handlers == Without(old(d.handlers), id)
      ensures forall d :: d in all && d in live && d !in subs ==> d.handlers == old(d.handlers)
      ensures forall d :: d in all && d in live && old(d.handlers) == Without(old(d.handlers), id) ==> d.handlers == old(d.handlers)
    {
      for i := 0 to |subs|
        invariant forall d :: d in subs[..i] && d in live ==> d.handlers == Without(old(d.handlers), id)
        invariant forall d :: d in all && d in live && d !in subs[..i] ==> d.handlers == old(d.handlers)
        invariant forall d :: d in all && d in live && old(d.handlers) == Without(old(d.handlers), id) ==> d.handlers == old(d.handlers)
      {
        var d := subs[i];
        if d in live {
          WithoutIdempotent(old(d.handlers), id);
          d.StopDispatch(id);
        }
        assert subs[..i + 1] == subs[..i] + [d];
      }
      assert subs[..|subs|] == subs;
    }
  }
}
