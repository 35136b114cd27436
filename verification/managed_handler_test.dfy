/**
 * The `main` of tests/core/managed_handler.cpp: three managed handlers and
 * one dispatcher; what each `emit` reaches after subscriptions, a handler's
 * destruction and an unsubscription.
 */
module ManagedHandlerScenario {
  import opened RemoveErase
  import opened TestDispatcher
  import opened ManagedHandlers

  /** Removing the first of two different handlers leaves the second. */
  lemma WithoutFront(a: nat, b: nat)
    requires a != b
    ensures Without<nat>([a, b], a) == [b]
  {
    assert [a, b] == [a] + [b];
    assert [] + [a] == [a];
    WithoutAppended<nat>([a], a, b);
    WithoutAppended<nat>([], a, a);
  }

  /** Handlers 1 and 2 subscribe; emit; 1 is destroyed; emit; 3 subscribes; emit; 2 unsubscribes; emit. */
  method Scenario() returns (first: seq<nat>, second: seq<nat>, third: seq<nat>, fourth: seq<nat>)
    ensures first == [1, 2]
    ensures second == [2]
    ensures third == [2, 3]
    ensures fourth == [3]
  {
    var handler1 := new ManagedHandler(1);
    var handler2 := new ManagedHandler(2);
    var handler3 := new ManagedHandler(3);
    var dispatcher := new EventDispatcher();
    handler1.Subscribe(dispatcher);
    handler2.Subscribe(dispatcher);
    assert dispatcher.handlers == [1, 2];
    first := dispatcher.Emit();

    assert handler1.asyncSubs + handler1.syncSubs == [dispatcher];
    handler1.Destroy({dispatcher});
    assert dispatcher in handler1.asyncSubs + handler1.syncSubs;
    WithoutFront(1, 2);
    second := dispatcher.Emit();

    handler3.Subscribe(dispatcher);
    assert dispatcher.handlers == [2, 3];
    third := dispatcher.Emit();

    handler2.Unsubscribe(dispatcher, {dispatcher});
    WithoutFront(2, 3);
    fourth := dispatcher.Emit();
  }
}
