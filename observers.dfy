/**
 * Observers and the fan-out of events to them. An observer is known by its
 * interest list (empty: every event). `notify` is an output sink; what
 * reaches it is recorded as a delivery naming the observer and the event.
 */
module Observers {
  /** A console observer; observers that keep the default interest test
      behave like one with an empty list. */
  datatype ConsoleObserver = ConsoleObserver(interestedEvents: seq<string>)

  /** The default constructor: interested in every event. */
  function DefaultConsoleObserver(): (o: ConsoleObserver)
    ensures o.interestedEvents == []
  {
    ConsoleObserver([])
  }

  /** An empty interest list accepts everything; otherwise the event must be listed. */
  function IsInterestedIn(o: ConsoleObserver, eventType: string): (r: bool)
    ensures o.interestedEvents == [] ==> r
    ensures o.interestedEvents != [] ==> (r <==> eventType in o.interestedEvents)
  {
    |o.interestedEvents| == 0 || eventType in o.interestedEvents
  }

  /** A registered observer: `handle` stands for the object identity `removeObserver` compares. */
  datatype Registration = Registration(handle: int, observer: ConsoleObserver)

  /** One call of `notify`: which observer received which event. */
  datatype Delivery = Delivery(handle: int, eventType: string)

  /** The deliveries `notifyObservers(eventType, _)` makes, in registration order. */
  function Fanout(observers: seq<Registration>, eventType: string): (r: seq<Delivery>)
    ensures |r| <= |observers|
    ensures forall k :: 0 <= k < |r| ==> r[k].eventType == eventType
  {
    if |observers| == 0 then []
    else
      var last := observers[|observers| - 1];
      Fanout(observers[..|observers| - 1], eventType)
        + (if IsInterestedIn(last.observer, eventType) then [Delivery(last.handle, eventType)] else [])
  }

  /** Fan-out distributes over concatenation: registration order is delivery order. */
  lemma {:induction false} FanoutAppend(first: seq<Registration>, second: seq<Registration>, eventType: string)
    ensures Fanout(first + second, eventType) == Fanout(first, eventType) + Fanout(second, eventType)
    decreases |second|
  {
    if |second| > 0 {
      var all := first + second;
      assert all[..|all| - 1] == first + second[..|second| - 1];
      FanoutAppend(first, second[..|second| - 1], eventType);
    } else {
      assert first + second == first;
    }
  }

  /** An observer receives the event iff it is registered and interested. */
  lemma {:induction false} FanoutReachesInterested(observers: seq<Registration>, eventType: string, handle: int)
    ensures Delivery(handle, eventType) in Fanout(observers, eventType) <==>
      exists i :: 0 <= i < |observers| && observers[i].handle == handle
        && IsInterestedIn(observers[i].observer, eventType)
    decreases |observers|
  {
    if |observers| > 0 {
      var init := observers[..|observers| - 1];
      FanoutReachesInterested(init, eventType, handle);
      if exists i :: 0 <= i < |init| && init[i].handle == handle && IsInterestedIn(init[i].observer, eventType) {
        var i :| 0 <= i < |init| && init[i].handle == handle && IsInterestedIn(init[i].observer, eventType);
        assert observers[i] == init[i];
      }
      if exists i :: 0 <= i < |observers| && observers[i].handle == handle
          && IsInterestedIn(observers[i].observer, eventType) {
        var i :| 0 <= i < |observers| && observers[i].handle == handle
          && IsInterestedIn(observers[i].observer, eventType);
        if i < |init| {
          assert init[i] == observers[i];
        }
      }
    }
  }

  /** `removeObserver`: the registrations with another handle, in their order. */
  function WithoutHandle(observers: seq<Registration>, handle: int): (r: seq<Registration>)
    ensures forall k :: 0 <= k < |r| ==> r[k].handle != handle
    ensures forall x :: x in r <==> x in observers && x.handle != handle
    ensures |r| <= |observers|
  {
    if |observers| == 0 then []
    else
      var last := observers[|observers| - 1];
      var init := observers[..|observers| - 1];
      assert observers == init + [last];
      WithoutHandle(init, handle) + (if last.handle == handle then [] else [last])
  }

  /** One more registration at the end is kept, after the others, unless it has the handle. */
  lemma WithoutHandleSnoc(observers: seq<Registration>, last: Registration, handle: int)
    ensures WithoutHandle(observers + [last], handle)
      == WithoutHandle(observers, handle) + (if last.handle == handle then [] else [last])
  {
    var all := observers + [last];
    assert all[..|all| - 1] == observers && all[|all| - 1] == last;
  }

  /** Removal distributes over concatenation: the survivors keep their
      relative order and every registration with another handle stays, once per copy. */
  lemma {:induction false} WithoutHandleAppend(first: seq<Registration>, second: seq<Registration>, handle: int)
    ensures WithoutHandle(first + second, handle) == WithoutHandle(first, handle) + WithoutHandle(second, handle)
    decreases |second|
  {
    if |second| > 0 {
      var init, last := second[..|second| - 1], second[|second| - 1];
      var tail := if last.handle == handle then [] else [last];
      assert second == init + [last];
      assert first + second == (first + init) + [last];
      calc {
        WithoutHandle(first + second, handle);
        { WithoutHandleSnoc(first + init, last, handle); }
        WithoutHandle(first + init, handle) + tail;
        { WithoutHandleAppend(first, init, handle); }
        (WithoutHandle(first, handle) + WithoutHandle(init, handle)) + tail;
        WithoutHandle(first, handle) + (WithoutHandle(init, handle) + tail);
        { WithoutHandleSnoc(init, last, handle); }
        WithoutHandle(first, handle) + WithoutHandle(second, handle);
      }
    } else {
      assert first + second == first;
    }
  }

  /** Removing an observer that is not registered changes nothing. */
  lemma {:induction false} WithoutAbsentHandle(observers: seq<Registration>, handle: int)
    requires forall k :: 0 <= k < |observers| ==> observers[k].handle != handle
    ensures WithoutHandle(observers, handle) == observers
    decreases |observers|
  {
    if |observers| > 0 {
      WithoutAbsentHandle(observers[..|observers| - 1], handle);
      assert observers == observers[..|observers| - 1] + [observers[|observers| - 1]];
    }
  }
}
