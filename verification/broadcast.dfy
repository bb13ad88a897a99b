/** The status broadcaster of src/sync/sync.js: a list of listeners in
    registration order.  Calling a listener is recorded as a delivery
    `(listener, status)` appended to a log, so the order of calls is part of
    the state.
 */
module Broadcast {

  datatype Registry<L, S> = Registry(listeners: seq<L>, delivered: seq<(L, S)>)

  /** The deliveries one broadcast of `status` makes, in registration order. */
  function Deliveries<L, S>(listeners: seq<L>, status: S): (d: seq<(L, S)>)
    ensures |d| == |listeners|
    ensures forall i :: 0 <= i < |d| ==> d[i] == (listeners[i], status)
  {
    if |listeners| == 0 then [] else [(listeners[0], status)] + Deliveries(listeners[1..], status)
  }

  /** `addSyncStatusListener`: registers the listener at the end and calls
      it at once with the current status. */
  function AddListener<L, S>(reg: Registry<L, S>, l: L, status: S): (r: Registry<L, S>)
    ensures r.listeners == reg.listeners + [l]
    ensures r.delivered == reg.delivered + [(l, status)]
  {
    Registry(reg.listeners + [l], reg.delivered + [(l, status)])
  }

  /** `indexOf`: the first position of `x`, or -1. */
  function IndexOf<L(==)>(s: seq<L>, x: L): (i: int)
    ensures -1 <= i < |s|
    ensures i == -1 <==> x !in s
    ensures i >= 0 ==> s[i] == x && x !in s[..i]
  {
    if |s| == 0 then -1
    else if s[0] == x then 0
    else
      var j := IndexOf(s[1..], x);
      assert s == [s[0]] + s[1..];
      if j == -1 then -1
      else
        assert s[..j + 1] == [s[0]] + s[1..][..j];
        j + 1
  }

  /** `removeSyncStatusListener`: drops the first registration of the
      listener; an unknown listener changes nothing.  Nobody is called. */
  function RemoveListener<L(==), S>(reg: Registry<L, S>, l: L): (r: Registry<L, S>)
    ensures r.delivered == reg.delivered
    ensures l !in reg.listeners ==> r == reg
    ensures l in reg.listeners ==>
              var i := IndexOf(reg.listeners, l);
              r.listeners == reg.listeners[..i] + reg.listeners[i + 1..]
  {
    var i := IndexOf(reg.listeners, l);
    if i > -1 then reg.(listeners := reg.listeners[..i] + reg.listeners[i + 1..]) else reg
  }

  /** `notifyListeners`: every registered listener is called once with the
      status, in registration order. */
  function Notify<L, S>(reg: Registry<L, S>, status: S): (r: Registry<L, S>)
    ensures r.listeners == reg.listeners
    ensures r.delivered == reg.delivered + Deliveries(reg.listeners, status)
  {
    reg.(delivered := reg.delivered + Deliveries(reg.listeners, status))
  }

  /** Removal takes away exactly one registration of the listener and no
      registration of any other. */
  lemma RemoveListenerCount<L, S>(reg: Registry<L, S>, l: L)
    ensures multiset(RemoveListener(reg, l).listeners) == multiset(reg.listeners) - multiset{l}
  {
    if l in reg.listeners {
      var i := IndexOf(reg.listeners, l);
      var s := reg.listeners;
      assert s == s[..i] + [s[i]] + s[i + 1..];
    } else {
      assert multiset(reg.listeners)[l] == 0;
    }
  }

  /** Subscribing a new listener and unsubscribing it again restores the
      registrations; the immediate call it received stays in the log. */
  lemma AddThenRemove<L, S>(reg: Registry<L, S>, l: L, status: S)
    requires l !in reg.listeners
    ensures RemoveListener(AddListener(reg, l, status), l).listeners == reg.listeners
    ensures RemoveListener(AddListener(reg, l, status), l).delivered == reg.delivered + [(l, status)]
  {
    var s := reg.listeners + [l];
    assert forall k :: 0 <= k < |reg.listeners| ==> s[k] == reg.listeners[k];
    assert IndexOf(s, l) == |reg.listeners|;
    assert s[..|reg.listeners|] == reg.listeners;
  }

  /** A listener registered after a broadcast does not receive it, but the
      immediate call on subscription hands it the latest status. */
  lemma NotifyThenAdd<L, S>(reg: Registry<L, S>, l: L, s1: S, s2: S)
    ensures AddListener(Notify(reg, s1), l, s2).delivered
            == reg.delivered + Deliveries(reg.listeners, s1) + [(l, s2)]
  {
  }
}
