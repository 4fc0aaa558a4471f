/**
 * The game store's publish/subscribe registry
 * (client/src/lib/stores/useGameState.tsx): a map from event name to the
 * list of listeners registered for it.
 *
 * Listeners are opaque callbacks in the game; here a listener is any value
 * of an equality type `L`, compared by identity as the source compares
 * function references. Calling a listener is recorded as an `Invocation`,
 * so dispatching an event yields the ordered trace of calls it makes.
 */
module EventBus {
  import opened Sequences

  datatype GameEvent = RingPassed | ScoreChanged | GameStarted | GameEnded | GameReset

  /** The payload handed to every listener of an event. */
  datatype EventData =
    | NoData
    | RingPassedData(ringIndex: int, points: int)
    | ScoreChangedData(newScore: int, pointsAdded: int)

  /** One call of `dispatchEvent`. */
  datatype Emission = Emission(event: GameEvent, data: EventData)

  /** One call of a listener, with the event it was registered for. */
  datatype Invocation<L> = Invocation(listener: L, event: GameEvent, data: EventData)

  type Registry<L> = map<GameEvent, seq<L>>

  /** The listeners of `e`, the empty list when `e` has none. */
  function Listeners<L>(reg: Registry<L>, e: GameEvent): seq<L> {
    if e in reg then reg[e] else []
  }

  /** `s` with one element deleted: the element at `k`. */
  ghost predicate DeletesFirst<T>(s: seq<T>, x: T, r: seq<T>, k: int) {
    0 <= k < |s| && s[k] == x && x !in s[..k] && r == s[..k] + s[k + 1..]
  }

  /** Removes the first occurrence of `x` and keeps the order of the rest. */
  function RemoveFirst<T(==)>(s: seq<T>, x: T): (r: seq<T>)
    ensures x !in s ==> r == s
    ensures x in s ==> exists k :: DeletesFirst(s, x, r, k)
    ensures x in s ==> |r| == |s| - 1 && multiset(r) == multiset(s) - multiset{x}
  {
    var k := IndexOf(s, x);
    if k == -1 then s
    else
      assert s == s[..k] + [x] + s[k + 1..];
      assert DeletesFirst(s, x, s[..k] + s[k + 1..], k);
      s[..k] + s[k + 1..]
  }

  /** Removing an element just appended undoes the append; an earlier copy, if any, goes first. */
  lemma {:induction false} RemoveAfterAppend<T>(s: seq<T>, x: T)
    ensures x !in s ==> RemoveFirst(s + [x], x) == s
    ensures x in s ==> RemoveFirst(s + [x], x) == RemoveFirst(s, x) + [x]
  {
    var k := IndexOf(s, x);
    var k' := IndexOf(s + [x], x);
    if k == -1 {
      assert (s + [x])[..|s|] == s;
      assert k' == |s|;
    } else {
      assert (s + [x])[..k] == s[..k];
      FirstIndexUnique(s + [x], x, k, k');
      assert (s + [x])[k + 1..] == s[k + 1..] + [x];
    }
  }

  function AddEventListener<L>(reg: Registry<L>, e: GameEvent, listener: L): (r: Registry<L>)
    ensures e in r && r.Keys == reg.Keys + {e}
    ensures Listeners(r, e) == Listeners(reg, e) + [listener]
    ensures forall e' :: e' != e ==> Listeners(r, e') == Listeners(reg, e')
  {
    var withList := if e !in reg then reg[e := []] else reg;
    withList[e := withList[e] + [listener]]
  }

  function RemoveEventListener<L(==)>(reg: Registry<L>, e: GameEvent, listener: L): (r: Registry<L>)
    ensures e !in reg ==> r == reg
    ensures listener !in Listeners(reg, e) ==> r == reg
    ensures r.Keys == reg.Keys
    ensures Listeners(r, e) == RemoveFirst(Listeners(reg, e), listener)
    ensures forall e' :: e' != e ==> Listeners(r, e') == Listeners(reg, e')
  {
    if e in reg then
      var k := IndexOf(reg[e], listener);
      if k != -1 then reg[e := RemoveFirst(reg[e], listener)] else reg
    else reg
  }

  /**
   * Registering a listener that was not yet registered and then removing it
   * restores the event's list; the registry is restored entirely when the
   * event already had a list (otherwise an empty list is left behind).
   */
  lemma AddRemoveRoundTrip<L>(reg: Registry<L>, e: GameEvent, listener: L)
    requires listener !in Listeners(reg, e)
    ensures var r := RemoveEventListener(AddEventListener(reg, e, listener), e, listener);
      && Listeners(r, e) == Listeners(reg, e)
      && (e in reg ==> r == reg)
      && (e !in reg ==> r == reg[e := []])
  {
    RemoveAfterAppend(Listeners(reg, e), listener);
  }

  /** Calls each listener of `ls` once with `data`, front to back. */
  function DispatchTo<L>(ls: seq<L>, e: GameEvent, data: EventData): (calls: seq<Invocation<L>>)
    ensures |calls| == |ls|
    ensures forall k :: 0 <= k < |ls| ==> calls[k] == Invocation(ls[k], e, data)
  {
    if |ls| == 0 then [] else [Invocation(ls[0], e, data)] + DispatchTo(ls[1..], e, data)
  }

  /** The calls `dispatchEvent` makes: the event's listeners in registration order. */
  function Dispatch<L>(reg: Registry<L>, em: Emission): (calls: seq<Invocation<L>>)
    ensures |calls| == |Listeners(reg, em.event)|
    ensures forall k :: 0 <= k < |calls| ==>
      calls[k] == Invocation(Listeners(reg, em.event)[k], em.event, em.data)
  {
    DispatchTo(Listeners(reg, em.event), em.event, em.data)
  }

  /** The calls made by dispatching `ems` one after the other. */
  function Deliver<L>(reg: Registry<L>, ems: seq<Emission>): seq<Invocation<L>> {
    if |ems| == 0 then [] else Dispatch(reg, ems[0]) + Deliver(reg, ems[1..])
  }

  /** Delivery respects the order of emissions: the calls of `a` all precede those of `b`. */
  lemma {:induction false} DeliverAppend<L>(reg: Registry<L>, a: seq<Emission>, b: seq<Emission>)
    ensures Deliver(reg, a + b) == Deliver(reg, a) + Deliver(reg, b)
  {
    if |a| == 0 {
      assert a + b == b;
    } else {
      assert (a + b)[0] == a[0];
      assert (a + b)[1..] == a[1..] + b;
      DeliverAppend(reg, a[1..], b);
    }
  }

  /** Delivering two emissions calls the first event's listeners, then the second's. */
  lemma DeliverPair<L>(reg: Registry<L>, first: Emission, second: Emission)
    ensures Deliver(reg, [first, second]) == Dispatch(reg, first) + Dispatch(reg, second)
  {
    assert [first, second] == [first] + [second];
    DeliverAppend(reg, [first], [second]);
    SingleDelivery(reg, first);
    SingleDelivery(reg, second);
  }

  lemma SingleDelivery<L>(reg: Registry<L>, em: Emission)
    ensures Deliver(reg, [em]) == Dispatch(reg, em)
  {
    assert [em][1..] == [];
  }
}
