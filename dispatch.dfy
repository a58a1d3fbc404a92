/**
 * Handing decoded events to the registered listeners: one optional slot per
 * event kind, and an event whose slot is empty is dropped.
 */
module Dispatch {
  import opened Wrappers
  import opened Sense3dTypes

  /** Listeners are opaque callbacks; the model tells them apart by an identifier. */
  type ListenerId = nat

  /** The four listener slots. */
  datatype Slots = Slots(
    gesture: Option<ListenerId>,
    move: Option<ListenerId>,
    touchTap: Option<ListenerId>,
    airWheel: Option<ListenerId>)

  function SlotFor(slots: Slots, kind: EventKind): Option<ListenerId>
  {
    match kind
    case MoveKind => slots.move
    case TouchTapKind => slots.touchTap
    case GestureKind => slots.gesture
    case AirWheelKind => slots.airWheel
  }

  /**
   * One dispatch of a decoded event: the listener that was called with it, or
   * None when the slot of its kind was empty and nothing was called.
   */
  datatype Delivery = Delivery(listener: Option<ListenerId>, event: Event)

  /** `listener?.run { this(event) }` for each event in turn. */
  function Deliver(events: seq<Event>, slots: Slots): (r: seq<Delivery>)
    ensures |r| == |events|
  {
    seq(|events|, i requires 0 <= i < |events| => Delivery(SlotFor(slots, KindOf(events[i])), events[i]))
  }

  lemma DeliverAppend(a: seq<Event>, b: seq<Event>, slots: Slots)
    ensures Deliver(a + b, slots) == Deliver(a, slots) + Deliver(b, slots)
  {
  }

  /**
   * Listener l is called with event e exactly when e was decoded and l sits in
   * the slot of e's kind.
   */
  lemma DeliverMembership(events: seq<Event>, slots: Slots, l: ListenerId, e: Event)
    ensures Delivery(Some(l), e) in Deliver(events, slots) <==> e in events && SlotFor(slots, KindOf(e)) == Some(l)
  {
    if e in events && SlotFor(slots, KindOf(e)) == Some(l) {
      var i :| 0 <= i < |events| && events[i] == e;
      assert Deliver(events, slots)[i] == Delivery(Some(l), e);
    }
  }

  /** With every slot filled, each event is delivered, in decode order, to the listener of its kind. */
  lemma DeliverAllSlots(events: seq<Event>, slots: Slots)
    requires slots.gesture.Some? && slots.move.Some? && slots.touchTap.Some? && slots.airWheel.Some?
    ensures forall i | 0 <= i < |events| ::
              Deliver(events, slots)[i].listener.Some? && Deliver(events, slots)[i].event == events[i]
  {
    forall i | 0 <= i < |events|
      ensures Deliver(events, slots)[i].listener.Some?
    {
      match KindOf(events[i])
      case MoveKind =>
      case TouchTapKind =>
      case GestureKind =>
      case AirWheelKind =>
    }
  }

  /** With every slot empty, no listener is called. */
  lemma DeliverNoSlots(events: seq<Event>)
    ensures forall d | d in Deliver(events, Slots(None, None, None, None)) :: d.listener == None
  {
    forall d | d in Deliver(events, Slots(None, None, None, None))
      ensures d.listener == None
    {
      var i :| 0 <= i < |events| && Deliver(events, Slots(None, None, None, None))[i] == d;
      match KindOf(events[i])
      case MoveKind =>
      case TouchTapKind =>
      case GestureKind =>
      case AirWheelKind =>
    }
  }
}
