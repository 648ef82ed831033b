/** Sequencer events and the comparator that orders the event queue. */
module Events {

  /** An `unsigned int` tick. */
  type Tick = t: int | 0 <= t < 0x1_0000_0000

  const MAX_TICK: Tick := 0xFFFF_FFFF

  // The event types the comparator tells apart, numbered as in the public enumeration.
  const NOTE := 0
  const NOTEON := 1
  const NOTEOFF := 2
  const BANKSELECT := 5
  const PROGRAMCHANGE := 6
  const SYSTEMRESET := 20
  const UNREGISTERING := 21

  /** `payload` stands for the fields the queue copies but never looks at. */
  datatype Event = Event(time: Tick, ty: int, src: int, dest: int, id: int, payload: int)

  /** Dispatch precedence of an event type among events of one tick; lower goes first. */
  function Rank(ty: int): (r: nat)
    ensures r <= 6
  {
    if ty == NOTEOFF then 0
    else if ty == SYSTEMRESET then 1
    else if ty == UNREGISTERING then 2
    else if ty == BANKSELECT then 3
    else if ty == PROGRAMCHANGE then 4
    else if ty == NOTE || ty == NOTEON then 6
    else 5
  }

  /** The intended dispatch order: by tick, then by type precedence. */
  predicate Precedes(a: Event, b: Event) {
    a.time < b.time || (a.time == b.time && Rank(a.ty) < Rank(b.ty))
  }

  /** Event types outside the six named rows and columns of the precedence table. */
  predicate IsOther(ty: int) {
    && ty != NOTEOFF && ty != SYSTEMRESET && ty != UNREGISTERING
    && ty != BANKSELECT && ty != PROGRAMCHANGE && ty != NOTEON && ty != NOTE
  }

  /** The heap comparator, in the disjunctive normal form read off the precedence table. */
  predicate EventCompare(left: Event, right: Event): (less: bool)
    ensures less <==> Precedes(right, left)
  {
    var l, r := left.ty, right.ty;
    var leftIsBeforeRight :=
      if left.time < right.time then true
      else if left.time == right.time then
        || l == NOTEOFF
        || (r != NOTEOFF && l == SYSTEMRESET)
        || (r == NOTEON || r == NOTE)
        || (r != NOTEOFF && r != SYSTEMRESET && l == UNREGISTERING)
        || (r != NOTEOFF && r != SYSTEMRESET && r != UNREGISTERING && l == BANKSELECT)
        || (r != NOTEOFF && r != SYSTEMRESET && r != UNREGISTERING && r != BANKSELECT && l == PROGRAMCHANGE)
        || (IsOther(l) && IsOther(r))
      else false;
    !leftIsBeforeRight
  }

  /** Neither event has to be dispatched before the other. */
  predicate Incomparable(a: Event, b: Event) {
    !EventCompare(a, b) && !EventCompare(b, a)
  }

  /** A single number that sorts like (tick, precedence). */
  function Key(e: Event): nat {
    7 * e.time + Rank(e.ty)
  }

  /** The requirements the C++ heap algorithms put on a comparator: a strict weak order,
      with incomparability an equivalence whose classes are the (tick, precedence) pairs. */
  lemma StrictWeakOrder(a: Event, b: Event, c: Event)
    ensures !EventCompare(a, a)
    ensures EventCompare(a, b) ==> !EventCompare(b, a)
    ensures EventCompare(a, b) && EventCompare(b, c) ==> EventCompare(a, c)
    ensures Incomparable(a, b) && Incomparable(b, c) ==> Incomparable(a, c)
    ensures Incomparable(a, b) <==> a.time == b.time && Rank(a.ty) == Rank(b.ty)
    ensures EventCompare(a, b) <==> Key(b) < Key(a)
  {
  }

  /** The order documented for events of one tick, by type number: note-offs, then system resets, then
      unregistering events, then bank and program changes, then all others, and notes last. */
  lemma DocumentedOrder(a: Event, b: Event)
    ensures a.time < b.time ==> EventCompare(b, a)
    ensures a.time == b.time ==>
              && (a.ty == 2 && b.ty != 2 ==> EventCompare(b, a))
              && (a.ty == 20 && b.ty !in {2, 20} ==> EventCompare(b, a))
              && (a.ty == 21 && b.ty !in {2, 20, 21} ==> EventCompare(b, a))
              && (a.ty == 5 && b.ty !in {2, 20, 21, 5} ==> EventCompare(b, a))
              && (a.ty == 6 && b.ty !in {2, 20, 21, 5, 6} ==> EventCompare(b, a))
              && (a.ty !in {2, 20, 21, 5, 6, 0, 1} && b.ty in {0, 1} ==> EventCompare(b, a))
              && (a.ty !in {2, 20, 21, 5, 6, 0, 1} && b.ty !in {2, 20, 21, 5, 6, 0, 1} ==> !EventCompare(b, a))
              && (a.ty in {0, 1} && b.ty in {0, 1} ==> !EventCompare(b, a))
  {
  }
}
