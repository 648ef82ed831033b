/** The sequencer's event queue: a binary heap kept in the first `size` cells of a growing buffer. */
module EventQueue {
  import opened Events
  import opened BinaryHeap
  import opened QueueModel
  import opened Dispatch

  const BLANK := Event(0, 0, 0, 0, 0, 0)

  class EventQueue {
    var data: array<Event>
    var size: nat

    ghost predicate InBounds()
      reads this
    {
      size <= data.Length
    }

    ghost function Contents(): seq<Event>
      requires InBounds()
      reads this, data
    {
      data[..size]
    }

    ghost predicate Valid()
      reads this, data
    {
      InBounds() && IsHeap(Contents())
    }

    constructor (nbEvents: nat)
      ensures Valid() && fresh(data) && Contents() == []
    {
      data := new Event[nbEvents](_ => BLANK);
      size := 0;
    }

    /** deque::push_back; the buffer grows when it is full. */
    method Append(e: Event)
      requires InBounds()
      modifies this, data
      ensures InBounds() && (data == old(data) || fresh(data))
      ensures Contents() == old(Contents()) + [e]
    {
      if size == data.Length {
        var bigger := new Event[2 * size + 1](_ => BLANK);
        forall i | 0 <= i < size {
          bigger[i] := data[i];
        }
        data := bigger;
      }
      data[size] := e;
      size := size + 1;
    }

    method Push(e: Event)
      requires Valid()
      modifies this, data
      ensures Valid() && (data == old(data) || fresh(data))
      ensures Contents() == Pushed(old(Contents()), e)
    {
      PushedHeap(Contents(), e);
      Append(e);
      PushHeap(data, size);
    }

    /** deque::erase: the events behind index k move up by one. */
    method Erase(k: nat)
      requires InBounds() && k < size
      modifies this`size, data
      ensures InBounds()
      ensures Contents() == old(Contents())[..k] + old(Contents())[k + 1..]
    {
      ghost var before := Contents();
      ghost var gone := before[..k] + before[k + 1..];
      var i := k;
      while i + 1 < size
        invariant k <= i < size == old(size)
        invariant forall j :: 0 <= j < i ==> data[j] == gone[j]
        invariant forall j :: i < j < size ==> data[j] == before[j]
      {
        data[i] := data[i + 1];
        i := i + 1;
      }
      size := size - 1;
    }

    method EraseMatching(src: int, dest: int, ty: int)
      requires InBounds()
      modifies this`size, data
      ensures InBounds()
      ensures Contents() == Kept(old(Contents()), src, dest, ty)
    {
      hide Matches, Kept;
      ghost var goal := Kept(Contents(), src, dest, ty);
      var it := 0;
      while it < size
        invariant InBounds() && it <= size
        invariant Contents()[..it] + Kept(Contents()[it..], src, dest, ty) == goal
        decreases size - it
      {
        ghost var s := Contents();
        KeptStep(s, it, src, dest, ty);
        if Matches(data[it], src, dest, ty) {
          Erase(it);
          assert Contents()[..it] == s[..it] && Contents()[it..] == s[it + 1..];
        } else {
          assert s[..it] + ([s[it]] + Kept(s[it + 1..], src, dest, ty))
              == s[..it + 1] + Kept(s[it + 1..], src, dest, ty);
          it := it + 1;
        }
      }
      KeptStep(Contents(), it, src, dest, ty);
      assert Contents() == Contents()[..it];
    }

    method Remove(src: int, dest: int, ty: int)
      requires Valid()
      modifies this`size, data
      ensures Valid()
      ensures Contents() == Removed(old(Contents()), src, dest, ty)
      ensures forall e :: multiset(Contents())[e] ==
                          if (src != -1 && e.src != src) || (dest != -1 && e.dest != dest) || (ty != -1 && e.ty != ty)
                          then multiset(old(Contents()))[e] else 0
    {
      RemovedIsFilter(Contents(), src, dest, ty);
      if src == WILDCARD && dest == WILDCARD && ty == WILDCARD {
        size := 0;
      } else {
        EraseMatching(src, dest, ty);
        MakeHeapCells(data, size);
      }
    }

    /** The first of the earliest note-offs of the note, -1 if there is none. */
    method FindNoteOff(dest: int, id: int) returns (target: int)
      requires InBounds()
      ensures target == EarliestTarget(Contents(), dest, id, size)
    {
      target := -1;
      var earliest: Tick := MAX_TICK;
      var i := 0;
      while i < size
        invariant 0 <= i <= size
        invariant target == EarliestTarget(Contents(), dest, id, i)
        invariant earliest == if target == -1 then MAX_TICK else data[target].time
      {
        if data[i].dest == dest && data[i].ty == NOTEOFF && data[i].id == id && data[i].time < earliest {
          earliest := data[i].time;
          target := i;
        }
        i := i + 1;
      }
    }

    method InvalidateNote(dest: int, id: int)
      requires Valid()
      modifies data
      ensures Valid()
      ensures Contents() == Invalidated(old(Contents()), dest, id)
      ensures forall i :: 0 <= i < size && Contents()[i] != old(Contents())[i] ==>
                var e := old(Contents())[i];
                e.dest == dest && e.ty == 2 && e.id == id && e.time < 0xFFFF_FFFF && Contents()[i] == e.(dest := -1)
    {
      hide IsHeap, EarliestTarget;
      InvalidatedHeap(Contents(), dest, id);
      var target := FindNoteOff(dest, id);
      if target != -1 {
        data[target] := data[target].(dest := -1);
      }
      assert Contents() == Invalidated(old(Contents()), dest, id);
    }

    method Pop()
      requires Valid() && 0 < size
      modifies this`size, data
      ensures Valid()
      ensures Contents() == Popped(old(Contents()))
    {
      PoppedHeap(Contents());
      PopHeap(data, size);
      size := size - 1;
    }

    method Perform(action: Action)
      requires Valid()
      modifies this, data
      ensures Valid() && (data == old(data) || fresh(data))
      ensures Contents() == Act(old(Contents()), action)
    {
      hide Pushed, Removed, Invalidated;
      match action {
        case Push(e) => Push(e);
        case Remove(src, dest, ty) => Remove(src, dest, ty);
        case Invalidate(dest, id) => InvalidateNote(dest, id);
      }
    }

    /** A client callback working on the queue. */
    method Callback(actions: seq<Action>)
      requires Valid()
      modifies this, data
      ensures Valid() && (data == old(data) || fresh(data))
      ensures Contents() == ApplyAll(old(Contents()), actions)
    {
      hide Act;
      var i := 0;
      while i < |actions|
        invariant 0 <= i <= |actions|
        invariant Valid() && (data == old(data) || fresh(data))
        invariant ApplyAll(Contents(), actions[i..]) == ApplyAll(old(Contents()), actions)
      {
        assert actions[i..][0] == actions[i] && actions[i..][1..] == actions[i + 1..];
        Perform(actions[i]);
        i := i + 1;
      }
    }

    /** Delivers every due event, in order; the callback of the k-th delivery runs script(k). */
    method Process(now: Tick, script: Script, ghost bound: nat) returns (delivered: seq<Event>)
      requires Valid()
      requires forall n :: DuePushesUpTo(script, now, n) <= bound
      modifies this, data
      ensures Valid() && (data == old(data) || fresh(data))
      ensures Completes(old(Contents()), now, script, Contents(), delivered)
    {
      hide Popped, ApplyAll, DueEvents, IsHeap;
      ghost var start := Contents();
      delivered := [];
      RoundsAreBudgeted(start, now, script, 0);
      while size != 0
        invariant Valid() && (data == old(data) || fresh(data))
        invariant (Contents(), delivered) == Iterate(start, now, script, |delivered|)
        invariant |delivered| + |DueEvents(Contents(), now)| <= |DueEvents(start, now)| + bound
        decreases |DueEvents(start, now)| + bound - |delivered|, size
      {
        var top := data[0];
        if top.time <= now {
          RoundsAreBudgeted(start, now, script, |delivered| + 1);
          Pop();
          Callback(script(|delivered|));
          delivered := delivered + [top];
        } else {
          break;
        }
      }
    }
  }
}
