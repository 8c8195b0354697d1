// A small named-callback registry (Events.py). An EventsEvent keeps an
// ordered list of listeners, each tagged with an id from a per-event counter;
// an Events object maps event names to EventsEvents.
module Events {
  import opened Wrappers

  /** A registered callback with its id. */
  datatype Listener<F> = Listener(id: int, func: F)

  /** What `remove_listener` is given: a listener id or the callback itself. */
  datatype ListenerKey<F> = ById(id: int) | ByFunc(func: F)

  /** A listener answers to a key when its id equals the id, or its callback is the callback. */
  predicate Matches<F(==)>(l: Listener<F>, key: ListenerKey<F>) {
    match key
    case ById(n) => l.id == n
    case ByFunc(f) => l.func == f
  }

  /** The position of the first listener that answers to key, if any. */
  function FirstMatch<F(==)>(ls: seq<Listener<F>>, key: ListenerKey<F>): (k: Option<nat>)
    ensures k.None? <==> forall i | 0 <= i < |ls| :: !Matches(ls[i], key)
    ensures k.Some? ==> k.value < |ls| && Matches(ls[k.value], key)
    ensures k.Some? ==> forall i | 0 <= i < k.value :: !Matches(ls[i], key)
  {
    if ls == [] then None
    else if Matches(ls[0], key) then Some(0)
    else
      match FirstMatch(ls[1..], key)
      case None => None
      case Some(j) => Some(j + 1)
  }

  /**
   * The listener list after `remove_listener(key)` and what it returns: the
   * first matching listener is dropped and its callback returned; with no
   * match the list is kept and the answer is None (Python's False).
   */
  function Removed<F(==)>(ls: seq<Listener<F>>, key: ListenerKey<F>): (r: (seq<Listener<F>>, Option<F>))
    ensures r.1.None? <==> forall i | 0 <= i < |ls| :: !Matches(ls[i], key)
    ensures r.1.None? ==> r.0 == ls
    ensures r.1.Some? ==> |r.0| == |ls| - 1
    ensures r.1.Some? ==>
              FirstMatch(ls, key).Some? &&
              var k := FirstMatch(ls, key).value;
              r.0 == ls[..k] + ls[k + 1..] && r.1 == Some(ls[k].func)
  {
    match FirstMatch(ls, key)
    case None => (ls, None)
    case Some(k) => (ls[..k] + ls[k + 1..], Some(ls[k].func))
  }

  /** Ids run from 1 to the counter and rise strictly along the list. */
  predicate IdsValid<F>(ls: seq<Listener<F>>, counter: int) {
    (forall i | 0 <= i < |ls| :: 1 <= ls[i].id <= counter) &&
    (forall i, j | 0 <= i < j < |ls| :: ls[i].id < ls[j].id)
  }

  class EventsEvent<F(==)> {
    /** The last id handed out. */
    var counter: int
    /** Listeners in the order they were added. */
    var listeners: seq<Listener<F>>

    ghost predicate Valid()
      reads this
    {
      counter >= 0 && IdsValid(listeners, counter)
    }

    constructor ()
      ensures counter == 0 && listeners == [] && Valid()
    {
      counter := 0;
      listeners := [];
    }

    /** Appends the callback under the next id and returns that id. */
    method AddListener(f: F) returns (id: int)
      requires Valid()
      modifies this
      ensures Valid()
      ensures id == old(counter) + 1 && counter == id
      ensures listeners == old(listeners) + [Listener(id, f)]
      ensures forall i | 0 <= i < |old(listeners)| :: old(listeners)[i].id < id
    {
      counter := counter + 1;
      id := counter;
      listeners := listeners + [Listener(id, f)];
    }

    /** Calls every listener once, in list order, each with the same arguments. */
    method Fire<P>(args: P) returns (calls: seq<(F, P)>)
      ensures |calls| == |listeners|
      ensures forall k | 0 <= k < |calls| :: calls[k] == (listeners[k].func, args)
    {
      calls := [];
      for k := 0 to |listeners|
        invariant |calls| == k
        invariant forall j | 0 <= j < k :: calls[j] == (listeners[j].func, args)
      {
        calls := calls + [(listeners[k].func, args)];
      }
    }

    /** Scans the list and removes the first listener that answers to key. */
    method RemoveListener(key: ListenerKey<F>) returns (removed: Option<F>)
      requires Valid()
      modifies this`listeners
      ensures Valid()
      ensures (listeners, removed) == Removed(old(listeners), key)
    {
      RemoveKeepsIdsValid(listeners, counter, key);
      var i := 0;
      while i < |listeners|
        invariant 0 <= i <= |listeners| && listeners == old(listeners)
        invariant forall j | 0 <= j < i :: !Matches(listeners[j], key)
      {
        if Matches(listeners[i], key) {
          assert FirstMatch(listeners, key) == Some(i);
          removed := Some(listeners[i].func);
          listeners := listeners[..i] + listeners[i + 1..];
          return;
        }
        i := i + 1;
      }
      removed := None;
    }
  }

  /** Adding under the next id keeps the ids valid: the new id is above every id in use. */
  lemma AddKeepsIdsValid<F>(ls: seq<Listener<F>>, counter: int, f: F)
    requires IdsValid(ls, counter) && counter >= 0
    ensures IdsValid(ls + [Listener(counter + 1, f)], counter + 1)
  {
  }

  /** Removal keeps the ids valid, so an id is never handed out twice. */
  lemma RemoveKeepsIdsValid<F>(ls: seq<Listener<F>>, counter: int, key: ListenerKey<F>)
    requires IdsValid(ls, counter)
    ensures IdsValid(Removed(ls, key).0, counter)
  {
    match FirstMatch(ls, key)
    case None =>
    case Some(k) => DeleteKeepsIdsValid(ls, counter, k);
  }

  /** Deleting the listener at position k keeps the ids valid. */
  lemma DeleteKeepsIdsValid<F>(ls: seq<Listener<F>>, counter: int, k: nat)
    requires IdsValid(ls, counter) && k < |ls|
    ensures IdsValid(ls[..k] + ls[k + 1..], counter)
  {
    var r := ls[..k] + ls[k + 1..];
    assert forall i | 0 <= i < |r| :: r[i] == if i < k then ls[i] else ls[i + 1];
    forall i, j | 0 <= i < j < |r|
      ensures r[i].id < r[j].id
    {
      var i', j' := if i < k then i else i + 1, if j < k then j else j + 1;
      assert i' < j';
    }
  }

  /** Removing by the id just handed out undoes the add and returns the callback. */
  lemma AddThenRemoveById<F>(ls: seq<Listener<F>>, counter: int, f: F)
    requires IdsValid(ls, counter)
    ensures Removed(ls + [Listener(counter + 1, f)], ById(counter + 1)) == (ls, Some(f))
  {
    var ls' := ls + [Listener(counter + 1, f)];
    assert forall i | 0 <= i < |ls| :: !Matches(ls'[i], ById(counter + 1));
    assert ls'[|ls|] == Listener(counter + 1, f);
    assert FirstMatch(ls', ById(counter + 1)) == Some(|ls|);
    assert ls'[..|ls|] + ls'[|ls| + 1..] == ls;
    assert Removed(ls', ById(counter + 1)) == (ls'[..|ls|] + ls'[|ls| + 1..], Some(f));
  }

  /**
   * Removing by callback takes only its first registration: a callback
   * registered at two positions i < j keeps the later one.
   */
  lemma RemoveByFuncFirstOnly<F>(ls: seq<Listener<F>>, f: F, i: nat, j: nat)
    requires i < j < |ls| && ls[i].func == f && ls[j].func == f
    ensures ls[j] in Removed(ls, ByFunc(f)).0
    ensures Removed(ls, ByFunc(f)).1 == Some(f)
  {
    var k := FirstMatch(ls, ByFunc(f)).value;
    assert k <= i;
    assert (ls[..k] + ls[k + 1..])[j - 1] == ls[j];
  }

  /** The registry: event names mapped to their listener lists. */
  class Events<F(==)> {
    var events: map<string, EventsEvent<F>>

    ghost predicate Valid()
      reads this, events.Values
    {
      forall n | n in events :: events[n].Valid()
    }

    /** Registers each name of the list, in order. */
    constructor (eventsList: seq<string>)
      ensures Valid()
      ensures events.Keys == set n | n in eventsList
      ensures forall n :: HasEvent(n) <==> n in eventsList
      ensures forall n | n in events :: fresh(events[n]) && events[n].listeners == [] && events[n].counter == 0
    {
      events := map[];
      new;
      AddEvents(eventsList);
    }

    /** Installs a fresh, empty event under name, replacing any event it had. */
    method AddEvent(name: string)
      requires Valid()
      modifies this
      ensures Valid()
      ensures events.Keys == old(events.Keys) + {name} && HasEvent(name)
      ensures fresh(events[name]) && events[name].listeners == [] && events[name].counter == 0
      ensures forall n | n in old(events) && n != name :: events[n] == old(events[n])
    {
      var e := new EventsEvent();
      events := events[name := e];
    }

    /** Adds each name in list order through AddEvent. */
    method AddEvents(eventsList: seq<string>)
      requires Valid()
      modifies this
      ensures Valid()
      ensures events.Keys == old(events.Keys) + set n | n in eventsList
      ensures forall n :: HasEvent(n) <==> old(HasEvent(n)) || n in eventsList
      ensures forall n | n in eventsList :: fresh(events[n]) && events[n].listeners == [] && events[n].counter == 0
      ensures forall n | n in old(events) && n !in eventsList :: events[n] == old(events[n])
    {
      for k := 0 to |eventsList|
        invariant Valid()
        invariant events.Keys == old(events.Keys) + set n | n in eventsList[..k]
        invariant forall n | n in eventsList[..k] ::
                    fresh(events[n]) && events[n].listeners == [] && events[n].counter == 0
        invariant forall n | n in old(events) && n !in eventsList[..k] :: events[n] == old(events[n])
      {
        assert eventsList[..k + 1] == eventsList[..k] + [eventsList[k]];
        AddEvent(eventsList[k]);
      }
      assert eventsList[..|eventsList|] == eventsList;
    }

    /**
     * Whether an event of this name is registered. The registry holds only
     * events, so the source's type test on the attribute always passes.
     */
    function HasEvent(name: string): (b: bool)
      reads this
      ensures b <==> name in events.Keys
    {
      name in events
    }
  }
}
