/** The hub's registry seen as a value: the sequence of client ids in
    registration order. The Hub class (module Hub) keeps its client list
    equal to these functions of its previous state; the lemmas here are the
    properties of the registry that hold across many operations. */
module Registry {
  import opened Wrappers

  type Id = string

  /** The registry holds no id twice. */
  predicate Distinct(ids: seq<Id>) {
    forall i, j :: 0 <= i < j < |ids| ==> ids[i] != ids[j]
  }

  /** Index of the first entry equal to `id`, or -1 when there is none: the
      value the search loop of onDisconnect leaves in `i`. */
  function FirstIndex(ids: seq<Id>, id: Id): (r: int)
    ensures -1 <= r < |ids|
    ensures r == -1 <==> id !in ids
    ensures 0 <= r ==> ids[r] == id && id !in ids[..r]
  {
    if ids == [] then -1
    else if ids[0] == id then 0
    else
      var r := FirstIndex(ids[1..], id);
      assert ids[1..][..if r < 0 then 0 else r] == ids[1..if r < 0 then 1 else r + 1];
      if r < 0 then -1 else r + 1
  }

  /** onDisconnect on the id list: the first entry with that id is cut out
      and the tail shifted left; an absent id makes the slice expression
      panic, written here as None. */
  function Remove(ids: seq<Id>, id: Id): (r: Option<seq<Id>>)
    ensures r.None? <==> id !in ids
    ensures r.Some? ==> |r.value| == |ids| - 1
  {
    var i := FirstIndex(ids, id);
    if i < 0 then None else Some(ids[..i] + ids[i + 1..])
  }

  /** Removal keeps every other entry in its relative order: entries before
      the removed one stay where they were, entries after it move down by one. */
  lemma RemoveKeepsOrder(ids: seq<Id>, id: Id)
    requires id in ids
    ensures var i, r := FirstIndex(ids, id), Remove(ids, id).value;
      && (forall k :: 0 <= k < i ==> r[k] == ids[k])
      && (forall k :: i <= k < |r| ==> r[k] == ids[k + 1])
  {
    var i, r := FirstIndex(ids, id), Remove(ids, id).value;
    assert r == ids[..i] + ids[i + 1..];
    forall k | i <= k < |r| ensures r[k] == ids[k + 1] {
      assert r[k] == ids[i + 1..][k - i];
    }
  }

  /** On a registry without duplicates, removal deletes exactly the one entry
      with that id and keeps the registry free of duplicates. */
  lemma RemoveDistinct(ids: seq<Id>, id: Id)
    requires Distinct(ids) && id in ids
    ensures Distinct(Remove(ids, id).value)
    ensures id !in Remove(ids, id).value
    ensures forall x :: x in Remove(ids, id).value <==> x in ids && x != id
  {
    var i := FirstIndex(ids, id);
    var r := Remove(ids, id).value;
    RemoveKeepsOrder(ids, id);
    forall a, b | 0 <= a < b < |r| ensures r[a] != r[b] {
      var a', b' := if a < i then a else a + 1, if b < i then b else b + 1;
      assert r[a] == ids[a'] && r[b] == ids[b'] && a' < b';
    }
    forall x ensures x in r <==> x in ids && x != id {
      if x in r {
        var k :| 0 <= k < |r| && r[k] == x;
        var k' := if k < i then k else k + 1;
        assert ids[k'] == x && k' != i;
      }
      if x in ids && x != id {
        var k :| 0 <= k < |ids| && ids[k] == x;
        assert k != i;
        assert r[if k < i then k else k - 1] == x;
      }
    }
  }

  /** Removing the same client a second time does not leave the registry as
      it was: the second call finds no entry and panics. */
  lemma SecondRemovalPanics(ids: seq<Id>, id: Id)
    requires Distinct(ids) && id in ids
    ensures Remove(Remove(ids, id).value, id).None?
  {
    RemoveDistinct(ids, id);
  }

  /** What the hub's loop receives from its two channels. */
  datatype Event = Register(id: Id) | Unregister(id: Id)

  /** One turn of the loop: onConnect appends, onDisconnect removes (or panics). */
  function Step(ids: seq<Id>, e: Event): (r: Option<seq<Id>>)
    ensures e.Register? ==> r == Some(ids + [e.id])
    ensures e.Unregister? ==> (r.None? <==> e.id !in ids)
  {
    match e
    case Register(id) => Some(ids + [id])
    case Unregister(id) => Remove(ids, id)
  }

  /** The loop applied to events one at a time; None once a removal panics,
      after which nothing more is processed. */
  function Run(ids: seq<Id>, events: seq<Event>): Option<seq<Id>>
    decreases |events|
  {
    if events == [] then Some(ids)
    else match Step(ids, events[0])
      case None => None
      case Some(next) => Run(next, events[1..])
  }

  /** Running one more event continues from where the shorter run stopped. */
  lemma {:induction false} RunSnoc(ids: seq<Id>, events: seq<Event>, e: Event)
    decreases |events|
    ensures Run(ids, events + [e]) ==
      match Run(ids, events)
      case None => None
      case Some(mid) => Step(mid, e)
  {
    if events == [] {
      assert [e][1..] == [];
    } else {
      assert (events + [e])[1..] == events[1..] + [e];
      match Step(ids, events[0])
      case None =>
      case Some(next) => RunSnoc(next, events[1..], e);
    }
  }

  function Registrations(events: seq<Event>): nat {
    if events == [] then 0 else (if events[0].Register? then 1 else 0) + Registrations(events[1..])
  }

  function Unregistrations(events: seq<Event>): nat {
    if events == [] then 0 else (if events[0].Unregister? then 1 else 0) + Unregistrations(events[1..])
  }

  /** After a run in which no removal panicked, the registry has grown by the
      registrations and shrunk by the removals. */
  lemma {:induction false} RunSize(ids: seq<Id>, events: seq<Event>)
    requires Run(ids, events).Some?
    decreases |events|
    ensures |Run(ids, events).value| == |ids| + Registrations(events) - Unregistrations(events)
  {
    if events != [] {
      RunSize(Step(ids, events[0]).value, events[1..]);
    }
  }

  /** The ids an event sequence registers. */
  function Registered(events: seq<Event>): seq<Id> {
    if events == [] then []
    else (if events[0].Register? then [events[0].id] else []) + Registered(events[1..])
  }

  /** With ids from a source that never repeats one in use (every registered
      id is new to the registry and to the other registrations), the registry
      never holds an id twice. */
  lemma {:induction false} RunDistinct(ids: seq<Id>, events: seq<Event>)
    requires Distinct(ids)
    requires Distinct(Registered(events))
    requires forall x :: x in Registered(events) ==> x !in ids
    requires Run(ids, events).Some?
    decreases |events|
    ensures Distinct(Run(ids, events).value)
  {
    if events != [] {
      var e := events[0];
      var next := Step(ids, e).value;
      match e
      case Register(id) =>
        assert Registered(events) == [id] + Registered(events[1..]);
        assert id !in ids;
        forall x | x in Registered(events[1..]) ensures x !in next {
          assert x in Registered(events);
          var k :| 0 <= k < |Registered(events[1..])| && Registered(events[1..])[k] == x;
          assert Registered(events)[k + 1] == x && Registered(events)[0] == id;
        }
        forall a, b | 0 <= a < b < |Registered(events[1..])|
          ensures Registered(events[1..])[a] != Registered(events[1..])[b]
        {
          assert Registered(events)[a + 1] == Registered(events[1..])[a];
          assert Registered(events)[b + 1] == Registered(events[1..])[b];
        }
        RunDistinct(next, events[1..]);
      case Unregister(id) =>
        RemoveDistinct(ids, id);
        assert Registered(events) == Registered(events[1..]);
        RunDistinct(next, events[1..]);
    }
  }
}
