/** The broadcast hub of websocket/hub.go with its goroutine, channels and
    mutex taken away: a registry of clients kept in an ordered list, changed
    one event at a time, and a broadcast that pushes one serialised payload
    onto the outbound queue of every registered client but one. */
module Hub {
  import opened Wrappers
  import Registry

  type Bytes = seq<bv8>

  /** Outcome of json.Marshal on a message. */
  datatype Marshalled = Marshalled(bytes: Bytes) | MarshalError

  /** The bytes Broadcast sends: the error of json.Marshal is discarded, so a
      failed serialisation sends the nil slice, which holds no bytes. */
  function WireForm(m: Marshalled): Bytes {
    match m
    case Marshalled(bytes) => bytes
    case MarshalError => []
  }

  /** A connected peer: its id and ip are written when it is registered, its
      outbound queue is what Broadcast pushes onto and its write loop drains. */
  class Client {
    const remoteAddr: string  // the socket's remote address
    var id: string
    var ip: string
    var outbound: seq<Bytes>

    /** A client as the upgrade handler hands it over: not yet given an id. */
    constructor (remoteAddr: string)
      ensures this.remoteAddr == remoteAddr
      ensures id == "" && ip == "" && outbound == []
    {
      this.remoteAddr := remoteAddr;
      id, ip, outbound := "", "", [];
    }
  }

  /** What arrives on the hub's register and unregister channels. A
      registration carries the id uuid.New will give the client. */
  datatype Event = Register(client: Client, newId: Registry.Id) | Unregister(client: Client)

  /** The clients the first `n` events register (with `n == |events|`, the
      only clients Run writes to). */
  function Registrants(events: seq<Event>, n: nat): set<Client>
    requires n <= |events|
  {
    set k | 0 <= k < n && events[k].Register? :: events[k].client
  }

  /** Event `k` is a registration. */
  predicate RegistersAt(events: seq<Event>, k: int) {
    0 <= k < |events| && events[k].Register?
  }

  /** Every registration brings a client object of its own and an id of its
      own: what the upgrade handler (a new client per request) and uuid.New
      (ids never repeat) provide. */
  predicate FreshRegistrations(events: seq<Event>) {
    forall a, b {:trigger RegistersAt(events, a), RegistersAt(events, b)} ::
      0 <= a < b < |events| && RegistersAt(events, a) && RegistersAt(events, b) ==>
      events[a].client != events[b].client && events[a].newId != events[b].newId
  }

  /** An id-level event stands for a channel event: same kind, and a
      registration carries the id the client is given. */
  predicate Agrees(o: Registry.Event, e: Event) {
    (o.Register? <==> e.Register?) && (e.Register? ==> o.id == e.newId)
  }

  /** The id client `c` holds once the first `k` events have been handled:
      the id of its registration among them, or `initial`, the id it came
      with, when it was not registered there. */
  function IdBefore(events: seq<Event>, k: nat, c: Client, initial: Registry.Id): Registry.Id
    requires k <= |events|
  {
    if k == 0 then initial
    else if events[k - 1].Register? && events[k - 1].client == c then events[k - 1].newId
    else IdBefore(events, k - 1, c, initial)
  }

  lemma RegistrantsSnoc(events: seq<Event>, n: nat)
    requires n < |events|
    ensures Registrants(events, n + 1)
         == Registrants(events, n) + (if events[n].Register? then {events[n].client} else {})
  {
  }

  /** A client registered at event `k` holds that registration's id from then
      on: with fresh registrations it is not registered again. */
  lemma {:induction false} IdBeforeRegistered(events: seq<Event>, k: nat, n: nat, initial: Registry.Id)
    requires k < n <= |events| && events[k].Register? && FreshRegistrations(events)
    ensures IdBefore(events, n, events[k].client, initial) == events[k].newId
  {
    if k < n - 1 {
      assert RegistersAt(events, k) && RegistersAt(events, n - 1) ==> events[k].client != events[n - 1].client;
      IdBeforeRegistered(events, k, n - 1, initial);
    }
  }

  /** A client whose only registration is at event `k` still holds the id it
      came with after the first `n` events, for any `n` up to `k`. */
  lemma {:induction false} IdBeforeUnregistered(events: seq<Event>, k: nat, n: nat, initial: Registry.Id)
    requires n <= k < |events| && events[k].Register? && FreshRegistrations(events)
    ensures IdBefore(events, n, events[k].client, initial) == initial
  {
    if n > 0 {
      assert RegistersAt(events, n - 1) && RegistersAt(events, k) ==> events[n - 1].client != events[k].client;
      IdBeforeUnregistered(events, k, n - 1, initial);
    }
  }

  /** The clients an event sequence names. */
  function Named(events: seq<Event>): set<Client> {
    set k | 0 <= k < |events| :: events[k].client
  }

  /** The ids the clients named by `events` hold now, one per event. */
  ghost function IdsNamed(events: seq<Event>): (ids: seq<Registry.Id>)
    reads Named(events)
    ensures |ids| == |events|
    ensures forall j :: 0 <= j < |events| ==> ids[j] == events[j].client.id
  {
    if events == [] then []
    else
      assert Named(events[1..]) <= Named(events) by {
        forall c | c in Named(events[1..]) ensures c in Named(events) {
          var k :| 0 <= k < |events[1..]| && events[1..][k].client == c;
          assert events[k + 1].client == c;
        }
      }
      [events[0].client.id] + IdsNamed(events[1..])
  }

  /** The ips and the outbound queues the clients named by `events` hold now,
      one per event. */
  ghost function IpsNamed(events: seq<Event>): (ips: seq<string>)
    reads Named(events)
    ensures |ips| == |events|
    ensures forall j :: 0 <= j < |events| ==> ips[j] == events[j].client.ip
  {
    seq(|events|, j reads Named(events) requires 0 <= j < |events| => events[j].client.ip)
  }

  ghost function OutboundsNamed(events: seq<Event>): (outs: seq<seq<Bytes>>)
    reads Named(events)
    ensures |outs| == |events|
    ensures forall j :: 0 <= j < |events| ==> outs[j] == events[j].client.outbound
  {
    seq(|events|, j reads Named(events) requires 0 <= j < |events| => events[j].client.outbound)
  }

  /** After the first `n` events, every registrant in `events` still has the
      queue `outs` gives it, and its ip is its remote address once its
      registration has been handled and the ip `ips` gives it before. */
  ghost predicate Settled(events: seq<Event>, n: nat, ips: seq<string>, outs: seq<seq<Bytes>>)
    requires n <= |events| && |ips| == |outs| == |events|
    reads Named(events)
  {
    forall j {:trigger ips[j]} :: 0 <= j < |events| && events[j].Register? ==>
      && events[j].client.outbound == outs[j]
      && events[j].client.ip == (if j < n then events[j].client.remoteAddr else ips[j])
  }

  /** After the first `n` events, every client named by `events` holds the id
      IdBefore gives it, starting from the ids `initial` they came with. */
  ghost predicate Tracks(events: seq<Event>, n: nat, initial: seq<Registry.Id>)
    requires n <= |events| && |initial| == |events|
    reads Named(events)
  {
    forall j {:trigger initial[j]} :: 0 <= j < |events| ==>
      events[j].client.id == IdBefore(events, n, events[j].client, initial[j])
  }

  /** Event `k` seen as ids: a removal carries the id its client holds when
      the event is handled. */
  function Expected(events: seq<Event>, k: nat, initial: seq<Registry.Id>): Registry.Event
    requires k < |events| == |initial|
  {
    match events[k]
    case Register(_, newId) => Registry.Register(newId)
    case Unregister(c) => Registry.Unregister(IdBefore(events, k, c, initial[k]))
  }

  /** The first `n` events seen as ids. */
  function Trace(events: seq<Event>, n: nat, initial: seq<Registry.Id>): (t: seq<Registry.Event>)
    requires n <= |events| == |initial|
    ensures |t| == n
  {
    if n == 0 then [] else Trace(events, n - 1, initial) + [Expected(events, n - 1, initial)]
  }

  /** The id-level trace has the events' kinds and registration ids, and each
      removal the id its client holds at that point. */
  lemma {:induction false} TraceAgrees(events: seq<Event>, n: nat, initial: seq<Registry.Id>)
    requires n <= |events| == |initial|
    ensures forall k :: 0 <= k < n ==> Trace(events, n, initial)[k] == Expected(events, k, initial)
    ensures forall k :: 0 <= k < n ==> Agrees(Trace(events, n, initial)[k], events[k])
    ensures forall k :: 0 <= k < n && events[k].Unregister? ==>
      Trace(events, n, initial)[k].id == IdBefore(events, k, events[k].client, initial[k])
  {
    if n > 0 {
      TraceAgrees(events, n - 1, initial);
      assert forall k :: 0 <= k < n - 1 ==> Trace(events, n, initial)[k] == Trace(events, n - 1, initial)[k];
    }
  }

  /** Where the first `n` events leave each registrant: registered ones hold
      their new id and their remote address as ip, the others what they came
      with, and no queue has changed. */
  lemma RegistrantsAfter(events: seq<Event>, n: nat, initial: seq<Registry.Id>,
                         ips: seq<string>, outs: seq<seq<Bytes>>)
    requires n <= |events| == |initial| == |ips| == |outs|
    requires FreshRegistrations(events) && Tracks(events, n, initial) && Settled(events, n, ips, outs)
    ensures forall k :: 0 <= k < n && events[k].Register? ==>
      events[k].client.id == events[k].newId && events[k].client.ip == events[k].client.remoteAddr
    ensures forall k :: n <= k < |events| && events[k].Register? ==>
      events[k].client.id == initial[k] && events[k].client.ip == ips[k]
    ensures forall k :: 0 <= k < |events| && events[k].Register? ==> events[k].client.outbound == outs[k]
  {
    forall k | 0 <= k < |events| && events[k].Register?
      ensures events[k].client.id == if k < n then events[k].newId else initial[k]
      ensures events[k].client.ip == if k < n then events[k].client.remoteAddr else ips[k]
      ensures events[k].client.outbound == outs[k]
    {
      assert events[k].client.id == IdBefore(events, n, events[k].client, initial[k]);
      assert ips[k] == ips[k];
      if k < n {
        IdBeforeRegistered(events, k, n, initial[k]);
      } else {
        IdBeforeUnregistered(events, k, n, initial[k]);
      }
    }
  }

  class Hub {
    var clients: seq<Client>

    /** No two registered clients share an id (and so no client is listed twice). */
    ghost predicate Valid()
      reads this, clients
    {
      forall i, j :: 0 <= i < j < |clients| ==> clients[i].id != clients[j].id
    }

    /** The registered clients, as a set. */
    function Members(): set<Client>
      reads this
    {
      set x | x in clients
    }

    /** The ids of the registered clients, in registration order. */
    function Ids(): (ids: seq<Registry.Id>)
      reads this, clients
      ensures |ids| == |clients|
      ensures forall k :: 0 <= k < |clients| ==> ids[k] == clients[k].id
    {
      seq(|clients|, k reads this, clients requires 0 <= k < |clients| => clients[k].id)
    }

    lemma ValidIds()
      requires Valid()
      ensures Registry.Distinct(Ids())
      ensures forall i, j :: 0 <= i < j < |clients| ==> clients[i] != clients[j]
    {
    }

    constructor ()
      ensures Valid() && clients == []
    {
      clients := [];
    }

    /** Registers a client: it gets a fresh id (from uuid.New, here the
        parameter `newId`) and its socket's remote address as ip, and is
        appended at the end. */
    method OnConnect(c: Client, newId: Registry.Id)
      requires Valid()
      requires c !in clients
      requires newId !in Ids()
      modifies this, c
      ensures Valid()
      ensures clients == old(clients) + [c]
      ensures c.id == newId && c.ip == c.remoteAddr && c.outbound == old(c.outbound)
      ensures Registry.Step(old(Ids()), Registry.Register(newId)) == Some(Ids())
    {
      ghost var before := Ids();
      c.id := newId;
      c.ip := c.remoteAddr;
      clients := clients + [c];
      assert Ids() == before + [newId];
    }

    /** Unregisters a client: the first entry whose id equals the client's is
        cut out by shifting the tail left and truncating. When no entry has
        that id the search leaves -1 and the slice expression panics before
        anything changes; `panicked` reports that. */
    method OnDisconnect(client: Client) returns (panicked: bool)
      requires Valid()
      modifies this
      ensures Valid()
      ensures panicked <==> client.id !in old(Ids())
      ensures panicked ==> clients == old(clients)
      ensures !panicked ==>
        var i := Registry.FirstIndex(old(Ids()), client.id);
        clients == old(clients)[..i] + old(clients)[i + 1..]
      ensures forall x :: x in clients ==> x in old(clients)
      ensures forall x :: x in Ids() ==> x in old(Ids())
      ensures Registry.Step(old(Ids()), Registry.Unregister(client.id))
           == if panicked then None else Some(Ids())
    {
      ghost var before, ids := clients, Ids();
      ValidIds();
      var i := IndexOf(client.id);
      if i < 0 {
        return true;
      }
      CutOut(i);
      CutIds(before, ids, i);
      Registry.RemoveDistinct(ids, client.id);
      DistinctValid();
      return false;
    }

    /** The search loop of onDisconnect: the position of the first client with
        that id, or -1. */
    method IndexOf(id: Registry.Id) returns (i: int)
      ensures i == Registry.FirstIndex(Ids(), id)
    {
      ghost var ids := Ids();
      i := -1;
      var j := 0;
      while j < |clients|
        invariant 0 <= j <= |clients|
        invariant id !in ids[..j]
      {
        if clients[j].id == id {
          return j;
        }
        j := j + 1;
      }
      assert ids[..j] == ids;
    }

    /** After a client list has lost its entry `i`, its ids are the old ids
        without entry `i`. */
    lemma CutIds(before: seq<Client>, ids: seq<Registry.Id>, i: nat)
      requires i < |before| == |ids|
      requires forall k :: 0 <= k < |before| ==> ids[k] == before[k].id
      requires clients == before[..i] + before[i + 1..]
      ensures Ids() == ids[..i] + ids[i + 1..]
    {
      var r := ids[..i] + ids[i + 1..];
      forall k | 0 <= k < |clients| ensures Ids()[k] == r[k] {
        if k < i {
          assert clients[k] == before[k];
        } else {
          assert clients[k] == before[k + 1] && r[k] == ids[k + 1];
        }
      }
    }

    /** Distinct ids are what Valid asks for. */
    lemma DistinctValid()
      requires Registry.Distinct(Ids())
      ensures Valid()
    {
      forall i, j | 0 <= i < j < |clients| ensures clients[i].id != clients[j].id {
        assert Ids()[i] != Ids()[j];
      }
    }

    /** copy(h.clients[i:], h.clients[i+1:]) followed by truncation: the
        tail after position i moves one place left and the last slot goes. */
    method CutOut(i: nat)
      requires i < |clients|
      modifies this
      ensures clients == old(clients)[..i] + old(clients)[i + 1..]
    {
      ghost var before := clients;
      var k := i;
      while k < |clients| - 1
        invariant i <= k < |clients| == |before|
        invariant forall m :: 0 <= m < i ==> clients[m] == before[m]
        invariant forall m :: i <= m < k ==> clients[m] == before[m + 1]
        invariant forall m :: k <= m < |clients| ==> clients[m] == before[m]
      {
        clients := clients[k := clients[k + 1]];
        k := k + 1;
      }
      clients := clients[..|clients| - 1];
    }

    /** Serialises `message` once and pushes the same bytes onto the outbound
        queue of every registered client that is not the object `ignore`
        (pointer identity, not id); with `ignore == null` everyone gets them. */
    method Broadcast<M>(message: M, marshal: M -> Marshalled, ignore: Client?)
      requires Valid()
      modifies clients
      ensures clients == old(clients) && Valid()
      ensures forall k :: 0 <= k < |clients| ==>
        clients[k].outbound == old(clients[k].outbound)
          + (if clients[k] != ignore then [WireForm(marshal(message))] else [])
      ensures forall k :: 0 <= k < |clients| ==>
        clients[k].id == old(clients[k].id) && clients[k].ip == old(clients[k].ip)
    {
      var data := WireForm(marshal(message));
      ValidIds();
      var n := 0;
      while n < |clients|
        invariant 0 <= n <= |clients|
        invariant forall k :: 0 <= k < n ==>
          clients[k].outbound == old(clients[k].outbound) + (if clients[k] != ignore then [data] else [])
        invariant forall k :: n <= k < |clients| ==> clients[k].outbound == old(clients[k].outbound)
        invariant forall k :: 0 <= k < |clients| ==>
          clients[k].id == old(clients[k].id) && clients[k].ip == old(clients[k].ip)
      {
        var client := clients[n];
        if client != ignore {
          client.outbound := client.outbound + [data];
        }
        n := n + 1;
      }
    }

    /** The id-level view of an event at the moment the hub handles it: a
        removal is looked up by the id its client holds then. */
    ghost function Observed(e: Event): (o: Registry.Event)
      reads e.client
      ensures Agrees(o, e)
    {
      match e
      case Register(_, newId) => Registry.Register(newId)
      case Unregister(c) => Registry.Unregister(c.id)
    }

    /** One turn of the hub's loop: the case of the select that fired, which
        is event `n` of `events` (the ghost parameters place the turn in a
        run and carry the ids the named clients came with). */
    method Dispatch(e: Event, ghost events: seq<Event>, ghost n: nat, ghost initial: seq<Registry.Id>,
                    ghost ips: seq<string>, ghost outs: seq<seq<Bytes>>)
        returns (panicked: bool)
      requires Valid()
      requires e.Register? ==> e.client !in clients && e.newId !in Ids()
      requires n < |events| == |initial| && events[n] == e
      requires FreshRegistrations(events) && Tracks(events, n, initial)
      requires |ips| == |outs| == |events| && Settled(events, n, ips, outs)
      modifies this, if e.Register? then {e.client} else {}
      ensures Valid()
      ensures Registry.Step(old(Ids()), old(Observed(e))) == if panicked then None else Some(Ids())
      ensures old(Observed(e)) == Expected(events, n, initial)
      ensures e.Register? ==> !panicked && e.client.id == e.newId
      ensures e.Register? ==>
        && clients == old(clients) + [e.client]
        && e.client.ip == e.client.remoteAddr
        && e.client.outbound == old(e.client.outbound)
      ensures e.Unregister? && panicked ==> clients == old(clients)
      ensures e.Unregister? && !panicked ==>
        var i := Registry.FirstIndex(old(Ids()), e.client.id);
        clients == old(clients)[..i] + old(clients)[i + 1..]
      ensures forall x :: x in clients ==> x in old(clients) || (e.Register? && x == e.client)
      ensures forall x :: x in Ids() ==> x in old(Ids()) || (e.Register? && x == e.newId)
      ensures Tracks(events, n + 1, initial)
      ensures Settled(events, n + 1, ips, outs)
    {
      match e {
        case Register(c, newId) =>
          OnConnect(c, newId);
          panicked := false;
        case Unregister(c) =>
          panicked := OnDisconnect(c);
      }
      forall j | 0 <= j < |events| && events[j].Register?
        ensures events[j].client.outbound == outs[j]
        ensures events[j].client.ip == if j < n + 1 then events[j].client.remoteAddr else ips[j]
      {
        assert ips[j] == ips[j];
        if e.Register? && j != n {
          assert RegistersAt(events, j) && RegistersAt(events, n);
        }
      }
    }

    /** Where the loop stands after the first `n` events of a run that began
        with the ids `start` and the clients `base`: the ids seen so far,
        the registry they give (none after a panic, which only the last
        event can cause), the ids, ips and queues of the clients named, and
        the clients that can be registered. */
    ghost predicate Reached(events: seq<Event>, n: nat, start: seq<Registry.Id>, base: set<Client>,
                            initial: seq<Registry.Id>, ips: seq<string>, outs: seq<seq<Bytes>>,
                            trace: seq<Registry.Event>, crashed: bool)
      requires n <= |events| == |initial| == |ips| == |outs|
      reads this, clients, Named(events)
    {
      && Valid()
      && trace == Trace(events, n, initial)
      && Registry.Run(start, trace) == (if crashed then None else Some(Ids()))
      && (crashed ==> n > 0 && Registry.Run(start, trace[..n - 1]).Some?)
      && Tracks(events, n, initial)
      && Settled(events, n, ips, outs)
      && Members() <= base + Registrants(events, n)
      && (!crashed ==> forall k :: n <= k < |events| && events[k].Register? ==>
            events[k].client !in clients && events[k].newId !in Ids())
    }

    /** One pass of the loop: event `n` is handled and the run moves on. */
    method Turn(events: seq<Event>, n: nat, ghost start: seq<Registry.Id>, ghost base: set<Client>,
                ghost initial: seq<Registry.Id>, ghost ips: seq<string>, ghost outs: seq<seq<Bytes>>,
                ghost trace: seq<Registry.Event>)
        returns (panicked: bool, ghost next: seq<Registry.Event>)
      requires n < |events| == |initial| == |ips| == |outs| && FreshRegistrations(events)
      requires Reached(events, n, start, base, initial, ips, outs, trace, false)
      modifies this, if events[n].Register? then {events[n].client} else {}
      ensures Reached(events, n + 1, start, base, initial, ips, outs, next, panicked)
    {
      var e := events[n];
      ghost var o := Expected(events, n, initial);
      Registry.RunSnoc(start, trace, o);
      panicked := Dispatch(e, events, n, initial, ips, outs);
      next := trace + [o];
      RegistrantsSnoc(events, n);
      assert next[..n] == trace;
      forall x | x in Members() ensures x in base + Registrants(events, n + 1) {
        if x in old(clients) {
          assert x in old(Members());
        }
      }
      forall k | n + 1 <= k < |events| && events[k].Register?
        ensures events[k].client !in clients && events[k].newId !in Ids()
      {
        assert e.Register? ==> RegistersAt(events, n) && RegistersAt(events, k);
      }
    }

    /** A run starts at event 0 with nothing handled. */
    lemma Begun(events: seq<Event>)
      requires Valid()
      requires forall k :: 0 <= k < |events| && events[k].Register? ==>
        events[k].client !in clients && events[k].newId !in Ids()
      ensures Reached(events, 0, Ids(), Members(), IdsNamed(events), IpsNamed(events), OutboundsNamed(events), [], false)
    {
      var initial, ips := IdsNamed(events), IpsNamed(events);
      assert forall j :: 0 <= j < |events| ==> initial[j] == events[j].client.id && ips[j] == events[j].client.ip;
    }

    /** What a run that has reached event `n` has done, stated against the
        ids, clients, ips and queues it began with. */
    lemma Concluded(events: seq<Event>, n: nat, start: seq<Registry.Id>, base: set<Client>,
                    initial: seq<Registry.Id>, ips: seq<string>, outs: seq<seq<Bytes>>,
                    trace: seq<Registry.Event>, crashed: bool)
      requires n <= |events| == |initial| == |ips| == |outs| && |trace| == n
      requires FreshRegistrations(events)
      requires Reached(events, n, start, base, initial, ips, outs, trace, crashed)
      ensures forall k :: 0 <= k < n ==> Agrees(trace[k], events[k])
      ensures forall k :: 0 <= k < n && events[k].Unregister? ==>
        trace[k].id == IdBefore(events, k, events[k].client, initial[k])
      ensures !crashed ==>
        |clients| == |start| + Registry.Registrations(trace) - Registry.Unregistrations(trace)
      ensures forall x :: x in clients ==> x in base || x in Registrants(events, n)
      ensures forall k :: 0 <= k < n && events[k].Register? ==>
        events[k].client.id == events[k].newId && events[k].client.ip == events[k].client.remoteAddr
      ensures forall k :: n <= k < |events| && events[k].Register? ==>
        events[k].client.id == initial[k] && events[k].client.ip == ips[k]
      ensures forall k :: 0 <= k < |events| && events[k].Register? ==> events[k].client.outbound == outs[k]
    {
      TraceAgrees(events, n, initial);
      RegistrantsAfter(events, n, initial, ips, outs);
      forall x | x in clients ensures x in base || x in Registrants(events, n) {
        assert x in Members();
      }
      if !crashed {
        Registry.RunSize(start, trace);
      }
    }

    /** The hub's loop over a finite sequence of channel events, applied one
        at a time. The loop stops for good (`crashed`) at the first removal
        whose id is not registered, where onDisconnect panics. `trace` is the
        sequence of events handled, seen as ids: each removal carries the id
        its client holds when the event is handled, the id of its
        registration earlier in the run or else the id it came with. The
        run writes only to the clients it registers (id and ip) and lists no
        client it was not given. */
    method Run(events: seq<Event>) returns (crashed: bool, ghost trace: seq<Registry.Event>)
      requires Valid()
      requires FreshRegistrations(events)
      requires forall k :: 0 <= k < |events| && events[k].Register? ==>
        events[k].client !in clients && events[k].newId !in Ids()
      modifies this, Registrants(events, |events|)
      ensures Valid()
      ensures |trace| <= |events| && (!crashed ==> |trace| == |events|)
      ensures crashed ==> |trace| > 0 && Registry.Run(old(Ids()), trace[..|trace| - 1]).Some?
      ensures trace == Trace(events, |trace|, old(IdsNamed(events)))
      ensures forall k :: 0 <= k < |trace| ==> Agrees(trace[k], events[k])
      ensures forall k :: 0 <= k < |trace| && events[k].Unregister? ==>
        trace[k].id == IdBefore(events, k, events[k].client, old(IdsNamed(events))[k])
      ensures Registry.Run(old(Ids()), trace) == if crashed then None else Some(Ids())
      ensures !crashed ==>
        |clients| == |old(clients)| + Registry.Registrations(trace) - Registry.Unregistrations(trace)
      ensures forall x :: x in clients ==> x in old(clients) || x in Registrants(events, |trace|)
      ensures forall k :: 0 <= k < |trace| && events[k].Register? ==>
        events[k].client.id == events[k].newId && events[k].client.ip == events[k].client.remoteAddr
      ensures forall k :: |trace| <= k < |events| && events[k].Register? ==>
        events[k].client.id == old(IdsNamed(events))[k] && events[k].client.ip == old(IpsNamed(events))[k]
      ensures forall k :: 0 <= k < |events| && events[k].Register? ==>
        events[k].client.outbound == old(OutboundsNamed(events))[k]
    {
      ghost var start, base, initial := Ids(), Members(), IdsNamed(events);
      ghost var ips, outs := IpsNamed(events), OutboundsNamed(events);
      crashed, trace := false, [];
      var n := 0;
      Begun(events);
      while !crashed && n < |events|
        invariant n <= |events| && |trace| == n
        invariant Reached(events, n, start, base, initial, ips, outs, trace, crashed)
      {
        if events[n].Register? {
          assert events[n].client in Registrants(events, |events|);
        }
        crashed, trace := Turn(events, n, start, base, initial, ips, outs, trace);
        n := n + 1;
      }
      Concluded(events, n, start, base, initial, ips, outs, trace, crashed);
    }
  }
}
