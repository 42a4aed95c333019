/** The WebSocket hub as a system of interleaved steps: Register, BroadcastChange, unregister, and the two loops of each
    connection. A step that has to wait for a lock or a channel is not enabled. */
module HubSpec {
  import opened Records

  /** The capacity of a send channel. */
  const CAPACITY: nat := 16

  /** The payload Register sends itself. */
  const CONNECTED: nat := 0

  /** Where a connection's Register stands: between its unlock and its own send, past it, or dead of a send on a closed
      channel. */
  datatype Stage = Entering | Started | Panicked

  datatype Client = Client(
    stage: Stage,
    registered: bool,       // in h.clients
    queue: seq<nat>,        // what the send channel holds
    closed: bool,           // close(c.send) has happened
    closings: nat,          // how often
    pending: nat,           // calls of unregister that have not got the lock yet
    writing: bool,          // writeLoop runs
    reading: bool,          // readLoop runs
    sentOnClosed: bool,     // a broadcast sent on the closed channel
    offered: seq<nat>,      // every payload meant for this client, in order
    taken: seq<nat>,        // what writeLoop has received
    missed: bool,           // a broadcast found the queue full
    early: nat)             // broadcasts that came between the unlock and the send of Register

  /** A broadcast that holds the read lock: the clients it found, and those it has still to offer its payload. */
  datatype Broadcast = Broadcast(payload: nat, found: set<nat>, todo: set<nat>)

  /** The broadcasts under way hold the read lock; `removing` holds the write lock between delete and close. Payloads
      are numbered: each broadcast has one of its own, whatever its text. */
  datatype World = World(clients: map<nat, Client>, broadcasts: map<nat, Broadcast>, removing: Option<nat>,
                         nextPayload: nat)

  const START := World(map[], map[], None, 1)

  const NEW_CLIENT := Client(Entering, true, [], false, 0, 0, false, false, false, [], [], false, 0)

  datatype Event =
    | Connect(c: nat)
    | Greet(c: nat)
    | StartBroadcast(b: nat)
    | Offer(b: nat, c: nat)
    | EndBroadcast(b: nat)
    | Take(c: nat, writeFails: bool)
    | SeeClosed(c: nat)
    | PingFails(c: nat)
    | ReadFails(c: nat)
    | Unregister(c: nat)
    | Close(c: nat)

  /** Register's own send. On a full open channel it waits; on a closed one it panics. */
  function GreetClient(x: Client): Option<Client> {
    if x.stage != Entering then None
    else if x.closed then Some(x.(stage := Panicked))
    else if |x.queue| >= CAPACITY then None
    else Some(x.(stage := Started, queue := x.queue + [CONNECTED], offered := x.offered + [CONNECTED], writing :=
                 true, reading := true))
  }

  /** The select of a broadcast: send if there is room, otherwise start an unregister. */
  function OfferClient(x: Client, payload: nat): Client {
    var early := if x.stage == Entering then x.early + 1 else x.early;
    if x.closed then x.(sentOnClosed := true)
    else if |x.queue| < CAPACITY then x.(queue := x.queue + [payload], offered := x.offered + [payload], early := early)
    else x.(offered := x.offered + [payload], missed := true, pending := x.pending + 1, early := early)
  }

  /** writeLoop receives a payload; if the socket refuses it the loop ends and unregisters. */
  function TakeClient(x: Client, writeFails: bool): Option<Client> {
    if !x.writing || x.queue == [] then None
    else
      var y := x.(queue := x.queue[1..], taken := x.taken + [x.queue[0]]);
      Some(if writeFails then StopWriting(y) else y)
  }

  function StopWriting(x: Client): Client {
    x.(writing := false, pending := x.pending + 1)
  }

  function StopReading(x: Client): Client {
    x.(reading := false, pending := x.pending + 1)
  }

  function RegisteredIn(w: World): set<nat> {
    set c | c in w.clients && w.clients[c].registered
  }

  function Update(w: World, c: nat, x: Option<Client>): Option<World> {
    if x.None? then None else Some(w.(clients := w.clients[c := x.value]))
  }

  /** The write lock is free. */
  predicate Unlocked(w: World) {
    w.broadcasts == map[] && w.removing.None?
  }

  function Apply(w: World, e: Event): Option<World> {
    match e
    case Connect(c) =>
      if c in w.clients || !Unlocked(w) then None else Some(w.(clients := w.clients[c := NEW_CLIENT]))
    case StartBroadcast(b) =>
      if b in w.broadcasts || w.removing.Some? then None
      else Some(w.(broadcasts := w.broadcasts[b := Broadcast(w.nextPayload, RegisteredIn(w), RegisteredIn(w))],
                   nextPayload := w.nextPayload + 1))
    case Offer(b, c) =>
      if b !in w.broadcasts || c !in w.broadcasts[b].todo || c !in w.clients then None
      else
        var x := w.broadcasts[b];
        Some(w.(clients := w.clients[c := OfferClient(w.clients[c], x.payload)],
                broadcasts := w.broadcasts[b := x.(todo := x.todo - {c})]))
    case EndBroadcast(b) =>
      if b !in w.broadcasts || w.broadcasts[b].todo != {} then None else Some(w.(broadcasts := w.broadcasts - {b}))
    case Close(c) =>
      if w.removing != Some(c) || c !in w.clients then None
      else
        var x := w.clients[c];
        Some(w.(clients := w.clients[c := x.(closed := true, closings := x.closings + 1)], removing := None))
    case Unregister(c) =>
      if c !in w.clients || w.clients[c].pending == 0 || !Unlocked(w) then None
      else
        var x := w.clients[c];
        var y := x.(pending := x.pending - 1, registered := false);
        Some(w.(clients := w.clients[c := y], removing := if x.registered then Some(c) else None))
    case Greet(c) => if c !in w.clients then None else Update(w, c, GreetClient(w.clients[c]))
    case Take(c, writeFails) => if c !in w.clients then None else Update(w, c, TakeClient(w.clients[c], writeFails))
    case SeeClosed(c) =>
      if c !in w.clients || !w.clients[c].writing || w.clients[c].queue != [] || !w.clients[c].closed then None
      else Update(w, c, Some(StopWriting(w.clients[c])))
    case PingFails(c) =>
      if c !in w.clients || !w.clients[c].writing then None else Update(w, c, Some(StopWriting(w.clients[c])))
    case ReadFails(c) =>
      if c !in w.clients || !w.clients[c].reading then None else Update(w, c, Some(StopReading(w.clients[c])))
  }

  function Run(w: World, events: seq<Event>): Option<World> {
    if events == [] then Some(w)
    else
      match Run(w, events[..|events| - 1])
      case None => None
      case Some(before) => Apply(before, events[|events| - 1])
  }
}

module HubProofs {
  import opened Records
  import opened HubSpec

  /** What holds of a connection whose unregister is, or is not, between delete and close. */
  ghost predicate ClientSound(x: Client, removing: bool) {
    && |x.queue| <= CAPACITY
    && !x.sentOnClosed
    && x.closings == (if x.closed then 1 else 0)
    && (x.closed <==> !x.registered && !removing)
    && (removing ==> !x.registered)
    && (Leaving(x) <==> !x.registered || x.pending > 0)
    && (x.missed <==> x.taken + x.queue != x.offered)
    && |x.taken + x.queue| <= |x.offered|
    && (x.missed ==> |x.taken + x.queue| < |x.offered|)
    && EntrySound(x)
  }

  /** It missed a broadcast, or one of its loops has ended. */
  ghost predicate Leaving(x: Client) {
    x.missed || (x.stage == Started && !(x.reading && x.writing))
  }

  /** What holds around Register's own send, by the number of broadcasts that came before it. */
  ghost predicate EntrySound(x: Client) {
    && (x.stage == Entering ==>
          && x.taken == [] && !x.writing && !x.reading
          && |x.queue| == (if x.early <= CAPACITY then x.early else CAPACITY)
          && (x.early <= CAPACITY ==> x.registered && x.pending == 0 && !x.missed))
    && (x.stage != Started ==> !x.reading && !x.writing)
    && (x.stage == Started ==> x.early < CAPACITY)
    && (x.stage == Panicked ==> x.early > CAPACITY)
  }

  ghost predicate ClientsSound(w: World) {
    forall c | c in w.clients :: ClientSound(w.clients[c], w.removing == Some(c))
  }

  /** A broadcast under way has offered its payload once to those it found and is done with, and not yet to the others,
      which are still registered. */
  ghost predicate BroadcastsSound(w: World) {
    && (forall b | b in w.broadcasts :: w.broadcasts[b].todo <= w.broadcasts[b].found <= w.clients.Keys)
    && (forall b, c | b in w.broadcasts && c in w.broadcasts[b].todo :: w.clients[c].registered)
    && (forall b, c | b in w.broadcasts && c in w.broadcasts[b].found ::
          Times(w.clients[c].offered, w.broadcasts[b].payload) == if c in w.broadcasts[b].todo then 0 else 1)
  }

  /** How often a payload occurs. */
  ghost function Times(s: seq<nat>, p: nat): nat {
    multiset(s)[p]
  }

  /** Broadcasts have payloads of their own, and what was offered was a payload. */
  ghost predicate PayloadsSound(w: World) {
    && (forall b | b in w.broadcasts :: CONNECTED < w.broadcasts[b].payload < w.nextPayload)
    && (forall b, d | b in w.broadcasts && d in w.broadcasts && b != d ::
        w.broadcasts[b].payload != w.broadcasts[d].payload)
    && (forall c, p | c in w.clients && p in w.clients[c].offered :: p < w.nextPayload)
    && CONNECTED < w.nextPayload
  }

  ghost predicate LockSound(w: World) {
    w.removing.Some? ==> w.broadcasts == map[] && w.removing.value in w.clients
  }

  ghost predicate Sound(w: World) {
    ClientsSound(w) && BroadcastsSound(w) && PayloadsSound(w) && LockSound(w)
  }

  // ----- one connection at a time -----------------------------------------------------

  lemma GreetKeepsClient(x: Client, removing: bool)
    requires ClientSound(x, removing) && GreetClient(x).Some?
    ensures ClientSound(GreetClient(x).value, removing)
  {
    var y := GreetClient(x).value;
    assert y.taken + y.queue == if x.closed then x.taken + x.queue else x.taken + x.queue + [CONNECTED];
  }

  lemma OfferKeepsClient(x: Client, payload: nat)
    requires ClientSound(x, false) && x.registered
    ensures ClientSound(OfferClient(x, payload), false) && OfferClient(x, payload).registered
    ensures OfferClient(x, payload).offered == x.offered + [payload]
  {
    var y := OfferClient(x, payload);
    assert y.taken + y.queue == if |x.queue| < CAPACITY then x.taken + x.queue + [payload] else x.taken + x.queue;
    if x.taken + x.queue + [payload] == x.offered + [payload] {
      assert (x.taken + x.queue + [payload])[..|x.offered|] == x.offered;
      assert (x.taken + x.queue + [payload])[..|x.offered|] == x.taken + x.queue;
    }
  }

  lemma TakeKeepsClient(x: Client, writeFails: bool, removing: bool)
    requires ClientSound(x, removing) && TakeClient(x, writeFails).Some?
    ensures ClientSound(TakeClient(x, writeFails).value, removing)
  {
    var y := TakeClient(x, writeFails).value;
    assert x.queue == [x.queue[0]] + x.queue[1..];
    assert y.taken + y.queue == x.taken + x.queue;
  }

  // ----- all of them ---------------------------------------------------------------------

  /** Changing one connection without touching what the locks protect, and meaning at most a greeting for it. */
  lemma UpdateKeepsSound(w: World, c: nat, y: Client)
    requires Sound(w) && c in w.clients && ClientSound(y, w.removing == Some(c))
    requires y.registered == w.clients[c].registered
    requires y.offered == w.clients[c].offered || y.offered == w.clients[c].offered + [CONNECTED]
    ensures Sound(w.(clients := w.clients[c := y]))
  {
    hide ClientSound;
  }

  lemma OfferKeepsSound(w: World, b: nat, c: nat)
    requires Sound(w) && Apply(w, Offer(b, c)).Some?
    ensures Sound(Apply(w, Offer(b, c)).value)
  {
    hide ClientSound, OfferClient, Times, EntrySound;
    var x := w.clients[c];
    var payload := w.broadcasts[b].payload;
    OfferKeepsClient(x, payload);
    var after := Apply(w, Offer(b, c)).value;
    OfferKeepsBroadcasts(w, after, b, c);
    hide BroadcastsSound;
  }

  lemma OfferKeepsBroadcasts(w: World, after: World, b: nat, c: nat)
    requires BroadcastsSound(w) && PayloadsSound(w) && b in w.broadcasts && c in w.broadcasts[b].todo
    requires var x := w.broadcasts[b];
      after.broadcasts == w.broadcasts[b := x.(todo := x.todo - {c})]
    requires after.clients.Keys == w.clients.Keys && forall d | d in w.clients && d != c ::
      after.clients[d] == w.clients[d]
    requires after.clients[c].registered && after.clients[c].offered == w.clients[c].offered + [w.broadcasts[b].payload]
    ensures BroadcastsSound(after)
  {
  }

  lemma RemovalKeepsSound(w: World, e: Event)
    requires Sound(w) && (e.Unregister? || e.Close?) && Apply(w, e).Some?
    ensures Sound(Apply(w, e).value)
  {
    var after := Apply(w, e).value;
    forall d | d in after.clients
      ensures ClientSound(after.clients[d], after.removing == Some(d))
    {
      assert ClientSound(w.clients[d], w.removing == Some(d));
    }
  }

  lemma StepKeepsSound(w: World, e: Event)
    requires Sound(w) && Apply(w, e).Some?
    ensures Sound(Apply(w, e).value)
  {
    hide Sound, Apply;
    match e
    case Offer(b, c) => OfferKeepsSound(w, b, c);
    case Unregister(_) => RemovalKeepsSound(w, e);
    case Close(_) => RemovalKeepsSound(w, e);
    case StartBroadcast(b) => StartKeepsSound(w, b);
    case Connect(c) => ConnectKeepsSound(w, c);
    case EndBroadcast(b) => EndKeepsSound(w, b);
    case _ => LoopKeepsSound(w, e);
  }

  /** Register's own send and the two loops. */
  lemma LoopKeepsSound(w: World, e: Event)
    requires Sound(w) && Apply(w, e).Some? && (e.Greet? || e.Take? || e.SeeClosed? || e.PingFails? || e.ReadFails?)
    ensures Sound(Apply(w, e).value)
  {
    var x, removing := w.clients[e.c], w.removing == Some(e.c);
    assert ClientSound(x, removing);
    hide Sound, EntrySound;
    match e
    case Greet(c) =>
      GreetKeepsClient(x, removing);
      UpdateKeepsSound(w, c, GreetClient(x).value);
    case Take(c, writeFails) =>
      TakeKeepsClient(x, writeFails, removing);
      UpdateKeepsSound(w, c, TakeClient(x, writeFails).value);
    case ReadFails(c) =>
      StopKeepsClient(x, removing);
      UpdateKeepsSound(w, c, StopReading(x));
    case SeeClosed(c) =>
      StopKeepsClient(x, removing);
      UpdateKeepsSound(w, c, StopWriting(x));
    case PingFails(c) =>
      StopKeepsClient(x, removing);
      UpdateKeepsSound(w, c, StopWriting(x));
    case _ =>
  }

  lemma StopKeepsClient(x: Client, removing: bool)
    requires ClientSound(x, removing)
    ensures x.writing ==> ClientSound(StopWriting(x), removing)
    ensures x.reading ==> ClientSound(StopReading(x), removing)
  {
  }

  lemma ConnectKeepsSound(w: World, c: nat)
    requires Sound(w) && Apply(w, Connect(c)).Some?
    ensures Sound(Apply(w, Connect(c)).value)
  {
    assert ClientSound(NEW_CLIENT, false);
    hide ClientSound;
  }

  lemma EndKeepsSound(w: World, b: nat)
    requires Sound(w) && Apply(w, EndBroadcast(b)).Some?
    ensures Sound(Apply(w, EndBroadcast(b)).value)
  {
    hide ClientSound, Times;
  }

  lemma StartKeepsSound(w: World, b: nat)
    requires Sound(w) && Apply(w, StartBroadcast(b)).Some?
    ensures Sound(Apply(w, StartBroadcast(b)).value)
  {
    hide ClientSound;
    forall c | c in w.clients
      ensures Times(w.clients[c].offered, w.nextPayload) == 0
    {
      assert w.nextPayload !in w.clients[c].offered;
    }
  }

  /** Safety of every interleaving. */
  lemma {:induction false} RunsAreSound(events: seq<Event>)
    requires Run(START, events).Some?
    ensures Sound(Run(START, events).value)
  {
    hide Sound, Apply;
    if events != [] {
      var n := |events| - 1;
      RunsAreSound(events[..n]);
      StepKeepsSound(Run(START, events[..n]).value, events[n]);
    } else {
      StartIsSound();
    }
  }

  lemma StartIsSound()
    ensures Sound(START)
  {
  }

  // ----- what it means ---------------------------------------------------------------------

  /** In every interleaving: no broadcast sends on a closed channel, a channel is closed at most once, queues hold at
      most 16 payloads, and while no unregister is inside its critical section a channel is closed exactly if its client
      has left the map. */
  lemma HubSafety(events: seq<Event>, c: nat)
    requires Run(START, events).Some? && c in Run(START, events).value.clients
    ensures var w := Run(START, events).value;
      var x := w.clients[c];
      && !x.sentOnClosed && x.closings <= 1 && |x.queue| <= 16
      && (w.removing != Some(c) ==> (x.closed <==> !x.registered))
      && (x.missed && x.registered ==> x.pending > 0)
  {
    RunsAreSound(events);
    hide Run;
  }

  /** Nothing is lost in between: a client that missed nothing has received, or has queued, exactly what was meant for
      it, in order; one that missed something has not. */
  lemma HubDelivery(events: seq<Event>, c: nat)
    requires Run(START, events).Some? && c in Run(START, events).value.clients
    ensures var x := Run(START, events).value.clients[c];
      x.taken + x.queue == x.offered <==> !x.missed
  {
    RunsAreSound(events);
    hide Run;
  }

  /** A broadcast reaches everyone: from its start to its end it has offered its own payload, which nobody had been
      offered before, exactly once to every client that was in the map when it began. */
  lemma BroadcastReachesAll(before: seq<Event>, during: seq<Event>, b: nat, c: nat)
    requires Run(START, before).Some? && c in Run(START, before).value.clients
    requires Run(START, before).value.clients[c].registered
    requires EndBroadcast(b) !in during
    requires Run(START, before + [StartBroadcast(b)] + during + [EndBroadcast(b)]).Some?
    ensures var w := Run(START, before + [StartBroadcast(b)] + during + [EndBroadcast(b)]).value;
      var payload := Run(START, before).value.nextPayload;
      && c in w.clients && Times(w.clients[c].offered, payload) == 1
      && Times(Run(START, before).value.clients[c].offered, payload) == 0
  {
    hide Run, Sound, Apply;
    var started := before + [StartBroadcast(b)];
    RunSplits(started + during, [EndBroadcast(b)]);
    RunSplits(started, during);
    RunSplits(before, [StartBroadcast(b)]);
    var w, w1 := Run(START, before).value, Run(START, started).value;
    OneStep(w, StartBroadcast(b));
    BroadcastStarts(w, b);
    BroadcastStays(w1, during, b);
    var w2 := Run(START, started + during).value;
    OneStep(w2, EndBroadcast(b));
    RunsAreSound(before);
    RunsAreSound(started + during);
    BroadcastEnds(w2, b, c);
    FreshPayload(w, c);
  }

  /** A run of two parts. */
  lemma RunSplits(a: seq<Event>, b: seq<Event>)
    requires Run(START, a + b).Some?
    ensures Run(START, a).Some? && Run(Run(START, a).value, b) == Run(START, a + b)
  {
    hide Run;
    RunPrefix(START, a + b, |a|);
    assert (a + b)[..|a|] == a;
    RunAppend(START, a, b);
  }

  lemma {:induction false} RunPrefix(w: World, events: seq<Event>, n: nat)
    requires Run(w, events).Some? && n <= |events|
    ensures Run(w, events[..n]).Some?
  {
    hide Apply;
    if n < |events| {
      RunPrefix(w, events[..|events| - 1], n);
      assert events[..|events| - 1][..n] == events[..n];
    } else {
      assert events[..n] == events;
    }
  }

  lemma OneStep(w: World, e: Event)
    ensures Run(w, [e]) == Apply(w, e)
  {
    hide Apply;
    assert [e][..0] == [];
  }

  /** It finds everyone who is in the map. */
  lemma BroadcastStarts(w: World, b: nat)
    requires Apply(w, StartBroadcast(b)).Some?
    ensures var after := Apply(w, StartBroadcast(b)).value;
      && b in after.broadcasts && after.broadcasts[b].payload == w.nextPayload
      && forall c | c in w.clients && w.clients[c].registered :: c in after.broadcasts[b].found
  {
  }

  lemma {:induction false} BroadcastStays(w: World, events: seq<Event>, b: nat)
    requires b in w.broadcasts && EndBroadcast(b) !in events && Run(w, events).Some?
    ensures var after := Run(w, events).value;
      && b in after.broadcasts && after.broadcasts[b].payload == w.broadcasts[b].payload
      && after.broadcasts[b].found == w.broadcasts[b].found
  {
    if events != [] {
      BroadcastStays(w, events[..|events| - 1], b);
      assert events[|events| - 1] in events;
    }
  }

  lemma BroadcastEnds(w: World, b: nat, c: nat)
    requires Sound(w) && Apply(w, EndBroadcast(b)).Some? && c in w.broadcasts[b].found
    ensures var after := Apply(w, EndBroadcast(b)).value;
      c in after.clients && Times(after.clients[c].offered, w.broadcasts[b].payload) == 1
  {
    hide ClientSound;
  }

  lemma FreshPayload(w: World, c: nat)
    requires Sound(w) && c in w.clients
    ensures Times(w.clients[c].offered, w.nextPayload) == 0
  {
    hide ClientSound;
    assert w.nextPayload !in w.clients[c].offered;
  }

  /** Between Register's unlock and the end of its loops, a client misses a broadcast exactly if that broadcast finds
      sixteen payloads waiting. */
  lemma {:induction false} MissedExactly(events: seq<Event>, c: nat)
    requires Run(START, events).Some? && c in Run(START, events).value.clients
    ensures Run(START, events).value.clients[c].missed <==> FoundFull(events, c)
  {
    hide Sound, FoundFull;
    if events != [] {
      var n := |events| - 1;
      var w := Run(START, events[..n]).value;
      RunsAreSound(events[..n]);
      FoundFullNext(events, c);
      if c in w.clients {
        MissedExactly(events[..n], c);
        MissedNext(w, events[n], c);
      } else {
        NobodyFound(events[..n], c);
        assert events[n] == Connect(c);
      }
    }
  }

  /** A broadcast of the run offered its payload to the client while sixteen were waiting. */
  ghost predicate FoundFull(events: seq<Event>, c: nat) {
    exists i, b | 0 <= i < |events| && events[i] == Offer(b, c) :: FullAt(events[..i], c)
  }

  ghost predicate FullAt(events: seq<Event>, c: nat) {
    var w := Run(START, events);
    w.Some? && c in w.value.clients && |w.value.clients[c].queue| >= 16
  }

  lemma FoundFullNext(events: seq<Event>, c: nat)
    requires events != []
    ensures var n := |events| - 1;
      FoundFull(events, c) <==>
        FoundFull(events[..n], c) || (events[n].Offer? && events[n].c == c && FullAt(events[..n], c))
  {
    hide FullAt;
    var n := |events| - 1;
    forall i | 0 <= i <= n
      ensures i < n ==> events[..n][i] == events[i] && events[..n][..i] == events[..i]
    {
    }
    if i, b :| 0 <= i < |events| && events[i] == Offer(b, c) && FullAt(events[..i], c) {
      if i < n {
        assert events[..n][i] == Offer(b, c) && FullAt(events[..n][..i], c);
      }
    }
    if i, b :| 0 <= i < n && events[..n][i] == Offer(b, c) && FullAt(events[..n][..i], c) {
      assert events[i] == Offer(b, c) && FullAt(events[..i], c);
    }
    if events[n].Offer? && events[n].c == c && FullAt(events[..n], c) {
      assert events[n] == Offer(events[n].b, c);
    }
  }

  lemma MissedNext(w: World, e: Event, c: nat)
    requires Sound(w) && c in w.clients && Apply(w, e).Some?
    ensures c in Apply(w, e).value.clients
    ensures Apply(w, e).value.clients[c].missed <==>
      w.clients[c].missed || (e.Offer? && e.c == c && |w.clients[c].queue| >= 16)
  {
    hide EntrySound, Leaving;
    if e.Offer? && e.c == c {
      assert w.clients[c].registered && ClientSound(w.clients[c], false);
    }
  }

  /** Nothing was offered to a connection that is not there yet. */
  lemma {:induction false} NobodyFound(events: seq<Event>, c: nat)
    requires Run(START, events).Some? && c !in Run(START, events).value.clients
    ensures !FoundFull(events, c)
  {
    hide FoundFull;
    if events == [] {
      NothingFound(c);
    } else {
      NobodyFound(events[..|events| - 1], c);
      FoundFullNext(events, c);
    }
  }

  lemma NothingFound(c: nat)
    ensures !FoundFull([], c)
  {
  }

  /** What happens to Register, by the number of broadcasts that come between its unlock and its own send: fewer than 16
      and the send goes through; exactly 16 and it waits; more and it can only wait or, once the channel is closed,
      panic. So a Register that got through had fewer than 16, and one that panicked had more than 16. */
  lemma RegisterOutcome(events: seq<Event>, c: nat)
    requires Run(START, events).Some? && c in Run(START, events).value.clients
    ensures var w := Run(START, events).value;
      var x := w.clients[c];
      && (x.stage == Started ==> x.early < 16)
      && (x.stage == Panicked ==> x.early > 16)
      && (x.stage == Entering ==>
            match Apply(w, Greet(c))
            case Some(after) =>
              if x.early < 16 then after.clients[c].stage == Started
              else x.early > 16 && x.closed && after.clients[c].stage == Panicked
            case None => x.early >= 16 && !x.closed)
  {
    RunsAreSound(events);
    hide Run;
  }

  /** One of the client's loops has ended in this run: a read, a write or a ping failed, or its channel was closed. */
  ghost predicate LoopEnded(events: seq<Event>, c: nat) {
    exists e | e in events :: EndsLoop(e, c)
  }

  ghost predicate EndsLoop(e: Event, c: nat) {
    e == ReadFails(c) || e == PingFails(c) || e == SeeClosed(c) || e == Take(c, true)
  }

  /** Who leaves, in every run: a client has left the map, or has an unregister pending, if and only if a broadcast
      found its channel full or one of its loops has ended. */
  lemma LeavesExactly(events: seq<Event>, c: nat)
    requires Run(START, events).Some? && c in Run(START, events).value.clients
    ensures var x := Run(START, events).value.clients[c];
      !x.registered || x.pending > 0 <==> FoundFull(events, c) || LoopEnded(events, c)
  {
    hide Run, FoundFull, LoopEnded;
    RunsAreSound(events);
    MissedExactly(events, c);
    EndedExactly(events, c);
    assert ClientSound(Run(START, events).value.clients[c], Run(START, events).value.removing == Some(c));
  }

  lemma {:induction false} EndedExactly(events: seq<Event>, c: nat)
    requires Run(START, events).Some? && c in Run(START, events).value.clients
    ensures var x := Run(START, events).value.clients[c];
      LoopEnded(events, c) <==> x.stage == Started && !(x.reading && x.writing)
  {
    hide LoopEnded, Sound;
    if events != [] {
      var n := |events| - 1;
      var w := Run(START, events[..n]).value;
      EndedNext(events, c);
      if c in w.clients {
        EndedExactly(events[..n], c);
        RunsAreSound(events[..n]);
        IdleUntilStarted(w, c);
        EndedStep(w, events[n], c);
      } else {
        NobodyEnded(events[..n], c);
        assert events[n] == Connect(c);
      }
    }
  }

  lemma IdleUntilStarted(w: World, c: nat)
    requires Sound(w) && c in w.clients
    ensures w.clients[c].stage != Started ==> !w.clients[c].reading && !w.clients[c].writing
  {
  }

  lemma EndedNext(events: seq<Event>, c: nat)
    requires events != []
    ensures var n := |events| - 1;
      LoopEnded(events, c) <==> LoopEnded(events[..n], c) || EndsLoop(events[n], c)
  {
    var n := |events| - 1;
    assert events == events[..n] + [events[n]];
    assert forall e :: e in events <==> e in events[..n] || e == events[n];
  }

  lemma EndedStep(w: World, e: Event, c: nat)
    requires c in w.clients && Apply(w, e).Some?
    requires w.clients[c].stage != Started ==> !w.clients[c].reading && !w.clients[c].writing
    ensures var x, y := w.clients[c], Apply(w, e).value.clients[c];
      y.stage == Started && !(y.reading && y.writing) <==>
        (x.stage == Started && !(x.reading && x.writing)) || EndsLoop(e, c)
  {
    if !InConnection(e, c) {
      LoopsUnchanged(w, e, c);
      hide Apply;
    }
  }

  /** A step of the connection's own goroutines. */
  ghost predicate InConnection(e: Event, c: nat) {
    e == Greet(c) || e == ReadFails(c) || e == PingFails(c) || e == SeeClosed(c) || (e.Take? && e.c == c)
  }

  lemma LoopsUnchanged(w: World, e: Event, c: nat)
    requires c in w.clients && Apply(w, e).Some? && !InConnection(e, c)
    ensures var x, y := w.clients[c], Apply(w, e).value.clients[c];
      y.stage == x.stage && y.reading == x.reading && y.writing == x.writing
  {
    hide RegisteredIn, Unlocked, OfferClient, GreetClient, TakeClient, StopReading, StopWriting;
    if e.Offer? {
      OfferKeepsLoops(w.clients[e.c], w.broadcasts[e.b].payload);
    }
  }

  lemma OfferKeepsLoops(x: Client, payload: nat)
    ensures var y := OfferClient(x, payload);
      y.stage == x.stage && y.reading == x.reading && y.writing == x.writing
  {
  }

  lemma {:induction false} NobodyEnded(events: seq<Event>, c: nat)
    requires Run(START, events).Some? && c !in Run(START, events).value.clients
    ensures !LoopEnded(events, c)
  {
    hide LoopEnded;
    if events == [] {
      NothingEnded(c);
    } else {
      NobodyEnded(events[..|events| - 1], c);
      EndedNext(events, c);
    }
  }

  lemma NothingEnded(c: nat)
    ensures !LoopEnded([], c)
  {
  }

  /** A client that missed a broadcast, or one of whose loops has ended, can leave as soon as nobody holds the lock, and
      then its channel gets closed, once. */
  lemma MissedClientLeaves(events: seq<Event>, c: nat)
    requires Run(START, events).Some? && c in Run(START, events).value.clients
    requires var w := Run(START, events).value; Unlocked(w) && w.clients[c].registered
    requires FoundFull(events, c) || LoopEnded(events, c)
    ensures var w := Run(START, events).value;
      var left := Apply(w, Unregister(c));
      && left.Some? && left.value.removing == Some(c) && !left.value.clients[c].registered
      && (var closed := Apply(left.value, Close(c));
          closed.Some? && Unlocked(closed.value) && closed.value.clients[c].closed
            && closed.value.clients[c].closings == 1)
  {
    hide Run, FoundFull, LoopEnded;
    LeavesExactly(events, c);
    RunsAreSound(events);
    assert ClientSound(Run(START, events).value.clients[c], false);
  }

  // ----- a panic ------------------------------------------------------------------------------

  /** One connection enters, n broadcasts come and go. */
  function Flood(n: nat): seq<Event> {
    if n == 0 then [Connect(1)] else Flood(n - 1) + [StartBroadcast(1), Offer(1, 1), EndBroadcast(1)]
  }

  lemma {:induction false} RunAppend(w: World, a: seq<Event>, b: seq<Event>)
    requires Run(w, a).Some?
    ensures Run(w, a + b) == Run(Run(w, a).value, b)
  {
    hide Apply;
    if b == [] {
      assert a + b == a;
    } else {
      RunAppend(w, a, b[..|b| - 1]);
      assert (a + b)[..|a + b| - 1] == a + b[..|b| - 1];
    }
  }

  lemma RunThree(w: World, e: Event, f: Event, g: Event)
    requires Apply(w, e).Some? && Apply(Apply(w, e).value, f).Some?
    ensures Run(w, [e, f, g]) == Apply(Apply(Apply(w, e).value, f).value, g)
  {
    hide Apply;
    assert [e, f, g][..2] == [e, f] && [e, f][..1] == [e] && [e][..0] == [];
    assert Run(w, [e]) == Apply(w, e);
    assert Run(w, [e, f]) == Apply(Apply(w, e).value, f);
  }

  /** The state after a flood: only connection 1, still entering. */
  ghost predicate Flooded(w: World, n: nat) {
    && w.clients.Keys == {1} && w.broadcasts == map[] && w.removing.None?
    && w.clients[1].stage == Entering && w.clients[1].registered && !w.clients[1].closed && w.clients[1].early == n
    && |w.clients[1].queue| == (if n <= CAPACITY then n else CAPACITY)
    && w.clients[1].pending == (if n <= CAPACITY then 0 else n - CAPACITY)
  }

  lemma {:induction false} FloodRuns(n: nat)
    ensures Run(START, Flood(n)).Some? && Flooded(Run(START, Flood(n)).value, n)
  {
    if n == 0 {
      assert [Connect(1)][..0] == [];
    } else {
      FloodRuns(n - 1);
      var w := Run(START, Flood(n - 1)).value;
      FloodStep(w, n);
      RunThree(w, StartBroadcast(1), Offer(1, 1), EndBroadcast(1));
      RunAppend(START, Flood(n - 1), [StartBroadcast(1), Offer(1, 1), EndBroadcast(1)]);
    }
  }

  lemma FloodStep(w: World, n: nat)
    requires n > 0 && Flooded(w, n - 1)
    ensures Apply(w, StartBroadcast(1)).Some?
    ensures var w1 := Apply(w, StartBroadcast(1)).value;
      && Apply(w1, Offer(1, 1)).Some?
      && (var w2 := Apply(w1, Offer(1, 1)).value;
          Apply(w2, EndBroadcast(1)).Some? && Flooded(Apply(w2, EndBroadcast(1)).value, n))
  {
    assert RegisteredIn(w) == {1};
    var w1 := Apply(w, StartBroadcast(1)).value;
    var w2 := Apply(w1, Offer(1, 1)).value;
    assert w2.broadcasts[1].todo == {};
  }

  /** Seventeen broadcasts before Register's own send: the last one starts an unregister, the channel is closed, and the
      send panics. */
  lemma SeventeenPanics()
    ensures var w := Run(START, Flood(17) + [Unregister(1), Close(1), Greet(1)]);
      w.Some? && 1 in w.value.clients && w.value.clients[1].stage == Panicked
  {
    hide Run, Flood;
    FloodRuns(17);
    var w := Run(START, Flood(17)).value;
    FloodedPanics(w);
    RunThree(w, Unregister(1), Close(1), Greet(1));
    RunAppend(START, Flood(17), [Unregister(1), Close(1), Greet(1)]);
    hide Apply;
  }

  lemma FloodedPanics(w: World)
    requires Flooded(w, 17)
    ensures Apply(w, Unregister(1)).Some?
    ensures var w1 := Apply(w, Unregister(1)).value;
      && Apply(w1, Close(1)).Some?
      && (var last := Apply(Apply(w1, Close(1)).value, Greet(1));
          last.Some? && 1 in last.value.clients && last.value.clients[1].stage == Panicked)
  {
  }

  /** Sixteen: the send waits, and no step but another broadcast can change that. */
  lemma SixteenBlocks(e: Event)
    ensures Run(START, Flood(16)).Some?
    ensures var w := Run(START, Flood(16)).value;
      && Apply(w, Greet(1)).None?
      && (Apply(w, e).Some? ==> e.Connect? || e.StartBroadcast?)
  {
    hide Run, Flood;
    FloodRuns(16);
    RunsAreSound(Flood(16));
    assert ClientSound(Run(START, Flood(16)).value.clients[1], false);
  }
}
