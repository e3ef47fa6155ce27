/**
 * The server side of the collaborative datastore: one `Collaboration` per
 * shared session, the websocket `Handler` of each connected client, and the
 * `Registry` of live collaborations shared by all handlers.
 *
 * Writing a message to a client appends a frame to that handler's `outbox`;
 * the database behind a collaboration is reduced to whether it is open and
 * which transactions were handed to it.
 */
module Datastore {
  import opened Wire
  import opened Extrema
  import opened Ingest

  function Max(a: int, b: int): int {
    if a >= b then a else b
  }

  /** What a broadcast of `msg` to the handlers `reached` appends to the outbox of `g`. */
  function Routed(g: Handler, reached: set<Handler>, msg: Reply): seq<Frame> {
    if g in reached then [Text(msg)] else []
  }

  /** What the `_serials` defaultdict yields for `h`: its entry, or -1. */
  function SerialIn(serials: map<Handler, int>, h: Handler): int {
    if h in serials then serials[h] else -1
  }

  /**
   * `_serials[h] = max(serial, _serials[h])`: the entry of `h` becomes the
   * larger of the two, so it never goes back; every other handler keeps its
   * value, and `h` now has an entry of its own.
   */
  function Bump(serials: map<Handler, int>, h: Handler, serial: int): (r: map<Handler, int>)
    ensures r.Keys == serials.Keys + {h}
    ensures SerialIn(r, h) >= SerialIn(serials, h) && SerialIn(r, h) >= serial
    ensures SerialIn(r, h) == serial || SerialIn(r, h) == SerialIn(serials, h)
    ensures forall g :: g in serials && g != h ==> r[g] == serials[g]
  {
    serials[h := Max(serial, SerialIn(serials, h))]
  }

  /**
   * Reading `_serials[g]` for every `g` in `hs`: the defaultdict inserts the
   * missing keys with -1, which grows the map but changes no value read.
   */
  function WithDefaults(serials: map<Handler, int>, hs: set<Handler>): (r: map<Handler, int>)
    ensures r.Keys == serials.Keys + hs
    ensures forall g :: g in r ==> r[g] == SerialIn(serials, g)
  {
    map g | g in serials.Keys + hs :: SerialIn(serials, g)
  }

  /** Reading one more handler inserts at most its own -1 entry. */
  lemma WithDefaultsAdd(serials: map<Handler, int>, hs: set<Handler>, g: Handler)
    ensures WithDefaults(serials, hs + {g}) == WithDefaults(serials, hs)[g := SerialIn(serials, g)]
  {
  }

  /** The smallest serial among `hs`, reading absent entries as -1: the stable point. */
  ghost function StableOver(serials: map<Handler, int>, hs: set<Handler>): (r: int)
    requires hs != {}
    ensures exists g :: g in hs && r == SerialIn(serials, g)
  {
    assert exists h :: h in hs by { var w := Pick(hs); }
    var h :| h in hs;
    var values := set g | g in hs :: SerialIn(serials, g);
    assert SerialIn(serials, h) in values;
    MinOf(values)
  }

  /** The stable point is at most every serial in `hs`, and is one of them. */
  lemma StableIsMinimum(serials: map<Handler, int>, hs: set<Handler>)
    requires hs != {}
    ensures forall g :: g in hs ==> StableOver(serials, hs) <= SerialIn(serials, g)
    ensures exists g :: g in hs && StableOver(serials, hs) == SerialIn(serials, g)
  {
    var values := set g | g in hs :: SerialIn(serials, g);
    assert forall g :: g in hs ==> SerialIn(serials, g) in values;
  }

  /** Raising one handler's serial never lowers the stable point. */
  lemma StableNeverFalls(serials: map<Handler, int>, hs: set<Handler>, h: Handler, serial: int)
    requires hs != {}
    ensures StableOver(Bump(serials, h, serial), hs) >= StableOver(serials, hs)
  {
    var raised := Bump(serials, h, serial);
    StableIsMinimum(raised, hs);
    StableIsMinimum(serials, hs);
    var g :| g in hs && StableOver(raised, hs) == SerialIn(raised, g);
    if g != h && g !in serials {
      assert g !in raised;
    }
    assert SerialIn(raised, g) >= SerialIn(serials, g);
  }

  /** The -1 entries the scan inserts leave the stable point where it was. */
  lemma StableIgnoresDefaults(serials: map<Handler, int>, hs: set<Handler>, scanned: set<Handler>)
    requires hs != {}
    ensures StableOver(WithDefaults(serials, scanned), hs) == StableOver(serials, hs)
  {
    var filled := WithDefaults(serials, scanned);
    assert forall g :: SerialIn(filled, g) == SerialIn(serials, g);
    StableIsMinimum(filled, hs);
    StableIsMinimum(serials, hs);
    var a := StableOver(filled, hs);
    var b := StableOver(serials, hs);
    var ga :| ga in hs && a == SerialIn(filled, ga);
    var gb :| gb in hs && b == SerialIn(serials, gb);
    assert a <= SerialIn(filled, gb) && b <= SerialIn(serials, ga);
  }

  class Collaboration {
    const id: CollabId
    const dbFile: string
    const friendlyName: string

    var lastSerial: Option<int>
    var lastStable: int                  // the stable watermark announced so far
    var handlers: set<Handler>           // connected clients
    var dangling: map<Handler, Timer>    // uncleanly closed clients and their recovery timers
    var serials: map<Handler, int>       // highest serial each client acknowledged
    var dbOpen: bool                     // the DatastoreDB has not been closed
    var dbAdded: seq<Transaction>        // everything handed to the DatastoreDB's add_transactions

    /** A new collaboration; the friendly name falls back to the id when missing or empty. */
    constructor (id: CollabId, dbFile: string, friendlyName: Option<string>)
      ensures this.id == id && this.dbFile == dbFile
      ensures this.friendlyName == if friendlyName.Some? && friendlyName.value != "" then friendlyName.value else id
      ensures lastSerial == None && lastStable == -1
      ensures handlers == {} && dangling == map[] && serials == map[]
      ensures dbOpen && dbAdded == []
    {
      this.id := id;
      this.dbFile := dbFile;
      this.friendlyName := if friendlyName.Some? && friendlyName.value != "" then friendlyName.value else id;
      lastSerial := None;
      lastStable := -1;
      handlers := {};
      dangling := map[];
      serials := map[];
      dbOpen := true;
      dbAdded := [];
    }

    function SerialOf(h: Handler): int
      reads this`serials
    {
      SerialIn(serials, h)
    }

    /** `bool(self._handlers)`: a Python set is true exactly when it is non-empty. */
    predicate HasClients()
      reads this
      ensures HasClients() <==> |handlers| > 0
    {
      handlers != {}
    }

    /** Whether `h` has a pending recovery timer in the dangling table. */
    predicate IsDangling(h: Handler)
      reads this
      ensures IsDangling(h) <==> h in dangling.Keys
    {
      h in dangling
    }

    /** Connected handlers whose history has been sent to them. */
    function InitedHandlers(): set<Handler>
      reads this`handlers, handlers`historyInited
    {
      set h | h in handlers && h.historyInited
    }

    /** The handlers `broadcast_message` writes to. */
    function Recipients(exclude: Option<Handler>): set<Handler>
      reads this`handlers, handlers`historyInited
    {
      set h | h in handlers && h.historyInited && exclude != Some(h)
    }

    /**
     * The handlers that receive the stable-state broadcast, given the
     * watermark was `previous` before: every history-initialised client, and
     * only when the watermark moved and more than one serial is tracked.
     */
    function Announced(previous: int, inited: set<Handler>): set<Handler>
      reads this`lastStable, this`serials
    {
      if lastStable != previous && |serials| > 1 then inited else {}
    }

    /**
     * The serials and watermark after `update_serial(h, serial)` from the
     * serials `before` and the watermark `previous`: `h` is
     * raised (never lowered); if some handler of `inited` (the connected,
     * history-initialised ones when the update starts) exists, the
     * scan gives each of them an entry and the watermark moves up to the
     * minimum serial among them if that is higher; otherwise `min` raises.
     */
    ghost predicate SerialUpdated(h: Handler, serial: int, before: map<Handler, int>, previous: int, inited: set<Handler>, status: Status)
      reads this`serials, this`lastStable
    {
      var raised := Bump(before, h, serial);
      && (status == Ok <==> inited != {})
      && (status != Ok ==> status == Raised(EmptyMin))
      && serials == (if status == Ok then WithDefaults(raised, inited) else raised)
      && lastStable == (if status == Ok then Max(previous, StableOver(raised, inited)) else previous)
    }

    /**
     * `update_serial` never lowers a serial: the handler's becomes the larger
     * of the new one and its old one (-1 when absent); every other handler
     * reads as before.
     */
    lemma SerialsNeverDecrease(h: Handler, serial: int, before: map<Handler, int>, previous: int, inited: set<Handler>, status: Status)
      requires SerialUpdated(h, serial, before, previous, inited, status)
      ensures SerialOf(h) == Max(serial, SerialIn(before, h))
      ensures forall g :: g != h ==> SerialOf(g) == SerialIn(before, g)
    {
    }

    /**
     * The watermark never falls; when it moves, it moves strictly up to the
     * new stable point, and only then can it be announced, and only with
     * more than one serial tracked.
     */
    lemma WatermarkMonotone(h: Handler, serial: int, before: map<Handler, int>, previous: int, inited: set<Handler>, status: Status)
      requires SerialUpdated(h, serial, before, previous, inited, status)
      ensures lastStable >= previous
      ensures lastStable != previous ==> status == Ok && lastStable == StableOver(Bump(before, h, serial), inited) > previous
      ensures Announced(previous, inited) != {} ==> lastStable > previous && |serials| > 1
    {
    }

    method AddClient(h: Handler)
      modifies this`handlers
      ensures handlers == old(handlers) + {h}
    {
      handlers := handlers + {h};
    }

    /** `remove_client`: `set.remove` raises KeyError for a handler that is not connected. */
    method RemoveClient(h: Handler) returns (status: Status)
      modifies this`handlers, this`serials
      ensures status == if h in old(handlers) then Ok else Raised(KeyError)
      ensures status == Ok ==> handlers == old(handlers) - {h} && serials == old(serials) - {h}
      ensures status != Ok ==> handlers == old(handlers) && serials == old(serials)
      ensures !HasClients() <==> old(handlers) <= {h}
    {
      if h !in handlers {
        return Raised(KeyError);
      }
      handlers := handlers - {h};
      serials := serials - {h};
      status := Ok;
    }

    /** `close`: closes the database, asks every client to close with code 1001, forgets them all. */
    method Close()
      modifies this`dbOpen, this`handlers, handlers`outbox
      ensures !dbOpen && handlers == {}
      ensures forall g :: g in old(handlers) ==> g.outbox == old(g.outbox) + [Frame.Close(1001)]
    {
      dbOpen := false;
      var todo := handlers;
      while todo != {}
        invariant handlers == old(handlers) && !dbOpen && todo <= handlers
        invariant forall g :: g in old(handlers) ==> g.outbox == old(g.outbox) + (if g in todo then [] else [Frame.Close(1001)])
        decreases todo
      {
        ghost var w := Pick(todo);
        var g :| g in todo;
        g.outbox := g.outbox + [Frame.Close(1001)];
        todo := todo - {g};
      }
      handlers := {};
    }

    /**
     * `broadcast_message`: every connected handler other than `exclude` whose
     * history is initialised receives `msg`; every other handler receives nothing.
     */
    method BroadcastMessage(msg: Reply, exclude: Option<Handler>)
      modifies handlers`outbox
      ensures forall g :: g in handlers ==> g.outbox == old(g.outbox) + Routed(g, old(Recipients(exclude)), msg)
    {
      var todo := handlers;
      while todo != {}
        invariant todo <= handlers
        invariant forall g :: g in handlers ==> g.outbox == old(g.outbox) + (if g in todo then [] else Routed(g, old(Recipients(exclude)), msg))
        decreases todo
      {
        ghost var w := Pick(todo);
        var g :| g in todo;
        if exclude != Some(g) && g.historyInited {
          g.outbox := g.outbox + [Text(msg)];
        }
        todo := todo - {g};
      }
    }

    /**
     * The `min(...)` scan of `update_serial` over the handlers `hs`: each is
     * read through the defaultdict, which inserts -1 for a missing entry.
     */
    method ScanStable(hs: set<Handler>) returns (stable: int)
      requires hs != {}
      modifies this`serials
      ensures serials == WithDefaults(old(serials), hs)
      ensures stable == StableOver(old(serials), hs)
    {
      ghost var before := serials;
      var todo := hs;
      var first := true;
      stable := 0;
      ghost var lowest := Pick(hs);
      while todo != {}
        invariant todo <= hs
        invariant serials == WithDefaults(before, hs - todo)
        invariant first <==> todo == hs
        invariant !first ==> lowest in hs - todo && stable == SerialIn(before, lowest)
        invariant forall g :: g in hs - todo ==> stable <= SerialIn(before, g)
        decreases todo
      {
        ghost var w := Pick(todo);
        var g :| g in todo;
        WithDefaultsAdd(before, hs - todo, g);
        assert hs - (todo - {g}) == hs - todo + {g};
        if g !in serials {
          serials := serials[g := -1];
        } else {
          assert serials[g := serials[g]] == serials;
        }
        if first || serials[g] < stable {
          stable := serials[g];
          lowest := g;
        }
        first := false;
        todo := todo - {g};
      }
      var values := set g | g in hs :: SerialIn(before, g);
      assert SerialIn(before, lowest) in values;
      assert IsMin(stable, values);
    }

    /**
     * The first half of `update_serial`: raise the handler's serial, then
     * take the minimum over the history-initialised handlers (`min` raises
     * when there is none).
     */
    method RaiseSerial(h: Handler, serial: int) returns (status: Status, stable: int)
      modifies this`serials
      ensures var raised := Bump(old(serials), h, serial);
        var inited := InitedHandlers();
        && (status == Ok <==> inited != {})
        && (status != Ok ==> status == Raised(EmptyMin) && serials == raised)
        && (status == Ok ==> serials == WithDefaults(raised, inited) && stable == StableOver(raised, inited))
    {
      serials := Bump(serials, h, serial);
      var inited := set g | g in handlers && g.historyInited;
      assert inited == InitedHandlers();
      if inited == {} {
        return Raised(EmptyMin), 0;
      }
      stable := ScanStable(inited);
      status := Ok;
    }

    /**
     * The second half of `update_serial`: a stable point above the watermark
     * becomes the watermark, announced to every history-initialised client
     * when more than one serial is tracked.
     */
    method AdvanceStable(stable: int)
      modifies this`lastStable, handlers`outbox
      ensures lastStable == Max(old(lastStable), stable)
      ensures forall g :: g in handlers ==> g.outbox == old(g.outbox) + Routed(g, Announced(old(lastStable), old(InitedHandlers())), StableStateBroadcast(lastStable))
    {
      if stable > lastStable {
        if |serials| > 1 {
          BroadcastMessage(StableStateBroadcast(stable), None);
        }
        lastStable := stable;
      }
    }

    /** `update_serial`: raise the handler's serial, then recompute and maybe announce the stable point. */
    method UpdateSerial(h: Handler, serial: int) returns (status: Status)
      modifies this`serials, this`lastStable, handlers`outbox
      ensures SerialUpdated(h, serial, old(serials), old(lastStable), old(InitedHandlers()), status)
      ensures forall g :: g in handlers ==> g.outbox == old(g.outbox) + Routed(g, Announced(old(lastStable), old(InitedHandlers())), StableStateBroadcast(lastStable))
    {
      var stable;
      status, stable := RaiseSerial(h, serial);
      if status == Ok {
        AdvanceStable(stable);
      }
    }

    /**
     * The serial state after `broadcast_transactions(source, _, centralSerials)`:
     * `max` raises on an empty serial map before anything is recorded; otherwise
     * the largest central serial becomes `last_serial` and the source's serial is
     * updated to it.
     */
    ghost predicate TransactionsBroadcast(source: Handler, centralSerials: map<TransactionId, int>, lastBefore: Option<int>,
                                          before: map<Handler, int>, previous: int, inited: set<Handler>, status: Status)
      reads this`lastSerial, this`serials, this`lastStable
    {
      if centralSerials == map[] then
        status == Raised(EmptyMax) && lastSerial == lastBefore && serials == before && lastStable == previous
      else
        lastSerial == Some(MaxOf(centralSerials.Values)) && SerialUpdated(source, MaxOf(centralSerials.Values), before, previous, inited, status)
    }

    /**
     * `broadcast_transactions`: broadcasts to everyone but the source, then
     * records the largest central serial as `last_serial` and advances the
     * source's serial to it (`max` raises on an empty serial map).
     */
    method BroadcastTransactions(source: Handler, ts: seq<Transaction>, centralSerials: map<TransactionId, int>)
      returns (status: Status)
      modifies this`lastSerial, this`serials, this`lastStable, handlers`outbox
      ensures TransactionsBroadcast(source, centralSerials, old(lastSerial), old(serials), old(lastStable), old(InitedHandlers()), status)
      ensures forall g :: g in handlers ==>
        g.outbox == old(g.outbox) + Routed(g, old(Recipients(Some(source))), TransactionBroadcast(ts, centralSerials))
                    + Routed(g, Announced(old(lastStable), old(InitedHandlers())), StableStateBroadcast(lastStable))
    {
      ghost var reached, inited := Recipients(Some(source)), InitedHandlers();
      BroadcastMessage(TransactionBroadcast(ts, centralSerials), Some(source));
      assert forall g :: g in handlers ==> g.historyInited == old(g.historyInited);
      assert InitedHandlers() == inited && Recipients(Some(source)) == reached;
      var top := MaxOfValues(centralSerials);
      if top.None? {
        return Raised(EmptyMax);
      }
      lastSerial := top;
      assert InitedHandlers() == inited;
      status := UpdateSerial(source, top.value);
    }

    /** The database's `add_transactions`: the batch is recorded after the earlier batches handed to it through this collaboration. */
    method AddTransactions(ts: seq<Transaction>)
      modifies this`dbAdded
      ensures dbAdded == old(dbAdded) + ts
    {
      dbAdded := dbAdded + ts;
    }

    /** `mark_dangling`: remembers the recovery timer started for `h` at loop time `now`. */
    method MarkDangling(h: Handler, timeout: int, now: int, token: nat)
      modifies this`dangling
      ensures dangling == old(dangling)[h := Timer(token, now + timeout)]
      ensures IsDangling(h)
    {
      dangling := dangling[h := Timer(token, now + timeout)];
    }

    /** `forget_dangling`: pops and cancels the timer of `h`; `dict.pop` raises KeyError if there is none. */
    method ForgetDangling(h: Handler) returns (status: Status, cancelled: Option<Timer>)
      modifies this`dangling
      ensures status == if old(IsDangling(h)) then Ok else Raised(KeyError)
      ensures status == Ok ==> cancelled == Some(old(dangling)[h])
      ensures dangling == old(dangling) - {h}
      ensures !IsDangling(h)
    {
      if h !in dangling {
        return Raised(KeyError), None;
      }
      cancelled := Some(dangling[h]);
      dangling := dangling - {h};
      status := Ok;
    }
  }


  /** The registry of live collaborations by id: the class-level `collaborations` dict every handler shares. */
  class Registry {
    var collaborations: map<CollabId, Collaboration>

    constructor ()
      ensures collaborations == map[]
    {
      collaborations := map[];
    }

    /** The collaboration registered under `id`, if any, as a set. */
    function Existing(id: CollabId): set<Collaboration>
      reads this
    {
      if id in collaborations then {collaborations[id]} else {}
    }

    /**
     * `CollaborationsManagerHandler.get`: every registered collaboration the
     * current user may read, as `{id, friendlyName}` under its id.
     */
    function Listing(readable: CollabId -> bool): (r: map<CollabId, Entry>)
      reads this
      ensures r.Keys == set k | k in collaborations && readable(k)
      ensures forall k :: k in r ==> r[k] == Entry(k, collaborations[k].friendlyName)
    {
      map k | k in collaborations && readable(k) :: Entry(k, collaborations[k].friendlyName)
    }
  }

  /** The `datastore_file` value that keeps the store in memory. */
  const MemoryStore: string := ":memory:"

  /** Close codes 1000 (normal) and 1001 (going away) mean the client left on purpose. */
  predicate IsCleanClose(code: Option<int>)
    ensures IsCleanClose(code) <==> code.Some? && 1000 <= code.value <= 1001
  {
    code == Some(1000) || code == Some(1001)
  }

  /** The id `open` settles on: the one in the URL, else a freshly generated one. */
  function OpenId(requested: Option<CollabId>, freshId: CollabId): (r: CollabId)
    ensures requested.Some? ==> r == requested.value
    ensures r == freshId || Some(r) == requested
  {
    if requested.Some? then requested.value else freshId
  }

  /** What a transaction broadcast reads before it changes anything; see `Handler.Snap`. */
  datatype Snapshot = Snapshot(
    outbox: seq<Frame>, historyInited: bool, outboxes: map<Handler, seq<Frame>>,
    dbAdded: seq<Transaction>, lastSerial: Option<int>, serials: map<Handler, int>,
    lastStable: int, inited: set<Handler>, reached: set<Handler>)

  /** `CollaborationHandler`: one client's websocket connection to a collaboration. */
  class Handler {
    const registry: Registry
    const datastoreFile: string
    const recoveryTimeout: int

    var collaboration: Collaboration?
    var collaborationId: Option<CollabId>
    var storeTransactionSerial: int      // serial of the last transaction this client sent
    var historyInited: bool              // the client has been sent the history
    var outbox: seq<Frame>               // everything written to this client, in order

    /** `initialize`, with the settings defaults ":memory:" and 120 seconds. */
    constructor (registry: Registry, datastoreFile: Option<string>, recoveryTimeout: Option<int>)
      ensures this.registry == registry
      ensures this.datastoreFile == if datastoreFile.Some? then datastoreFile.value else MemoryStore
      ensures this.recoveryTimeout == if recoveryTimeout.Some? then recoveryTimeout.value else 120
      ensures collaboration == null && collaborationId == None
      ensures storeTransactionSerial == -1 && !historyInited && outbox == []
    {
      this.registry := registry;
      this.datastoreFile := if datastoreFile.Some? then datastoreFile.value else MemoryStore;
      this.recoveryTimeout := if recoveryTimeout.Some? then recoveryTimeout.value else 120;
      collaboration := null;
      collaborationId := None;
      storeTransactionSerial := -1;
      historyInited := false;
      outbox := [];
    }

    /** The collaboration this handler has joined, as a set (empty before `open`). */
    function Joined(): set<Collaboration>
      reads this
    {
      if collaboration == null then {} else {collaboration}
    }

    /** The other clients of this handler's collaboration (none without one). */
    function Peers(): set<Handler>
      reads this, collaboration
    {
      if collaboration == null then {} else collaboration.handlers
    }

    /** `write_message` of one JSON reply. */
    method WriteMessage(reply: Reply)
      modifies this`outbox
      ensures outbox == old(outbox) + [Text(reply)]
    {
      outbox := outbox + [Text(reply)];
    }

    /**
     * `open`: joins the collaboration registered under the id, creating and
     * registering it first when there is none.
     */
    method Open(requested: Option<CollabId>, freshId: CollabId)
      modifies this`collaboration, this`collaborationId, registry, registry.Existing(OpenId(requested, freshId))`handlers
      ensures var id := OpenId(requested, freshId);
        && collaborationId == Some(id)
        && collaboration != null
        && registry.collaborations == old(registry.collaborations)[id := collaboration]
        && collaboration.handlers == (if id in old(registry.collaborations) then old(registry.collaborations[id].handlers) else {}) + {this}
      ensures var id := OpenId(requested, freshId);
        id in old(registry.collaborations) ==> collaboration == old(registry.collaborations[id])
      ensures var id := OpenId(requested, freshId);
        id !in old(registry.collaborations) ==>
          && fresh(collaboration)
          && collaboration.id == id && collaboration.dbFile == datastoreFile && collaboration.friendlyName == id
          && collaboration.lastSerial == None && collaboration.lastStable == -1
          && collaboration.dangling == map[] && collaboration.serials == map[]
          && collaboration.dbOpen && collaboration.dbAdded == []
    {
      var id := OpenId(requested, freshId);
      collaborationId := Some(id);
      if id !in registry.collaborations {
        var c := new Collaboration(id, datastoreFile, None);
        registry.collaborations := registry.collaborations[id := c];
      }
      collaboration := registry.collaborations[id];
      collaboration.AddClient(this);
    }

    /**
     * What `cleanup_closed` does to collaboration `c` itself: this handler is
     * no longer dangling; when the store is not in memory and nobody is
     * connected, the collaboration is closed and this handler drops it.
     */
    twostate predicate Released(c: Collaboration)
      reads this, c
    {
      var closes := datastoreFile != MemoryStore && c.handlers == {};
      && c.dangling == old(c.dangling) - {this}
      && c.dbOpen == (old(c.dbOpen) && !closes)
      && collaboration == (if closes then null else c)
    }

    /**
     * The registry after `cleanup_closed` as written: once `c` closes, the
     * entry under this handler's id is deleted whatever collaboration it now
     * holds (an empty id fails the assertion, a missing one raises KeyError).
     */
    twostate predicate UnregisteredAsWritten(c: Collaboration, status: Status)
      reads this, c, registry
    {
      var closes := datastoreFile != MemoryStore && c.handlers == {};
      if !closes then
        status == Ok && registry.collaborations == old(registry.collaborations)
      else if collaborationId.None? || collaborationId.value == "" then
        status == Raised(AssertionFailed) && registry.collaborations == old(registry.collaborations)
      else if collaborationId.value !in old(registry.collaborations) then
        status == Raised(KeyError) && registry.collaborations == old(registry.collaborations)
      else
        status == Ok && registry.collaborations == old(registry.collaborations) - {collaborationId.value}
    }

    /**
     * The registry after the corrected cleanup: once `c` closes, its id is
     * deleted only while the registry still maps it to `c`; an id that was
     * dropped, or reused by a newer collaboration, is left alone.
     */
    twostate predicate Unregistered(c: Collaboration, status: Status)
      reads this, c, registry
    {
      var closes := datastoreFile != MemoryStore && c.handlers == {};
      if !closes then
        status == Ok && registry.collaborations == old(registry.collaborations)
      else if collaborationId.None? || collaborationId.value == "" then
        status == Raised(AssertionFailed) && registry.collaborations == old(registry.collaborations)
      else if collaborationId.value in old(registry.collaborations) && old(registry.collaborations)[collaborationId.value] == c then
        status == Ok && registry.collaborations == old(registry.collaborations) - {collaborationId.value}
      else
        status == Ok && registry.collaborations == old(registry.collaborations)
    }

    /**
     * `cleanup_closed` exactly as written; it runs after a clean close, or
     * when the recovery timer of an unclean one fires, possibly long after
     * another handler has cleaned up and the id has been opened afresh.
     */
    method CleanupClosedAsWritten() returns (status: Status)
      modifies this`collaboration, collaboration, registry
      ensures old(collaboration) == null ==>
        status == Raised(AssertionFailed) && collaboration == null && registry.collaborations == old(registry.collaborations)
      ensures old(collaboration) != null ==>
        var c := old(collaboration);
        && Released(c) && UnregisteredAsWritten(c, status)
        && c.handlers == old(c.handlers) && c.serials == old(c.serials)
        && c.lastStable == old(c.lastStable) && c.lastSerial == old(c.lastSerial) && c.dbAdded == old(c.dbAdded)
    {
      if collaboration == null {
        return Raised(AssertionFailed);
      }
      var c := collaboration;
      var notDangling, timer := c.ForgetDangling(this);  // a KeyError here is swallowed
      if datastoreFile != MemoryStore && !c.HasClients() {
        c.Close();
        collaboration := null;
        if collaborationId.None? || collaborationId.value == "" {
          return Raised(AssertionFailed);
        }
        if collaborationId.value !in registry.collaborations {
          return Raised(KeyError);
        }
        registry.collaborations := registry.collaborations - {collaborationId.value};
      }
      status := Ok;
    }

    /**
     * `cleanup_closed`, corrected to unregister only its own collaboration:
     * every other registry entry survives, whatever id it is under.
     */
    method CleanupClosed() returns (status: Status)
      modifies this`collaboration, collaboration, registry
      ensures old(collaboration) == null ==>
        status == Raised(AssertionFailed) && collaboration == null && registry.collaborations == old(registry.collaborations)
      ensures old(collaboration) != null ==>
        var c := old(collaboration);
        && Released(c) && Unregistered(c, status)
        && c.handlers == old(c.handlers) && c.serials == old(c.serials)
        && c.lastStable == old(c.lastStable) && c.lastSerial == old(c.lastSerial) && c.dbAdded == old(c.dbAdded)
      ensures forall k :: k in old(registry.collaborations) && old(registry.collaborations[k]) != old(collaboration) ==>
        k in registry.collaborations && registry.collaborations[k] == old(registry.collaborations[k])
    {
      if collaboration == null {
        return Raised(AssertionFailed);
      }
      var c := collaboration;
      var notDangling, timer := c.ForgetDangling(this);  // a KeyError here is swallowed
      if datastoreFile != MemoryStore && !c.HasClients() {
        c.Close();
        collaboration := null;
        if collaborationId.None? || collaborationId.value == "" {
          return Raised(AssertionFailed);
        }
        var id := collaborationId.value;
        if id in registry.collaborations && registry.collaborations[id] == c {
          registry.collaborations := registry.collaborations - {id};
        }
      }
      status := Ok;
    }

    /**
     * `on_close`: the client always leaves the collaboration; a clean close
     * is cleaned up at once, any other close marks the handler dangling with
     * a recovery timer.
     */
    method OnClose(closeCode: Option<int>, now: int, token: nat) returns (status: Status)
      modifies this`collaboration, collaboration, registry
      ensures old(collaboration) == null ==>
        status == Raised(AssertionFailed) && collaboration == null && registry.collaborations == old(registry.collaborations)
      ensures old(collaboration) != null && this !in old(collaboration.handlers) ==>
        var c := old(collaboration);
        status == Raised(KeyError) && collaboration == c && unchanged(c) && registry.collaborations == old(registry.collaborations)
      ensures forall k :: k in old(registry.collaborations) && old(registry.collaborations[k]) != old(collaboration) ==>
        k in registry.collaborations && registry.collaborations[k] == old(registry.collaborations[k])
      ensures old(collaboration) != null && this in old(collaboration.handlers) ==>
        var c := old(collaboration);
        && c.handlers == old(c.handlers) - {this} && c.serials == old(c.serials) - {this}
        && c.lastStable == old(c.lastStable) && c.lastSerial == old(c.lastSerial) && c.dbAdded == old(c.dbAdded)
        && (IsCleanClose(closeCode) ==> Released(c) && Unregistered(c, status))
        && (!IsCleanClose(closeCode) ==>
              && status == Ok && collaboration == c && c.dbOpen == old(c.dbOpen)
              && c.dangling == old(c.dangling)[this := Timer(token, now + recoveryTimeout)]
              && registry.collaborations == old(registry.collaborations))
    {
      if collaboration == null {
        return Raised(AssertionFailed);
      }
      var c := collaboration;
      var clean := IsCleanClose(closeCode);
      status := c.RemoveClient(this);
      if status != Ok {
        return;
      }
      if clean {
        status := CleanupClosed();
      } else {
        c.MarkDangling(this, recoveryTimeout, now, token);
      }
    }

    /** Collaboration `c` and every other client of it are as they were. */
    twostate predicate Untouched(c: Collaboration)
      reads this, c, c.handlers
    {
      && c.handlers == old(c.handlers)
      && c.lastSerial == old(c.lastSerial) && c.serials == old(c.serials)
      && c.lastStable == old(c.lastStable) && c.dbAdded == old(c.dbAdded)
      && (forall g :: g in c.handlers && g != this ==> g.outbox == old(g.outbox))
    }

    /**
     * A branch that at most writes `frames` to this client and sets its
     * history flag to `inited`: the collaboration, the counter and every
     * other client are untouched.
     */
    twostate predicate RepliedOnly(c: Collaboration, frames: seq<Frame>, inited: bool)
      reads this, c, c.handlers
    {
      && Untouched(c)
      && outbox == old(outbox) + frames
      && historyInited == inited
      && storeTransactionSerial == old(storeTransactionSerial)
    }

    /**
     * The state a transaction broadcast starts from, as seen by this client:
     * its own outbox and history flag, every client's outbox, and the
     * collaboration's transactions, serials and watermark.
     */
    ghost function Snap(c: Collaboration): Snapshot
      reads this`outbox, this`historyInited, c, c.handlers`outbox, c.handlers`historyInited
    {
      Snapshot(outbox, historyInited, map g | g in c.handlers :: g.outbox, c.dbAdded,
               c.lastSerial, c.serials, c.lastStable, c.InitedHandlers(), c.Recipients(Some(this)))
    }

    /**
     * What storing and relaying an accepted batch does from the state `s`:
     * the batch is handed to the database, acknowledged to this client with
     * its central serials, and its transactions not already stored are
     * broadcast to the other clients, after which `broadcast_transactions`
     * moves the serials.
     */
    ghost predicate Published(c: Collaboration, msgId: Option<string>, ts: seq<Transaction>, db: DbReplies, status: Status, s: Snapshot)
      reads this`outbox, this`historyInited, c, c.handlers`outbox
    {
      var ack := Text(TransactionsAck(msgId, ts, db.serials));
      var broadcast := TransactionBroadcast(FilterDuplicates(ts, db.isDuplicate), db.serials);
      var announced := c.Announced(s.lastStable, s.inited);
      && c.handlers == s.outboxes.Keys
      && historyInited == s.historyInited
      && c.dbAdded == s.dbAdded + ts
      && c.TransactionsBroadcast(this, db.serials, s.lastSerial, s.serials, s.lastStable, s.inited, status)
      && (this !in s.outboxes ==> outbox == s.outbox + [ack])
      && (forall g :: g in s.outboxes ==>
            g.outbox == s.outboxes[g] + (if g == this then [ack] else []) + Routed(g, s.reached, broadcast)
                        + Routed(g, announced, StableStateBroadcast(c.lastStable)))
    }

    method Publish(msgId: Option<string>, ts: seq<Transaction>, db: DbReplies) returns (status: Status)
      requires collaboration != null
      modifies this`outbox
      modifies collaboration`dbAdded, collaboration`lastSerial, collaboration`serials, collaboration`lastStable
      modifies collaboration.handlers`outbox
      ensures Published(collaboration, msgId, ts, db, status, old(Snap(collaboration)))
    {
      var c := collaboration;
      ghost var before := Snap(c);
      c.AddTransactions(ts);
      WriteMessage(TransactionsAck(msgId, ts, db.serials));
      assert forall g :: g in c.handlers ==> g.historyInited == old(g.historyInited);
      assert c.InitedHandlers() == before.inited && c.Recipients(Some(this)) == before.reached;
      assert c.lastSerial == before.lastSerial && c.serials == before.serials && c.lastStable == before.lastStable;
      assert forall g :: g in before.outboxes ==>
        g.outbox == before.outboxes[g] + (if g == this then [Text(TransactionsAck(msgId, ts, db.serials))] else []);
      status := c.BroadcastTransactions(this, FilterDuplicates(ts, db.isDuplicate), db.serials);
    }

    /**
     * The effect of a transaction broadcast the client may send: the counter
     * advances over the contiguous prefix; on a gap nothing else happens,
     * otherwise the batch is published.
     */
    twostate predicate Ingested(c: Collaboration, msgId: Option<string>, ts: seq<Transaction>, db: DbReplies, status: Status)
      reads this, c, c.handlers
    {
      var start := old(storeTransactionSerial);
      && storeTransactionSerial == start + AcceptedPrefix(start, ts)
      && (!Contiguous(start, ts) ==>
            && status == Raised(MissingTransaction(storeTransactionSerial))
            && Untouched(c) && outbox == old(outbox) && historyInited == old(historyInited))
      && (Contiguous(start, ts) ==> Published(c, msgId, ts, db, status, old(Snap(c))))
    }

    method IngestTransactions(msgId: Option<string>, ts: seq<Transaction>, db: DbReplies) returns (status: Status)
      requires collaboration != null
      modifies this`storeTransactionSerial, this`outbox
      modifies collaboration`dbAdded, collaboration`lastSerial, collaboration`serials, collaboration`lastStable
      modifies collaboration.handlers`outbox
      ensures Ingested(collaboration, msgId, ts, db, status)
    {
      var next;
      next, status := CheckSerials(storeTransactionSerial, ts);
      storeTransactionSerial := next;
      if status == Ok {
        assert Snap(collaboration) == old(Snap(collaboration));
        status := Publish(msgId, ts, db);
      }
    }

    /**
     * The effect of a serial update: the collaboration's serials and stable
     * point move as `update_serial` says, and every client receives the
     * stable-state announcement if there is one.
     */
    twostate predicate SerialApplied(c: Collaboration, serial: int, status: Status)
      reads this, c, c.handlers
    {
      && c.handlers == old(c.handlers)
      && c.SerialUpdated(this, serial, old(c.serials), old(c.lastStable), old(c.InitedHandlers()), status)
      && c.lastSerial == old(c.lastSerial) && c.dbAdded == old(c.dbAdded)
      && storeTransactionSerial == old(storeTransactionSerial) && historyInited == old(historyInited)
      && (this !in c.handlers ==> outbox == old(outbox))
      && (forall g :: g in c.handlers ==> g.outbox == old(g.outbox) + Routed(g, c.Announced(old(c.lastStable), old(c.InitedHandlers())), StableStateBroadcast(c.lastStable)))
    }

    method ApplySerialUpdate(serial: int) returns (status: Status)
      requires collaboration != null
      modifies collaboration`serials, collaboration`lastStable, collaboration.handlers`outbox
      ensures SerialApplied(collaboration, serial, status)
    {
      status := collaboration.UpdateSerial(this, serial);
    }

    /** `send_error_reply` for a permission `on_message` found missing. */
    function Denied(msgId: Option<string>, action: Action): (r: Reply)
      reads this`collaborationId
      ensures r.ErrorReply? && r.parent == msgId
      ensures r.reason.WriteDenied? <==> action == Write
      ensures r.reason.ReadDenied? ==> r.reason.collaborationId == collaborationId
    {
      ErrorReply(msgId, if action == Write then WriteDenied else ReadDenied(collaborationId))
    }

    /**
     * What `on_message` does for `msg` in collaboration `c`, given what the
     * authenticator allows this user here and what the database answers.
     * Permission failures are replied to, not raised; malformed messages are
     * ignored, except a history request whose content is `null`, which raises.
     * A serial update needs no permission; an unknown type is ignored.
     */
    twostate predicate Dispatched(c: Collaboration, msg: Message, auth: Action -> bool, db: DbReplies, status: Status)
      reads this, c, c.handlers
    {
      var id := msg.msgId;
      var content := msg.content;
      var inited := old(historyInited);
      if msg.msgType == Some("transaction-broadcast") then
        if !auth(Write) then status == Ok && RepliedOnly(c, [Text(Denied(id, Write))], inited)
        else if !content.Present? || content.value.transactions.None? then status == Ok && RepliedOnly(c, [], inited)
        else Ingested(c, id, content.value.transactions.value, db, status)
      else if msg.msgType == Some("history-request") then
        if !auth(Read) then status == Ok && RepliedOnly(c, [Text(Denied(id, Read))], inited)
        else if content.Null? then status == Raised(AttributeError) && RepliedOnly(c, [], inited)
        else status == Ok && RepliedOnly(c, [Text(HistoryReply(id, db.historyTransactions, db.historyState))], true)
      else if msg.msgType == Some("transaction-request") then
        if !auth(Read) then status == Ok && RepliedOnly(c, [Text(Denied(id, Read))], inited)
        else if !content.Present? then status == Ok && RepliedOnly(c, [], inited)
        else status == Ok && RepliedOnly(c, [Text(TransactionReply(id, db.byId))], inited)
      else if msg.msgType == Some("serial-request") then
        if !auth(Read) then status == Ok && RepliedOnly(c, [Text(Denied(id, Read))], inited)
        else if !content.Present? then status == Ok && RepliedOnly(c, [], inited)
        else status == Ok && RepliedOnly(c, [Text(SerialReply(id, db.bySerial))], inited)
      else if msg.msgType == Some("permissions-request") then
        status == Ok && RepliedOnly(c, [Text(PermissionsReply(id, auth(Read), auth(Write)))], inited)
      else if msg.msgType == Some("serial-update") then
        if !content.Present? || content.value.serial.None? then status == Ok && RepliedOnly(c, [], inited)
        else SerialApplied(c, content.value.serial.value, status)
      else
        status == Ok && RepliedOnly(c, [], inited)
    }

    /** `on_message`: handles one decoded client message (the `assert self.collaboration` included). */
    method OnMessage(msg: Message, auth: Action -> bool, db: DbReplies) returns (status: Status)
      modifies this`storeTransactionSerial, this`historyInited, this`outbox
      modifies Joined()`dbAdded, Joined()`lastSerial, Joined()`serials, Joined()`lastStable
      modifies Peers()`outbox
      ensures old(collaboration) == null ==>
        status == Raised(AssertionFailed) && outbox == old(outbox)
        && historyInited == old(historyInited) && storeTransactionSerial == old(storeTransactionSerial)
      ensures collaboration != null ==> Dispatched(collaboration, msg, auth, db, status)
    {
      if collaboration == null {
        return Raised(AssertionFailed);
      }
      var c := collaboration;
      var id := msg.msgId;
      var content := msg.content;
      if msg.msgType == Some("transaction-broadcast") {
        if !auth(Write) {
          WriteMessage(Denied(id, Write));
          return Ok;
        }
        if !content.Present? || content.value.transactions.None? {
          return Ok;
        }
        status := IngestTransactions(id, content.value.transactions.value, db);
      } else if msg.msgType == Some("history-request") {
        if !auth(Read) {
          WriteMessage(Denied(id, Read));
          return Ok;
        }
        if content.Null? {
          return Raised(AttributeError);
        }
        WriteMessage(HistoryReply(id, db.historyTransactions, db.historyState));
        historyInited := true;
        status := Ok;
      } else if msg.msgType == Some("transaction-request") {
        if !auth(Read) {
          WriteMessage(Denied(id, Read));
          return Ok;
        }
        if !content.Present? {
          return Ok;
        }
        WriteMessage(TransactionReply(id, db.byId));
        status := Ok;
      } else if msg.msgType == Some("serial-request") {
        if !auth(Read) {
          WriteMessage(Denied(id, Read));
          return Ok;
        }
        if !content.Present? {
          return Ok;
        }
        WriteMessage(SerialReply(id, db.bySerial));
        status := Ok;
      } else if msg.msgType == Some("permissions-request") {
        WriteMessage(PermissionsReply(id, auth(Read), auth(Write)));
        status := Ok;
      } else if msg.msgType == Some("serial-update") {
        if !content.Present? || content.value.serial.None? {
          return Ok;
        }
        status := ApplySerialUpdate(content.value.serial.value);
      } else {
        status := Ok;
      }
    }
  }
}
