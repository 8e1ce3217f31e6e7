/**
 * The reload hub (internal/livereload/server.go): the set of connected
 * browser clients and the three operations that its `Run` loop serializes.
 * Each operation runs to completion before the next, so the loop is a
 * sequence of method calls; whether a write to a client succeeds is an
 * oracle `writeOk`.
 */
module Hub {

  /** A websocket connection, known by identity. */
  datatype Client = Client(id: nat)

  type Message = string

  /** What arrives on the hub's register, unregister and broadcast channels. */
  datatype HubOp = Register(client: Client) | Unregister(client: Client) | Broadcast(msg: Message)

  /** The clients whose write fails during a broadcast. */
  function Failed(clients: set<Client>, writeOk: Client -> bool): set<Client>
  {
    set c | c in clients && !writeOk(c)
  }

  /** The client set after one operation of the hub loop. */
  function NextClients(clients: set<Client>, op: HubOp, writeOk: Client -> bool): (r: set<Client>)
    ensures r <= clients + (if op.Register? then {op.client} else {})
    ensures op.Register? ==> op.client in r
    ensures op.Unregister? ==> op.client !in r
  {
    match op
    case Register(c) => clients + {c}
    case Unregister(c) => if c in clients then clients - {c} else clients
    case Broadcast(_) => clients - Failed(clients, writeOk)
  }

  /** Register adds the client and touches no other; registering a member changes nothing. */
  lemma RegisterAdds(clients: set<Client>, c: Client, writeOk: Client -> bool)
    ensures var r := NextClients(clients, Register(c), writeOk);
            c in r && r - {c} == clients - {c}
            && (c in clients ==> r == clients)
  {
  }

  /** Unregister removes exactly the client, and a second unregister changes nothing. */
  lemma UnregisterIdempotent(clients: set<Client>, c: Client, writeOk: Client -> bool)
    ensures var r := NextClients(clients, Unregister(c), writeOk);
            c !in r && r == clients - {c}
            && NextClients(r, Unregister(c), writeOk) == r
  {
  }

  /** Broadcast never adds a client: it keeps exactly those whose write succeeded. */
  lemma BroadcastNeverAdds(clients: set<Client>, msg: Message, writeOk: Client -> bool)
    ensures var r := NextClients(clients, Broadcast(msg), writeOk);
            r <= clients
            && (forall c :: c in r <==> c in clients && writeOk(c))
  {
  }

  /** Connecting and then disconnecting a new client restores the set. */
  lemma RegisterThenUnregister(clients: set<Client>, c: Client, writeOk: Client -> bool)
    requires c !in clients
    ensures NextClients(NextClients(clients, Register(c), writeOk), Unregister(c), writeOk) == clients
  {
  }

  class ReloadHub {
    /** `clients map[*websocket.Conn]bool`: the live connections. */
    var clients: set<Client>
    /** Every connection the hub has closed. */
    ghost var closed: set<Client>
    /** The messages successfully written to each connection, in order. */
    ghost var inbox: map<Client, seq<Message>>

    ghost function Received(c: Client): seq<Message>
      reads this
    {
      if c in inbox then inbox[c] else []
    }

    /** NewReloadHub: no clients yet. */
    constructor ()
      ensures clients == {} && closed == {}
      ensures forall c :: Received(c) == []
    {
      clients := {};
      closed := {};
      inbox := map[];
    }

    method Register(c: Client)
      modifies this
      ensures clients == old(clients) + {c}
      ensures closed == old(closed) && inbox == old(inbox)
    {
      clients := clients + {c};
    }

    /** Removes and closes a present client; an absent one is left alone and not closed again. */
    method Unregister(c: Client)
      modifies this
      ensures clients == old(clients) - {c}
      ensures closed == if c in old(clients) then old(closed) + {c} else old(closed)
      ensures inbox == old(inbox)
    {
      if c in clients {
        clients := clients - {c};
        closed := closed + {c};  // client.Close()
      }
    }

    /**
     * Writes `msg` to every client; a client whose write fails is closed and
     * removed in the same pass. Clients whose write succeeds stay, and no
     * client is added.
     */
    method Broadcast(msg: Message, writeOk: Client -> bool)
      modifies this
      ensures clients == old(clients) - Failed(old(clients), writeOk)
      ensures closed == old(closed) + Failed(old(clients), writeOk)
      ensures forall c :: Received(c) == if c in old(clients) && writeOk(c) then old(Received(c)) + [msg] else old(Received(c))
    {
      var todo := clients;
      while todo != {}
        invariant todo <= old(clients)
        invariant clients == old(clients) - Failed(old(clients) - todo, writeOk)
        invariant closed == old(closed) + Failed(old(clients) - todo, writeOk)
        invariant forall c :: Received(c) == if c in old(clients) - todo && writeOk(c) then old(Received(c)) + [msg] else old(Received(c))
        decreases todo
      {
        var c :| c in todo;
        ghost var done := old(clients) - todo;
        assert old(clients) - (todo - {c}) == done + {c};
        if writeOk(c) {
          // client.WriteMessage(websocket.TextMessage, message) succeeded
          assert Failed(done + {c}, writeOk) == Failed(done, writeOk);
          inbox := inbox[c := Received(c) + [msg]];
        } else {
          assert Failed(done + {c}, writeOk) == Failed(done, writeOk) + {c};
          closed := closed + {c};  // client.Close()
          clients := clients - {c};
        }
        todo := todo - {c};
      }
    }

    /** One turn of the hub loop: the arm of the select that matches `op`. */
    method Handle(op: HubOp, writeOk: Client -> bool)
      modifies this
      ensures clients == NextClients(old(clients), op, writeOk)
      ensures op.Unregister? ==> closed == old(closed) + (old(clients) * {op.client})
      ensures op.Register? ==> closed == old(closed)
      ensures op.Broadcast? ==> closed == old(closed) + Failed(old(clients), writeOk)
      ensures op.Broadcast? ==> forall c :: Received(c) == if c in old(clients) && writeOk(c) then old(Received(c)) + [op.msg] else old(Received(c))
      ensures !op.Broadcast? ==> inbox == old(inbox)
    {
      match op {
        case Register(c) => Register(c);
        case Unregister(c) => Unregister(c);
        case Broadcast(msg) => Broadcast(msg, writeOk);
      }
    }
  }
}
