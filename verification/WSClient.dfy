/** The hub itself: each method is one critical section or one channel operation
    of internal/service/WSClient.go, proved to be a step of HubProtocol. */
module WSClient {
  import opened Wrappers
  import P = HubProtocol

  class Client {
    const userID: int
    ghost const id: nat
    var queue: seq<P.Message>
    var closed: bool
    var hand: seq<P.Message>
    var writer: P.Writer
    var reader: P.Reader
    ghost var accepted: seq<P.Message>
    ghost var written: seq<P.Message>

    constructor (userID: int, ghost id: nat)
      ensures this.userID == userID && this.id == id && Abs() == P.NewClient(userID)
    {
      this.userID := userID;
      this.id := id;
      queue, closed, hand, writer, reader, accepted, written := [], false, [], P.Selecting, P.Reading, [], [];
    }

    ghost function Abs(): P.Client
      reads this
    {
      P.Client(userID, queue, closed, hand, writer, reader, accepted, written)
    }
  }

  class Hub {
    var clients: map<int, Client>
    ghost var made: seq<Client>  // every client ever added

    ghost predicate Valid()
      reads this, made
    {
      && (forall i :: 0 <= i < |made| ==> made[i].id == i)
      && (forall u :: u in clients ==> clients[u].id < |made| && made[clients[u].id] == clients[u])
    }

    /** The protocol state, the sends under way left out: they are local variables. */
    ghost function Abs(): P.State
      reads this, made
    {
      P.State(seq(|made|, i requires 0 <= i < |made| reads this, made => made[i].Abs()),
              map u | u in clients :: clients[u].id, map[], false)
    }

    constructor ()
      ensures Valid() && Abs() == P.INITIAL
    {
      clients, made := map[], [];
    }

    method AddClient(userID: int) returns (client: Client)
      requires Valid()
      modifies this
      ensures Valid() && fresh(client) && clients == old(clients)[userID := client] && made == old(made) + [client]
      ensures Abs() == P.Next(old(Abs()), P.Add(userID))
      ensures client.userID == userID && client.queue == [] && !client.closed
      ensures client.writer == P.Selecting && client.reader == P.Reading
    {
      client := new Client(userID, |made|);
      clients := clients[userID := client];
      made := made + [client];
      assert Abs() == P.Next(old(Abs()), P.Add(userID));
    }

    method RemoveClient(userID: int)
      requires Valid()
      modifies this`clients, made
      ensures Valid() && made == old(made)
      ensures clients == map u | u in old(clients) && u != userID :: old(clients)[u]
      ensures Abs() == P.RemoveUser(old(Abs()), userID)
      ensures forall c :: c in made ==>
                c.Abs() == if userID in old(clients) && c == old(clients[userID]) then old(c.Abs()).(closed := true)
                           else old(c.Abs())
    {
      if userID !in clients {
        assert clients == map u | u in clients && u != userID :: clients[u];
        return;
      }
      var client := clients[userID];
      client.closed := true;
      clients := map u | u in clients && u != userID :: clients[u];
      assert Abs().clients == P.RemoveUser(old(Abs()), userID).clients;
      assert Abs().registry == P.RemoveUser(old(Abs()), userID).registry;
    }

    /** The half of SendToUser under the read lock. */
    method LookUp(userID: int) returns (client: Option<Client>)
      requires Valid()
      ensures client.Some? <==> userID in Abs().registry
      ensures client.Some? ==> client.value.id == Abs().registry[userID] && client.value in made
    {
      client := if userID in clients then Some(clients[userID]) else None;
    }

    /** The other half, after the lock is released: true if the send panics. */
    method Deliver(client: Client, message: P.Message) returns (panics: bool)
      requires Valid() && client in made
      modifies client
      ensures Valid()
      ensures panics == old(client.closed)
      ensures client.Abs() == if panics then old(client.Abs()) else P.Offered(old(client.Abs()), message)
      ensures client.queue == if old(!client.closed && |client.queue| < 256) then old(client.queue) + [message]
                              else old(client.queue)
      ensures Abs() == P.Put(old(Abs()), client.id, client.Abs())
    {
      if client.closed {
        OneClient(client);
        return true;
      }
      if |client.queue| < P.CAPACITY {
        client.queue := client.queue + [message];
        client.accepted := client.accepted + [message];
      }
      OneClient(client);
      return false;
    }

    /** With nothing in between, a send never panics: it is accepted, or dropped
        for a full buffer, or there is no such client. */
    method SendToUser(userID: int, message: P.Message)
      requires Valid() && P.Inv(Abs())
      modifies made
      ensures Valid()
      ensures userID !in clients ==> Abs() == old(Abs())
      ensures userID in clients ==>
                clients[userID].queue ==
                  if old(|clients[userID].queue|) < 256 then old(clients[userID].queue) + [message]
                                         else old(clients[userID].queue)
      ensures userID in clients ==>
                Abs() == P.Put(old(Abs()), clients[userID].id, P.Offered(old(clients[userID].Abs()), message))
    {
      var client := LookUp(userID);
      if client.None? {
        return;
      }
      assert Abs().clients[client.value.id] == client.value.Abs();
      var panics := Deliver(client.value, message);
      assert !panics;
    }

    // ------------------------------------------------ the pumps, step by step

    /** A write to one client of the hub is a Put of that client. */
    twostate lemma OneClient(client: Client)
      requires old(Valid()) && old(client in made) && clients == old(clients) && made == old(made)
      requires forall c :: c in made && c != client ==> c.Abs() == old(c.Abs())
      ensures Abs() == P.Put(old(Abs()), client.id, client.Abs())
    {
      forall i | 0 <= i < |made|
        ensures Abs().clients[i] == P.Put(old(Abs()), client.id, client.Abs()).clients[i]
      {
        assert made[i].id == i && made[client.id] == client;
      }
      assert Abs().registry == old(Abs()).registry;
    }

    /** One receive of writePump's select. */
    method Receive(client: Client)
      requires Valid() && client in made && client.writer.Selecting? && (client.queue != [] || client.closed)
      modifies client
      ensures Valid() && Abs() == P.Next(old(Abs()), P.Receive(client.id))
      ensures if old(client.queue) == [] then client.writer == P.WriterLeaving && client.hand == old(client.hand)
              else && client.writer == P.Writing
                   && client.hand == [old(client.queue)[0]] && client.queue == old(client.queue)[1..]
    {
      if client.queue == [] {
        client.writer := P.WriterLeaving;
      } else {
        client.hand, client.queue, client.writer := [client.queue[0]], client.queue[1..], P.Writing;
      }
      OneClient(client);
    }

    /** The write of a received message; false ends the loop. */
    method WriteText(client: Client, ok: bool) returns (running: bool)
      requires Valid() && client in made && client.writer.Writing?
      modifies client
      ensures Valid() && running == ok && Abs() == P.Next(old(Abs()), P.Write(client.id, ok))
      ensures client.queue == old(client.queue) && client.accepted == old(client.accepted)
      ensures if ok then client.writer == P.Selecting && client.hand == []
                         && client.written == old(client.written) + old(client.hand)
              else client.writer == P.WriterLeaving && client.written == old(client.written)
    {
      if ok {
        client.written, client.hand, client.writer := client.written + client.hand, [], P.Selecting;
      } else {
        client.writer := P.WriterLeaving;
      }
      OneClient(client);
      return ok;
    }

    method WritePing(client: Client, ok: bool) returns (running: bool)
      requires Valid() && client in made && client.writer.Selecting?
      modifies client
      ensures Valid() && running == ok && Abs() == P.Next(old(Abs()), P.Ping(client.id, ok))
      ensures client.queue == old(client.queue) && client.written == old(client.written)
      ensures client.writer == if ok then P.Selecting else P.WriterLeaving
    {
      if !ok {
        client.writer := P.WriterLeaving;
      }
      OneClient(client);
      assert ok ==> Abs().clients == old(Abs()).clients;
      return ok;
    }

    /** The deferred function of writePump: it removes whatever client the map
        holds for the user. */
    method WritePumpExit(client: Client)
      requires Valid() && client in made && client.writer.WriterLeaving?
      modifies this`clients, made
      ensures Valid() && made == old(made) && Abs() == P.Next(old(Abs()), P.WriterExit(client.id))
      ensures client.writer == P.WriterDone && client.userID !in clients
      ensures client.userID in old(clients) ==> old(clients[client.userID]).closed
    {
      client.writer := P.WriterDone;
      OneClient(client);
      RemoveClient(client.userID);
    }

    method ReadPumpExit(client: Client)
      requires Valid() && client in made && client.reader.ReaderLeaving?
      modifies this`clients, made
      ensures Valid() && made == old(made) && Abs() == P.Next(old(Abs()), P.ReaderExit(client.id))
      ensures client.reader == P.ReaderDone && client.userID !in clients
      ensures client.userID in old(clients) ==> old(clients[client.userID]).closed
    {
      client.reader := P.ReaderDone;
      OneClient(client);
      RemoveClient(client.userID);
    }
  }

  /** What one turn of writePump's select does once the channel is closed: it takes
      from the channel, or the ticker fires; ok is whether the write succeeds. */
  datatype Turn = Take(ok: bool) | Tick(ok: bool)

  function Takes(turns: seq<Turn>): nat {
    if turns == [] then 0 else Takes(turns[..|turns| - 1]) + if turns[|turns| - 1].Take? then 1 else 0
  }

  /** The rest of writePump's loop once the channel is closed and nobody else
      touches the client. However pings fall between them, it takes from the
      channel at most queue length + 1 times and then returns; it returns at the
      first failed write, or when it finds the channel at its end; and what it
      wrote is the queue in order, a failed message lost. */
  method WritePumpAfterClose(c: Client, turns: seq<Turn>) returns (iterations: nat)
    requires c.closed && c.writer.Selecting? && P.InOrder(c.Abs()) && Takes(turns) > |c.queue|
    modifies c
    ensures c.writer == P.WriterLeaving && P.InOrder(c.Abs())
    ensures 1 <= iterations <= |turns| && Takes(turns[..iterations]) <= old(|c.queue|) + 1
    ensures forall i :: 0 <= i < iterations - 1 ==> turns[i].ok
    ensures Takes(turns[..iterations]) == old(|c.queue|) + 1 || !turns[iterations - 1].ok
    ensures Takes(turns[..iterations - 1]) <= old(|c.queue|)
    ensures c.written == old(c.written) + old(c.queue)[..Takes(turns[..iterations - 1])]
    ensures c.accepted == old(c.accepted)
  {
    iterations := 0;
    var taken := 0;
    ghost var queued := c.queue;
    while true
      invariant 0 <= iterations <= |turns| && taken == Takes(turns[..iterations]) <= |queued|
      invariant c.closed && c.writer.Selecting? && c.hand == []
      invariant c.queue == queued[taken..]
      invariant c.written == old(c.written) + queued[..taken]
      invariant c.accepted == old(c.accepted) == old(c.written) + queued
      invariant forall i :: 0 <= i < iterations ==> turns[i].ok
      decreases |turns| - iterations
    {
      MoreTurns(turns, iterations, |queued|);
      var turn := turns[iterations];
      iterations := iterations + 1;
      if turn.Tick? {
        if !turn.ok {
          c.writer := P.WriterLeaving;
          NothingLost(old(c.written), queued, taken);
          return;
        }
      } else {
        if c.queue == [] {
          c.writer := P.WriterLeaving;
          return;
        }
        c.hand, c.queue := [c.queue[0]], c.queue[1..];
        OneTaken(old(c.written), queued, taken);
        if !turn.ok {
          c.writer := P.WriterLeaving;
          return;
        }
        c.written, c.hand := c.written + c.hand, [];
        taken := taken + 1;
      }
    }
  }

  lemma NothingLost(written: seq<P.Message>, queued: seq<P.Message>, taken: nat)
    requires taken <= |queued|
    ensures written + queued == (written + queued[..taken]) + [] + queued[taken..]
  {
    assert queued == queued[..taken] + queued[taken..];
  }

  lemma OneTaken(written: seq<P.Message>, queued: seq<P.Message>, taken: nat)
    requires taken < |queued|
    ensures queued[taken..][0] == queued[taken] && queued[taken..][1..] == queued[taken + 1..]
    ensures (written + queued[..taken]) + [queued[taken]] == written + queued[..taken + 1]
    ensures (written + queued[..taken]) + [queued[taken]] + queued[taken + 1..] == written + queued
  {
    assert queued == queued[..taken] + [queued[taken]] + queued[taken + 1..];
    assert queued[..taken + 1] == queued[..taken] + [queued[taken]];
  }

  lemma MoreTurns(turns: seq<Turn>, i: nat, n: nat)
    requires i <= |turns| && Takes(turns[..i]) <= n < Takes(turns)
    ensures i < |turns| && turns[..i + 1][..i] == turns[..i]
    ensures Takes(turns[..i + 1]) == Takes(turns[..i]) + if turns[i].Take? then 1 else 0
  {
    assert turns[..|turns|] == turns;
    if i < |turns| {
      assert turns[..i + 1][..i] == turns[..i];
    }
  }
}
