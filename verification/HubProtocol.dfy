/** The WebSocket hub as interleaved steps: every step is one critical section,
    one channel operation or one write of one goroutine. */
module HubProtocol {
  import opened Wrappers

  const CAPACITY: nat := 256

  type Message = string

  /** Selecting: in the select of writePump's loop. Writing: a message received,
      not yet written. Leaving: returned, the deferred RemoveClient pending. */
  datatype Writer = Selecting | Writing | WriterLeaving | WriterDone

  datatype Reader = Reading | ReaderLeaving | ReaderDone

  /** A client: the channel (queue, closed), what its write pump holds, both
      pumps, and the history of messages accepted for it and written to it. */
  datatype Client = Client(
    user: int, queue: seq<Message>, closed: bool, hand: seq<Message>,
    writer: Writer, reader: Reader, accepted: seq<Message>, written: seq<Message>)

  function NewClient(user: int): Client {
    Client(user, [], false, [], Selecting, Reading, [], [])
  }

  /** A SendToUser between its look-up and its send. */
  datatype Sending = Sending(client: nat, message: Message)

  /** Every client ever made, in order; the hub's map; the sends under way; and
      whether a send on a closed channel has brought the process down. */
  datatype State = State(clients: seq<Client>, registry: map<int, nat>, sends: map<nat, Sending>, crashed: bool)

  const INITIAL := State([], map[], map[], false)

  datatype Step =
    | Add(user: int)
    | LookUp(send: nat, to: int, message: Message)
    | Deliver(send: nat)
    | Remove(user: int)
    | Receive(client: nat)
    | Write(client: nat, ok: bool)
    | Ping(client: nat, ok: bool)
    | WriterExit(client: nat)
    | ReadFails(client: nat)
    | ReaderExit(client: nat)

  ghost predicate Enabled(s: State, step: Step) {
    && !s.crashed
    && match step
       case Add(_) => true
       case LookUp(d, _, _) => d !in s.sends
       case Deliver(d) => d in s.sends && s.sends[d].client < |s.clients|
       case Remove(_) => true
       case Receive(c) =>
         c < |s.clients| && s.clients[c].writer.Selecting? && (s.clients[c].queue != [] || s.clients[c].closed)
       case Write(c, _) => c < |s.clients| && s.clients[c].writer.Writing?
       case Ping(c, _) => c < |s.clients| && s.clients[c].writer.Selecting?
       case WriterExit(c) => c < |s.clients| && s.clients[c].writer.WriterLeaving?
       case ReadFails(c) => c < |s.clients| && s.clients[c].reader.Reading?
       case ReaderExit(c) => c < |s.clients| && s.clients[c].reader.ReaderLeaving?
  }

  function Put(s: State, c: nat, client: Client): State
    requires c < |s.clients|
  {
    s.(clients := s.clients[c := client])
  }

  /** RemoveClient: closes the channel of whichever client the map holds for the user. */
  function RemoveUser(s: State, user: int): State {
    if user !in s.registry then s
    else
      var c := s.registry[user];
      var rest := s.(registry := s.registry - {user});
      if c < |s.clients| then Put(rest, c, s.clients[c].(closed := true)) else rest
  }

  /** One received message or the end of the channel. */
  function Received(client: Client): Client {
    if client.queue == [] then client.(writer := WriterLeaving)
    else client.(queue := client.queue[1..], hand := [client.queue[0]], writer := Writing)
  }

  /** A failed write keeps the message in hand: it is lost with the connection. */
  function Wrote(client: Client, ok: bool): Client {
    if ok then client.(written := client.written + client.hand, hand := [], writer := Selecting)
    else client.(writer := WriterLeaving)
  }

  /** The select of SendToUser on an open channel: enqueue, or drop when full. */
  function Offered(client: Client, m: Message): Client {
    if |client.queue| < CAPACITY then client.(queue := client.queue + [m], accepted := client.accepted + [m])
    else client
  }

  function Next(s: State, step: Step): State
    requires Enabled(s, step)
  {
    match step
    case Add(user) => s.(clients := s.clients + [NewClient(user)], registry := s.registry[user := |s.clients|])
    case LookUp(d, to, m) => if to in s.registry then s.(sends := s.sends[d := Sending(s.registry[to], m)]) else s
    case Deliver(d) =>
      var sending := s.sends[d];
      var rest := s.(sends := s.sends - {d});
      if s.clients[sending.client].closed then rest.(crashed := true)
      else Put(rest, sending.client, Offered(s.clients[sending.client], sending.message))
    case Remove(user) => RemoveUser(s, user)
    case Receive(c) => Put(s, c, Received(s.clients[c]))
    case Write(c, ok) => Put(s, c, Wrote(s.clients[c], ok))
    case Ping(c, ok) => if ok then s else Put(s, c, s.clients[c].(writer := WriterLeaving))
    case WriterExit(c) => RemoveUser(Put(s, c, s.clients[c].(writer := WriterDone)), s.clients[c].user)
    case ReadFails(c) => Put(s, c, s.clients[c].(reader := ReaderLeaving))
    case ReaderExit(c) => RemoveUser(Put(s, c, s.clients[c].(reader := ReaderDone)), s.clients[c].user)
  }

  ghost predicate InMap(s: State, c: nat) {
    exists u :: u in s.registry && s.registry[u] == c
  }

  // ---------------------------------------------------------------- invariant

  /** First in, first out: accepted is written, then in hand, then queued. */
  ghost predicate InOrder(c: Client) {
    && |c.queue| <= CAPACITY
    && |c.hand| <= 1
    && (c.writer.Selecting? ==> c.hand == [])
    && c.accepted == c.written + c.hand + c.queue
  }

  ghost predicate Inv(s: State) {
    && (forall u :: u in s.registry ==> s.registry[u] < |s.clients|)
    && (forall u :: u in s.registry ==> s.clients[s.registry[u]].user == u && !s.clients[s.registry[u]].closed)
    && (forall u, c :: u in s.registry && s.registry[u] < c < |s.clients| ==> s.clients[c].user != u)
    && (forall d :: d in s.sends ==> s.sends[d].client < |s.clients|)
    && (forall c :: 0 <= c < |s.clients| ==> InOrder(s.clients[c]))
  }

  lemma OfferedInOrder(c: Client, m: Message)
    requires InOrder(c)
    ensures InOrder(Offered(c, m))
  {
    assert c.written + c.hand + (c.queue + [m]) == (c.written + c.hand + c.queue) + [m];
  }

  lemma ReceivedInOrder(c: Client)
    requires InOrder(c) && c.writer.Selecting?
    ensures InOrder(Received(c))
  {
    if c.queue != [] {
      assert c.queue == [c.queue[0]] + c.queue[1..];
    }
  }

  lemma PutKeepsInv(s: State, c: nat, client: Client)
    requires Inv(s) && c < |s.clients| && InOrder(client)
    requires client.user == s.clients[c].user && client.closed == s.clients[c].closed
    ensures Inv(Put(s, c, client))
  {
  }

  lemma RemoveKeepsInv(s: State, user: int)
    requires Inv(s)
    ensures Inv(RemoveUser(s, user))
  {
    if user in s.registry {
      var c := s.registry[user];
      assert forall u :: u in s.registry && u != user ==> s.registry[u] != c;
      assert InOrder(s.clients[c].(closed := true));
    }
  }

  lemma AddKeepsInv(s: State, user: int)
    requires Inv(s) && Enabled(s, Add(user))
    ensures Inv(Next(s, Add(user)))
  {
  }

  lemma LookUpKeepsInv(s: State, d: nat, to: int, m: Message)
    requires Inv(s) && Enabled(s, LookUp(d, to, m))
    ensures Inv(Next(s, LookUp(d, to, m)))
  {
  }

  lemma DeliverKeepsInv(s: State, d: nat)
    requires Inv(s) && Enabled(s, Deliver(d))
    ensures Inv(Next(s, Deliver(d)))
  {
    var sending, rest := s.sends[d], s.(sends := s.sends - {d});
    assert Inv(rest);
    OfferedInOrder(s.clients[sending.client], sending.message);
    if !s.clients[sending.client].closed {
      PutKeepsInv(rest, sending.client, Offered(s.clients[sending.client], sending.message));
    }
  }

  /** Every step keeps the invariant: each client in the map is open, carries its
      own user's key, and is the newest of its user. */
  lemma NextKeepsInv(s: State, step: Step)
    requires Inv(s) && Enabled(s, step)
    ensures Inv(Next(s, step))
  {
    match step
    case Add(user) => AddKeepsInv(s, user);
    case LookUp(d, to, m) => LookUpKeepsInv(s, d, to, m);
    case Deliver(d) => DeliverKeepsInv(s, d);
    case Remove(user) => RemoveKeepsInv(s, user);
    case Receive(c) =>
      ReceivedInOrder(s.clients[c]);
      PutKeepsInv(s, c, Received(s.clients[c]));
    case Write(c, ok) => PutKeepsInv(s, c, Wrote(s.clients[c], ok));
    case Ping(c, ok) => PutKeepsInv(s, c, s.clients[c].(writer := WriterLeaving));
    case WriterExit(c) =>
      PutKeepsInv(s, c, s.clients[c].(writer := WriterDone));
      RemoveKeepsInv(Put(s, c, s.clients[c].(writer := WriterDone)), s.clients[c].user);
    case ReadFails(c) => PutKeepsInv(s, c, s.clients[c].(reader := ReaderLeaving));
    case ReaderExit(c) =>
      PutKeepsInv(s, c, s.clients[c].(reader := ReaderDone));
      RemoveKeepsInv(Put(s, c, s.clients[c].(reader := ReaderDone)), s.clients[c].user);
  }

  // --------------------------------------------------------------------- runs

  /** states[i + 1] is what steps[i] makes of states[i]. */
  ghost predicate IsRun(states: seq<State>, steps: seq<Step>) {
    && |states| == |steps| + 1
    && states[0] == INITIAL
    && forall i :: 0 <= i < |steps| ==> Enabled(states[i], steps[i]) && states[i + 1] == Next(states[i], steps[i])
  }

  lemma {:induction false} RunKeepsInv(states: seq<State>, steps: seq<Step>, i: nat)
    requires IsRun(states, steps) && i < |states|
    ensures Inv(states[i])
  {
    if i > 0 {
      RunKeepsInv(states, steps, i - 1);
      NextKeepsInv(states[i - 1], steps[i - 1]);
    }
  }

  /** The user whose entry a step removes, if it calls RemoveClient. */
  function Removing(s: State, step: Step): Option<int> {
    match step
    case Remove(user) => Some(user)
    case WriterExit(c) => if c < |s.clients| then Some(s.clients[c].user) else None
    case ReaderExit(c) => if c < |s.clients| then Some(s.clients[c].user) else None
    case _ => None
  }

  /** The step closes client c: it calls RemoveClient for the user whose entry is c. */
  ghost predicate Closes(s: State, step: Step, c: nat) {
    Removing(s, step).Some? && Removing(s, step).value in s.registry && s.registry[Removing(s, step).value] == c
  }

  /** What RemoveClient does to one client. */
  lemma RemovalEffect(s: State, user: int, c: nat)
    requires Inv(s) && c < |s.clients|
    ensures var after := RemoveUser(s, user);
            && |after.clients| == |s.clients|
            && (after.clients[c].closed <==> s.clients[c].closed || (user in s.registry && s.registry[user] == c))
            && (user in s.registry && s.registry[user] == c ==> !s.clients[c].closed && !InMap(after, c))
            && (InMap(after, c) ==> InMap(s, c))
  {
    var after := RemoveUser(s, user);
    if InMap(after, c) {
      var u :| u in after.registry && after.registry[u] == c;
      assert u in s.registry && s.registry[u] == c && s.clients[c].user == u;
    }
  }

  lemma QuietEffect(s: State, step: Step, c: nat)
    requires Enabled(s, step) && c < |s.clients| && Removing(s, step).None? && !step.Add?
    ensures |Next(s, step).clients| == |s.clients| && Next(s, step).registry == s.registry
    ensures Next(s, step).clients[c].closed == s.clients[c].closed
  {
  }

  /** What one step can do to a client that already exists. */
  lemma StepEffect(s: State, step: Step, c: nat)
    requires Inv(s) && Enabled(s, step) && c < |s.clients|
    ensures c < |Next(s, step).clients|
    ensures Next(s, step).clients[c].closed <==> s.clients[c].closed || Closes(s, step, c)
    ensures Closes(s, step, c) ==> !s.clients[c].closed && !InMap(Next(s, step), c)
    ensures InMap(Next(s, step), c) ==> InMap(s, c)
  {
    if step.Add? {
      assert InMap(Next(s, step), c) ==> exists u :: u != step.user && u in s.registry && s.registry[u] == c;
    } else if Removing(s, step).None? {
      QuietEffect(s, step, c);
    } else if step.Remove? {
      RemovalEffect(s, step.user, c);
    } else {
      var d := step.client;
      var client := if step.WriterExit? then s.clients[d].(writer := WriterDone)
                    else s.clients[d].(reader := ReaderDone);
      PutKeepsInv(s, d, client);
      RemovalEffect(Put(s, d, client), client.user, c);
      assert InMap(Put(s, d, client), c) ==> InMap(s, c);
    }
  }

  ghost predicate ClosedBetween(states: seq<State>, steps: seq<Step>, c: nat, i: nat, j: nat)
    requires j <= |steps| && j <= |states|
  {
    exists k :: i <= k < j && Closes(states[k], steps[k], c)
  }

  lemma BetweenGrows(states: seq<State>, steps: seq<Step>, c: nat, i: nat, j: nat)
    requires i <= j < |steps| && j < |states|
    ensures ClosedBetween(states, steps, c, i, j + 1) <==>
              ClosedBetween(states, steps, c, i, j) || Closes(states[j], steps[j], c)
  {
  }

  /** From i to j a client only ever goes from open to closed, and closes exactly
      when some step in between closes it. */
  lemma {:induction false} ClosedIff(states: seq<State>, steps: seq<Step>, c: nat, i: nat, j: nat)
    requires IsRun(states, steps) && i <= j < |states| && c < |states[i].clients|
    ensures c < |states[j].clients|
    ensures states[j].clients[c].closed <==> states[i].clients[c].closed || ClosedBetween(states, steps, c, i, j)
  {
    if i < j {
      ClosedIff(states, steps, c, i, j - 1);
      RunKeepsInv(states, steps, j - 1);
      StepEffect(states[j - 1], steps[j - 1], c);
      BetweenGrows(states, steps, c, i, j - 1);
    }
  }

  /** The channel of a client is closed at most once in any run. */
  lemma ClosedOnce(states: seq<State>, steps: seq<Step>, c: nat, i: nat, j: nat)
    requires IsRun(states, steps) && i < j < |steps|
    requires c < |states[i].clients| && c < |states[j].clients|
    requires Closes(states[i], steps[i], c)
    ensures !Closes(states[j], steps[j], c)
  {
    RunKeepsInv(states, steps, i);
    RunKeepsInv(states, steps, j);
    StepEffect(states[i], steps[i], c);
    StepEffect(states[j], steps[j], c);
    ClosedIff(states, steps, c, i + 1, j);
  }

  /** A client that is not in the map, having been in it or not, never enters it again. */
  lemma {:induction false} NeverReturns(states: seq<State>, steps: seq<Step>, c: nat, i: nat, j: nat)
    requires IsRun(states, steps) && i <= j < |states|
    requires c < |states[i].clients| && !InMap(states[i], c)
    ensures c < |states[j].clients| && !InMap(states[j], c)
  {
    if i < j {
      NeverReturns(states, steps, c, i, j - 1);
      RunKeepsInv(states, steps, j - 1);
      StepEffect(states[j - 1], steps[j - 1], c);
    }
  }

  /** So a client replaced in the map while open is never closed by the hub. */
  lemma ReplacedStaysOpen(states: seq<State>, steps: seq<Step>, c: nat, i: nat, j: nat)
    requires IsRun(states, steps) && i <= j < |states|
    requires c < |states[i].clients| && !InMap(states[i], c) && !states[i].clients[c].closed
    ensures c < |states[j].clients| && !states[j].clients[c].closed
  {
    ClosedIff(states, steps, c, i, j);
    forall k | i <= k < j
      ensures !Closes(states[k], steps[k], c)
    {
      NeverReturns(states, steps, c, i, k);
    }
  }

  lemma {:induction false} SendWaits(states: seq<State>, steps: seq<Step>, d: nat, i: nat, j: nat)
    requires IsRun(states, steps) && i <= j < |states| && d in states[i].sends
    requires forall k :: i <= k < j ==> steps[k] != Deliver(d)
    ensures d in states[j].sends && states[j].sends[d] == states[i].sends[d]
  {
    if i < j {
      SendWaits(states, steps, d, i, j - 1);
    }
  }

  /** A send meets a closed channel iff a RemoveClient of that same client lies
      between the look-up and the send. */
  lemma ClosedSendIff(states: seq<State>, steps: seq<Step>, d: nat, to: int, m: Message, i: nat, j: nat)
    requires IsRun(states, steps) && i < j < |steps|
    requires steps[i] == LookUp(d, to, m) && to in states[i].registry
    requires steps[j] == Deliver(d) && forall k :: i < k < j ==> steps[k] != Deliver(d)
    ensures states[j + 1].crashed <==>
              exists k :: i < k < j && Closes(states[k], steps[k], states[i].registry[to])
  {
    var c := states[i].registry[to];
    RunKeepsInv(states, steps, i);
    assert states[i + 1].sends[d] == Sending(c, m);
    SendWaits(states, steps, d, i + 1, j);
    ClosedIff(states, steps, c, i + 1, j);
  }

  /** And it does happen: the user's connection ends between the look-up and the
      send, and the send brings the process down. */
  lemma SendPanics(m: Message) returns (states: seq<State>, steps: seq<Step>)
    ensures IsRun(states, steps) && steps == [Add(1), LookUp(0, 1, m), ReadFails(0), ReaderExit(0), Deliver(0)]
    ensures |states| == 6 && !states[4].crashed && states[5].crashed
  {
    steps := [Add(1), LookUp(0, 1, m), ReadFails(0), ReaderExit(0), Deliver(0)];
    var added := Next(INITIAL, steps[0]);
    var found := Next(added, steps[1]);
    var failed := Next(found, steps[2]);
    var left := Next(failed, steps[3]);
    states := [INITIAL, added, found, failed, left, Next(left, steps[4])];
  }

  /** A delivery that meets an open channel either appends the message or finds
      256 messages buffered and changes nothing. */
  lemma DroppedOnlyWhenFull(s: State, d: nat)
    requires Inv(s) && Enabled(s, Deliver(d)) && !s.clients[s.sends[d].client].closed
    ensures var c, after := s.sends[d].client, Next(s, Deliver(d));
            if |s.clients[c].queue| == 256 then after.clients[c] == s.clients[c]
            else after.clients[c].accepted == s.clients[c].accepted + [s.sends[d].message]
                 && after.clients[c].queue == s.clients[c].queue + [s.sends[d].message]
  {
  }

  /** The messages offered to client c in the first i steps while fewer than 256
      were buffered for it, in order. */
  ghost function OfferedWithRoom(states: seq<State>, steps: seq<Step>, c: nat, i: nat): seq<Message>
    requires IsRun(states, steps) && i <= |steps|
  {
    if i == 0 then []
    else
      var s, step := states[i - 1], steps[i - 1];
      OfferedWithRoom(states, steps, c, i - 1) +
      (if HasRoom(s, step, c) then [s.sends[step.send].message] else [])
  }

  /** The step sends to client c, which is open and has room. */
  ghost predicate HasRoom(s: State, step: Step, c: nat) {
    && step.Deliver? && step.send in s.sends && s.sends[step.send].client == c && c < |s.clients|
    && !s.clients[c].closed && |s.clients[c].queue| < 256
  }

  lemma StepAccepts(s: State, step: Step, c: nat)
    requires Inv(s) && Enabled(s, step) && c < |s.clients|
    ensures c < |Next(s, step).clients|
    ensures Next(s, step).clients[c].accepted ==
              s.clients[c].accepted + if HasRoom(s, step, c) then [s.sends[step.send].message] else []
  {
    var was, now := s.clients[c], Next(s, step).clients[c];
    match step
    case Receive(d) => assert now == if d == c then Received(was) else was;
    case Write(d, ok) => assert now == if d == c then Wrote(was, ok) else was;
    case Deliver(d) =>
      var to := s.sends[d].client;
      assert now == if d in s.sends && to == c && !was.closed then Offered(was, s.sends[d].message) else was;
    case Add(_) => assert now == was;
    case _ =>
  }

  lemma NewClientHasNothing(s: State, step: Step, c: nat)
    requires Enabled(s, step) && |s.clients| <= c < |Next(s, step).clients|
    ensures Next(s, step).clients[c].accepted == []
  {
  }

  /** Over any run a client has accepted exactly the messages sent to it while it
      was open and had fewer than 256 buffered, in the order they were sent. */
  lemma {:induction false} AcceptedIsOffered(states: seq<State>, steps: seq<Step>, c: nat, i: nat)
    requires IsRun(states, steps) && i <= |steps|
    ensures c >= |states[i].clients| ==> OfferedWithRoom(states, steps, c, i) == []
    ensures c < |states[i].clients| ==> states[i].clients[c].accepted == OfferedWithRoom(states, steps, c, i)
  {
    if i > 0 {
      var s, step := states[i - 1], steps[i - 1];
      AcceptedIsOffered(states, steps, c, i - 1);
      RunKeepsInv(states, steps, i - 1);
      if c < |s.clients| {
        StepAccepts(s, step, c);
      } else if c < |states[i].clients| {
        NewClientHasNothing(s, step, c);
      }
    }
  }

  /** In every reachable state what was written is a prefix of what was accepted,
      at most the buffer and one message behind. */
  lemma WrittenIsPrefix(states: seq<State>, steps: seq<Step>, i: nat, c: nat)
    requires IsRun(states, steps) && i < |states| && c < |states[i].clients|
    ensures var client := states[i].clients[c];
            client.written <= client.accepted && |client.accepted| - |client.written| <= 257
  {
    RunKeepsInv(states, steps, i);
    assert InOrder(states[i].clients[c]);
  }

  // ------------------------------------------------------------ after a failed write

  predicate IsFailedWrite(step: Step, c: nat) {
    step == Write(c, false) || step == Ping(c, false)
  }

  /** A failed write ends the loop: what was written and queued stays as it is, and
      the deferred RemoveClient is next. */
  lemma FailedWriteLeaves(s: State, step: Step, c: nat)
    requires Enabled(s, step) && IsFailedWrite(step, c)
    ensures c < |Next(s, step).clients|
    ensures var was, now := s.clients[c], Next(s, step).clients[c];
            && now.writer == WriterLeaving && now.written == was.written && now.queue == was.queue
            && now.hand == was.hand && now.closed == was.closed
    ensures Enabled(Next(s, step), WriterExit(c))
  {
  }

  predicate HasLeft(c: Client) {
    c.writer == WriterLeaving || c.writer == WriterDone
  }

  lemma LeftStaysLeft(s: State, step: Step, c: nat)
    requires Enabled(s, step) && c < |s.clients| && HasLeft(s.clients[c])
    ensures step != Receive(c) && !(step.Write? && step.client == c) && !(step.Ping? && step.client == c)
    ensures c < |Next(s, step).clients|
    ensures HasLeft(Next(s, step).clients[c]) && Next(s, step).clients[c].written == s.clients[c].written
  {
    var was, now := s.clients[c], Next(s, step).clients[c];
    match step
    case Add(_) => assert now == was;
    case Deliver(_) => assert now.writer == was.writer && now.written == was.written;
    case _ =>
  }

  /** Once a write or ping of a client has failed, its pump never receives, writes or
      pings again, and nothing more is ever written to it. */
  lemma {:induction false} FailedWriteEndsPump(states: seq<State>, steps: seq<Step>, c: nat, i: nat, j: nat)
    requires IsRun(states, steps) && i < j < |states| && IsFailedWrite(steps[i], c) && c < |states[i].clients|
    ensures c < |states[j].clients| && HasLeft(states[j].clients[c])
    ensures states[j].clients[c].written == states[i].clients[c].written
    ensures j < |steps| ==> steps[j] != Receive(c)
    ensures j < |steps| ==> !((steps[j].Write? || steps[j].Ping?) && steps[j].client == c)
  {
    if i + 1 == j {
      FailedWriteLeaves(states[i], steps[i], c);
    } else {
      FailedWriteEndsPump(states, steps, c, i, j - 1);
      LeftStaysLeft(states[j - 1], steps[j - 1], c);
    }
    if j < |steps| {
      LeftStaysLeft(states[j], steps[j], c);
    }
  }

  // ------------------------------------------------------- after the channel closes

  /** How many more times the write pump can receive. */
  ghost function Fuel(c: Client): nat {
    if c.writer.WriterLeaving? || c.writer.WriterDone? then 0 else |c.queue| + 1
  }

  ghost function Receives(steps: seq<Step>, c: nat, i: nat, j: nat): nat
    requires i <= j <= |steps|
  {
    if i == j then 0 else Receives(steps, c, i, j - 1) + (if steps[j - 1] == Receive(c) then 1 else 0)
  }

  lemma FuelBurns(s: State, step: Step, c: nat)
    requires Inv(s) && Enabled(s, step) && c < |s.clients| && s.clients[c].closed
    ensures c < |Next(s, step).clients| && Next(s, step).clients[c].closed
    ensures Fuel(Next(s, step).clients[c]) + (if step == Receive(c) then 1 else 0) <= Fuel(s.clients[c])
  {
    var was, now := s.clients[c], Next(s, step).clients[c];
    match step
    case Receive(d) => assert now == if d == c then Received(was) else was;
    case Write(d, ok) => assert now == if d == c then Wrote(was, ok) else was;
    case Deliver(_) => assert now == was;
    case Add(_) => assert now == was;
    case _ =>
  }

  /** Once closed, the write pump receives at most queue length + 1 times more;
      when it has, it has left its loop. */
  lemma {:induction false} PumpDrains(states: seq<State>, steps: seq<Step>, c: nat, i: nat, j: nat)
    requires IsRun(states, steps) && i <= j < |states|
    requires c < |states[i].clients| && states[i].clients[c].closed
    ensures c < |states[j].clients| && states[j].clients[c].closed
    ensures Receives(steps, c, i, j) + Fuel(states[j].clients[c]) <= Fuel(states[i].clients[c])
    ensures Fuel(states[i].clients[c]) <= |states[i].clients[c].queue| + 1
    ensures Receives(steps, c, i, j) == |states[i].clients[c].queue| + 1 ==>
              states[j].clients[c].writer.WriterLeaving? || states[j].clients[c].writer.WriterDone?
  {
    if i < j {
      PumpDrains(states, steps, c, i, j - 1);
      RunKeepsInv(states, steps, j - 1);
      FuelBurns(states[j - 1], steps[j - 1], c);
    }
  }

  // ------------------------------------------------------- whose client a pump removes

  ghost predicate Finished(c: Client) {
    c.writer.WriterDone? && c.reader.ReaderDone?
  }

  /** The pump that step ends: its client. */
  function Ending(step: Step): Option<nat> {
    match step
    case WriterExit(c) => Some(c)
    case ReaderExit(c) => Some(c)
    case _ => None
  }

  /** A pump's RemoveClient hits another client iff its user was added again later
      and that later client is still in the map. */
  lemma ForeignRemovalIff(s: State, step: Step)
    requires Inv(s) && Enabled(s, step) && Ending(step).Some?
    ensures var c := Ending(step).value;
            (exists other :: other != c && Closes(s, step, other)) <==>
            (exists other :: c < other < |s.clients| && s.clients[other].user == s.clients[c].user && InMap(s, other))
  {
    var c := Ending(step).value;
    var user := s.clients[c].user;
    if user in s.registry {
      assert Closes(s, step, s.registry[user]) && InMap(s, s.registry[user]) && c <= s.registry[user];
    }
    forall other | c < other < |s.clients| && s.clients[other].user == user && InMap(s, other)
      ensures Closes(s, step, other)
    {
      var u :| u in s.registry && s.registry[u] == other;
      assert u == user;
    }
  }

  /** The run adds a user again only when both pumps of all the user's earlier
      clients have ended. */
  ghost predicate Orderly(states: seq<State>, steps: seq<Step>) {
    IsRun(states, steps) &&
    forall i, c :: 0 <= i < |steps| && steps[i].Add? && 0 <= c < |states[i].clients|
                   && states[i].clients[c].user == steps[i].user ==>
      Finished(states[i].clients[c])
  }

  /** Only the newest client of a user can have a pump running, and a client in
      the map has both. */
  ghost predicate OneLive(s: State) {
    && (forall c, later :: 0 <= c < later < |s.clients| && s.clients[c].user == s.clients[later].user ==>
          Finished(s.clients[c]))
    && (forall u :: u in s.registry && s.registry[u] < |s.clients| ==>
          !s.clients[s.registry[u]].writer.WriterDone? && !s.clients[s.registry[u]].reader.ReaderDone?)
  }

  lemma {:induction false} OrderlyKeepsOneLive(states: seq<State>, steps: seq<Step>, i: nat)
    requires Orderly(states, steps) && i < |states|
    ensures OneLive(states[i])
  {
    if i > 0 {
      OrderlyKeepsOneLive(states, steps, i - 1);
      RunKeepsInv(states, steps, i - 1);
      OneLiveStep(states[i - 1], steps[i - 1]);
    }
  }

  /** The user's newest client, if the map has one. */
  lemma LiveIsOwn(s: State, c: nat)
    requires Inv(s) && OneLive(s) && c < |s.clients| && !Finished(s.clients[c])
    requires s.clients[c].user in s.registry
    ensures s.registry[s.clients[c].user] == c
  {
  }

  lemma ExitKeepsOneLive(s: State, c: nat, client: Client)
    requires Inv(s) && OneLive(s) && c < |s.clients| && !Finished(s.clients[c])
    requires client.user == s.clients[c].user
    requires forall later :: c < later < |s.clients| ==> s.clients[later].user != client.user
    ensures OneLive(RemoveUser(Put(s, c, client), client.user))
  {
    if client.user in s.registry {
      LiveIsOwn(s, c);
    }
    var after := RemoveUser(Put(s, c, client), client.user);
    forall u | u in after.registry && after.registry[u] < |after.clients|
      ensures !after.clients[after.registry[u]].writer.WriterDone?
                && !after.clients[after.registry[u]].reader.ReaderDone?
    {
      assert u != client.user && s.registry[u] != c;
      assert after.clients[s.registry[u]] == s.clients[s.registry[u]];
    }
    forall b, later | 0 <= b < later < |after.clients| && after.clients[b].user == after.clients[later].user
      ensures Finished(after.clients[b])
    {
      assert s.clients[b].user == s.clients[later].user;
      assert b != c;
    }
  }

  lemma PutKeepsOneLive(s: State, c: nat, client: Client)
    requires Inv(s) && OneLive(s) && c < |s.clients| && client.user == s.clients[c].user
    requires client.writer.WriterDone? == s.clients[c].writer.WriterDone?
               && client.reader.ReaderDone? == s.clients[c].reader.ReaderDone?
    ensures OneLive(Put(s, c, client))
  {
  }

  lemma RemoveKeepsOneLive(s: State, user: int)
    requires Inv(s) && OneLive(s)
    ensures OneLive(RemoveUser(s, user))
  {
    var after := RemoveUser(s, user);
    assert forall c :: 0 <= c < |s.clients| ==> after.clients[c] == s.clients[c].(closed := after.clients[c].closed);
    forall b, later | 0 <= b < later < |after.clients| && after.clients[b].user == after.clients[later].user
      ensures Finished(after.clients[b])
    {
      assert s.clients[b].user == s.clients[later].user;
    }
  }

  lemma OneLiveStep(s: State, step: Step)
    requires Inv(s) && OneLive(s) && Enabled(s, step)
    requires step.Add? ==> forall c :: 0 <= c < |s.clients| && s.clients[c].user == step.user ==> Finished(s.clients[c])
    ensures OneLive(Next(s, step))
  {
    match step
    case Add(user) =>
    case LookUp(d, to, m) =>
    case Deliver(d) =>
      var sending, rest := s.sends[d], s.(sends := s.sends - {d});
      if !s.clients[sending.client].closed {
        PutKeepsOneLive(rest, sending.client, Offered(s.clients[sending.client], sending.message));
      }
    case Remove(user) => RemoveKeepsOneLive(s, user);
    case Receive(c) => PutKeepsOneLive(s, c, Received(s.clients[c]));
    case Write(c, ok) => PutKeepsOneLive(s, c, Wrote(s.clients[c], ok));
    case Ping(c, ok) => PutKeepsOneLive(s, c, s.clients[c].(writer := WriterLeaving));
    case WriterExit(c) => ExitKeepsOneLive(s, c, s.clients[c].(writer := WriterDone));
    case ReadFails(c) => PutKeepsOneLive(s, c, s.clients[c].(reader := ReaderLeaving));
    case ReaderExit(c) => ExitKeepsOneLive(s, c, s.clients[c].(reader := ReaderDone));
  }

  /** In an orderly run a pump's RemoveClient closes its own client or nothing,
      and a client with both pumps ended is not in the map. */
  lemma OrderlyRemovals(states: seq<State>, steps: seq<Step>, i: nat, c: nat, other: nat)
    requires Orderly(states, steps) && i < |steps| && Ending(steps[i]) == Some(c)
    requires other < |states[i].clients| && Closes(states[i], steps[i], other)
    ensures other == c
  {
    RunKeepsInv(states, steps, i);
    OrderlyKeepsOneLive(states, steps, i);
  }

  lemma OrderlyFinishedGone(states: seq<State>, steps: seq<Step>, i: nat, c: nat)
    requires Orderly(states, steps) && i < |states| && c < |states[i].clients| && Finished(states[i].clients[c])
    ensures !InMap(states[i], c)
  {
    OrderlyKeepsOneLive(states, steps, i);
    RunKeepsInv(states, steps, i);
  }

  /** Without that condition it fails: the user reconnects, the old connection's
      read pump ends, and it is the new client that is closed. */
  lemma OldPumpRemovesNewClient() returns (states: seq<State>, steps: seq<Step>)
    ensures IsRun(states, steps) && |states| == 5 && steps == [Add(1), Add(1), ReadFails(0), ReaderExit(0)]
    ensures Closes(states[3], steps[3], 1) && !Closes(states[3], steps[3], 0)
    ensures |states[4].clients| == 2 && states[4].clients[1].closed
    ensures states[4].clients[1].reader.Reading? && !states[4].clients[0].closed
  {
    steps := [Add(1), Add(1), ReadFails(0), ReaderExit(0)];
    var one := Next(INITIAL, steps[0]);
    var two := Next(one, steps[1]);
    var three := Next(two, steps[2]);
    states := [INITIAL, one, two, three, Next(three, steps[3])];
  }
}
