/** Overlapping get-or-create transactions: each looks for the pair's chat and, if it
    found none, inserts one. No constraint of the database keeps two of them apart. */
module ChatRaces {
  import opened Wrappers
  import opened Collections

  /** Two users in ascending order. */
  type Pair = (int, int)

  /** A transaction whose SELECT found no chat among the first since ones. */
  datatype Flight = Flight(pair: Pair, since: nat)

  /** The chats committed, in order, each by its pair. */
  datatype State = State(chats: seq<Pair>, flights: map<nat, Flight>)

  const NONE := State([], map[])

  datatype Event = Select(id: nat, pair: Pair) | Insert(id: nat) | Rollback(id: nat)

  function Next(s: State, ev: Event): State {
    match ev
    case Select(id, pair) =>
      if id in s.flights || pair in s.chats then s
      else s.(flights := s.flights[id := Flight(pair, |s.chats|)])
    case Insert(id) =>
      if id !in s.flights then s
      else State(s.chats + [s.flights[id].pair], s.flights - {id})
    case Rollback(id) => s.(flights := s.flights - {id})
  }

  ghost function Run(events: seq<Event>): State {
    if events == [] then NONE else Next(Run(events[..|events| - 1]), events[|events| - 1])
  }

  /** At most one chat per pair. */
  ghost predicate OnePerPair(s: State) {
    NoDup(s.chats)
  }

  /** No other transaction inserted the pair's chat between this one's SELECT and
      its INSERT. */
  ghost predicate Alone(s: State, ev: Event) {
    ev.Insert? && ev.id in s.flights ==>
      var f := s.flights[ev.id];
      forall j :: f.since <= j < |s.chats| ==> s.chats[j] != f.pair
  }

  ghost predicate Inv(s: State) {
    forall id :: id in s.flights ==>
      s.flights[id].since <= |s.chats| && forall j :: 0 <= j < s.flights[id].since ==> s.chats[j] != s.flights[id].pair
  }

  lemma {:induction false} RunKeepsInv(events: seq<Event>)
    ensures Inv(Run(events))
  {
    if events != [] {
      RunKeepsInv(events[..|events| - 1]);
    }
  }

  lemma StepAloneIff(s: State, ev: Event)
    requires Inv(s) && OnePerPair(s)
    ensures OnePerPair(Next(s, ev)) <==> Alone(s, ev)
  {
    if ev.Insert? && ev.id in s.flights {
      var f, n := s.flights[ev.id], |s.chats|;
      assert Next(s, ev).chats[n] == f.pair;
      assert forall j :: 0 <= j < n ==> Next(s, ev).chats[j] == s.chats[j];
    }
  }

  ghost predicate AllAlone(events: seq<Event>) {
    events != [] ==> AllAlone(events[..|events| - 1]) && Alone(Run(events[..|events| - 1]), events[|events| - 1])
  }

  /** Exactly when every pair keeps to one chat: iff no transaction inserts while
      another one's insert of the same pair lies between its own SELECT and INSERT. */
  lemma {:induction false} OnePerPairIff(events: seq<Event>)
    ensures OnePerPair(Run(events)) <==> AllAlone(events)
  {
    if events != [] {
      var before, ev := events[..|events| - 1], events[|events| - 1];
      OnePerPairIff(before);
      RunKeepsInv(before);
      if OnePerPair(Run(before)) {
        StepAloneIff(Run(before), ev);
      } else {
        ChatsStay(Run(before), ev);
      }
    }
  }

  lemma ChatsStay(s: State, ev: Event)
    requires !OnePerPair(s)
    ensures !OnePerPair(Next(s, ev))
  {
    var i, j :| 0 <= i < j < |s.chats| && s.chats[i] == s.chats[j];
    assert Next(s, ev).chats[i] == Next(s, ev).chats[j];
  }

  /** Both users open the chat at once, and get one each. */
  lemma TwoChats(pair: Pair)
    ensures var events := [Select(0, pair), Select(1, pair), Insert(0), Insert(1)];
            Run(events).chats == [pair, pair] && !OnePerPair(Run(events))
  {
    var events := [Select(0, pair), Select(1, pair), Insert(0), Insert(1)];
    assert events[..3][..2] == events[..2] && events[..2][..1] == events[..1] && events[..1][..0] == [];
    var f := Flight(pair, 0);
    assert Run(events[..1]) == State([], map[0 := f]);
    assert Run(events[..2]) == State([], map[0 := f, 1 := f]);
    assert Run(events[..3]) == State([pair], map[1 := f]);
    assert Run(events).chats == [pair, pair];
    assert Run(events).chats[0] == Run(events).chats[1];
  }
}
