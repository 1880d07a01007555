/** Whole runs of friendship calls: consent when calls are atomic, and exactly
    when it survives the interleaving of their SQL statements. */
module FriendRuns {
  import opened Wrappers
  import opened Collections
  import opened FriendStore
  import opened FriendService

  /** A successful write, in the order the database made them. */
  datatype Write = Write(call: Call, now: int)

  /** The writes on one pair. */
  ghost function Trace(log: seq<Write>, k: Pair): seq<Call> {
    if log == [] then []
    else
      var last := log[|log| - 1].call;
      Trace(log[..|log| - 1], k) + (if On(last) == k then [last] else [])
  }

  lemma TraceGrows(log: seq<Write>, w: Write, k: Pair)
    ensures Trace(log + [w], k) == if On(w.call) == k then Trace(log, k) + [w.call] else Trace(log, k)
  {
    assert (log + [w])[..|log|] == log;
  }

  function At(t: Table, k: Pair): Option<Row> {
    if k in t then Some(t[k]) else None
  }

  /** The row of a pair says what its last write was. */
  ghost predicate Reflects(row: Option<Row>, h: seq<Call>) {
    if h == [] then row.None?
    else match h[|h| - 1]
         case Send(a, _) => row.Some? && row.value.status.Pending? && row.value.action == a
         case Accept(u, _) => row.Some? && row.value.status.Accepted? && row.value.action == u
         case Reject(u, _) => row.Some? && row.value.status.Rejected? && row.value.action == u
         case Remove(_, _) => row.None?
  }

  ghost predicate Mirrors(t: Table, log: seq<Write>) {
    WellFormed(t) && forall k :: Reflects(At(t, k), Trace(log, k))
  }

  /** Every answer follows directly on the request it answers: the write before
      it on the pair is a Send from the other user to the one who answers. */
  ghost predicate Consensual(h: seq<Call>) {
    forall i :: 0 <= i < |h| && (h[i].Accept? || h[i].Reject?) ==> i > 0 && h[i - 1] == Send(h[i].other, h[i].actor)
  }

  lemma WriteMirrors(t: Table, log: seq<Write>, w: Write)
    requires Mirrors(t, log) && Exec(t, WriteOf(w.call, w.now)).Ok?
    ensures Mirrors(Exec(t, WriteOf(w.call, w.now)).value, log + [w])
  {
    var next := Exec(t, WriteOf(w.call, w.now)).value;
    ExecKeepsWellFormed(t, WriteOf(w.call, w.now));
    forall k: Pair
      ensures Reflects(At(next, k), Trace(log + [w], k))
    {
      TraceGrows(log, w, k);
      assert Reflects(At(t, k), Trace(log, k));
      if k != On(w.call) {
        assert At(next, k) == At(t, k);
      }
    }
  }

  /** Whoever answers, the answer is consensual iff the table still shows the
      request when the answer is written. */
  lemma AnswerIff(t: Table, log: seq<Write>, c: Call)
    requires Mirrors(t, log) && c.actor != c.other && (c.Accept? || c.Reject?)
    ensures var h := Trace(log, On(c));
            Permits(Get(t, c.actor, c.other), c) <==> h != [] && h[|h| - 1] == Send(c.other, c.actor)
  {
    var k := On(c);
    assert Reflects(At(t, k), Trace(log, k));
    TraceOnPair(log, k);
  }

  lemma {:induction false} TraceOnPair(log: seq<Write>, k: Pair)
    ensures forall i :: 0 <= i < |Trace(log, k)| ==> On(Trace(log, k)[i]) == k
  {
    if log != [] {
      TraceOnPair(log[..|log| - 1], k);
    }
  }

  lemma ConsensualAppend(h: seq<Call>, c: Call)
    ensures Consensual(h + [c]) <==>
              Consensual(h) && (c.Accept? || c.Reject? ==> h != [] && h[|h| - 1] == Send(c.other, c.actor))
  {
    var g := h + [c];
    assert g[|h|] == c && forall i :: 0 <= i < |h| ==> g[i] == h[i];
    if Consensual(g) {
      forall i | 0 <= i < |h| && (h[i].Accept? || h[i].Reject?)
        ensures i > 0 && h[i - 1] == Send(h[i].other, h[i].actor)
      {
        assert g[i] == h[i] && g[i - 1] == h[i - 1];
      }
    }
  }

  /** The guard of an answer still holds on the table it is written to. */
  ghost predicate StillAsked(t: Table, c: Call) {
    c.Accept? || c.Reject? ==> Permits(Get(t, c.actor, c.other), c)
  }

  lemma ConsensualGrows(log: seq<Write>, t: Table, w: Write, k: Pair)
    requires Mirrors(t, log) && (w.call.Accept? || w.call.Reject? ==> w.call.actor != w.call.other)
    ensures Consensual(Trace(log + [w], k)) <==>
              Consensual(Trace(log, k)) && (On(w.call) == k ==> StillAsked(t, w.call))
  {
    TraceGrows(log, w, k);
    if On(w.call) == k {
      ConsensualAppend(Trace(log, k), w.call);
      if w.call.Accept? || w.call.Reject? {
        AnswerIff(t, log, w.call);
      }
    }
  }

  ghost predicate AllConsensual(log: seq<Write>) {
    forall k: Pair :: Consensual(Trace(log, k))
  }

  lemma AllConsensualGrows(log: seq<Write>, t: Table, w: Write)
    requires Mirrors(t, log) && (w.call.Accept? || w.call.Reject? ==> w.call.actor != w.call.other)
    ensures AllConsensual(log + [w]) <==> AllConsensual(log) && StillAsked(t, w.call)
  {
    forall k: Pair
      ensures Consensual(Trace(log + [w], k)) <==>
                Consensual(Trace(log, k)) && (On(w.call) == k ==> StillAsked(t, w.call))
    {
      ConsensualGrows(log, t, w, k);
    }
    if AllConsensual(log + [w]) {
      assert Consensual(Trace(log + [w], On(w.call)));
    }
  }

  // ---------------------------------------------------------- atomic calls

  datatype History = History(table: Table, log: seq<Write>)

  /** Calls one after another, each reading and writing in one step. */
  ghost function Atomic(calls: seq<(Call, Env)>): History {
    if calls == [] then History(map[], [])
    else
      var s := Atomic(calls[..|calls| - 1]);
      var (c, e) := calls[|calls| - 1];
      var (next, err) := Step(s.table, c, e);
      History(next, if err.None? then s.log + [Write(c, e.now)] else s.log)
  }

  lemma {:induction false} AtomicMirrors(calls: seq<(Call, Env)>)
    ensures Mirrors(Atomic(calls).table, Atomic(calls).log)
    ensures AllConsensual(Atomic(calls).log)
  {
    if calls != [] {
      var s := Atomic(calls[..|calls| - 1]);
      var (c, e) := calls[|calls| - 1];
      AtomicMirrors(calls[..|calls| - 1]);
      SucceedsIff(s.table, c, e);
      if Step(s.table, c, e).1.None? {
        WriteMirrors(s.table, s.log, Write(c, e.now));
        AllConsensualGrows(s.log, s.table, Write(c, e.now));
      }
    }
  }

  predicate AreFriends(t: Table, k: Pair) {
    At(t, k).Some? && At(t, k).value.status.Accepted?
  }

  /** The last two writes on a pair: a request by one and its acceptance by the
      other. */
  ghost predicate ByConsent(h: seq<Call>) {
    |h| >= 2 && h[|h| - 1].Accept? && h[|h| - 2] == Send(h[|h| - 1].other, h[|h| - 1].actor)
  }

  /** Consent: after any run of atomic calls two users are friends iff the last
      two writes on their pair are a request by one and its acceptance by the other. */
  lemma Consent(calls: seq<(Call, Env)>, k: Pair)
    ensures AreFriends(Atomic(calls).table, k) <==> ByConsent(Trace(Atomic(calls).log, k))
  {
    AtomicMirrors(calls);
    assert Reflects(At(Atomic(calls).table, k), Trace(Atomic(calls).log, k));
    assert Consensual(Trace(Atomic(calls).log, k));
  }

  /** The relations a log of writes tells of. */
  ghost function Story(log: seq<Write>): Social {
    if log == [] then Social({}, {}, {}, {})
    else Apply(Story(log[..|log| - 1]), log[|log| - 1].call)
  }

  /** After any run the table means exactly what its log tells. */
  lemma {:induction false} AtomicRefines(calls: seq<(Call, Env)>)
    ensures WellFormed(Atomic(calls).table)
    ensures Means(Atomic(calls).table, Story(Atomic(calls).log))
  {
    if calls == [] {
      EmptyMeansNothing();
    } else {
      var s := Atomic(calls[..|calls| - 1]);
      var (c, e) := calls[|calls| - 1];
      AtomicRefines(calls[..|calls| - 1]);
      StepKeepsWellFormed(s.table, c, e);
      SucceedsIff(s.table, c, e);
      if Step(s.table, c, e).1.None? {
        WriteRefines(s.table, Story(s.log), c, e.now);
        assert (s.log + [Write(c, e.now)])[..|s.log|] == s.log;
      }
    }
  }

  // ------------------------------------------------ interleaved statements

  /** A call whose read let it go on; since is the number of writes it had seen. */
  datatype Flight = Flight(call: Call, since: nat)

  datatype System = System(table: Table, flights: map<nat, Flight>, log: seq<Write>)

  /** Read: the SELECTs of a call (RemoveFriend has none). Commit: its one write.
      Abort: the call dies in between. */
  datatype Event = Read(id: nat, call: Call) | Commit(id: nat, now: int) | Abort(id: nat)

  ghost function Next(s: System, ev: Event): System {
    match ev
    case Read(id, c) =>
      if id !in s.flights && Permits(Get(s.table, c.actor, c.other), c)
      then s.(flights := s.flights[id := Flight(c, |s.log|)])
      else s
    case Commit(id, now) =>
      if id !in s.flights then s
      else
        var c := s.flights[id].call;
        var rest := s.(flights := s.flights - {id});
        (match Exec(s.table, WriteOf(c, now))
         case Ok(next) => rest.(table := next, log := s.log + [Write(c, now)])
         case Err(_) => rest)
    case Abort(id) => s.(flights := s.flights - {id})
  }

  /** Any number of calls, their statements interleaved in any way. */
  ghost function Run(events: seq<Event>): System {
    if events == [] then System(map[], map[], [])
    else Next(Run(events[..|events| - 1]), events[|events| - 1])
  }

  /** No write to the pair since the call's read. */
  ghost predicate Undisturbed(s: System, f: Flight) {
    forall j :: f.since <= j < |s.log| ==> On(s.log[j].call) != On(f.call)
  }

  ghost predicate Sound(s: System) {
    && Mirrors(s.table, s.log)
    && forall id :: id in s.flights ==>
        var f := s.flights[id];
        && f.since <= |s.log|
        && (!f.call.Remove? ==> f.call.actor != f.call.other)
        && (Undisturbed(s, f) ==> Permits(Get(s.table, f.call.actor, f.call.other), f.call))
  }

  lemma CommitIsSound(s: System, id: nat, now: int)
    requires Sound(s)
    ensures Sound(Next(s, Commit(id, now)))
  {
    if id in s.flights {
      var c := s.flights[id].call;
      if Exec(s.table, WriteOf(c, now)).Ok? {
        var next := Next(s, Commit(id, now));
        WriteMirrors(s.table, s.log, Write(c, now));
        forall other | other in next.flights && Undisturbed(next, next.flights[other])
          ensures Permits(Get(next.table, next.flights[other].call.actor, next.flights[other].call.other),
                          next.flights[other].call)
        {
          var f := next.flights[other];
          assert next.log[|s.log|] == Write(c, now);
          assert On(f.call) != On(c);
          assert forall j :: 0 <= j < |s.log| ==> next.log[j] == s.log[j];
          assert Undisturbed(s, f);
          assert At(next.table, On(f.call)) == At(s.table, On(f.call));
        }
      }
    }
  }

  /** Under every interleaving the table is well formed and each row says what
      the last write on its pair was. */
  lemma {:induction false} RunIsSound(events: seq<Event>)
    ensures Sound(Run(events))
  {
    if events != [] {
      var s, ev := Run(events[..|events| - 1]), events[|events| - 1];
      RunIsSound(events[..|events| - 1]);
      match ev
      case Read(id, c) =>
        forall x | x in Next(s, ev).flights && x in s.flights
          ensures Undisturbed(Next(s, ev), s.flights[x]) == Undisturbed(s, s.flights[x])
        {
        }
      case Commit(id, now) => CommitIsSound(s, id, now);
      case Abort(id) =>
        forall x | x in Next(s, ev).flights
          ensures Undisturbed(Next(s, ev), s.flights[x]) == Undisturbed(s, s.flights[x])
        {
        }
    }
  }

  /** Hence, under every interleaving, what one user sent the other was asked, and
      the counters of all users balance. */
  lemma InterleavedDuality(events: seq<Event>, users: seq<int>, a: int, b: int)
    requires Covers(users, Run(events).table)
    ensures var t := Run(events).table;
            && (b in SentBy(t, a) <==> a in RequestsTo(t, b))
            && (b in FriendsOf(t, a) <==> a in FriendsOf(t, b))
            && Sum(users, u => Count(t, u).sent) == Sum(users, u => Count(t, u).pending)
            && Sum(users, u => Count(t, u).accepted) == 2 * |KeysWith(t, IsAccepted())|
  {
    RunIsSound(events);
    Duality(Run(events).table, a, b);
    DoubleCounting(Run(events).table, users);
  }

  /** A commit of an answer finds the request still in the table. */
  ghost predicate GuardHolds(s: System, ev: Event) {
    ev.Commit? && ev.id in s.flights && Exec(s.table, WriteOf(s.flights[ev.id].call, ev.now)).Ok? ==>
      StillAsked(s.table, s.flights[ev.id].call)
  }

  ghost predicate GuardsHeld(events: seq<Event>) {
    events != [] ==> GuardsHeld(events[..|events| - 1]) && GuardHolds(Run(events[..|events| - 1]), events[|events| - 1])
  }

  /** Exactly when every answer, acceptance or refusal, directly follows the request
      it answers: iff each one that was written still found its request. */
  lemma {:induction false} InterleavedAnswersIff(events: seq<Event>)
    ensures AllConsensual(Run(events).log) <==> GuardsHeld(events)
  {
    if events != [] {
      var before, ev := events[..|events| - 1], events[|events| - 1];
      var s := Run(before);
      InterleavedAnswersIff(before);
      RunIsSound(before);
      assert GuardsHeld(events) <==> GuardsHeld(before) && GuardHolds(s, ev);
      if ev.Commit? && ev.id in s.flights && Exec(s.table, WriteOf(s.flights[ev.id].call, ev.now)).Ok? {
        var w := Write(s.flights[ev.id].call, ev.now);
        assert Run(events).log == s.log + [w];
        AllConsensualGrows(s.log, s.table, w);
      } else {
        assert Run(events).log == s.log;
      }
    }
  }

  ghost predicate PairByConsent(s: System, k: Pair) {
    AreFriends(s.table, k) <==> ByConsent(Trace(s.log, k))
  }

  ghost predicate FriendsByConsent(s: System) {
    forall k: Pair :: PairByConsent(s, k)
  }

  /** A commit of an acceptance finds the request still in the table. */
  ghost predicate AcceptanceHolds(s: System, ev: Event) {
    ev.Commit? && ev.id in s.flights && s.flights[ev.id].call.Accept? ==> GuardHolds(s, ev)
  }

  ghost predicate AcceptancesHeld(events: seq<Event>) {
    events != [] ==>
      AcceptancesHeld(events[..|events| - 1]) && AcceptanceHolds(Run(events[..|events| - 1]), events[|events| - 1])
  }

  /** What one write does to the consent of one pair: it is kept iff the write is on
      another pair, or no acceptance, or one that still finds its request. */
  lemma PairKeepsConsentIff(s: System, id: nat, now: int, k: Pair)
    requires Sound(s) && PairByConsent(s, k) && id in s.flights
    requires Exec(s.table, WriteOf(s.flights[id].call, now)).Ok?
    ensures PairByConsent(Next(s, Commit(id, now)), k) <==>
            (On(s.flights[id].call) == k ==> AcceptanceHolds(s, Commit(id, now)))
  {
    var c, next := s.flights[id].call, Next(s, Commit(id, now));
    var w, h := Write(c, now), Trace(s.log, k);
    TraceGrows(s.log, w, k);
    if On(c) == k {
      WriteMirrors(s.table, s.log, w);
      assert Reflects(At(next.table, k), h + [c]);
      if c.Accept? {
        AnswerIff(s.table, s.log, c);
        assert ByConsent(h + [c]) <==> h != [] && h[|h| - 1] == Send(c.other, c.actor);
      }
    } else {
      assert At(next.table, k) == At(s.table, k);
    }
  }

  /** Whether one write keeps friendship by consent: iff, being an acceptance, it
      still finds its request. */
  lemma WriteKeepsConsentIff(s: System, id: nat, now: int)
    requires Sound(s) && FriendsByConsent(s) && id in s.flights
    requires Exec(s.table, WriteOf(s.flights[id].call, now)).Ok?
    ensures FriendsByConsent(Next(s, Commit(id, now))) <==> AcceptanceHolds(s, Commit(id, now))
  {
    forall k: Pair
      ensures PairByConsent(Next(s, Commit(id, now)), k) <==>
              (On(s.flights[id].call) == k ==> AcceptanceHolds(s, Commit(id, now)))
    {
      assert PairByConsent(s, k);
      PairKeepsConsentIff(s, id, now, k);
    }
    assert PairByConsent(Next(s, Commit(id, now)), On(s.flights[id].call)) <==> AcceptanceHolds(s, Commit(id, now));
  }

  lemma EventKeepsConsentIff(s: System, ev: Event)
    requires Sound(s) && FriendsByConsent(s)
    ensures FriendsByConsent(Next(s, ev)) <==> AcceptanceHolds(s, ev)
  {
    if ev.Commit? && ev.id in s.flights && Exec(s.table, WriteOf(s.flights[ev.id].call, ev.now)).Ok? {
      WriteKeepsConsentIff(s, ev.id, ev.now);
    } else {
      forall k: Pair
        ensures PairByConsent(Next(s, ev), k)
      {
        assert PairByConsent(s, k);
      }
    }
  }

  ghost predicate AlwaysByConsent(events: seq<Event>) {
    FriendsByConsent(Run(events)) && (events != [] ==> AlwaysByConsent(events[..|events| - 1]))
  }

  lemma {:induction false} AlwaysIff(events: seq<Event>)
    ensures AlwaysByConsent(events) <==> AcceptancesHeld(events)
  {
    if events == [] {
      assert forall k: Pair :: Trace([], k) == [];
      assert FriendsByConsent(Run([]));
    } else {
      var before, ev := events[..|events| - 1], events[|events| - 1];
      AlwaysIff(before);
      RunIsSound(before);
      if AlwaysByConsent(before) {
        EventKeepsConsentIff(Run(before), ev);
      }
    }
  }

  lemma {:induction false} AlwaysIsEveryPrefix(events: seq<Event>)
    ensures AlwaysByConsent(events) <==> forall i :: 0 <= i <= |events| ==> FriendsByConsent(Run(events[..i]))
  {
    assert events[..|events|] == events;
    if events != [] {
      var before := events[..|events| - 1];
      AlwaysIsEveryPrefix(before);
      assert forall i :: 0 <= i <= |before| ==> before[..i] == events[..i];
    }
  }

  /** Exactly when interleaved calls keep consent: all along the run users are
      friends only by a request and its acceptance iff every acceptance that was
      written still found its request. */
  lemma InterleavedConsentIff(events: seq<Event>)
    ensures (forall i :: 0 <= i <= |events| ==> FriendsByConsent(Run(events[..i]))) <==> AcceptancesHeld(events)
  {
    AlwaysIff(events);
    AlwaysIsEveryPrefix(events);
  }

  ghost predicate UndisturbedRun(events: seq<Event>) {
    events != [] ==>
      var s, ev := Run(events[..|events| - 1]), events[|events| - 1];
      UndisturbedRun(events[..|events| - 1]) && (ev.Commit? && ev.id in s.flights ==> Undisturbed(s, s.flights[ev.id]))
  }

  /** The same writes, each made by a whole atomic call in quiet surroundings. */
  ghost function Replay(log: seq<Write>): Option<Table> {
    if log == [] then Some(map[])
    else
      var w := log[|log| - 1];
      match Replay(log[..|log| - 1])
      case None => None
      case Some(t) =>
        var (next, err) := Step(t, w.call, Env(AuthSays(true), w.now, false, false, false));
        if err.None? then Some(next) else None
  }

  /** When no write to a pair falls between a call's read and its write, the run
      is a run of atomic calls in the order of their writes, and so consensual. */
  lemma {:induction false} UndisturbedIsAtomic(events: seq<Event>)
    requires UndisturbedRun(events)
    ensures Replay(Run(events).log) == Some(Run(events).table)
    ensures AllConsensual(Run(events).log)
  {
    if events != [] {
      var before, ev := events[..|events| - 1], events[|events| - 1];
      var s := Run(before);
      UndisturbedIsAtomic(before);
      RunIsSound(before);
      InterleavedAnswersIff(before);
      InterleavedAnswersIff(events);
      if ev.Commit? && ev.id in s.flights && Exec(s.table, WriteOf(s.flights[ev.id].call, ev.now)).Ok? {
        var w := Write(s.flights[ev.id].call, ev.now);
        SucceedsIff(s.table, w.call, Env(AuthSays(true), w.now, false, false, false));
        assert (s.log + [w])[..|s.log|] == s.log;
      }
    }
  }

  lemma RunGrows(events: seq<Event>, ev: Event)
    ensures Run(events + [ev]) == Next(Run(events), ev)
  {
    assert (events + [ev])[..|events|] == events;
  }

  function Stale(): seq<Event> {
    [Read(0, Send(1, 2)), Commit(0, 0), Read(1, Accept(2, 1)), Read(2, Remove(1, 2)), Commit(2, 0),
     Read(3, Send(2, 1)), Commit(3, 0), Commit(1, 0)]
  }

  lemma StaleStep(n: nat, s: System)
    requires n < 8 && Run(Stale()[..n]) == s
    ensures Run(Stale()[..n + 1]) == Next(s, Stale()[n])
  {
    RunGrows(Stale()[..n], Stale()[n]);
    assert Stale()[..n] + [Stale()[n]] == Stale()[..n + 1];
  }

  function Late(): map<nat, Flight> { map[1 := Flight(Accept(2, 1), 1)] }

  function Wrote(): seq<Write> {
    [Write(Send(1, 2), 0), Write(Remove(1, 2), 0), Write(Send(2, 1), 0), Write(Accept(2, 1), 0)]
  }

  lemma StaleRead()
    ensures Run(Stale()[..3]) == System(map[(1, 2) := Row(1, Pending, 0)], Late(), Wrote()[..1])
  {
    StaleStep(0, System(map[], map[], []));
    StaleStep(1, System(map[], map[0 := Flight(Send(1, 2), 0)], []));
    StaleStep(2, System(map[(1, 2) := Row(1, Pending, 0)], map[], Wrote()[..1]));
  }

  lemma StaleRemoval()
    ensures Run(Stale()[..4]) ==
            System(map[(1, 2) := Row(1, Pending, 0)], Late()[2 := Flight(Remove(1, 2), 1)], Wrote()[..1])
  {
    StaleRead();
    StaleStep(3, System(map[(1, 2) := Row(1, Pending, 0)], Late(), Wrote()[..1]));
  }

  lemma StaleWithdrawal()
    ensures Run(Stale()[..5]) == System(map[], Late(), Wrote()[..2])
  {
    StaleRemoval();
    StaleStep(4, System(map[(1, 2) := Row(1, Pending, 0)], Late()[2 := Flight(Remove(1, 2), 1)], Wrote()[..1]));
    assert map[(1, 2) := Row(1, Pending, 0)] - {(1, 2)} == map[];
    assert Late()[2 := Flight(Remove(1, 2), 1)] - {2} == Late();
    assert Wrote()[..1] + [Write(Remove(1, 2), 0)] == Wrote()[..2];
  }

  lemma StaleReversal()
    ensures Run(Stale()[..7]) == System(map[(1, 2) := Row(2, Pending, 0)], Late(), Wrote()[..3])
  {
    StaleWithdrawal();
    StaleStep(5, System(map[], Late(), Wrote()[..2]));
    StaleStep(6, System(map[], Late()[3 := Flight(Send(2, 1), 2)], Wrote()[..2]));
  }

  /** Without that condition consent fails: user 2 reads user 1's request, user 1
      withdraws it, user 2 asks, and user 2's own acceptance is then written. */
  lemma StaleAcceptance()
    ensures Run(Stale()).table == map[(1, 2) := Row(2, Accepted, 0)]
    ensures Run(Stale()).log ==
              [Write(Send(1, 2), 0), Write(Remove(1, 2), 0), Write(Send(2, 1), 0), Write(Accept(2, 1), 0)]
    ensures !Consensual(Trace(Run(Stale()).log, (1, 2)))
  {
    StaleReversal();
    StaleStep(7, System(map[(1, 2) := Row(2, Pending, 0)], Late(), Wrote()[..3]));
    assert Stale()[..8] == Stale();
    RunIsSound(Stale()[..7]);
    ConsensualGrows(Wrote()[..3], map[(1, 2) := Row(2, Pending, 0)], Wrote()[3], (1, 2));
  }

  /** The two are then friends without consent. */
  lemma StaleFriends()
    ensures AreFriends(Run(Stale()).table, (1, 2)) && !FriendsByConsent(Run(Stale()))
  {
    StaleAcceptance();
    TraceGrows(Wrote()[..2], Wrote()[2], (1, 2));
    TraceGrows(Wrote()[..3], Wrote()[3], (1, 2));
    assert Wrote()[..2] + [Wrote()[2]] == Wrote()[..3] && Wrote()[..3] + [Wrote()[3]] == Wrote();
    assert !PairByConsent(Run(Stale()), (1, 2));
  }
}
