/** Overlapping updates of one row that names files: UpdateCommunity with its avatar
    and cover, UpdatePost with its attachments and photos. Each call reads the row,
    uploads its new files, writes the whole row back and removes the files it
    replaced; nothing keeps the steps of two calls apart. */
module UpdateRaces {
  import opened Wrappers
  import opened Collections

  /** Avatar and cover of a community; attachments and photos of a post. */
  datatype Slot = First | Second

  type Row = map<Slot, seq<string>>

  datatype Phase = Begun | Uploaded | Written

  /** A call under way: the row it read, the new files it was given, by slot. */
  datatype Flight = Flight(seen: Row, given: Row, phase: Phase)

  /** home remembers every file name ever drawn, and the slot it was drawn for. */
  datatype State = State(row: Row, disk: set<string>, flights: map<nat, Flight>, home: map<string, Slot>)

  /** Undo: a failed call ends, some of its new files gone. Remove: one of the old
      files of a call that wrote the row; a call may remove all, some or none. */
  datatype Event =
    | Read(id: nat, given: Row)
    | Upload(id: nat)
    | Write(id: nat)
    | Undo(id: nat, gone: set<string>)
    | Remove(id: nat, file: string)
    | End(id: nat)

  function NamesIn(row: Row): set<string> {
    set t, f | t in row && f in row[t] :: f
  }

  /** New names, each for one slot. */
  predicate Fresh(given: Row, home: map<string, Slot>) {
    && (forall t, f :: t in given && f in given[t] ==> f !in home)
    && (forall t, u, f :: t in given && u in given && f in given[t] && f in given[u] ==> t == u)
  }

  function SlotIn(given: Row, f: string): Slot {
    if First in given && f in given[First] then First else Second
  }

  function IsIn(s: State, id: nat, phase: Phase): bool {
    id in s.flights && s.flights[id].phase == phase
  }

  /** The old files a call replaces. */
  function Old(f: Flight): set<string> {
    set t, n | t in f.given && t in f.seen && n in f.seen[t] :: n
  }

  /** The row a call writes: what it read, but for the slots it was given. */
  function Merged(f: Flight): Row {
    f.seen + f.given
  }

  function Next(s: State, ev: Event): State {
    match ev
    case Read(id, given) =>
      if id in s.flights || !Fresh(given, s.home) then s
      else s.(flights := s.flights[id := Flight(s.row, given, Begun)],
              home := s.home + map f | f in NamesIn(given) :: SlotIn(given, f))
    case Upload(id) =>
      if !IsIn(s, id, Begun) then s
      else s.(disk := s.disk + NamesIn(s.flights[id].given),
              flights := s.flights[id := s.flights[id].(phase := Uploaded)])
    case Write(id) =>
      if !IsIn(s, id, Uploaded) then s
      else s.(row := Merged(s.flights[id]), flights := s.flights[id := s.flights[id].(phase := Written)])
    case Undo(id, gone) =>
      if id !in s.flights || s.flights[id].phase == Written then s
      else s.(disk := s.disk - (gone * NamesIn(s.flights[id].given)), flights := s.flights - {id})
    case Remove(id, file) =>
      if IsIn(s, id, Written) && file in Old(s.flights[id]) then s.(disk := s.disk - {file}) else s
    case End(id) => s.(flights := s.flights - {id})
  }

  ghost function Run(start: State, events: seq<Event>): State {
    if events == [] then start else Next(Run(start, events[..|events| - 1]), events[|events| - 1])
  }

  ghost predicate NamedOnDisk(s: State) {
    NamesIn(s.row) <= s.disk
  }

  // ------------------------------------------------------------------ invariant

  predicate AtHome(row: Row, home: map<string, Slot>) {
    forall t, f :: t in row && f in row[t] ==> f in home && home[f] == t
  }

  /** The new files of a call that has not written the row are known to it alone. */
  ghost predicate Private(s: State, id: nat)
    requires id in s.flights
  {
    var mine := NamesIn(s.flights[id].given);
    && mine !! NamesIn(s.row)
    && (forall b :: b in s.flights ==> mine !! NamesIn(s.flights[b].seen))
    && (forall b :: b in s.flights && b != id ==> mine !! NamesIn(s.flights[b].given))
  }

  ghost predicate Inv(s: State) {
    && AtHome(s.row, s.home) && First in s.row && Second in s.row
    && (forall b :: b in s.flights ==> AtHome(s.flights[b].seen, s.home) && AtHome(s.flights[b].given, s.home))
    && (forall b :: b in s.flights ==> First in s.flights[b].seen && Second in s.flights[b].seen)
    && (forall b :: b in s.flights && s.flights[b].phase != Written ==> Private(s, b))
    && (forall b :: b in s.flights && s.flights[b].phase == Uploaded ==> NamesIn(s.flights[b].given) <= s.disk)
  }

  /** A row with its files on disk, and no call under way. */
  ghost predicate IsStart(s: State) {
    Inv(s) && s.flights == map[] && NamedOnDisk(s)
  }

  lemma NamesHaveHomes(row: Row, home: map<string, Slot>)
    requires AtHome(row, home)
    ensures NamesIn(row) <= home.Keys
  {
  }

  lemma HomesGrow(s: State, given: Row) returns (home: map<string, Slot>)
    requires Fresh(given, s.home)
    ensures home == s.home + map f | f in NamesIn(given) :: SlotIn(given, f)
    ensures AtHome(given, home) && forall row :: AtHome(row, s.home) ==> AtHome(row, home)
    ensures NamesIn(given) !! s.home.Keys
  {
    home := s.home + map f | f in NamesIn(given) :: SlotIn(given, f);
    forall t, f | t in given && f in given[t]
      ensures f !in s.home && f in home && home[f] == t
    {
      assert f in NamesIn(given);
    }
  }

  lemma ReadKeepsInv(s: State, id: nat, given: Row)
    requires Inv(s)
    ensures Inv(Next(s, Read(id, given)))
  {
    if id !in s.flights && Fresh(given, s.home) {
      var n := Next(s, Read(id, given));
      var home := HomesGrow(s, given);
      NamesHaveHomes(s.row, s.home);
      forall b | b in s.flights
        ensures NamesIn(given) !! NamesIn(s.flights[b].seen) && NamesIn(given) !! NamesIn(s.flights[b].given)
      {
        NamesHaveHomes(s.flights[b].seen, s.home);
        NamesHaveHomes(s.flights[b].given, s.home);
      }
      forall b | b in n.flights && n.flights[b].phase != Written
        ensures Private(n, b)
      {
        if b != id {
          assert Private(s, b);
        }
      }
    }
  }

  lemma WriteKeepsInv(s: State, id: nat)
    requires Inv(s)
    ensures Inv(Next(s, Write(id)))
  {
    if IsIn(s, id, Uploaded) {
      var n := Next(s, Write(id));
      assert NamesIn(n.row) <= NamesIn(s.flights[id].seen) + NamesIn(s.flights[id].given);
      forall b | b in n.flights && n.flights[b].phase != Written
        ensures Private(n, b)
      {
        assert Private(s, b);
      }
    }
  }

  lemma UploadKeepsInv(s: State, id: nat)
    requires Inv(s)
    ensures Inv(Next(s, Upload(id)))
  {
    var n := Next(s, Upload(id));
    forall b | b in n.flights && n.flights[b].phase != Written
      ensures Private(n, b)
    {
      assert Private(s, b);
    }
  }

  lemma UndoKeepsInv(s: State, id: nat, gone: set<string>)
    requires Inv(s)
    ensures Inv(Next(s, Undo(id, gone)))
  {
    var n := Next(s, Undo(id, gone));
    forall b | b in n.flights && n.flights[b].phase != Written
      ensures Private(n, b)
      ensures id in s.flights && b != id ==> NamesIn(s.flights[b].given) !! NamesIn(s.flights[id].given)
    {
      assert Private(s, b);
    }
  }

  lemma RemoveKeepsInv(s: State, id: nat, file: string)
    requires Inv(s)
    ensures Inv(Next(s, Remove(id, file)))
  {
    var n := Next(s, Remove(id, file));
    if IsIn(s, id, Written) && file in Old(s.flights[id]) {
      OldIsSeen(s.flights[id]);
      forall b | b in n.flights && n.flights[b].phase != Written
        ensures Private(n, b) && file !in NamesIn(s.flights[b].given)
      {
        assert Private(s, b);
      }
    }
  }

  lemma EndKeepsInv(s: State, id: nat)
    requires Inv(s)
    ensures Inv(Next(s, End(id)))
  {
    var n := Next(s, End(id));
    forall b | b in n.flights && n.flights[b].phase != Written
      ensures Private(n, b)
    {
      assert Private(s, b);
    }
  }

  lemma NextKeepsInv(s: State, ev: Event)
    requires Inv(s)
    ensures Inv(Next(s, ev))
  {
    match ev
    case Read(id, given) => ReadKeepsInv(s, id, given);
    case Upload(id) => UploadKeepsInv(s, id);
    case Write(id) => WriteKeepsInv(s, id);
    case Undo(id, gone) => UndoKeepsInv(s, id, gone);
    case Remove(id, file) => RemoveKeepsInv(s, id, file);
    case End(id) => EndKeepsInv(s, id);
  }

  lemma {:induction false} RunKeepsInv(start: State, events: seq<Event>)
    requires IsStart(start)
    ensures Inv(Run(start, events))
  {
    if events != [] {
      RunKeepsInv(start, events[..|events| - 1]);
      NextKeepsInv(Run(start, events[..|events| - 1]), events[|events| - 1]);
    }
  }

  // --------------------------------------------- when no named file is missing

  /** A row write finds the files it keeps on disk; a removal finds its file unnamed. */
  ghost predicate Harmless(s: State, ev: Event) {
    && (ev.Write? && IsIn(s, ev.id, Uploaded) ==>
          forall t, f :: t in s.flights[ev.id].seen && t !in s.flights[ev.id].given && f in s.flights[ev.id].seen[t] ==>
            f in s.disk)
    && (ev.Remove? && IsIn(s, ev.id, Written) && ev.file in Old(s.flights[ev.id]) ==> ev.file !in NamesIn(s.row))
  }

  lemma StepHarmlessIff(s: State, ev: Event)
    requires Inv(s) && NamedOnDisk(s)
    ensures NamedOnDisk(Next(s, ev)) <==> Harmless(s, ev)
  {
    var n := Next(s, ev);
    if ev.Undo? && ev.id in s.flights && s.flights[ev.id].phase != Written {
      assert Private(s, ev.id);
    } else if ev.Write? && IsIn(s, ev.id, Uploaded) {
      var flight := s.flights[ev.id];
      forall t, f | t in flight.seen && t !in flight.given && f in flight.seen[t]
        ensures f in NamesIn(n.row)
      {
        assert n.row[t] == flight.seen[t];
      }
      forall f | f in NamesIn(n.row)
        ensures f in NamesIn(flight.given) || exists t :: t in flight.seen && t !in flight.given && f in flight.seen[t]
      {
        var t :| t in n.row && f in n.row[t];
        assert t !in flight.given ==> t in flight.seen && f in flight.seen[t];
      }
    }
  }

  ghost predicate AllHarmless(start: State, events: seq<Event>) {
    events != [] ==>
      && AllHarmless(start, events[..|events| - 1])
      && Harmless(Run(start, events[..|events| - 1]), events[|events| - 1])
  }

  ghost predicate AlwaysOnDisk(start: State, events: seq<Event>) {
    NamedOnDisk(Run(start, events)) && (events != [] ==> AlwaysOnDisk(start, events[..|events| - 1]))
  }

  lemma {:induction false} AlwaysIsEveryPrefix(start: State, events: seq<Event>)
    ensures AlwaysOnDisk(start, events) <==> forall i :: 0 <= i <= |events| ==> NamedOnDisk(Run(start, events[..i]))
  {
    var onDisk := (es: seq<Event>) => NamedOnDisk(Run(start, es));
    if events == [] {
      assert events[..0] == events;
    } else {
      AlwaysIsEveryPrefix(start, events[..|events| - 1]);
      PrefixSplit(events, events[..|events| - 1], onDisk);
      assert AlwaysOnDisk(start, events) <==> onDisk(events) && AlwaysOnDisk(start, events[..|events| - 1]);
      assert forall i :: 0 <= i <= |events| ==> onDisk(events[..i]) == NamedOnDisk(Run(start, events[..i]));
    }
  }

  lemma {:induction false} AlwaysIff(start: State, events: seq<Event>)
    requires IsStart(start)
    ensures AlwaysOnDisk(start, events) <==> AllHarmless(start, events)
  {
    if events != [] {
      var before, ev := events[..|events| - 1], events[|events| - 1];
      AlwaysIff(start, before);
      if AlwaysOnDisk(start, before) {
        RunKeepsInv(start, before);
        StepHarmlessIff(Run(start, before), ev);
      }
    }
  }

  /** Exactly when overlapping updates keep every named file on disk in every state:
      iff each row write finds the files it keeps on disk, and each removal finds
      its file no longer named. */
  lemma OnDiskIff(start: State, events: seq<Event>)
    requires IsStart(start)
    ensures (forall i :: 0 <= i <= |events| ==> NamedOnDisk(Run(start, events[..i]))) <==> AllHarmless(start, events)
  {
    AlwaysIff(start, events);
    AlwaysIsEveryPrefix(start, events);
  }

  // ----------------------------------------------- what a caller can look after

  /** A row write still finds in the row the files it keeps. */
  ghost predicate KeptThere(s: State, ev: Event) {
    ev.Write? && IsIn(s, ev.id, Uploaded) ==>
      forall t :: t in s.flights[ev.id].seen && t !in s.flights[ev.id].given ==>
        t in s.row && s.row[t] == s.flights[ev.id].seen[t]
  }

  ghost predicate AllKeptThere(start: State, events: seq<Event>) {
    events != [] ==>
      && AllKeptThere(start, events[..|events| - 1])
      && KeptThere(Run(start, events[..|events| - 1]), events[|events| - 1])
  }

  /** What a call that wrote the row replaced is out of the row. */
  ghost predicate OldIsOut(s: State) {
    forall b :: b in s.flights && s.flights[b].phase == Written ==> Old(s.flights[b]) !! NamesIn(s.row)
  }

  lemma OldIsSeen(f: Flight)
    ensures Old(f) <= NamesIn(f.seen)
  {
  }

  lemma WriteKeepsOldOut(s: State, id: nat)
    requires Inv(s) && OldIsOut(s) && IsIn(s, id, Uploaded) && KeptThere(s, Write(id))
    ensures OldIsOut(Next(s, Write(id)))
  {
    var n, mine := Next(s, Write(id)), s.flights[id];
    assert Private(s, id);
    forall f | f in NamesIn(n.row)
      ensures f in NamesIn(mine.given) || (f in NamesIn(s.row) && f !in Old(mine))
    {
      var t :| t in n.row && f in n.row[t];
      if t !in mine.given {
        assert s.row[t] == mine.seen[t] && s.home[f] == t;
      }
    }
    forall b | b in n.flights && n.flights[b].phase == Written
      ensures Old(n.flights[b]) !! NamesIn(n.row)
    {
      OldIsSeen(s.flights[b]);
      assert NamesIn(mine.given) !! NamesIn(s.flights[b].seen);
    }
  }

  lemma KeptIsHarmless(s: State, ev: Event)
    requires Inv(s) && OldIsOut(s) && NamedOnDisk(s) && KeptThere(s, ev)
    ensures Harmless(s, ev) && OldIsOut(Next(s, ev))
  {
    if ev.Write? && IsIn(s, ev.id, Uploaded) {
      WriteKeepsOldOut(s, ev.id);
      var flight := s.flights[ev.id];
      forall t, f | t in flight.seen && t !in flight.given && f in flight.seen[t]
        ensures f in s.disk
      {
        assert f in NamesIn(s.row);
      }
    }
  }

  /** If each row write still finds in the row the files it keeps, no file a row
      names is ever missing, whatever else overlaps or fails. */
  lemma {:induction false} KeptKeepsOnDisk(start: State, events: seq<Event>)
    requires IsStart(start) && AllKeptThere(start, events)
    ensures AllHarmless(start, events) && NamedOnDisk(Run(start, events)) && OldIsOut(Run(start, events))
  {
    if events != [] {
      var before, ev := events[..|events| - 1], events[|events| - 1];
      KeptKeepsOnDisk(start, before);
      RunKeepsInv(start, before);
      KeptIsHarmless(Run(start, before), ev);
      StepHarmlessIff(Run(start, before), ev);
    }
  }

  // -------------------------------------------------------------- the failure

  const START := State(map[First := ["a"], Second := []], {"a"}, map[], map["a" := First])

  /** Call 0 replaces the first slot; call 1, which read the row before, is given
      nothing and only rewrites it. */
  function Losing(): seq<Event> {
    [Read(0, map[First := ["b"]]), Read(1, map[]), Upload(0), Write(0), Remove(0, "a"), Upload(1), Write(1)]
  }

  /** The states of that run. */
  function LosingState(n: nat): State
    requires n <= 7
  {
    var given, home := map[First := ["b"]], map["a" := First, "b" := First];
    var changed := map[First := ["b"], Second := []];
    var call, rewrite := Flight(START.row, given, Begun), Flight(START.row, map[], Begun);
    if n == 0 then START
    else if n == 1 then State(START.row, {"a"}, map[0 := call], home)
    else if n == 2 then State(START.row, {"a"}, map[0 := call, 1 := rewrite], home)
    else if n == 3 then State(START.row, {"a", "b"}, map[0 := call.(phase := Uploaded), 1 := rewrite], home)
    else if n == 4 then State(changed, {"a", "b"}, map[0 := call.(phase := Written), 1 := rewrite], home)
    else if n == 5 then State(changed, {"b"}, map[0 := call.(phase := Written), 1 := rewrite], home)
    else if n == 6 then
      State(changed, {"b"}, map[0 := call.(phase := Written), 1 := rewrite.(phase := Uploaded)], home)
    else State(START.row, {"b"}, map[0 := call.(phase := Written), 1 := rewrite.(phase := Written)], home)
  }

  lemma OneName(f: string)
    ensures NamesIn(map[First := [f]]) == {f} && NamesIn(map[]) == {}
  {
    var row := map[First := [f]];
    assert First in row && f in row[First];
  }

  lemma FirstReads()
    ensures Next(START, Losing()[0]) == LosingState(1)
  {
    OneName("b");
    var home := map["a" := First] + map f | f in NamesIn(map[First := ["b"]]) :: SlotIn(map[First := ["b"]], f);
    assert home == map["a" := First, "b" := First];
  }

  lemma SecondReads()
    ensures Next(LosingState(1), Losing()[1]) == LosingState(2)
  {
    OneName("b");
    assert (map f | f in NamesIn(map[]) :: SlotIn(map[], f)) == map[];
  }

  lemma FirstUploads()
    ensures Next(LosingState(2), Losing()[2]) == LosingState(3)
  {
    OneName("b");
  }

  lemma FirstWrites()
    ensures Next(LosingState(3), Losing()[3]) == LosingState(4)
  {
    assert START.row + map[First := ["b"]] == map[First := ["b"], Second := []];
  }

  lemma FirstRemoves()
    ensures Next(LosingState(4), Losing()[4]) == LosingState(5)
  {
    var call := LosingState(4).flights[0];
    assert First in call.given && First in call.seen && "a" in call.seen[First];
    assert "a" in Old(call) && {"a", "b"} - {"a"} == {"b"};
  }

  lemma SecondWrites()
    ensures Next(LosingState(5), Losing()[5]) == LosingState(6)
    ensures Next(LosingState(6), Losing()[6]) == LosingState(7)
  {
    OneName("b");
    assert START.row + map[] == START.row;
  }

  lemma LosingStep(n: nat)
    requires n < 7 && Run(START, Losing()[..n]) == LosingState(n)
    requires Next(LosingState(n), Losing()[n]) == LosingState(n + 1)
    ensures Run(START, Losing()[..n + 1]) == LosingState(n + 1)
  {
    var upTo := Losing()[..n + 1];
    assert upTo[..n] == Losing()[..n] && upTo[n] == Losing()[n];
  }

  lemma LosingBegins()
    ensures Run(START, Losing()[..4]) == LosingState(4)
  {
    FirstReads();
    SecondReads();
    FirstUploads();
    FirstWrites();
    LosingStep(0);
    LosingStep(1);
    LosingStep(2);
    LosingStep(3);
  }

  lemma LosingEnds()
    ensures Run(START, Losing()[..7]) == LosingState(7)
  {
    LosingBegins();
    FirstRemoves();
    SecondWrites();
    LosingStep(4);
    LosingStep(5);
    LosingStep(6);
  }

  /** Every removal succeeded and nothing failed, and the row names a file that is
      gone. */
  lemma FileIsLost()
    ensures IsStart(START) && Run(START, Losing()) == LosingState(7)
    ensures "a" in NamesIn(LosingState(7).row) && "a" !in LosingState(7).disk && !NamedOnDisk(Run(START, Losing()))
  {
    LosingEnds();
    assert Losing()[..7] == Losing();
    assert First in START.row && "a" in START.row[First];
    assert NamesIn(START.row) == {"a"};
  }
}
