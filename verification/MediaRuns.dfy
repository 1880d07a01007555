/** Whole runs of the calls that store files: any sequence of them, with any
    failures, and what it leaves on disk. */
module MediaRuns {
  import opened Wrappers
  import opened Domain
  import opened Collections
  import opened UploadDir
  import opened FileRows
  import opened MessageStore
  import opened Services = MediaServices

  /** One call with everything that may go wrong in it. */
  datatype Op =
    | NewCommunity(user: int, valid: bool, avatar: Option<Upload>, cover: Option<Upload>, rowOk: bool,
                   stuck: set<string>)
    | EditCommunity(id: int, user: int, valid: bool, avatar: Option<Upload>, cover: Option<Upload>,
                    read: Reply, rowOk: bool, stuck: set<string>)
    | DropCommunity(id: int, user: int, read: Reply, rowOk: bool, stuck: set<string>)
    | NewPost(user: int, valid: bool, communityID: Option<int>, attachments: seq<Upload>, photos: seq<Upload>,
              read: Reply, rowOk: bool, stuck: set<string>)
    | EditPost(id: int, user: int, valid: bool, attachments: seq<Upload>, photos: seq<Upload>,
               read: Reply, cut: Cut, rowOk: bool, stuck: set<string>)
    | DropPost(id: int, user: int, read: Reply, cut: Cut, rowOk: bool, stuck: set<string>)
    | NewMessage(refused: Option<Error>, files: seq<Upload>, sticker: bool, now: int, faults: Faults,
                 stuck: set<string>)

  /** The names a call may store files under. */
  function NewNames(op: Op): seq<string> {
    match op
    case NewCommunity(_, _, avatar, cover, _, _) => Path(OptName(avatar)) + Path(OptName(cover))
    case EditCommunity(_, _, _, avatar, cover, _, _, _) => Path(OptName(avatar)) + Path(OptName(cover))
    case NewPost(_, _, _, attachments, photos, _, _, _) => Names(attachments) + Names(photos)
    case EditPost(_, _, _, attachments, photos, _, _, _, _) => Names(attachments) + Names(photos)
    case NewMessage(_, files, _, _, _, _) => Names(files)
    case _ => []
  }

  /** When a call succeeds. */
  ghost predicate Succeeds(rows: Rows, op: Op) {
    match op
    case NewCommunity(_, valid, avatar, cover, rowOk, _) => valid && OptOk(avatar) && OptOk(cover) && rowOk
    case EditCommunity(id, user, valid, avatar, cover, read, rowOk, _) =>
      && Barred(valid, read, CreatorOf(rows.communities, id), user, ErrNotFound).None?
      && OptOk(avatar) && OptOk(cover) && rowOk
    case DropCommunity(id, user, read, rowOk, _) =>
      Barred(true, read, CreatorOf(rows.communities, id), user, ErrNotFound).None? && rowOk
    case NewPost(user, valid, communityID, attachments, photos, read, rowOk, _) =>
      valid && AllOk(attachments) && AllOk(photos) && MayPost(rows.communities, user, communityID, read) && rowOk
    case EditPost(id, user, valid, attachments, photos, read, _, rowOk, _) =>
      MayEdit(valid, read, rows.posts, id, user) && AllOk(attachments) && AllOk(photos) && rowOk
    case DropPost(id, user, read, _, rowOk, _) => MayEdit(true, read, rows.posts, id, user) && rowOk
    case NewMessage(refused, files, sticker, _, faults, _) =>
      refused.None? && (sticker || AllOk(files)) && Commits(Names(files), sticker, faults)
  }

  /** The row a call is about; key is the one drawn for a new row. */
  function OwnerOf(op: Op, key: int): Owner {
    match op
    case NewCommunity(_, _, _, _, _, _) => OfCommunity(key)
    case EditCommunity(id, _, _, _, _, _, _, _) => OfCommunity(id)
    case DropCommunity(id, _, _, _, _) => OfCommunity(id)
    case NewPost(_, _, _, _, _, _, _, _) => OfPost(key)
    case EditPost(id, _, _, _, _, _, _, _, _) => OfPost(id)
    case DropPost(id, _, _, _, _, _) => OfPost(id)
    case NewMessage(_, _, _, _, _, _) => OfMessage(key)
  }

  /** The posts that go with a community. */
  ghost function Dropped(rows: Rows, op: Op): set<int> {
    if op.DropCommunity? && Succeeds(rows, op) then PostsOf(rows.posts, op.id) else {}
  }

  /** What a call leaves over of its own files when every removal succeeds. */
  ghost function LeftBy(rows: Rows, op: Op): set<string> {
    match op
    case NewPost(user, valid, communityID, attachments, photos, read, _, _) =>
      if valid && AllOk(attachments) && AllOk(photos) && !MayPost(rows.communities, user, communityID, read)
      then Elems(Names(attachments)) + Elems(Names(photos)) else {}
    case EditPost(id, user, valid, attachments, photos, read, cut, rowOk, _) =>
      if !MayEdit(valid, read, rows.posts, id, user) then {}
      else LeftByUpdate(rows.posts[id], cut, attachments, photos, rowOk)
    case DropPost(id, _, _, cut, _, _) => if Succeeds(rows, op) then Unseen(rows.posts[id], cut) else {}
    case _ => {}
  }

  /** The key a call drew, if it did, and the files of its row it left over. */
  datatype Effect = Effect(key: int, left: set<string>)

  /** The state between the row's deletion and the cascade to its posts. */
  function BeforeCascade(m: Media, n: Media): Media {
    n.(rows := n.rows.(posts := m.rows.posts))
  }

  /** The rows after a call that succeeded. */
  ghost function RowsAfter(rows: Rows, op: Op, key: int): Rows
    requires Succeeds(rows, op)
  {
    match op
    case NewCommunity(user, _, avatar, cover, _, _) =>
      rows.(communities := rows.communities[key := Community(user, OptName(avatar), OptName(cover))])
    case EditCommunity(id, user, _, avatar, cover, _, _, _) =>
      var was := rows.communities[id];
      rows.(communities := rows.communities[id := Community(user,
        if avatar.Some? then OptName(avatar) else was.avatar, if cover.Some? then OptName(cover) else was.cover)])
    case DropCommunity(id, _, _, _, _) =>
      rows.(communities := rows.communities - {id}, posts := rows.posts - Dropped(rows, op))
    case NewPost(user, _, communityID, attachments, photos, _, _, _) =>
      rows.(posts := rows.posts[key := Post(user, communityID, Names(attachments), Names(photos))])
    case EditPost(id, user, _, attachments, photos, _, cut, _, _) =>
      var was := Seen(rows.posts[id], cut);
      rows.(posts := rows.posts[id := Post(user, was.community,
        if |attachments| > 0 then Names(attachments) else was.attachments,
        if |photos| > 0 then Names(photos) else was.photos)])
    case DropPost(id, _, _, _, _, _) => rows.(posts := rows.posts - {id})
    case NewMessage(_, files, sticker, _, _, _) =>
      rows.(messages := rows.messages[key := if sticker then [] else Names(files)])
  }

  /** op makes n of m: the rows are those of its outcome, the files move with its
      one row, and when removals succeed it leaves over exactly LeftBy. */
  ghost predicate Performs(m: Media, op: Op, e: Effect, n: Media) {
    && n.rows == (if Succeeds(m.rows, op) then RowsAfter(m.rows, op, e.key) else m.rows)
    && Moves(m, if op.DropCommunity? then BeforeCascade(m, n) else n, OwnerOf(op, e.key), e.left)
    && (op.stuck == {} ==> e.left == LeftBy(m.rows, op))
    && n.disk <= m.disk + Elems(NewNames(op))
  }

  /** The files one call adds to those no row names. */
  ghost function Leaks(m: Media, op: Op, e: Effect): set<string> {
    e.left + FilesOfPosts(m, Dropped(m.rows, op))
  }

  lemma PerformConserves(m: Media, op: Op, e: Effect, n: Media)
    requires Sound(m) && Performs(m, op, e, n)
    ensures Sound(n) && Orphans(n.rows, n.disk) == Orphans(m.rows, m.disk) + Leaks(m, op, e)
  {
    if op.DropCommunity? {
      var mid := BeforeCascade(m, n);
      MovesConserves(m, mid, OwnerOf(op, e.key), e.left);
      CascadeLeaves(mid, n, Dropped(m.rows, op));
      assert FilesOfPosts(mid, Dropped(m.rows, op)) == FilesOfPosts(m, Dropped(m.rows, op));
    } else {
      MovesConserves(m, n, OwnerOf(op, e.key), e.left);
      assert FilesOfPosts(m, {}) == {};
    }
  }

  // --------------------------------------------------------------- whole runs

  const NOTHING := Media(Rows(map[], map[], map[]), {})

  /** From an empty database and an empty disk, call after call. */
  ghost predicate IsRun(states: seq<Media>, ops: seq<Op>, effects: seq<Effect>) {
    && |states| == |ops| + 1 && |effects| == |ops|
    && states[0] == NOTHING
    && forall i :: 0 <= i < |ops| ==> Performs(states[i], ops[i], effects[i], states[i + 1])
  }

  ghost function Union(sets: seq<set<string>>, i: nat): set<string>
    requires i <= |sets|
  {
    if i == 0 then {} else Union(sets, i - 1) + sets[i - 1]
  }

  lemma {:induction false} UnionGrows(totals: seq<set<string>>, sets: seq<set<string>>, i: nat)
    requires i <= |sets| < |totals| && totals[0] == {}
    requires forall j :: 0 <= j < i ==> totals[j + 1] == totals[j] + sets[j]
    ensures totals[i] == Union(sets, i)
  {
    if i > 0 {
      UnionGrows(totals, sets, i - 1);
    }
  }

  lemma {:induction false} UnionEmpty(sets: seq<set<string>>, i: nat)
    requires i <= |sets| && forall j :: 0 <= j < i ==> sets[j] == {}
    ensures Union(sets, i) == {}
  {
    if i > 0 {
      UnionEmpty(sets, i - 1);
    }
  }

  ghost function LeaksIn(states: seq<Media>, ops: seq<Op>, effects: seq<Effect>): seq<set<string>>
    requires |ops| == |effects| < |states|
  {
    seq(|ops|, j requires 0 <= j < |ops| => Leaks(states[j], ops[j], effects[j]))
  }

  ghost function OrphansIn(states: seq<Media>): seq<set<string>> {
    seq(|states|, j requires 0 <= j < |states| => Orphans(states[j].rows, states[j].disk))
  }

  lemma StepConserves(states: seq<Media>, ops: seq<Op>, effects: seq<Effect>, j: nat)
    requires IsRun(states, ops, effects) && j < |ops| && Sound(states[j])
    ensures Sound(states[j + 1])
    ensures OrphansIn(states)[j + 1] == OrphansIn(states)[j] + LeaksIn(states, ops, effects)[j]
  {
    PerformConserves(states[j], ops[j], effects[j], states[j + 1]);
  }

  lemma {:induction false} RunIsSound(states: seq<Media>, ops: seq<Op>, effects: seq<Effect>, i: nat)
    requires IsRun(states, ops, effects) && i <= |ops|
    ensures Sound(states[i])
  {
    if i == 0 {
      EmptyIsSound();
    } else {
      RunIsSound(states, ops, effects, i - 1);
      StepConserves(states, ops, effects, i - 1);
    }
  }

  /** Over any run of calls, whatever failed in it: every file a row names is on
      disk and named once, and the other files on disk are exactly those the calls
      left over. */
  lemma RunConserves(states: seq<Media>, ops: seq<Op>, effects: seq<Effect>, i: nat)
    requires IsRun(states, ops, effects) && i <= |ops|
    ensures Sound(states[i])
    ensures Orphans(states[i].rows, states[i].disk) == Union(LeaksIn(states, ops, effects), i)
  {
    RunIsSound(states, ops, effects, i);
    forall j | 0 <= j < |ops|
      ensures OrphansIn(states)[j + 1] == OrphansIn(states)[j] + LeaksIn(states, ops, effects)[j]
    {
      RunIsSound(states, ops, effects, j);
      StepConserves(states, ops, effects, j);
    }
    assert OrphansIn(states)[0] == {};
    UnionGrows(OrphansIn(states), LeaksIn(states, ops, effects), i);
  }

  ghost predicate RemovalsSucceed(ops: seq<Op>) {
    forall i :: 0 <= i < |ops| ==> ops[i].stuck == {}
  }

  /** What a call leaves over in all when every removal succeeds: a function of the
      call and the state it meets. */
  ghost function LeftInAll(m: Media, op: Op): set<string> {
    LeftBy(m.rows, op) + FilesOfPosts(m, Dropped(m.rows, op))
  }

  ghost function LeftIn(states: seq<Media>, ops: seq<Op>): seq<set<string>>
    requires |ops| < |states|
  {
    seq(|ops|, j requires 0 <= j < |ops| => LeftInAll(states[j], ops[j]))
  }

  lemma LeakIsExact(states: seq<Media>, ops: seq<Op>, effects: seq<Effect>, j: nat)
    requires IsRun(states, ops, effects) && RemovalsSucceed(ops) && j < |ops|
    ensures LeaksIn(states, ops, effects)[j] == LeftIn(states, ops)[j]
  {
    assert Performs(states[j], ops[j], effects[j], states[j + 1]) && ops[j].stuck == {};
  }

  /** When every removal succeeds, the files no row names are exactly: the uploads
      of posts refused by the community check, the first files of failed post
      updates, the files of posts deleted with their community, and those that an
      update or deletion of a post was not told of. */
  lemma RunLeaves(states: seq<Media>, ops: seq<Op>, effects: seq<Effect>, i: nat)
    requires IsRun(states, ops, effects) && RemovalsSucceed(ops) && i <= |ops|
    ensures Sound(states[i]) && Orphans(states[i].rows, states[i].disk) == Union(LeftIn(states, ops), i)
  {
    RunConserves(states, ops, effects, i);
    forall j | 0 <= j < |ops|
      ensures LeaksIn(states, ops, effects)[j] == LeftIn(states, ops)[j]
    {
      LeakIsExact(states, ops, effects, j);
    }
    assert LeaksIn(states, ops, effects) == LeftIn(states, ops);
  }

  predicate OnPosts(op: Op) {
    op.NewPost? || op.EditPost? || op.DropPost?
  }

  /** Community and message files are conserved: after any sequence of community
      and message calls, whatever uploads, reads and row writes failed, as long as
      removals succeed, a file is on disk iff a row names it, and one row names it
      once. */
  lemma FilesConserved(states: seq<Media>, ops: seq<Op>, effects: seq<Effect>, i: nat)
    requires IsRun(states, ops, effects) && RemovalsSucceed(ops) && i <= |ops|
    requires forall j :: 0 <= j < |ops| ==> !OnPosts(ops[j])
    ensures forall f :: f in states[i].disk <==> Named(states[i].rows, f)
    ensures Sound(states[i])
  {
    RunLeaves(states, ops, effects, i);
    NoPosts(states, ops, effects, i);
    UnionEmpty(LeftIn(states, ops), i);
    forall f: string
      ensures f in states[i].disk <==> Named(states[i].rows, f)
    {
      assert f !in Orphans(states[i].rows, states[i].disk);
    }
  }

  lemma PostsStayEmpty(m: Media, op: Op, e: Effect, n: Media)
    requires m.rows.posts == map[] && Performs(m, op, e, n) && !OnPosts(op)
    ensures n.rows.posts == map[] && LeftInAll(m, op) == {}
  {
  }

  lemma {:induction false} NoPosts(states: seq<Media>, ops: seq<Op>, effects: seq<Effect>, i: nat)
    requires IsRun(states, ops, effects) && i <= |ops|
    requires forall j :: 0 <= j < |ops| ==> !OnPosts(ops[j])
    ensures states[i].rows.posts == map[]
    ensures forall j :: 0 <= j < i ==> LeftIn(states, ops)[j] == {}
  {
    if i > 0 {
      NoPosts(states, ops, effects, i - 1);
      PostsStayEmpty(states[i - 1], ops[i - 1], effects[i - 1], states[i]);
    }
  }

  // --------------------------------------------------- the services themselves

  method CreateCommunity(s: Services.MediaServices, op: Op) returns (ghost e: Effect)
    requires op.NewCommunity? && s.Valid() && Sound(s.Now()) && Fresh(NewNames(op), s.dir.disk)
    modifies s, s.dir
    ensures s.Valid() && Performs(old(s.Now()), op, e, s.Now())
  {
    ghost var key := s.nextCommunity;
    var _, left := s.CreateCommunity(op.user, op.valid, op.avatar, op.cover, op.rowOk, op.stuck);
    e := Effect(key, left);
  }

  method UpdateCommunity(s: Services.MediaServices, op: Op) returns (ghost e: Effect)
    requires op.EditCommunity? && s.Valid() && Sound(s.Now()) && Fresh(NewNames(op), s.dir.disk)
    modifies s, s.dir
    ensures s.Valid() && Performs(old(s.Now()), op, e, s.Now())
  {
    SoundStored(s.Now(), OfCommunity(op.id));
    var _, left := s.UpdateCommunity(op.id, op.user, op.valid, op.avatar, op.cover, op.read, op.rowOk, op.stuck);
    e := Effect(0, left);
  }

  method DeleteCommunity(s: Services.MediaServices, op: Op) returns (ghost e: Effect)
    requires op.DropCommunity? && s.Valid() && Sound(s.Now()) && Fresh(NewNames(op), s.dir.disk)
    modifies s, s.dir
    ensures s.Valid() && Performs(old(s.Now()), op, e, s.Now())
  {
    SoundStored(s.Now(), OfCommunity(op.id));
    ghost var _ := StaysMoves(s.Now(), s.Now(), OfCommunity(op.id));
    var _, left := s.DeleteCommunity(op.id, op.user, op.read, op.rowOk, op.stuck);
    e := Effect(0, left);
  }

  method CreatePost(s: Services.MediaServices, op: Op) returns (ghost e: Effect)
    requires op.NewPost? && s.Valid() && Sound(s.Now()) && Fresh(NewNames(op), s.dir.disk)
    modifies s, s.dir
    ensures s.Valid() && Performs(old(s.Now()), op, e, s.Now())
  {
    ghost var key := s.nextPost;
    FreshParts(op.attachments, op.photos, s.dir.disk);
    var _, left := s.CreatePost(op.user, op.valid, op.communityID, op.attachments, op.photos, op.read, op.rowOk,
                                op.stuck);
    e := Effect(key, left);
  }

  method UpdatePost(s: Services.MediaServices, op: Op) returns (ghost e: Effect)
    requires op.EditPost? && s.Valid() && Sound(s.Now()) && Fresh(NewNames(op), s.dir.disk)
    modifies s, s.dir
    ensures s.Valid() && Performs(old(s.Now()), op, e, s.Now())
  {
    SoundStored(s.Now(), OfPost(op.id));
    FreshParts(op.attachments, op.photos, s.dir.disk);
    var _, left := s.UpdatePost(op.id, op.user, op.valid, op.attachments, op.photos, op.read, op.cut, op.rowOk,
                                op.stuck);
    e := Effect(0, left);
  }

  method DeletePost(s: Services.MediaServices, op: Op) returns (ghost e: Effect)
    requires op.DropPost? && s.Valid() && Sound(s.Now()) && Fresh(NewNames(op), s.dir.disk)
    modifies s, s.dir
    ensures s.Valid() && Performs(old(s.Now()), op, e, s.Now())
  {
    SoundStored(s.Now(), OfPost(op.id));
    var _, left := s.DeletePost(op.id, op.user, op.read, op.cut, op.rowOk, op.stuck);
    e := Effect(0, left);
  }

  /** One call, whichever it is, on services in any sound state. */
  method Perform(s: Services.MediaServices, op: Op) returns (ghost e: Effect)
    requires s.Valid() && Sound(s.Now()) && Fresh(NewNames(op), s.dir.disk)
    modifies s, s.dir, s.store
    ensures s.Valid() && Performs(old(s.Now()), op, e, s.Now())
    ensures Sound(s.Now()) && Orphans(s.Now().rows, s.dir.disk)
                              == old(Orphans(s.Now().rows, s.dir.disk)) + old(Leaks(s.Now(), op, e))
  {
    ghost var m := s.Now();
    if op.NewMessage? {
      ghost var key := s.store.nextMessage;
      var _, left := s.CreateMessage(op.refused, op.files, op.sticker, op.now, op.faults, op.stuck);
      e := Effect(key, left);
    } else if op.NewCommunity? {
      e := CreateCommunity(s, op);
    } else if op.EditCommunity? {
      e := UpdateCommunity(s, op);
    } else if op.DropCommunity? {
      e := DeleteCommunity(s, op);
    } else if op.NewPost? {
      e := CreatePost(s, op);
    } else if op.EditPost? {
      e := UpdatePost(s, op);
    } else {
      e := DeletePost(s, op);
    }
    PerformConserves(m, op, e, s.Now());
  }

  function NamesOf(ops: seq<Op>): seq<seq<string>> {
    seq(|ops|, i requires 0 <= i < |ops| => NewNames(ops[i]))
  }

  /** m is where the first i calls have led. */
  ghost predicate Served(states: seq<Media>, ops: seq<Op>, effects: seq<Effect>, i: nat, m: Media) {
    && i <= |ops| && |states| == i + 1 && states[i] == m
    && IsRun(states, ops[..i], effects) && Sound(m)
    && m.disk <= Elems(Concat(NamesOf(ops)[..i]))
  }

  lemma ServedOneMore(states: seq<Media>, ops: seq<Op>, effects: seq<Effect>, i: nat, e: Effect, n: Media)
    requires Fresh(Concat(NamesOf(ops)), {}) && i < |ops| && i < |states| && Served(states, ops, effects, i, states[i])
    requires Performs(states[i], ops[i], e, n) && Sound(n)
    ensures Served(states + [n], ops, effects + [e], i + 1, n)
  {
    RunGrows(states, ops, effects, i, e, n);
    NextFresh(NamesOf(ops), i, states[i].disk);
  }

  lemma RunGrows(states: seq<Media>, ops: seq<Op>, effects: seq<Effect>, i: nat, e: Effect, n: Media)
    requires i < |ops| && IsRun(states, ops[..i], effects) && Performs(states[i], ops[i], e, n)
    ensures IsRun(states + [n], ops[..i + 1], effects + [e])
  {
    var longer, more, drawn := states + [n], ops[..i + 1], effects + [e];
    forall j | 0 <= j < |more|
      ensures Performs(longer[j], more[j], drawn[j], longer[j + 1])
    {
      if j < i {
        assert more[j] == ops[..i][j] && drawn[j] == effects[j];
        assert longer[j] == states[j] && longer[j + 1] == states[j + 1];
      }
    }
  }

  /** The services, started empty, serving any sequence of calls whose file names
      are all different. */
  method Serve(s: Services.MediaServices, ops: seq<Op>) returns (ghost states: seq<Media>, ghost effects: seq<Effect>)
    requires s.Valid() && s.Now() == NOTHING && Fresh(Concat(NamesOf(ops)), {})
    modifies s, s.dir, s.store
    ensures s.Valid() && Sound(s.Now())
    ensures IsRun(states, ops, effects) && states[|ops|] == s.Now()
    ensures RemovalsSucceed(ops) ==> Orphans(s.Now().rows, s.dir.disk) == Union(LeftIn(states, ops), |ops|)
    ensures RemovalsSucceed(ops) && (forall i :: 0 <= i < |ops| ==> !OnPosts(ops[i])) ==>
              forall f :: f in s.dir.disk <==> Named(s.Now().rows, f)
  {
    states, effects := [NOTHING], [];
    EmptyIsSound();
    for i := 0 to |ops|
      invariant s.Valid() && Served(states, ops, effects, i, s.Now())
    {
      NextFresh(NamesOf(ops), i, s.dir.disk);
      ghost var e := Perform(s, ops[i]);
      ServedOneMore(states, ops, effects, i, e, s.Now());
      states, effects := states + [s.Now()], effects + [e];
    }
    assert ops[..|ops|] == ops;
    RunEnds(states, ops, effects);
  }

  lemma RunEnds(states: seq<Media>, ops: seq<Op>, effects: seq<Effect>)
    requires IsRun(states, ops, effects)
    ensures var last := states[|ops|];
            && (RemovalsSucceed(ops) ==> Orphans(last.rows, last.disk) == Union(LeftIn(states, ops), |ops|))
            && (RemovalsSucceed(ops) && (forall i :: 0 <= i < |ops| ==> !OnPosts(ops[i])) ==>
                  forall f :: f in last.disk <==> Named(last.rows, f))
  {
    if RemovalsSucceed(ops) {
      RunLeaves(states, ops, effects, |ops|);
      if forall i :: 0 <= i < |ops| ==> !OnPosts(ops[i]) {
        FilesConserved(states, ops, effects, |ops|);
      }
    }
  }

  // ---------------------------------------------------- the leaks, one run each

  /** A post for a community that is not there: the upload succeeded, so did every
      removal, and the file stays. */
  lemma RefusedPostLeaks() returns (states: seq<Media>, ops: seq<Op>, effects: seq<Effect>)
    ensures IsRun(states, ops, effects) && RemovalsSucceed(ops)
    ensures ops == [NewPost(1, true, Some(7), [Upload("a.png", true)], [], Answers, true, {})]
    ensures states[1].disk == {"a.png"} && !Named(states[1].rows, "a.png")
  {
    var photo := Upload("a.png", true);
    ops := [NewPost(1, true, Some(7), [photo], [], Answers, true, {})];
    var after := NOTHING.(disk := {"a.png"});
    states, effects := [NOTHING, after], [Effect(1, {"a.png"})];
    assert Names([photo]) == ["a.png"] && Names([]) == [];
    assert FilesOf(NOTHING.rows, OfPost(1)) == [];
    assert Performs(NOTHING, ops[0], effects[0], after);
    forall o
      ensures FilesOf(after.rows, o) == []
    {
    }
  }

  /** The state of one post of user 1, in community, with these files. */
  function OnePost(communities: map<int, Community>, community: Option<int>, files: seq<string>,
                   disk: set<string>): Media {
    Media(Rows(communities, map[1 := Post(1, community, files, [])], map[]), disk)
  }

  function Posting(community: Option<int>, files: seq<Upload>): Op {
    NewPost(1, true, community, files, [], Answers, true, {})
  }

  lemma Posted(communities: map<int, Community>, community: Option<int>, files: seq<Upload>)
    requires AllOk(files) && Fresh(Names(files), {}) && MayPost(communities, 1, community, Answers)
    ensures Performs(Media(Rows(communities, map[], map[]), {}), Posting(community, files), Effect(1, {}),
                     OnePost(communities, community, Names(files), Elems(Names(files))))
  {
    var before := Media(Rows(communities, map[], map[]), {});
    var after := OnePost(communities, community, Names(files), Elems(Names(files)));
    assert Names([]) == [] && Names(files) + [] == Names(files);
    assert FilesOf(before.rows, OfPost(1)) == [] && FilesOf(after.rows, OfPost(1)) == Names(files);
    assert after.rows == RowsAfter(before.rows, Posting(community, files), 1);
  }

  lemma RunOfTwo(o: Op, p: Op, d: Effect, e: Effect, m: Media, n: Media)
    requires Performs(NOTHING, o, d, m) && Performs(m, p, e, n)
    ensures IsRun([NOTHING, m, n], [o, p], [d, e])
    ensures o.stuck == p.stuck == {} ==> RemovalsSucceed([o, p])
  {
  }

  lemma RunOfThree(o: Op, p: Op, q: Op, d: Effect, e: Effect, f: Effect, m: Media, n: Media, k: Media)
    requires Performs(NOTHING, o, d, m) && Performs(m, p, e, n) && Performs(n, q, f, k)
    ensures IsRun([NOTHING, m, n, k], [o, p, q], [d, e, f])
    ensures o.stuck == p.stuck == q.stuck == {} ==> RemovalsSucceed([o, p, q])
  {
    RunOfTwo(o, p, d, e, m, n);
    assert [o, p, q][..2] == [o, p] && [o, p, q][..3] == [o, p, q];
    RunGrows([NOTHING, m, n], [o, p, q], [d, e], 2, f, k);
    assert [NOTHING, m, n] + [k] == [NOTHING, m, n, k] && [d, e] + [f] == [d, e, f];
  }

  function A(): Upload { Upload("a", true) }

  function B(): Upload { Upload("b", true) }

  lemma TheirNames()
    ensures Names([A()]) == ["a"] && Names([B()]) == ["b"] && Names([A(), B()]) == ["a", "b"]
    ensures Elems(["a"]) == {"a"} && Elems(["b"]) == {"b"} && Elems(["a", "b"]) == {"a", "b"}
  {
  }

  lemma FailedUpdate()
    ensures Performs(OnePost(map[], None, ["a"], {"a"}),
                     EditPost(1, 1, true, [B()], [], Answers, Cut(1, 0), false, {}), Effect(0, {"b"}),
                     OnePost(map[], None, ["a"], {"a", "b"}))
  {
    var one, two := OnePost(map[], None, ["a"], {"a"}), OnePost(map[], None, ["a"], {"a", "b"});
    TheirNames();
    assert Names([]) == [] && FilesOf(one.rows, OfPost(1)) == ["a"];
    var left := StaysMoves(one, two, OfPost(1));
    assert left == {"b"};
  }

  /** A post with one file, and an update of its files whose row write fails: the
      new file stays beside the old one. */
  lemma FailedUpdateLeaks() returns (states: seq<Media>, ops: seq<Op>, effects: seq<Effect>)
    ensures IsRun(states, ops, effects) && RemovalsSucceed(ops)
    ensures ops == [Posting(None, [A()]), EditPost(1, 1, true, [B()], [], Answers, Cut(1, 0), false, {})]
    ensures |states| == 3 && states[2].disk == {"a", "b"} && !Named(states[2].rows, "b")
  {
    var update := EditPost(1, 1, true, [B()], [], Answers, Cut(1, 0), false, {});
    var one, two := OnePost(map[], None, ["a"], {"a"}), OnePost(map[], None, ["a"], {"a", "b"});
    TheirNames();
    Posted(map[], None, [A()]);
    FailedUpdate();
    RunOfTwo(Posting(None, [A()]), update, Effect(1, {}), Effect(0, {"b"}), one, two);
    states, ops, effects := [NOTHING, one, two], [Posting(None, [A()]), update], [Effect(1, {}), Effect(0, {"b"})];
    assert forall o :: "b" !in FilesOf(two.rows, o);
  }

  function Founding(): Op {
    NewCommunity(1, true, None, None, true, {})
  }

  const FOUNDED := map[1 := Community(1, None, None)]

  lemma Founded()
    ensures Performs(NOTHING, Founding(), Effect(1, {}), Media(Rows(FOUNDED, map[], map[]), {}))
  {
  }

  lemma Cascaded()
    ensures Performs(OnePost(FOUNDED, Some(1), ["a"], {"a"}), DropCommunity(1, 1, Answers, true, {}), Effect(0, {}),
                     NOTHING.(disk := {"a"}))
  {
    var posted := OnePost(FOUNDED, Some(1), ["a"], {"a"});
    assert PostsOf(posted.rows.posts, 1) == {1};
    assert RowsAfter(posted.rows, DropCommunity(1, 1, Answers, true, {}), 0) == NOTHING.rows;
  }

  lemma NothingNamed(f: string)
    ensures !Named(NOTHING.rows, f)
  {
    assert forall o :: FilesOf(NOTHING.rows, o) == [];
  }

  /** A post deleted with its community: its file stays. */
  lemma CascadeLeaks() returns (states: seq<Media>, ops: seq<Op>, effects: seq<Effect>)
    ensures IsRun(states, ops, effects) && RemovalsSucceed(ops)
    ensures ops == [Founding(), Posting(Some(1), [A()]), DropCommunity(1, 1, Answers, true, {})]
    ensures |states| == 4 && states[3].disk == {"a"} && !Named(states[3].rows, "a")
  {
    var founded, posted := Media(Rows(FOUNDED, map[], map[]), {}), OnePost(FOUNDED, Some(1), ["a"], {"a"});
    var posting, drop := Posting(Some(1), [A()]), DropCommunity(1, 1, Answers, true, {});
    var one, none := Effect(1, {}), Effect(0, {});
    TheirNames();
    Founded();
    Posted(FOUNDED, Some(1), [A()]);
    Cascaded();
    NothingNamed("a");
    RunOfThree(Founding(), posting, drop, one, one, none, founded, posted, NOTHING.(disk := {"a"}));
    states := [NOTHING, founded, posted, NOTHING.(disk := {"a"})];
    ops, effects := [Founding(), posting, drop], [one, one, none];
  }

  lemma StrangerRefused()
    ensures Performs(Media(Rows(FOUNDED, map[], map[]), {}), NewPost(2, true, Some(1), [A()], [], Answers, true, {}),
                     Effect(1, {"a"}), Media(Rows(FOUNDED, map[], map[]), {"a"}))
  {
    var before := Media(Rows(FOUNDED, map[], map[]), {});
    TheirNames();
    assert Names([]) == [] && FilesOf(before.rows, OfPost(1)) == [];
    var left := StaysMoves(before, before.(disk := {"a"}), OfPost(1));
    assert left == {"a"};
  }

  /** A stranger's post to a community: no post is stored, and its file stays. */
  lemma StrangerLeaks() returns (states: seq<Media>, ops: seq<Op>, effects: seq<Effect>)
    ensures IsRun(states, ops, effects) && RemovalsSucceed(ops)
    ensures ops == [Founding(), NewPost(2, true, Some(1), [A()], [], Answers, true, {})]
    ensures |states| == 3 && states[2].rows.posts == map[] && states[2].disk == {"a"}
  {
    var founded, refused := Media(Rows(FOUNDED, map[], map[]), {}), Media(Rows(FOUNDED, map[], map[]), {"a"});
    var posting := NewPost(2, true, Some(1), [A()], [], Answers, true, {});
    Founded();
    StrangerRefused();
    RunOfTwo(Founding(), posting, Effect(1, {}), Effect(1, {"a"}), founded, refused);
    states, ops, effects := [NOTHING, founded, refused], [Founding(), posting], [Effect(1, {}), Effect(1, {"a"})];
  }

  lemma CutDeletion()
    ensures Performs(OnePost(map[], None, ["a", "b"], {"a", "b"}), DropPost(1, 1, Answers, Cut(1, 0), true, {}),
                     Effect(0, {"b"}), NOTHING.(disk := {"b"}))
  {
    var one := OnePost(map[], None, ["a", "b"], {"a", "b"});
    TheirNames();
    assert FilesOf(one.rows, OfPost(1)) == ["a", "b"];
    assert NOTHING.rows == RowsAfter(one.rows, DropPost(1, 1, Answers, Cut(1, 0), true, {}), 0);
    assert ["a", "b"][1..] == ["b"];
    assert Unseen(one.rows.posts[1], Cut(1, 0)) == {"b"};
  }

  /** A deletion that is told of the first of two files only: the second stays. */
  lemma CutReadLeaks() returns (states: seq<Media>, ops: seq<Op>, effects: seq<Effect>)
    ensures IsRun(states, ops, effects) && RemovalsSucceed(ops)
    ensures ops == [Posting(None, [A(), B()]), DropPost(1, 1, Answers, Cut(1, 0), true, {})]
    ensures |states| == 3 && states[2].disk == {"b"} && !Named(states[2].rows, "b")
  {
    var one, drop := OnePost(map[], None, ["a", "b"], {"a", "b"}), DropPost(1, 1, Answers, Cut(1, 0), true, {});
    TheirNames();
    Posted(map[], None, [A(), B()]);
    CutDeletion();
    NothingNamed("b");
    RunOfTwo(Posting(None, [A(), B()]), drop, Effect(1, {}), Effect(0, {"b"}), one, NOTHING.(disk := {"b"}));
    states := [NOTHING, one, NOTHING.(disk := {"b"})];
    ops, effects := [Posting(None, [A(), B()]), drop], [Effect(1, {}), Effect(0, {"b"})];
  }
}
