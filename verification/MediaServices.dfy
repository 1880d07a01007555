/** Communities, posts and messages with their files: the order of uploads, row
    writes and clean-up in internal/service/community.go, post.go and chat.go. */
module MediaServices {
  import opened Wrappers
  import opened Domain
  import opened Collections
  import opened MessageStore
  import opened UploadDir
  import opened FileRows

  /** What the store says when asked for a row: it fails, or it answers. */
  datatype Reply = Down | Answers

  function OptName(file: Option<Upload>): Option<string> {
    if file.Some? then Some(file.value.name) else None
  }

  ghost predicate OptOk(file: Option<Upload>) {
    file.Some? ==> file.value.ok
  }

  /** The new files a failed update of a list leaves behind: as many of the first
      as the list had files before. */
  function LeftOver(files: seq<Upload>, before: seq<string>): seq<string> {
    if |files| < |before| then Names(files) else Names(files)[..|before|]
  }

  /** How many rows the read of a post got from each of its lists. The loops over
      the rows stop without an error when the connection breaks off, so a call may
      be told of fewer files than the post has. */
  datatype Cut = Cut(attachments: nat, photos: nat)

  /** The post as a call sees it. */
  function Seen(p: Post, cut: Cut): Post {
    p.(attachments := p.attachments[..Least(cut.attachments, |p.attachments|)],
       photos := p.photos[..Least(cut.photos, |p.photos|)])
  }

  /** The files of a post that a call is not told of. */
  ghost function Unseen(p: Post, cut: Cut): set<string> {
    Elems(p.attachments[Least(cut.attachments, |p.attachments|)..]) + Elems(p.photos[Least(cut.photos, |p.photos|)..])
  }

  /** What an update of post p leaves over when every removal succeeds: after a
      failure, of each kind uploaded as many new files as the call saw old ones;
      after a success, the files it did not see. */
  ghost function LeftByUpdate(p: Post, cut: Cut, attachments: seq<Upload>, photos: seq<Upload>,
                              rowOk: bool): set<string> {
    if !AllOk(attachments) then {}
    else if !AllOk(photos) then Elems(LeftOver(attachments, Seen(p, cut).attachments))
    else if !rowOk then
      Elems(LeftOver(attachments, Seen(p, cut).attachments)) + Elems(LeftOver(photos, Seen(p, cut).photos))
    else Unseen(p, cut)
  }

  function CreatorOf(communities: map<int, Community>, id: int): Option<int> {
    if id in communities then Some(communities[id].creator) else None
  }

  function AuthorOf(posts: map<int, Post>, id: int): Option<int> {
    if id in posts then Some(posts[id].author) else None
  }

  /** What keeps a user from changing a row: bad input, a failed read, no row, or
      a row that is not theirs. */
  function Barred(valid: bool, read: Reply, owner: Option<int>, user: int, missing: Error): (r: Option<Error>)
    requires missing in {ErrNotFound, ErrPostNotFound}
    ensures r == None <==> valid && read == Answers && owner == Some(user)
    ensures r == Some(ErrInvalidInput) <==> !valid
    ensures r == Some(ErrDB) <==> valid && read == Down
    ensures r == Some(missing) <==> valid && read == Answers && owner == None
    ensures r == Some(ErrAccessDenied) <==> valid && read == Answers && owner != None && owner != Some(user)
  {
    if !valid then Some(ErrInvalidInput)
    else if read.Down? then Some(ErrDB)
    else if owner.None? then Some(missing)
    else if owner != Some(user) then Some(ErrAccessDenied)
    else None
  }

  predicate MayEdit(valid: bool, read: Reply, posts: map<int, Post>, id: int, user: int) {
    Barred(valid, read, AuthorOf(posts, id), user, ErrPostNotFound).None?
  }

  function Outcome(uploaded: bool, rowOk: bool): (r: Option<Error>)
    ensures r == None <==> uploaded && rowOk
    ensures r == Some(ErrService) <==> !uploaded
    ensures r == Some(ErrDB) <==> uploaded && !rowOk
  {
    if !uploaded then Some(ErrService) else if !rowOk then Some(ErrDB) else None
  }

  predicate InCommunity(communities: map<int, Community>, communityID: Option<int>, read: Reply) {
    communityID.Some? && read.Answers? && communityID.value in communities
  }

  predicate MayPost(communities: map<int, Community>, user: int, communityID: Option<int>, read: Reply) {
    communityID.Some? ==> InCommunity(communities, communityID, read) && communities[communityID.value].creator == user
  }

  ghost function PostsOf(posts: map<int, Post>, community: int): set<int> {
    set p | p in posts && posts[p].community == Some(community)
  }

  ghost predicate Couples(messages: map<int, seq<string>>, stored: set<int>, rows: AttachmentRows) {
    && stored == messages.Keys
    && forall m :: m in messages ==> Attached(rows, m, messages[m])
  }

  lemma CouplesGrows(messages: map<int, seq<string>>, stored: set<int>, rows: AttachmentRows,
                     first: int, id: int, paths: seq<string>, now: int)
    requires Couples(messages, stored, rows) && id !in messages && IsNew(rows, first, id)
    ensures Couples(messages[id := paths], stored + {id}, WithRows(rows, first, id, paths, now))
  {
    AttachedGrows(rows, first, id, paths, now, id, []);
    forall other | other in messages
      ensures Attached(WithRows(rows, first, id, paths, now), other, messages[other])
    {
      AttachedGrows(rows, first, id, paths, now, other, messages[other]);
    }
  }

  class MediaServices {
    const dir: UploadDir
    const store: DBMessageStore
    var communities: map<int, Community>
    var posts: map<int, Post>
    var messages: map<int, seq<string>>
    var nextCommunity: int
    var nextPost: int

    ghost function Now(): Media
      reads this, dir
    {
      Media(Rows(communities, posts, messages), dir.disk)
    }

    ghost predicate Valid()
      reads this, store
    {
      KeysDrawn() && Coupled()
    }

    /** Keys are drawn in ascending order. */
    ghost predicate KeysDrawn()
      reads this`communities, this`posts, this`nextCommunity, this`nextPost
    {
      && (forall c :: c in communities ==> c < nextCommunity)
      && (forall p :: p in posts ==> p < nextPost)
    }

    /** The attachment rows of each message are the files it names here. */
    ghost predicate Coupled()
      reads this`messages, store
    {
      store.Valid() && Couples(messages, store.messages, store.rows)
    }

    constructor (dir: UploadDir, store: DBMessageStore)
      requires dir.disk == {} && store.Valid() && store.messages == {}
      ensures this.dir == dir && this.store == store && Valid() && messages == map[]
      ensures Now() == Media(Rows(map[], map[], map[]), {}) && Sound(Now())
    {
      this.dir, this.store := dir, store;
      communities, posts, messages, nextCommunity, nextPost := map[], map[], map[], 1, 1;
      EmptyIsSound();
    }

    // ----------------------------------------------------------- communities

    method CreateCommunity(user: int, valid: bool, avatar: Option<Upload>, cover: Option<Upload>,
                           rowOk: bool, stuck: set<string>)
      returns (r: Result<int, Error>, ghost left: set<string>)
      requires nextCommunity !in communities && Fresh(Path(OptName(avatar)) + Path(OptName(cover)), dir.disk)
      modifies dir, this`communities, this`nextCommunity
      ensures nextCommunity == if r.Ok? then old(nextCommunity) + 1 else old(nextCommunity)
      ensures Moves(old(Now()), Now(), OfCommunity(old(nextCommunity)), left) && left <= stuck
      ensures dir.disk <= old(dir.disk) + Elems(Path(OptName(avatar)) + Path(OptName(cover)))
      ensures r.Ok? <==> valid && OptOk(avatar) && OptOk(cover) && rowOk
      ensures r.Err? ==> communities == old(communities)
      ensures r.Err? ==> r.error == if !valid then ErrInvalidInput
                                    else if OptOk(avatar) && OptOk(cover) then ErrDB else ErrService
      ensures r.Ok? ==> r.value == old(nextCommunity) && left == {}
      ensures r.Ok? ==> communities == old(communities)[r.value := Community(user, OptName(avatar), OptName(cover))]
    {
      ghost var m := Now();
      var id := nextCommunity;
      left := StaysMoves(m, m, OfCommunity(id));
      TwoPaths(OptName(avatar), OptName(cover));
      if !valid {
        return Err(ErrInvalidInput), {};
      }
      var avatarPath: Option<string> := None;
      if avatar.Some? {
        var uploaded := dir.UploadFile(avatar.value);
        if uploaded.Err? {
          return Err(ErrService), {};
        }
        avatarPath := Some(uploaded.value);
      }
      var coverPath: Option<string> := None;
      if cover.Some? {
        var uploaded := dir.UploadFile(cover.value);
        if uploaded.Err? {
          if avatarPath.Some? {
            var _ := dir.DeleteFile(avatarPath.value, stuck);
          }
          left := StaysMoves(m, Now(), OfCommunity(id));
          return Err(ErrService), left;
        }
        coverPath := Some(uploaded.value);
      }
      if !rowOk {
        if avatarPath.Some? {
          var _ := dir.DeleteFile(avatarPath.value, stuck);
        }
        if coverPath.Some? {
          var _ := dir.DeleteFile(coverPath.value, stuck);
        }
        left := StaysMoves(m, Now(), OfCommunity(id));
        return Err(ErrDB), left;
      }
      communities, nextCommunity := communities[id := Community(user, avatarPath, coverPath)], id + 1;
      CommunityAdded(m, Now(), id, communities[id]);
      return Ok(id), {};
    }

    method UpdateCommunity(id: int, user: int, valid: bool, avatar: Option<Upload>, cover: Option<Upload>,
                           read: Reply, rowOk: bool, stuck: set<string>)
      returns (err: Option<Error>, ghost left: set<string>)
      requires Stored(Now(), OfCommunity(id))
      requires Fresh(Path(OptName(avatar)) + Path(OptName(cover)), dir.disk)
      modifies dir, this`communities
      ensures dir.disk <= old(dir.disk) + Elems(Path(OptName(avatar)) + Path(OptName(cover)))
      ensures Moves(old(Now()), Now(), OfCommunity(id), left) && left <= stuck
      ensures err.None? ==> id in old(communities) && old(communities)[id].creator == user
      ensures err == Some(ErrAccessDenied) <==>
                valid && read == Answers && id in old(communities) && old(communities)[id].creator != user
      ensures err == var barred := Barred(valid, read, CreatorOf(old(communities), id), user, ErrNotFound);
                     if barred.Some? then barred else Outcome(OptOk(avatar) && OptOk(cover), rowOk)
      ensures err.Some? ==> communities == old(communities)
      ensures err.None? ==>
                communities == old(communities)[id := Community(user,
                  if avatar.Some? then OptName(avatar) else old(communities)[id].avatar,
                  if cover.Some? then OptName(cover) else old(communities)[id].cover)]
    {
      ghost var m := Now();
      TwoPaths(OptName(avatar), OptName(cover));
      left := StaysMoves(m, m, OfCommunity(id));
      if !valid {
        return Some(ErrInvalidInput), {};
      }
      if read.Down? {
        return Some(ErrDB), {};
      }
      if id !in communities {
        return Some(ErrNotFound), {};
      }
      var existing := communities[id];
      if existing.creator != user {
        return Some(ErrAccessDenied), {};
      }
      var newAvatarPath := existing.avatar;
      if avatar.Some? {
        var uploaded := dir.UploadFile(avatar.value);
        if uploaded.Err? {
          return Some(ErrService), {};
        }
        newAvatarPath := Some(uploaded.value);
      }
      var newCoverPath := existing.cover;
      if cover.Some? {
        var uploaded := dir.UploadFile(cover.value);
        if uploaded.Err? {
          if avatar.Some? {
            var _ := dir.DeleteFile(newAvatarPath.value, stuck);
          }
          left := StaysMoves(m, Now(), OfCommunity(id));
          return Some(ErrService), left;
        }
        newCoverPath := Some(uploaded.value);
      }
      err, left := RewriteCommunity(id, avatar, cover, newAvatarPath, newCoverPath, m.disk, rowOk, stuck);
    }

    /** The second half of UpdateCommunity, the new files being on top of disk. */
    method RewriteCommunity(id: int, avatar: Option<Upload>, cover: Option<Upload>, newAvatarPath: Option<string>,
                            newCoverPath: Option<string>, ghost disk: set<string>, rowOk: bool, stuck: set<string>)
      returns (err: Option<Error>, ghost left: set<string>)
      requires id in communities && Stored(Now().(disk := disk), OfCommunity(id))
      requires Fresh(Path(OptName(avatar)) + Path(OptName(cover)), disk)
      requires forall f :: f in dir.disk <==> f in disk || OptName(avatar) == Some(f) || OptName(cover) == Some(f)
      requires newAvatarPath == if avatar.Some? then OptName(avatar) else communities[id].avatar
      requires newCoverPath == if cover.Some? then OptName(cover) else communities[id].cover
      modifies dir, this`communities
      ensures dir.disk <= old(dir.disk)
      ensures Moves(old(Now().(disk := disk)), Now(), OfCommunity(id), left) && left <= stuck
      ensures err == if rowOk then None else Some(ErrDB)
      ensures communities == if rowOk then old(communities)[id := Community(old(communities)[id].creator,
                                                                            newAvatarPath, newCoverPath)]
                             else old(communities)
    {
      ghost var m := Now().(disk := disk);
      var existing := communities[id];
      TwoPaths(OptName(avatar), OptName(cover));
      if !rowOk {
        if avatar.Some? {
          var _ := dir.DeleteFile(newAvatarPath.value, stuck);
        }
        if cover.Some? {
          var _ := dir.DeleteFile(newCoverPath.value, stuck);
        }
        left := StaysMoves(m, Now(), OfCommunity(id));
        return Some(ErrDB), left;
      }
      communities := communities[id := Community(existing.creator, newAvatarPath, newCoverPath)];
      if avatar.Some? && existing.avatar.Some? {
        var _ := dir.DeleteFile(existing.avatar.value, stuck);
      }
      if cover.Some? && existing.cover.Some? {
        var _ := dir.DeleteFile(existing.cover.value, stuck);
      }
      left := CommunityRewritten(m, Now(), id, avatar, cover, stuck);
      return None, left;
    }

    /** The row goes, and with it the rows of the community's posts. */
    method DeleteCommunity(id: int, user: int, read: Reply, rowOk: bool, stuck: set<string>)
      returns (err: Option<Error>, ghost left: set<string>)
      requires Stored(Now(), OfCommunity(id))
      modifies dir, this`communities, this`posts
      ensures dir.disk <= old(dir.disk)
      ensures err == Some(ErrAccessDenied) <==>
                read == Answers && id in old(communities) && old(communities)[id].creator != user
      ensures err == var barred := Barred(true, read, CreatorOf(old(communities), id), user, ErrNotFound);
                     if barred.Some? then barred else Outcome(true, rowOk)
      ensures err.Some? ==> Now() == old(Now()) && left == {}
      ensures err.None? ==> id in old(communities) && old(communities)[id].creator == user
      ensures err.None? ==> forall p :: p in posts <==> p in old(posts) && old(posts)[p].community != Some(id)
      ensures err.None? ==>
                && communities == old(communities) - {id} && left <= stuck
                && Moves(old(Now()), Now().(rows := Now().rows.(posts := old(posts))), OfCommunity(id), left)
                && Cascades(Now().(rows := Now().rows.(posts := old(posts))), Now(), PostsOf(old(posts), id))
    {
      ghost var m := Now();
      left := {};
      if read.Down? {
        return Some(ErrDB), {};
      }
      if id !in communities {
        return Some(ErrNotFound), {};
      }
      var existing := communities[id];
      if existing.creator != user {
        return Some(ErrAccessDenied), {};
      }
      if !rowOk {
        return Some(ErrDB), {};
      }
      communities := communities - {id};
      posts := map p | p in posts && posts[p].community != Some(id) :: posts[p];
      if existing.avatar.Some? {
        var _ := dir.DeleteFile(existing.avatar.value, stuck);
      }
      if existing.cover.Some? {
        var _ := dir.DeleteFile(existing.cover.value, stuck);
      }
      assert posts == old(posts) - PostsOf(old(posts), id);
      left := CommunityGone(m, Now().(rows := Now().rows.(posts := old(posts))), id, stuck);
      return None, left;
    }

    // ----------------------------------------------------------------- posts

    method CreatePost(user: int, valid: bool, communityID: Option<int>, attachments: seq<Upload>, photos: seq<Upload>,
                      read: Reply, rowOk: bool, stuck: set<string>)
      returns (r: Result<int, Error>, ghost left: set<string>)
      requires nextPost !in posts && Fresh(Names(attachments) + Names(photos), dir.disk)
      modifies dir, this`posts, this`nextPost
      ensures nextPost == if r.Ok? then old(nextPost) + 1 else old(nextPost)
      ensures dir.disk <= old(dir.disk) + Elems(Names(attachments)) + Elems(Names(photos))
      ensures Moves(old(Now()), Now(), OfPost(old(nextPost)), left)
      ensures r.Err? ==> posts == old(posts)
      ensures r.Err? ==> r.error == if !valid then ErrInvalidInput
                                    else if !AllOk(attachments) || !AllOk(photos) then ErrService
                                    else if MayPost(communities, user, communityID, read) then ErrDB
                                    else if InCommunity(communities, communityID, read) then ErrAccessDenied
                                    else ErrNotFound
      ensures r.Ok? && communityID != None ==>
                communityID.value in communities && communities[communityID.value].creator == user
      ensures r.Ok? ==> r.value == old(nextPost) && left == {}
      ensures r.Ok? ==> posts == old(posts)[r.value := Post(user, communityID, Names(attachments), Names(photos))]
      ensures r.Ok? <==>
                valid && AllOk(attachments) && AllOk(photos) && MayPost(communities, user, communityID, read) && rowOk
      ensures stuck == {} ==>
                left == if valid && AllOk(attachments) && AllOk(photos)
                           && !MayPost(communities, user, communityID, read)
                        then Elems(Names(attachments)) + Elems(Names(photos)) else {}
    {
      ghost var m := Now();
      var id := nextPost;
      left := StaysMoves(m, m, OfPost(id));
      FreshParts(attachments, photos, dir.disk);
      if !valid {
        return Err(ErrInvalidInput), {};
      }
      var attachmentPaths: seq<string> := [];
      if |attachments| > 0 {
        var uploaded := dir.UploadFiles(attachments, stuck);
        if uploaded.Err? {
          left := StaysMoves(m, Now(), OfPost(id));
          return Err(ErrService), left;
        }
        attachmentPaths := uploaded.value;
      }
      assert attachmentPaths == Names(attachments) && dir.disk == m.disk + Elems(attachmentPaths);
      var photoPaths: seq<string> := [];
      if |photos| > 0 {
        var uploaded := dir.UploadFiles(photos, stuck);
        if uploaded.Err? {
          if |attachmentPaths| > 0 {
            var _ := dir.DeleteFiles(attachmentPaths, stuck);
          }
          LeftBehind(m.disk, Elems(attachmentPaths), Elems(Names(photos)), {}, {}, dir.disk, stuck);
          left := StaysMoves(m, Now(), OfPost(id));
          return Err(ErrService), left;
        }
        photoPaths := uploaded.value;
      }
      assert photoPaths == Names(photos) && dir.disk == m.disk + Elems(attachmentPaths) + Elems(photoPaths);
      var refused := CheckCommunity(user, communityID, read);
      if refused.Some? {
        LeftBehind(m.disk, Elems(attachmentPaths), Elems(photoPaths), Elems(attachmentPaths), Elems(photoPaths),
                   dir.disk, stuck);
        left := StaysMoves(m, Now(), OfPost(id));
        return Err(refused.value), left;
      }
      r, left := StorePost(Post(user, communityID, attachmentPaths, photoPaths), m.disk, rowOk, stuck);
    }

    /** The row write of CreatePost, the post's files being on top of disk, and the
        clean-up when it fails. */
    method StorePost(post: Post, ghost disk: set<string>, rowOk: bool, stuck: set<string>)
      returns (r: Result<int, Error>, ghost left: set<string>)
      requires nextPost !in posts && Fresh(post.attachments + post.photos, disk)
      requires dir.disk == disk + Elems(post.attachments) + Elems(post.photos)
      modifies dir, this`posts, this`nextPost
      ensures nextPost == if rowOk then old(nextPost) + 1 else old(nextPost)
      ensures dir.disk <= old(dir.disk)
      ensures Moves(old(Now().(disk := disk)), Now(), OfPost(old(nextPost)), left)
      ensures r == if rowOk then Ok(old(nextPost)) else Err(ErrDB)
      ensures posts == if rowOk then old(posts)[old(nextPost) := post] else old(posts)
      ensures rowOk || stuck == {} ==> left == {}
    {
      ghost var m := Now().(disk := disk);
      var id, attachmentPaths, photoPaths := nextPost, post.attachments, post.photos;
      SliceParts(attachmentPaths, photoPaths, disk);
      if !rowOk {
        if |attachmentPaths| > 0 {
          var _ := dir.DeleteFiles(attachmentPaths, stuck);
        }
        if |photoPaths| > 0 {
          var _ := dir.DeleteFiles(photoPaths, stuck);
        }
        LeftBehind(m.disk, Elems(attachmentPaths), Elems(photoPaths), {}, {}, dir.disk, stuck);
        left := StaysMoves(m, Now(), OfPost(id));
        return Err(ErrDB), left;
      }
      posts, nextPost := posts[id := post], id + 1;
      PostAdded(m, Now(), id, posts[id]);
      return Ok(id), {};
    }

    /** A failed update cleans up only the new files beyond the old count. */
    method UpdatePost(id: int, user: int, valid: bool, attachments: seq<Upload>, photos: seq<Upload>,
                      read: Reply, cut: Cut, rowOk: bool, stuck: set<string>)
      returns (err: Option<Error>, ghost left: set<string>)
      requires Stored(Now(), OfPost(id)) && Fresh(Names(attachments) + Names(photos), dir.disk)
      modifies dir, this`posts
      ensures dir.disk <= old(dir.disk) + Elems(Names(attachments)) + Elems(Names(photos))
      ensures Moves(old(Now()), Now(), OfPost(id), left)
      ensures err.None? ==> id in old(posts) && old(posts)[id].author == user
      ensures err == Some(ErrAccessDenied) <==>
                valid && read == Answers && id in old(posts) && old(posts)[id].author != user
      ensures err == var barred := Barred(valid, read, AuthorOf(old(posts), id), user, ErrPostNotFound);
                     if barred.Some? then barred else Outcome(AllOk(attachments) && AllOk(photos), rowOk)
      ensures err.Some? ==> posts == old(posts)
      ensures err.None? ==>
                posts == old(posts)[id := Post(user, old(posts)[id].community,
                  if |attachments| > 0 then Names(attachments) else Seen(old(posts)[id], cut).attachments,
                  if |photos| > 0 then Names(photos) else Seen(old(posts)[id], cut).photos)]
      ensures stuck == {} ==>
                left == if !MayEdit(valid, read, old(posts), id, user) then {}
                        else LeftByUpdate(old(posts)[id], cut, attachments, photos, rowOk)
    {
      ghost var m := Now();
      left := StaysMoves(m, m, OfPost(id));
      FreshParts(attachments, photos, dir.disk);
      if !valid {
        return Some(ErrInvalidInput), {};
      }
      if read.Down? {
        return Some(ErrDB), {};
      }
      if id !in posts {
        return Some(ErrPostNotFound), {};
      }
      var existing := Seen(posts[id], cut);
      if existing.author != user {
        return Some(ErrAccessDenied), {};
      }
      var newAttachmentPaths := existing.attachments;
      if |attachments| > 0 {
        var uploaded := dir.UploadFiles(attachments, stuck);
        if uploaded.Err? {
          left := StaysMoves(m, Now(), OfPost(id));
          return Some(ErrService), left;
        }
        newAttachmentPaths := uploaded.value;
      }
      assert dir.disk == m.disk + Elems(Names(attachments));
      var newPhotoPaths := existing.photos;
      if |photos| > 0 {
        var uploaded := dir.UploadFiles(photos, stuck);
        if uploaded.Err? {
          CleanUp(attachments, existing.attachments, newAttachmentPaths, stuck);
          LeftBehind(m.disk, Elems(Names(attachments)), Elems(Names(photos)),
                     Elems(LeftOver(attachments, existing.attachments)), {}, dir.disk, stuck);
          left := StaysMoves(m, Now(), OfPost(id));
          return Some(ErrService), left;
        }
        newPhotoPaths := uploaded.value;
      }
      assert dir.disk == m.disk + Elems(Names(attachments)) + Elems(Names(photos));
      err, left := RewritePost(id, cut, attachments, photos, newAttachmentPaths, newPhotoPaths, m.disk, rowOk, stuck);
    }

    /** The second half of UpdatePost, the new files being on top of disk: the row
        write, and the removal of the new files or of the old. */
    method RewritePost(id: int, cut: Cut, attachments: seq<Upload>, photos: seq<Upload>,
                       newAttachmentPaths: seq<string>,
                       newPhotoPaths: seq<string>, ghost disk: set<string>, rowOk: bool, stuck: set<string>)
      returns (err: Option<Error>, ghost left: set<string>)
      requires id in posts && Stored(Now().(disk := disk), OfPost(id))
      requires Fresh(Names(attachments) + Names(photos), disk)
      requires dir.disk == disk + Elems(Names(attachments)) + Elems(Names(photos))
      requires newAttachmentPaths == if |attachments| > 0 then Names(attachments) else Seen(posts[id], cut).attachments
      requires newPhotoPaths == if |photos| > 0 then Names(photos) else Seen(posts[id], cut).photos
      modifies dir, this`posts
      ensures dir.disk <= old(dir.disk)
      ensures Moves(old(Now().(disk := disk)), Now(), OfPost(id), left)
      ensures err == if rowOk then None else Some(ErrDB)
      ensures posts == if rowOk then old(posts)[id := old(posts)[id].(attachments := newAttachmentPaths,
                                                                      photos := newPhotoPaths)]
                       else old(posts)
      ensures stuck == {} ==>
                left == if rowOk then Unseen(old(posts)[id], cut)
                        else Elems(LeftOver(attachments, Seen(old(posts)[id], cut).attachments))
                             + Elems(LeftOver(photos, Seen(old(posts)[id], cut).photos))
    {
      ghost var m := Now().(disk := disk);
      var existing := Seen(posts[id], cut);
      FreshParts(attachments, photos, disk);
      if !rowOk {
        CleanUp(attachments, existing.attachments, newAttachmentPaths, stuck);
        CleanUp(photos, existing.photos, newPhotoPaths, stuck);
        LeftBehind(m.disk, Elems(Names(attachments)), Elems(Names(photos)),
                   Elems(LeftOver(attachments, existing.attachments)), Elems(LeftOver(photos, existing.photos)),
                   dir.disk, stuck);
        left := StaysMoves(m, Now(), OfPost(id));
        return Some(ErrDB), left;
      }
      posts := posts[id := existing.(attachments := newAttachmentPaths, photos := newPhotoPaths)];
      if |attachments| > 0 && |existing.attachments| > 0 {
        var _ := dir.DeleteFiles(existing.attachments, stuck);
      }
      if |photos| > 0 && |existing.photos| > 0 {
        var _ := dir.DeleteFiles(existing.photos, stuck);
      }
      left := PostRewritten(m, Now(), id, cut, attachments, photos);
      return None, left;
    }

    /** The clean-up of UpdatePost for one list: newPaths[len(old):], if there are any. */
    method CleanUp(files: seq<Upload>, before: seq<string>, newPaths: seq<string>, stuck: set<string>)
      requires newPaths == if |files| > 0 then Names(files) else before
      requires NoDup(Names(files)) && forall n :: n in Names(files) ==> n != ""
      modifies dir
      ensures old(dir.disk) - Elems(Names(files)) <= dir.disk <= old(dir.disk)
      ensures stuck == {} ==> dir.disk == old(dir.disk) - (Elems(Names(files)) - Elems(LeftOver(files, before)))
      ensures Elems(LeftOver(files, before)) <= Elems(Names(files))
    {
      LeftOverSplits(files, before);
      if |newPaths| > |before| {
        var newFiles := newPaths[|before|..];
        var _ := dir.DeleteFiles(newFiles, stuck);
      }
    }

    method DeletePost(id: int, user: int, read: Reply, cut: Cut, rowOk: bool, stuck: set<string>)
      returns (err: Option<Error>, ghost left: set<string>)
      requires Stored(Now(), OfPost(id))
      modifies dir, this`posts
      ensures dir.disk <= old(dir.disk)
      ensures Moves(old(Now()), Now(), OfPost(id), left)
      ensures err.None? ==> id in old(posts) && old(posts)[id].author == user
      ensures err == Some(ErrAccessDenied) <==> read == Answers && id in old(posts) && old(posts)[id].author != user
      ensures err == var barred := Barred(true, read, AuthorOf(old(posts), id), user, ErrPostNotFound);
                     if barred.Some? then barred else Outcome(true, rowOk)
      ensures posts == if err.None? then old(posts) - {id} else old(posts)
      ensures stuck == {} ==> left == if err.None? then Unseen(old(posts)[id], cut) else {}
    {
      ghost var m := Now();
      left := StaysMoves(m, m, OfPost(id));
      if read.Down? {
        return Some(ErrDB), {};
      }
      if id !in posts {
        return Some(ErrPostNotFound), {};
      }
      var existing := Seen(posts[id], cut);
      if existing.author != user {
        return Some(ErrAccessDenied), {};
      }
      if !rowOk {
        return Some(ErrDB), {};
      }
      posts := posts - {id};
      var filesToDelete := existing.attachments + existing.photos;
      if |filesToDelete| > 0 {
        var _ := dir.DeleteFiles(filesToDelete, stuck);
      }
      left := PostGone(m, Now(), id, cut);
      return None, left;
    }

    // -------------------------------------------------------------- messages

    /** The files and the transaction of a message. refused is the outcome of the
        checks before them. */
    method CreateMessage(refused: Option<Error>, files: seq<Upload>, sticker: bool, now: int, faults: Faults,
                         stuck: set<string>)
      returns (r: Result<int, Error>, ghost left: set<string>)
      requires Coupled() && Fresh(Names(files), dir.disk)
      modifies dir, this`messages, store
      ensures Coupled() && dir.disk <= old(dir.disk) + Elems(Names(files))
      ensures Moves(old(Now()), Now(), OfMessage(old(store.nextMessage)), left) && (stuck == {} ==> left == {})
      ensures r.Ok? <==> refused.None? && (sticker || AllOk(files)) && Commits(Names(files), sticker, faults)
      ensures r.Err? ==> messages == old(messages) && store.rows == old(store.rows)
      ensures r.Err? ==> dir.disk == old(dir.disk) + left
      ensures r.Ok? ==> dir.disk == old(dir.disk) + Elems(if sticker then [] else Names(files))
      ensures store.nextMessage >= old(store.nextMessage)
      ensures r.Err? ==> r.error == if refused.Some? then refused.value
                                    else if !sticker && !AllOk(files) then ErrService else ErrDB
      ensures r.Ok? ==> r.value == old(store.nextMessage) && r.value !in old(messages)
      ensures r.Ok? ==> messages == old(messages)[r.value := if sticker then [] else Names(files)]
    {
      ghost var m := Now();
      ghost var o := OfMessage(store.nextMessage);
      ghost var stored, rows, first := store.messages, store.rows, store.nextRow;
      left := StaysMoves(m, m, o);
      if refused.Some? {
        return Err(refused.value), {};
      }
      var attachmentPaths: seq<string> := [];
      if |files| > 0 && !sticker {
        var uploaded := dir.UploadFiles(files, stuck);
        if uploaded.Err? {
          left := StaysMoves(m, Now(), o);
          return Err(ErrService), left;
        }
        attachmentPaths := uploaded.value;
      }
      assert attachmentPaths == if sticker then [] else Names(files);
      assert dir.disk == m.disk + Elems(attachmentPaths);
      var id := store.CreateMessage(attachmentPaths, sticker, now, faults);
      if id.None? {
        if |attachmentPaths| > 0 {
          var _ := dir.DeleteFiles(attachmentPaths, stuck);
        }
        left := StaysMoves(m, Now(), o);
        return Err(ErrDB), left;
      }
      CouplesGrows(messages, stored, rows, first, id.value, attachmentPaths, now);
      messages := messages[id.value := attachmentPaths];
      MessageAdded(m, Now(), id.value, attachmentPaths);
      return Ok(id.value), {};
    }

    /** The check of CreatePost, which comes after its uploads: any failure to read
        the community counts as its absence. */
    method CheckCommunity(user: int, communityID: Option<int>, read: Reply) returns (refused: Option<Error>)
      ensures refused == None <==>
                communityID == None ||
                (read == Answers && communityID.value in communities && communities[communityID.value].creator == user)
      ensures refused == Some(ErrAccessDenied) <==>
                && communityID != None && read == Answers && communityID.value in communities
                && communities[communityID.value].creator != user
      ensures refused == Some(ErrNotFound) <==>
                communityID != None && (read == Down || communityID.value !in communities)
      ensures refused.None? <==> MayPost(communities, user, communityID, read)
      ensures refused.Some? ==>
                refused.value == if InCommunity(communities, communityID, read) then ErrAccessDenied else ErrNotFound
    {
      if communityID.Some? {
        if read.Down? || communityID.value !in communities {
          return Some(ErrNotFound);
        }
        if communities[communityID.value].creator != user {
          return Some(ErrAccessDenied);
        }
      }
      return None;
    }
  }

  lemma RowAdded(m: Media, n: Media, o: Owner, names: seq<string>)
    requires FilesOf(m.rows, o) == [] && FilesOf(n.rows, o) == names && Replaced(m.rows, n.rows, o)
    requires Fresh(names, m.disk) && n.disk == m.disk + Elems(names)
    ensures Moves(m, n, o, {})
  {
  }

  lemma PostAdded(m: Media, n: Media, id: int, p: Post)
    requires id !in m.rows.posts && n.rows == m.rows.(posts := m.rows.posts[id := p])
    requires Fresh(p.attachments + p.photos, m.disk) && n.disk == m.disk + Elems(p.attachments) + Elems(p.photos)
    ensures Moves(m, n, OfPost(id), {})
  {
    assert n.disk == m.disk + Elems(p.attachments + p.photos);
    RowAdded(m, n, OfPost(id), p.attachments + p.photos);
  }

  lemma MessageAdded(m: Media, n: Media, id: int, paths: seq<string>)
    requires id !in m.rows.messages && n.rows == m.rows.(messages := m.rows.messages[id := paths])
    requires Fresh(paths, m.disk) && n.disk == m.disk + Elems(paths)
    ensures Moves(m, n, OfMessage(id), {})
  {
    RowAdded(m, n, OfMessage(id), paths);
  }

  lemma CommunityAdded(m: Media, n: Media, id: int, c: Community)
    requires id !in m.rows.communities && n.rows == m.rows.(communities := m.rows.communities[id := c])
    requires Fresh(Path(c.avatar) + Path(c.cover), m.disk)
    requires forall f :: f in n.disk <==> f in m.disk || c.avatar == Some(f) || c.cover == Some(f)
    ensures Moves(m, n, OfCommunity(id), {})
  {
    TwoPaths(c.avatar, c.cover);
    assert n.disk == m.disk + Elems(Path(c.avatar) + Path(c.cover));
    RowAdded(m, n, OfCommunity(id), Path(c.avatar) + Path(c.cover));
  }

  lemma CommunityRewritten(m: Media, n: Media, id: int, avatar: Option<Upload>, cover: Option<Upload>,
                           stuck: set<string>) returns (left: set<string>)
    requires Stored(m, OfCommunity(id)) && id in m.rows.communities
               && Fresh(Path(OptName(avatar)) + Path(OptName(cover)), m.disk)
    requires var c := m.rows.communities[id];
             n.rows == m.rows.(communities := m.rows.communities[id := Community(c.creator,
               if avatar.Some? then OptName(avatar) else c.avatar, if cover.Some? then OptName(cover) else c.cover)])
    requires var c := m.rows.communities[id];
             forall f :: f in n.disk <==>
               (f in m.disk || OptName(avatar) == Some(f) || OptName(cover) == Some(f))
               && (avatar.Some? && c.avatar == Some(f) ==> f in stuck)
               && (cover.Some? && c.cover == Some(f) ==> f in stuck)
    ensures Moves(m, n, OfCommunity(id), left) && left <= stuck
  {
    var o, c, d := OfCommunity(id), m.rows.communities[id], n.rows.communities[id];
    RewrittenPaths(c, d, avatar, cover, m.disk);
    assert FilesOf(m.rows, o) == Path(c.avatar) + Path(c.cover);
    assert FilesOf(n.rows, o) == Path(d.avatar) + Path(d.cover);
    RewriteMoves(m, n, o, stuck);
    left := (stuck * Elems(FilesOf(m.rows, o))) - Elems(FilesOf(n.rows, o));
  }

  /** The files a community names before and after an update, name by name. */
  lemma RewrittenPaths(c: Community, d: Community, avatar: Option<Upload>, cover: Option<Upload>, disk: set<string>)
    requires d.avatar == if avatar.Some? then OptName(avatar) else c.avatar
    requires d.cover == if cover.Some? then OptName(cover) else c.cover
    requires NoDup(Path(c.avatar) + Path(c.cover))
    requires forall f :: f in Path(c.avatar) + Path(c.cover) ==> f in disk && f != ""
    requires Fresh(Path(OptName(avatar)) + Path(OptName(cover)), disk)
    ensures NoDup(Path(d.avatar) + Path(d.cover))
    ensures forall f :: f in Path(c.avatar) + Path(c.cover) <==> c.avatar == Some(f) || c.cover == Some(f)
    ensures forall f :: f in Path(d.avatar) + Path(d.cover) <==> d.avatar == Some(f) || d.cover == Some(f)
    ensures forall f :: c.avatar == Some(f) || c.cover == Some(f) ==> f in disk && f != ""
    ensures forall f :: OptName(avatar) == Some(f) || OptName(cover) == Some(f) ==> f !in disk && f != ""
    ensures c.avatar.None? || c.avatar != c.cover
  {
    TwoPaths(c.avatar, c.cover);
    TwoPaths(d.avatar, d.cover);
    TwoPaths(OptName(avatar), OptName(cover));
  }

  lemma TwoPaths(a: Option<string>, b: Option<string>)
    ensures forall f :: f in Path(a) + Path(b) <==> a == Some(f) || b == Some(f)
    ensures NoDup(Path(a) + Path(b)) <==> a.None? || a != b
  {
    if a.Some? && b.Some? {
      assert (Path(a) + Path(b))[0] == a.value && (Path(a) + Path(b))[1] == b.value;
    }
  }

  lemma CommunityGone(m: Media, n: Media, id: int, stuck: set<string>) returns (left: set<string>)
    requires Stored(m, OfCommunity(id)) && id in m.rows.communities
               && n.rows == m.rows.(communities := m.rows.communities - {id})
    requires var c := m.rows.communities[id];
             forall f :: f in n.disk <==> f in m.disk && (c.avatar == Some(f) || c.cover == Some(f) ==> f in stuck)
    ensures Moves(m, n, OfCommunity(id), left) && left <= stuck
  {
    var o, c := OfCommunity(id), m.rows.communities[id];
    assert forall f :: f in FilesOf(m.rows, o) <==> c.avatar == Some(f) || c.cover == Some(f);
    RewriteMoves(m, n, o, stuck);
    left := (stuck * Elems(FilesOf(m.rows, o))) - Elems(FilesOf(n.rows, o));
  }

  /** What is left on top of base once the new files a and b are cut down to p and q. */
  lemma LeftBehind(base: set<string>, a: set<string>, b: set<string>, p: set<string>, q: set<string>,
                   after: set<string>, stuck: set<string>)
    requires base !! a && base !! b && a !! b && p <= a && q <= b
    requires base + a + b - a - b <= after <= base + a + b
    requires stuck == {} ==> after == base + a + b - (a - p) - (b - q)
    ensures base <= after && after == base + (after - base)
    ensures stuck == {} ==> after - base == p + q
  {
  }

  lemma LeftOverSplits(files: seq<Upload>, before: seq<string>)
    requires NoDup(Names(files))
    ensures |files| <= |before| ==> LeftOver(files, before) == Names(files)
    ensures |files| > |before| ==>
              Elems(LeftOver(files, before)) == Elems(Names(files)) - Elems(Names(files)[|before|..])
    ensures |Elems(LeftOver(files, before))| == Least(|files|, |before|)
    ensures Elems(LeftOver(files, before)) <= Elems(Names(files))
  {
    var kept := LeftOver(files, before);
    assert NoDup(kept);
    NoDupSize(kept);
    if |files| > |before| {
      var cut := Names(files)[|before|..];
      assert Names(files) == kept + cut;
      forall i, j | 0 <= i < |kept| && 0 <= j < |cut|
        ensures kept[i] != cut[j]
      {
        assert Names(files)[i] != Names(files)[|before| + j];
      }
    }
  }

  lemma DisjointSize(p: set<string>, q: set<string>, a: set<string>, b: set<string>)
    requires p <= a && q <= b && a !! b
    ensures |p + q| == |p| + |q|
  {
    assert p !! q;
  }

  /** A failed row write leaves min(old count, new count) files of each kind that
      was uploaded. */
  lemma FailedUpdateLeaves(attachments: seq<Upload>, photos: seq<Upload>, p: Post, disk: set<string>)
    requires Fresh(Names(attachments) + Names(photos), disk)
    ensures |Elems(LeftOver(attachments, p.attachments)) + Elems(LeftOver(photos, p.photos))| ==
            Least(|attachments|, |p.attachments|) + Least(|photos|, |p.photos|)
  {
    FreshParts(attachments, photos, disk);
    LeftOverSplits(attachments, p.attachments);
    LeftOverSplits(photos, p.photos);
    DisjointSize(Elems(LeftOver(attachments, p.attachments)), Elems(LeftOver(photos, p.photos)),
                 Elems(Names(attachments)), Elems(Names(photos)));
  }

  /** A list is what was seen of it and the rest. */
  lemma CutSplits(s: seq<string>, k: nat)
    requires k <= |s| && NoDup(s)
    ensures NoDup(s[..k]) && Elems(s) == Elems(s[..k]) + Elems(s[k..]) && Elems(s[..k]) !! Elems(s[k..])
  {
    assert s == s[..k] + s[k..];
    Parts(s[..k], s[k..]);
  }

  lemma SeenSplits(p: Post, cut: Cut)
    requires NoDup(p.attachments + p.photos)
    ensures var s := Seen(p, cut);
            && NoDup(s.attachments) && NoDup(s.photos)
            && Elems(p.attachments + p.photos) == Elems(s.attachments) + Elems(s.photos) + Unseen(p, cut)
            && Elems(s.attachments) !! Elems(s.photos) !! Unseen(p, cut)
  {
    Parts(p.attachments, p.photos);
    CutSplits(p.attachments, Least(cut.attachments, |p.attachments|));
    CutSplits(p.photos, Least(cut.photos, |p.photos|));
    assert Elems(p.attachments + p.photos) == Elems(p.attachments) + Elems(p.photos);
    assert Elems(p.attachments) !! Elems(p.photos);
  }

  lemma PostGone(m: Media, n: Media, id: int, cut: Cut) returns (left: set<string>)
    requires Stored(m, OfPost(id)) && id in m.rows.posts && n.rows == m.rows.(posts := m.rows.posts - {id})
    requires var s := Seen(m.rows.posts[id], cut); m.disk - Elems(s.attachments + s.photos) <= n.disk <= m.disk
    ensures var s := Seen(m.rows.posts[id], cut);
            left == n.disk * Elems(s.attachments + s.photos) + Unseen(m.rows.posts[id], cut)
    ensures Moves(m, n, OfPost(id), left)
  {
    var p := m.rows.posts[id];
    var s := Seen(p, cut);
    SeenSplits(p, cut);
    assert Elems(s.attachments + s.photos) == Elems(s.attachments) + Elems(s.photos);
    left := n.disk * Elems(s.attachments + s.photos) + Unseen(p, cut);
    assert FilesOf(m.rows, OfPost(id)) == p.attachments + p.photos && FilesOf(n.rows, OfPost(id)) == [];
    assert Elems(p.attachments + p.photos) <= m.disk;
    SetsMove(m, n, OfPost(id), left);
  }

  lemma PostRewritten(m: Media, n: Media, id: int, cut: Cut, attachments: seq<Upload>, photos: seq<Upload>)
    returns (left: set<string>)
    requires Stored(m, OfPost(id)) && id in m.rows.posts && Fresh(Names(attachments) + Names(photos), m.disk)
    requires var s := Seen(m.rows.posts[id], cut);
             n.rows == m.rows.(posts := m.rows.posts[id := Post(s.author, s.community,
               if |attachments| > 0 then Names(attachments) else s.attachments,
               if |photos| > 0 then Names(photos) else s.photos)])
    requires var s := Seen(m.rows.posts[id], cut);
             var grown := m.disk + Elems(Names(attachments)) + Elems(Names(photos));
             grown - GivenUp(s, attachments, photos) <= n.disk <= grown
    ensures var p := m.rows.posts[id];
            left == n.disk * GivenUp(Seen(p, cut), attachments, photos) + Unseen(p, cut)
    ensures Moves(m, n, OfPost(id), left)
  {
    var o, p, q := OfPost(id), m.rows.posts[id], n.rows.posts[id];
    var s := Seen(p, cut);
    left := n.disk * GivenUp(s, attachments, photos) + Unseen(p, cut);
    FreshParts(attachments, photos, m.disk);
    SeenSplits(p, cut);
    assert FilesOf(m.rows, o) == p.attachments + p.photos && FilesOf(n.rows, o) == q.attachments + q.photos;
    assert Elems(s.attachments) + Elems(s.photos) + Unseen(p, cut) <= m.disk by {
      assert forall f :: f in Elems(FilesOf(m.rows, o)) ==> f in m.disk;
    }
    PostDisk(m.disk, n.disk, s, Unseen(p, cut), q, attachments, photos);
    forall f | f in q.attachments
      ensures f !in q.photos
    {
      assert f in Elems(q.attachments);
    }
    Joined(q.attachments, q.photos);
    assert Elems(q.attachments + q.photos) == Elems(q.attachments) + Elems(q.photos);
    assert "" !in Elems(q.attachments) + Elems(q.photos);
    SetsMove(m, n, o, left);
  }

  /** Moves, in terms of the sets of files the row named and names. */
  lemma SetsMove(m: Media, n: Media, o: Owner, left: set<string>)
    requires Replaced(m.rows, n.rows, o) && NoDup(FilesOf(n.rows, o))
    requires var was, now := Elems(FilesOf(m.rows, o)), Elems(FilesOf(n.rows, o));
             && n.disk == m.disk - (was - now) + now + left
             && now * m.disk <= was && "" !in now && left !! now && left <= was
    ensures Moves(m, n, o, left)
  {
    assert forall f :: f in FilesOf(m.rows, o) <==> f in Elems(FilesOf(m.rows, o));
    assert forall f :: f in FilesOf(n.rows, o) <==> f in Elems(FilesOf(n.rows, o));
  }

  /** The old files an update replaces, of those it saw. */
  ghost function GivenUp(s: Post, attachments: seq<Upload>, photos: seq<Upload>): set<string> {
    Elems(if |attachments| > 0 then s.attachments else []) + Elems(if |photos| > 0 then s.photos else [])
  }

  /** The disk of a rewritten post, in terms of what the row named and names. */
  lemma PostDisk(disk: set<string>, after: set<string>, s: Post, unseen: set<string>, q: Post,
                 attachments: seq<Upload>, photos: seq<Upload>)
    requires q.attachments == if |attachments| > 0 then Names(attachments) else s.attachments
    requires q.photos == if |photos| > 0 then Names(photos) else s.photos
    requires Elems(Names(attachments)) !! Elems(Names(photos))
    requires Elems(Names(attachments)) !! disk && Elems(Names(photos)) !! disk
    requires Elems(s.attachments) + Elems(s.photos) + unseen <= disk
    requires Elems(s.attachments) !! Elems(s.photos) !! unseen
    requires var grown := disk + Elems(Names(attachments)) + Elems(Names(photos));
             grown - GivenUp(s, attachments, photos) <= after <= grown
    ensures var was, now := Elems(s.attachments) + Elems(s.photos) + unseen, Elems(q.attachments) + Elems(q.photos);
            var left := after * GivenUp(s, attachments, photos) + unseen;
            after == disk - (was - now) + now + left && left !! now && left <= was && now * disk <= was
    ensures Elems(q.attachments) !! Elems(q.photos)
  {
    assert |attachments| == 0 ==> Names(attachments) == [];
    assert |photos| == 0 ==> Names(photos) == [];
  }

  /** Fresh names in two lists: neither is on disk, and they share none. */
  lemma SliceParts(a: seq<string>, b: seq<string>, disk: set<string>)
    requires Fresh(a + b, disk)
    ensures NoDup(a) && NoDup(b) && Elems(a) !! disk && Elems(b) !! disk && Elems(a) !! Elems(b)
    ensures "" !in a && "" !in b
  {
    Parts(a, b);
    assert forall n :: n in a || n in b <==> n in a + b;
  }

  lemma FreshParts(a: seq<Upload>, b: seq<Upload>, disk: set<string>)
    requires Fresh(Names(a) + Names(b), disk)
    ensures Fresh(Names(a), disk) && Fresh(Names(b), disk) && Fresh(Names(b), disk + Elems(Names(a)))
    ensures Elems(Names(a) + Names(b)) == Elems(Names(a)) + Elems(Names(b)) && Elems(Names(a)) !! Elems(Names(b))
  {
    var both := Names(a) + Names(b);
    assert forall n :: n in Names(a) || n in Names(b) <==> n in both;
    assert forall i :: 0 <= i < |a| ==> both[i] == Names(a)[i];
    assert forall i :: 0 <= i < |b| ==> both[|a| + i] == Names(b)[i];
    forall i, j | 0 <= i < j < |a|
      ensures Names(a)[i] != Names(a)[j]
    {
      assert both[i] != both[j];
    }
    forall i, j | 0 <= i < j < |b|
      ensures Names(b)[i] != Names(b)[j]
    {
      assert both[|a| + i] != both[|a| + j];
    }
    forall i, j | 0 <= i < |a| && 0 <= j < |b|
      ensures Names(a)[i] != Names(b)[j]
    {
      assert both[i] != both[|a| + j];
    }
  }
}
