/** Uploaded files and the rows that name them: two states with no shared
    transaction. Uploads, row writes and deletions may fail at every point. */
module UploadDir {
  import opened Wrappers
  import opened Domain
  import opened Collections

  /** A file to store: the fresh name it gets, and whether writing it succeeds. */
  datatype Upload = Upload(name: string, ok: bool)

  function Names(files: seq<Upload>): seq<string> {
    seq(|files|, i requires 0 <= i < |files| => files[i].name)
  }

  ghost predicate AllOk(files: seq<Upload>) {
    forall i :: 0 <= i < |files| ==> files[i].ok
  }

  /** UUID names: not empty, not on disk, and no two alike. */
  ghost predicate Fresh(names: seq<string>, disk: set<string>) {
    NoDup(names) && forall n :: n in names ==> n !in disk && n != ""
  }

  // Names drawn call after call.

  function Concat(lists: seq<seq<string>>): seq<string> {
    if lists == [] then [] else Concat(lists[..|lists| - 1]) + lists[|lists| - 1]
  }

  lemma {:induction false} ConcatGrows(lists: seq<seq<string>>, i: nat)
    requires i <= |lists|
    ensures Concat(lists[..i]) <= Concat(lists)
  {
    if i < |lists| {
      assert lists[..|lists| - 1][..i] == lists[..i];
      ConcatGrows(lists[..|lists| - 1], i);
    } else {
      assert lists[..i] == lists;
    }
  }

  lemma OneListMore(lists: seq<seq<string>>, i: nat)
    requires i < |lists|
    ensures Concat(lists[..i + 1]) == Concat(lists[..i]) + lists[i]
  {
    assert lists[..i + 1][..i] == lists[..i];
  }

  lemma SliceFresh(all: seq<string>, before: seq<string>, names: seq<string>, disk: set<string>)
    requires Fresh(all, {}) && before + names <= all && disk <= Elems(before)
    ensures Fresh(names, disk) && Elems(before) + Elems(names) == Elems(before + names)
  {
    var slice := before + names;
    forall i, j | 0 <= i < j < |slice|
      ensures slice[i] != slice[j]
    {
      assert slice[i] == all[i] && slice[j] == all[j];
    }
    Parts(before, names);
    forall n | n in names
      ensures n != ""
    {
      var i :| 0 <= i < |names| && names[i] == n;
      assert all[|before| + i] == slice[|before| + i] == n;
      assert n in all;
    }
  }

  /** When all names are different, those of the next call are fresh. */
  lemma NextFresh(lists: seq<seq<string>>, i: nat, disk: set<string>)
    requires Fresh(Concat(lists), {}) && i < |lists| && disk <= Elems(Concat(lists[..i]))
    ensures Fresh(lists[i], disk)
    ensures Elems(Concat(lists[..i])) + Elems(lists[i]) == Elems(Concat(lists[..i + 1]))
  {
    ConcatGrows(lists, i + 1);
    OneListMore(lists, i);
    SliceFresh(Concat(lists), Concat(lists[..i]), lists[i], disk);
  }

  /** Removal stopped at name i: the ones before it are gone, it and no other is in
      the way. */
  ghost predicate RefusedAt(names: seq<string>, i: nat, stuck: set<string>, before: set<string>, after: set<string>)
    requires i < |names|
  {
    names[i] != "" && names[i] in stuck && names[i] in after && after == before - (Elems(names[..i]) - {""})
  }

  class UploadDir {
    var disk: set<string>

    constructor ()
      ensures disk == {}
    {
      disk := {};
    }

    method UploadFile(file: Upload) returns (r: Result<string, Error>)
      modifies this
      ensures r == if file.ok then Ok(file.name) else Err(ErrService)
      ensures disk == if file.ok then old(disk) + {file.name} else old(disk)
    {
      if !file.ok {
        return Err(ErrService);
      }
      disk := disk + {file.name};
      return Ok(file.name);
    }

    /** stuck are the names whose removal the file system refuses. A file that is
        not there is removed without an error. */
    method DeleteFile(name: string, stuck: set<string>) returns (err: bool)
      modifies this
      ensures err == (name in stuck && name in old(disk))
      ensures disk == if err then old(disk) else old(disk) - {name}
    {
      if name in stuck && name in disk {
        return true;
      }
      disk := disk - {name};
      return false;
    }

    /** All or nothing: a failed write undoes the ones before it. */
    method UploadFiles(files: seq<Upload>, stuck: set<string>) returns (r: Result<seq<string>, Error>)
      requires Fresh(Names(files), disk)
      modifies this
      ensures r == if AllOk(files) then Ok(Names(files)) else Err(ErrService)
      ensures r.Ok? ==> disk == old(disk) + Elems(Names(files))
      ensures r.Err? ==> old(disk) <= disk <= old(disk) + (stuck * Elems(Names(files)))
    {
      var fileNames: seq<string> := [];
      for i := 0 to |files|
        invariant fileNames == Names(files)[..i]
        invariant forall k :: 0 <= k < i ==> files[k].ok
        invariant disk == old(disk) + Elems(fileNames)
      {
        var uploaded := UploadFile(files[i]);
        if uploaded.Err? {
          ghost var all := disk;
          for k := 0 to |fileNames|
            invariant old(disk) <= disk <= old(disk) + Elems(fileNames[k..]) + (stuck * Elems(Names(files)))
          {
            assert fileNames[k] == Names(files)[k] && fileNames[k] in Names(files);
            var _ := DeleteFile(fileNames[k], stuck);
            assert fileNames[k..] == [fileNames[k]] + fileNames[k + 1..];
          }
          return Err(ErrService);
        }
        assert Names(files)[..i + 1] == Names(files)[..i] + [files[i].name];
        fileNames := fileNames + [uploaded.value];
      }
      assert Names(files)[..|files|] == Names(files);
      return Ok(fileNames);
    }

    /** Stops at the first removal that is refused. */
    method DeleteFiles(fileNames: seq<string>, stuck: set<string>) returns (err: bool)
      modifies this
      ensures old(disk) - Elems(fileNames) <= disk <= old(disk)
      ensures !err ==> disk == old(disk) - (Elems(fileNames) - {""})
      ensures err ==> exists i :: 0 <= i < |fileNames| && RefusedAt(fileNames, i, stuck, old(disk), disk)
    {
      for i := 0 to |fileNames|
        invariant disk == old(disk) - (Elems(fileNames[..i]) - {""})
      {
        assert fileNames[..i + 1] == fileNames[..i] + [fileNames[i]];
        if fileNames[i] != "" {
          var failed := DeleteFile(fileNames[i], stuck);
          if failed {
            assert forall n :: n in fileNames[..i] ==> n in fileNames;
            assert RefusedAt(fileNames, i, stuck, old(disk), disk);
            return true;
          }
        }
      }
      assert fileNames[..|fileNames|] == fileNames;
      return false;
    }

    /** New files first; the old ones go only once all the new ones are there. */
    method HandleFileUpload(files: seq<Upload>, oldPaths: seq<string>, stuck: set<string>)
      returns (r: Result<seq<string>, Error>)
      requires Fresh(Names(files), disk) && forall n :: n in oldPaths ==> n !in Names(files)
      modifies this
      ensures r == if AllOk(files) then Ok(Names(files)) else Err(ErrService)
      ensures r.Ok? ==> Elems(Names(files)) <= disk
      ensures r.Ok? && stuck == {} ==> disk == old(disk) - (Elems(oldPaths) - {""}) + Elems(Names(files))
      ensures r.Err? && stuck == {} ==> disk == old(disk)
    {
      r := UploadFiles(files, stuck);
      if r.Ok? {
        var _ := DeleteFiles(oldPaths, stuck);
      }
    }
  }
}

/** Which rows name which files. */
module FileRows {
  import opened Wrappers
  import opened Collections

  datatype Community = Community(creator: int, avatar: Option<string>, cover: Option<string>)

  datatype Post = Post(author: int, community: Option<int>, attachments: seq<string>, photos: seq<string>)

  datatype Rows = Rows(communities: map<int, Community>, posts: map<int, Post>, messages: map<int, seq<string>>)

  datatype Owner = OfCommunity(id: int) | OfPost(id: int) | OfMessage(id: int)

  function Path(p: Option<string>): seq<string> {
    if p.Some? then [p.value] else []
  }

  /** The files a row names, in order. */
  function FilesOf(rows: Rows, o: Owner): seq<string> {
    match o
    case OfCommunity(c) =>
      if c in rows.communities then Path(rows.communities[c].avatar) + Path(rows.communities[c].cover) else []
    case OfPost(p) => if p in rows.posts then rows.posts[p].attachments + rows.posts[p].photos else []
    case OfMessage(m) => if m in rows.messages then rows.messages[m] else []
  }

  ghost predicate Named(rows: Rows, n: string) {
    exists o :: n in FilesOf(rows, o)
  }

  /** Every named file is on disk and is named exactly once. */
  ghost predicate Consistent(rows: Rows, disk: set<string>) {
    && (forall o, n :: n in FilesOf(rows, o) ==> n in disk && n != "")
    && (forall o :: NoDup(FilesOf(rows, o)))
    && (forall o, p, n :: n in FilesOf(rows, o) && n in FilesOf(rows, p) ==> o == p)
  }

  /** The files on disk that no row names. */
  ghost function Orphans(rows: Rows, disk: set<string>): set<string> {
    set n | n in disk && !Named(rows, n)
  }

  datatype Media = Media(rows: Rows, disk: set<string>)

  ghost predicate Sound(m: Media) {
    Consistent(m.rows, m.disk)
  }

  /** next differs from rows in the files of one row only. */
  ghost predicate Replaced(rows: Rows, next: Rows, o: Owner) {
    forall p :: p != o ==> FilesOf(next, p) == FilesOf(rows, p)
  }

  /** One operation on row o: the files it stops naming leave the disk, the files
      it starts naming join it, and beside these only the files in left stay or
      come, which the row does not name. */
  ghost predicate Moves(m: Media, n: Media, o: Owner, left: set<string>) {
    var was, now := FilesOf(m.rows, o), FilesOf(n.rows, o);
    && Replaced(m.rows, n.rows, o)
    && NoDup(now) && (forall f :: f in now ==> f != "" && (f in was || f !in m.disk))
    && n.disk == m.disk - (Elems(was) - Elems(now)) + Elems(now) + left
    && (forall f :: f in left ==> f !in now && (f in was || f !in m.disk))
  }

  /** What consistency says of one row. */
  ghost predicate Stored(m: Media, o: Owner) {
    NoDup(FilesOf(m.rows, o)) && forall f :: f in FilesOf(m.rows, o) ==> f in m.disk && f != ""
  }

  lemma SoundStored(m: Media, o: Owner)
    requires Sound(m)
    ensures Stored(m, o)
  {
  }

  /** No row rewritten: whatever came to the disk is left over. */
  lemma StaysMoves(m: Media, n: Media, o: Owner) returns (left: set<string>)
    requires Stored(m, o) && n.rows == m.rows && m.disk <= n.disk
    ensures left == n.disk - m.disk && Moves(m, n, o, left)
  {
    left := n.disk - m.disk;
    assert n.disk == m.disk + left;
  }

  /** A row rewritten: new files in, and the files it no longer names out, but for
      those that would not go. */
  lemma RewriteMoves(m: Media, n: Media, o: Owner, stuck: set<string>)
    requires Stored(m, o) && Replaced(m.rows, n.rows, o)
    requires NoDup(FilesOf(n.rows, o))
    requires forall f :: f in FilesOf(n.rows, o) ==>
               f != "" && (f in FilesOf(m.rows, o) || f !in m.disk)
    requires forall f :: f in n.disk <==>
               f in FilesOf(n.rows, o) || (f in m.disk && (f in FilesOf(m.rows, o) ==> f in stuck))
    ensures Moves(m, n, o, (stuck * Elems(FilesOf(m.rows, o))) - Elems(FilesOf(n.rows, o)))
  {
    var was, now := FilesOf(m.rows, o), FilesOf(n.rows, o);
    assert n.disk == m.disk - (Elems(was) - Elems(now)) + Elems(now) + ((stuck * Elems(was)) - Elems(now));
  }

  lemma EmptyIsSound()
    ensures Sound(Media(Rows(map[], map[], map[]), {}))
  {
    assert forall o :: FilesOf(Rows(map[], map[], map[]), o) == [];
  }

  lemma NamedAfter(m: Media, n: Media, o: Owner, f: string)
    requires Sound(m) && Replaced(m.rows, n.rows, o)
    ensures Named(n.rows, f) <==> f in FilesOf(n.rows, o) || (Named(m.rows, f) && f !in FilesOf(m.rows, o))
  {
    if Named(m.rows, f) && f !in FilesOf(m.rows, o) {
      var p :| f in FilesOf(m.rows, p);
      assert f in FilesOf(n.rows, p);
    }
    if Named(n.rows, f) && f !in FilesOf(n.rows, o) {
      var p :| f in FilesOf(n.rows, p);
      assert f in FilesOf(m.rows, p);
    }
  }

  lemma MovesKeepsSound(m: Media, n: Media, o: Owner, left: set<string>)
    requires Sound(m) && Moves(m, n, o, left)
    ensures Sound(n)
  {
    forall p, f | f in FilesOf(n.rows, p)
      ensures f in n.disk && f != "" && (p != o ==> f !in FilesOf(n.rows, o) && f in FilesOf(m.rows, p))
    {
      if p != o {
        assert f in FilesOf(m.rows, p) && f in m.disk && f !in FilesOf(m.rows, o);
      }
    }
    forall p
      ensures NoDup(FilesOf(n.rows, p))
    {
    }
    forall p, q, f | f in FilesOf(n.rows, p) && f in FilesOf(n.rows, q)
      ensures p == q
    {
      if p != o && q != o {
        assert f in FilesOf(m.rows, p) && f in FilesOf(m.rows, q);
      }
    }
  }

  /** An operation leaves every named file on disk, each named once, and adds
      exactly left to the files no row names. */
  lemma MovesConserves(m: Media, n: Media, o: Owner, left: set<string>)
    requires Sound(m) && Moves(m, n, o, left)
    ensures Sound(n) && Orphans(n.rows, n.disk) == Orphans(m.rows, m.disk) + left
  {
    MovesKeepsSound(m, n, o, left);
    forall f: string
      ensures f in Orphans(n.rows, n.disk) <==> f in Orphans(m.rows, m.disk) || f in left
    {
      NamedAfter(m, n, o, f);
      if f in Elems(FilesOf(m.rows, o)) {
        assert Named(m.rows, f);
      }
    }
  }

  /** Deleting posts without their files (the database cascades, the disk does not). */
  ghost predicate Cascades(m: Media, n: Media, dropped: set<int>) {
    n.disk == m.disk && n.rows == m.rows.(posts := m.rows.posts - dropped)
  }

  ghost function FilesOfPosts(m: Media, ids: set<int>): set<string> {
    set p, f | p in ids && p in m.rows.posts && f in FilesOf(m.rows, OfPost(p)) :: f
  }

  lemma CascadeLeaves(m: Media, n: Media, dropped: set<int>)
    requires Sound(m) && Cascades(m, n, dropped)
    ensures Sound(n) && Orphans(n.rows, n.disk) == Orphans(m.rows, m.disk) + FilesOfPosts(m, dropped)
  {
    forall o: Owner
      ensures FilesOf(n.rows, o) == if o.OfPost? && o.id in dropped then [] else FilesOf(m.rows, o)
    {
    }
    forall f: string
      ensures f in Orphans(n.rows, n.disk) <==> f in Orphans(m.rows, m.disk) || f in FilesOfPosts(m, dropped)
    {
      if Named(m.rows, f) {
        var o :| f in FilesOf(m.rows, o);
        if o.OfPost? && o.id in dropped {
          assert f in FilesOfPosts(m, dropped);
        } else {
          assert f in FilesOf(n.rows, o);
        }
      }
    }
  }
}
