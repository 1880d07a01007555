/** Filling in author names and pictures: for a batch of posts or comments, and
    for a single one. */
module Enrichment {
  import opened Wrappers
  import opened Domain
  import Profiles
  import opened Paginate

  type Profile = Profiles.Profile<int32>

  const UNKNOWN_AUTHOR := "Пользователь"

  /** What every view should say of its author. */
  predicate Credits(name: string, avatar: Option<string>, directory: map<int32, Profile>, author: int32) {
    if author in directory then name == directory[author].fullName && avatar == directory[author].avatarPath
    else name == "Пользователь" && avatar == None
  }

  // ------------------------------------------------------------------- posts

  datatype PostDB = PostDB(
    id: nat, authorID: nat, communityID: Option<int32>, text: string, createdAt: int,
    communityName: Option<string>, communityAvatar: Option<string>,
    likeCount: int32, commentsCount: int32, isLiked: bool, attachments: seq<string>, photos: seq<string>)

  datatype PostView = PostView(
    id: nat, authorID: nat, authorName: string, authorAvatar: Option<string>, communityID: Option<int32>,
    communityName: Option<string>, communityAvatar: Option<string>, text: string, attachments: seq<string>,
    photos: seq<string>,
    likeCount: int32, commentsCount: int32, isLiked: bool, createdAt: int, isCommunityPost: bool)

  /** v shows post p, and is the only view to do so; the author is looked up by the low 32 bits of its id. */
  predicate ShowsPost(v: PostView, p: PostDB, directory: map<int32, Profile>) {
    && Credits(v.authorName, v.authorAvatar, directory, Wrap(p.authorID))
    && v.isCommunityPost == p.communityID.Some?
    && p == PostDB(v.id, v.authorID, v.communityID, v.text, v.createdAt, v.communityName, v.communityAvatar,
                   v.likeCount, v.commentsCount, v.isLiked, v.attachments, v.photos)
  }

  method EnrichPostWithProfile(post: PostDB, directory: map<int32, Profile>, down: bool)
    returns (r: Result<PostView, Error>)
    ensures down ==> r == Err(ErrService)
    ensures !down ==> r.Ok? && ShowsPost(r.value, post, directory)
  {
    if down {
      return Err(ErrService);
    }
    var profiles := Profiles.Answer(directory, [Wrap(post.authorID)]);
    var view := PostView(post.id, post.authorID, "", None, post.communityID, post.communityName, post.communityAvatar,
                         post.text, post.attachments, post.photos, post.likeCount, post.commentsCount, post.isLiked,
                         post.createdAt, post.communityID.Some?);
    if Wrap(post.authorID) in profiles {
      var profile := profiles[Wrap(post.authorID)];
      view := view.(authorName := profile.fullName, authorAvatar := profile.avatarPath);
    } else {
      view := view.(authorName := UNKNOWN_AUTHOR);
    }
    return Ok(view);
  }

  /** The batch gives, in order, the one view of each post that shows it, which is
      what EnrichPostWithProfile returns for it. It asks once for all authors,
      duplicates included; an empty batch does not ask and so cannot fail. */
  method EnrichPostsWithProfiles(posts: seq<PostDB>, directory: map<int32, Profile>, down: bool)
    returns (r: Result<seq<PostView>, Error>)
    ensures down && posts != [] ==> r == Err(ErrService)
    ensures !down || posts == [] ==>
              && r.Ok? && |r.value| == |posts|
              && forall i, v :: 0 <= i < |posts| ==> (ShowsPost(v, posts[i], directory) <==> v == r.value[i])
  {
    if |posts| == 0 {
      return Ok([]);
    }
    var authorIDs: seq<int32> := [];
    for i := 0 to |posts|
      invariant |authorIDs| == i && forall k :: 0 <= k < i ==> authorIDs[k] == Wrap(posts[k].authorID)
    {
      authorIDs := authorIDs + [Wrap(posts[i].authorID)];
    }
    if down {
      return Err(ErrService);
    }
    var profiles := Profiles.Answer(directory, authorIDs);
    var views: seq<PostView> := [];
    for i := 0 to |posts|
      invariant |views| == i && forall k :: 0 <= k < i ==> ShowsPost(views[k], posts[k], directory)
    {
      var post := posts[i];
      assert authorIDs[i] in authorIDs;
      var view := PostView(post.id, post.authorID, "", None, post.communityID, post.communityName, post.communityAvatar,
                           post.text, post.attachments, post.photos, post.likeCount, post.commentsCount, post.isLiked,
                           post.createdAt, post.communityID.Some?);
      if Wrap(post.authorID) in profiles {
        var profile := profiles[Wrap(post.authorID)];
        view := view.(authorName := profile.fullName, authorAvatar := profile.avatarPath);
      } else {
        view := view.(authorName := UNKNOWN_AUTHOR);
      }
      views := views + [view];
    }
    return Ok(views);
  }

  // ---------------------------------------------------------------- comments

  datatype Comment = Comment(id: int32, postID: int32, authorID: int32, parentID: Option<int32>, text: string,
                             createdAt: int, updatedAt: int)

  datatype CommentView = CommentView(
    id: int32, postID: int32, authorID: int32, authorName: string, authorAvatar: Option<string>,
    parentID: Option<int32>, text: string, createdAt: int, updatedAt: int)

  predicate ShowsComment(v: CommentView, c: Comment, directory: map<int32, Profile>) {
    && Credits(v.authorName, v.authorAvatar, directory, c.authorID)
    && c == Comment(v.id, v.postID, v.authorID, v.parentID, v.text, v.createdAt, v.updatedAt)
  }

  method EnrichCommentWithProfile(comment: Comment, directory: map<int32, Profile>, down: bool)
    returns (r: Result<CommentView, Error>)
    ensures down ==> r == Err(ErrService)
    ensures !down ==> r.Ok? && ShowsComment(r.value, comment, directory)
  {
    if down {
      return Err(ErrService);
    }
    var profiles := Profiles.Answer(directory, [comment.authorID]);
    var view := CommentView(comment.id, comment.postID, comment.authorID, "", None, comment.parentID, comment.text,
                            comment.createdAt, comment.updatedAt);
    if comment.authorID in profiles {
      view := view.(authorName := profiles[comment.authorID].fullName,
                    authorAvatar := profiles[comment.authorID].avatarPath);
    } else {
      view := view.(authorName := UNKNOWN_AUTHOR);
    }
    return Ok(view);
  }

  method EnrichCommentsWithProfiles(comments: seq<Comment>, directory: map<int32, Profile>, down: bool)
    returns (r: Result<seq<CommentView>, Error>)
    ensures down && comments != [] ==> r == Err(ErrService)
    ensures !down || comments == [] ==>
              && r.Ok? && |r.value| == |comments|
              && forall i, v :: 0 <= i < |comments| ==> (ShowsComment(v, comments[i], directory) <==> v == r.value[i])
  {
    if |comments| == 0 {
      return Ok([]);
    }
    var authorIDs: seq<int32> := [];
    for i := 0 to |comments|
      invariant |authorIDs| == i && forall k :: 0 <= k < i ==> authorIDs[k] == comments[k].authorID
    {
      authorIDs := authorIDs + [comments[i].authorID];
    }
    if down {
      return Err(ErrService);
    }
    var profiles := Profiles.Answer(directory, authorIDs);
    var views: seq<CommentView> := [];
    for i := 0 to |comments|
      invariant |views| == i && forall k :: 0 <= k < i ==> ShowsComment(views[k], comments[k], directory)
    {
      var comment := comments[i];
      assert authorIDs[i] in authorIDs;
      var view := CommentView(comment.id, comment.postID, comment.authorID, "", None, comment.parentID, comment.text,
                              comment.createdAt, comment.updatedAt);
      if comment.authorID in profiles {
        view := view.(authorName := profiles[comment.authorID].fullName,
                      authorAvatar := profiles[comment.authorID].avatarPath);
      } else {
        view := view.(authorName := UNKNOWN_AUTHOR);
      }
      views := views + [view];
    }
    return Ok(views);
  }
}
