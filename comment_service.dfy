/**
 The comment service: writing comments and replies, listing, editing,
 deleting and liking comments, over in-memory tables that stand for the
 repositories, with an outbox that stands for the event publisher.
 Every operation checks everything first and then writes, so an error
 leaves every table as it was.
 */
module Service {
  import opened Domain
  import Numbering
  import Likes
  import FanOut

  /** Every comment and every reply's root have ids below the next one. */
  ghost predicate IdsAllocated(comments: map<CommentId, Comment>, nextId: CommentId) {
    forall id :: id in comments ==>
      id < nextId && (comments[id].group.ReplyTo? ==> comments[id].group.root < nextId)
  }

  /** All comments by one member on one post carry that pair's number. */
  ghost predicate NumbersShared(comments: map<CommentId, Comment>, numbers: Numbering.NumberTable) {
    forall id :: id in comments ==>
      (comments[id].post, comments[id].author) in numbers &&
      numbers[(comments[id].post, comments[id].author)] == comments[id].number
  }

  /** A reply's root, while it exists, is a thread root on the same post. */
  ghost predicate ThreadsOneDeep(comments: map<CommentId, Comment>) {
    forall id :: id in comments && comments[id].group.ReplyTo? && comments[id].group.root in comments ==>
      comments[comments[id].group.root].IsParent() &&
      comments[comments[id].group.root].post == comments[id].post
  }

  /** The invariant of the service's tables. */
  ghost predicate TablesValid(comments: map<CommentId, Comment>, numbers: Numbering.NumberTable, nextId: CommentId) {
    IdsAllocated(comments, nextId) && NumbersShared(comments, numbers) &&
    ThreadsOneDeep(comments) && Numbering.Dense(numbers)
  }

  /** Saving a new comment under the next id, with the author's number for
      the post, keeps the tables valid, provided a reply's root is a thread
      root on the same post. */
  lemma SaveCommentKeepsValid(
    comments: map<CommentId, Comment>, numbers: Numbering.NumberTable, nextId: CommentId,
    postId: PostId, memberId: MemberId, content: string, anonymity: bool, group: Group)
    requires TablesValid(comments, numbers, nextId)
    requires group.ReplyTo? ==>
               group.root in comments && comments[group.root].IsParent() && comments[group.root].post == postId
    ensures var numbered := Numbering.AssignNumber(numbers, postId, memberId);
            TablesValid(
              comments[nextId := Comment(postId, memberId, content, anonymity, numbered.number, group)],
              numbered.table, nextId + 1)
  {
    var numbered := Numbering.AssignNumber(numbers, postId, memberId);
    forall other ensures Numbering.DenseFor(numbered.table, other) {
      Numbering.AssignKeepsDense(numbers, postId, memberId, other);
    }
  }

  class CommentService {
    /** Posts with their authors (read only here). */
    var posts: map<PostId, Post>
    /** Registered members (read only here). */
    var members: set<MemberId>
    /** Comment number records, keyed by (post, member). */
    var numbers: Numbering.NumberTable
    /** Stored comments by id. */
    var comments: map<CommentId, Comment>
    /** Like records: (comment, member) pairs. */
    var likes: Likes.LikeTable
    /** Notification events handed to the publisher, oldest first. */
    var outbox: seq<NotificationEvent>
    /** The id the next saved comment receives; ids are never reused. */
    var nextCommentId: CommentId

    ghost predicate Valid()
      reads this
    {
      TablesValid(comments, numbers, nextCommentId)
    }

    /** A service over the given posts and members, with no comments yet. */
    constructor (posts: map<PostId, Post>, members: set<MemberId>)
      ensures Valid()
      ensures this.posts == posts && this.members == members
      ensures numbers == map[] && comments == map[] && likes == {} && outbox == []
    {
      this.posts := posts;
      this.members := members;
      numbers := map[];
      comments := map[];
      likes := {};
      outbox := [];
      nextCommentId := 1;
      new;
      Numbering.EmptyIsDense();
      assert TablesValid(map[], map[], 1);
    }

    /** Writes a thread root on `postId` as `memberId`. */
    method WriteComment(postId: PostId, memberId: MemberId, content: string, anonymity: bool)
      returns (r: Result<CommentId>)
      requires Valid()
      modifies this
      ensures Valid()
      ensures postId !in posts ==> r == Err(NotFoundPost)
      ensures postId in posts && memberId !in members ==> r == Err(MemberNotFoundById)
      ensures r.Ok? <==> postId in old(posts) && memberId in old(members)
      ensures r.Err? ==> unchanged(this)
      ensures posts == old(posts) && members == old(members) && likes == old(likes)
      ensures r.Ok? ==>
                r.value == old(nextCommentId) && r.value !in old(comments) &&
                nextCommentId == old(nextCommentId) + 1 &&
                (var numbered := Numbering.AssignNumber(old(numbers), postId, memberId);
                numbers == numbered.table &&
                comments == old(comments)[r.value := Comment(postId, memberId, content, anonymity, numbered.number, Root)])
      ensures r.Ok? ==>
                outbox == old(outbox) + if posts[postId].IsMine(memberId) then [] else [PostReplyEvent(postId, posts[postId])]
    {
      if postId !in posts {
        return Err(NotFoundPost);
      }
      var post := posts[postId];
      if memberId !in members {
        return Err(MemberNotFoundById);
      }

      var numbered := Numbering.AssignNumber(numbers, postId, memberId);
      SaveCommentKeepsValid(comments, numbers, nextCommentId, postId, memberId, content, anonymity, Root);
      numbers := numbered.table;

      var id := nextCommentId;
      nextCommentId := nextCommentId + 1;
      comments := comments[id := Comment(postId, memberId, content, anonymity, numbered.number, Root)];

      if !post.IsMine(memberId) {
        PublishNotificationEventFromPostReply(postId, post);
      }
      r := Ok(id);
    }

    /** The ids of the comments on `postId`. */
    method FindComments(postId: PostId) returns (r: Result<set<CommentId>>)
      ensures r.Err? <==> postId !in posts
      ensures r.Err? ==> r.error == NotFoundPost
      ensures r.Ok? ==> forall id :: id in r.value <==> id in comments && comments[id].IsAssociatedWithPost(postId)
    {
      if postId !in posts {
        return Err(NotFoundPost);
      }
      r := Ok(set id | id in comments && comments[id].IsAssociatedWithPost(postId));
    }

    /** Replaces the content and anonymity of a comment, for its author only. */
    method UpdateComment(commentId: CommentId, memberId: MemberId, content: string, anonymity: bool)
      returns (r: Result<CommentId>)
      requires Valid()
      modifies this
      ensures Valid()
      ensures commentId !in old(comments) ==> r == Err(NotFoundComment)
      ensures commentId in old(comments) && memberId !in members ==> r == Err(MemberNotFoundById)
      ensures commentId in old(comments) && memberId in members && !old(comments)[commentId].IsMine(memberId) ==>
                r == Err(UnauthorizedUpdateComment)
      ensures r.Ok? <==> commentId in old(comments) && memberId in old(members) && old(comments)[commentId].IsMine(memberId)
      ensures r.Err? ==> unchanged(this)
      ensures posts == old(posts) && members == old(members) && numbers == old(numbers)
      ensures likes == old(likes) && outbox == old(outbox) && nextCommentId == old(nextCommentId)
      ensures r.Ok? ==>
                r.value == commentId && commentId in old(comments) && memberId in members &&
                old(comments)[commentId].IsMine(memberId) &&
                comments == old(comments)[commentId := old(comments)[commentId].(content := content, anonymity := anonymity)]
    {
      if commentId !in comments {
        return Err(NotFoundComment);
      }
      var comment := comments[commentId];
      if memberId !in members {
        return Err(MemberNotFoundById);
      }
      if comment.author != memberId {
        return Err(UnauthorizedUpdateComment);
      }
      comments := comments[commentId := comment.(content := content, anonymity := anonymity)];
      r := Ok(commentId);
    }

    /** Writes a reply to the thread root `commentId` on `postId` as
        `memberId`, and notifies the parent's author and the post's author,
        each at most once and never the replier. */
    method WriteCommentReply(postId: PostId, commentId: CommentId, memberId: MemberId, content: string, anonymity: bool)
      returns (r: Result<CommentId>)
      requires Valid()
      modifies this
      ensures Valid()
      ensures postId !in posts ==> r == Err(NotFoundPost)
      ensures postId in posts && memberId !in members ==> r == Err(MemberNotFoundById)
      ensures postId in posts && memberId in members && commentId !in old(comments) ==> r == Err(NotFoundComment)
      ensures postId in posts && memberId in members && commentId in old(comments) &&
                !old(comments)[commentId].IsAssociatedWithPost(postId) ==>
                r == Err(NotAssociatedWithPost)
      ensures postId in posts && memberId in members && commentId in old(comments) &&
                old(comments)[commentId].IsAssociatedWithPost(postId) && !old(comments)[commentId].IsParent() ==>
                r == Err(ForbiddenReplySubComment)
      ensures r.Ok? <==>
                postId in old(posts) && memberId in old(members) && commentId in old(comments) &&
                old(comments)[commentId].IsAssociatedWithPost(postId) && old(comments)[commentId].IsParent()
      ensures r.Err? ==> unchanged(this)
      ensures posts == old(posts) && members == old(members) && likes == old(likes)
      ensures r.Ok? ==>
                postId in posts && memberId in members && commentId in old(comments) &&
                old(comments)[commentId].IsAssociatedWithPost(postId) && old(comments)[commentId].IsParent() &&
                r.value == old(nextCommentId) && r.value !in old(comments) &&
                nextCommentId == old(nextCommentId) + 1 &&
                (var numbered := Numbering.AssignNumber(old(numbers), postId, memberId);
                numbers == numbered.table &&
                comments == old(comments)[r.value := Comment(postId, memberId, content, anonymity, numbered.number, ReplyTo(commentId))])
      ensures r.Ok? ==>
                outbox == old(outbox) + FanOut.ReplyNotifications(postId, posts[postId], old(comments)[commentId], memberId)
    {
      if postId !in posts {
        return Err(NotFoundPost);
      }
      var post := posts[postId];
      if memberId !in members {
        return Err(MemberNotFoundById);
      }
      if commentId !in comments {
        return Err(NotFoundComment);
      }
      var parent := comments[commentId];
      if !parent.IsAssociatedWithPost(postId) {
        return Err(NotAssociatedWithPost);
      }
      if !parent.IsParent() {
        return Err(ForbiddenReplySubComment);
      }

      var numbered := Numbering.AssignNumber(numbers, postId, memberId);
      SaveCommentKeepsValid(comments, numbers, nextCommentId, postId, memberId, content, anonymity, ReplyTo(commentId));
      numbers := numbered.table;

      var id := nextCommentId;
      nextCommentId := nextCommentId + 1;
      comments := comments[id := Comment(postId, memberId, content, anonymity, numbered.number, ReplyTo(commentId))];

      var visited: set<MemberId> := {};
      if !parent.IsMine(memberId) {
        visited := visited + {parent.author};
        PublishNotificationEventFromCommentReply(postId, post, parent);
      }
      if !post.IsMine(memberId) && post.author !in visited {
        visited := visited + {post.author};
        PublishNotificationEventFromPostReply(postId, post);
      }
      r := Ok(id);
    }

    /** Toggles the like of `memberId` on `commentId` and reports the new
        count and whether the member now likes the comment. */
    method LikeComment(commentId: CommentId, memberId: MemberId) returns (r: Result<LikeResult>)
      requires Valid()
      modifies this
      ensures Valid()
      ensures commentId !in comments ==> r == Err(NotFoundComment)
      ensures commentId in comments && memberId !in members ==> r == Err(MemberNotFoundById)
      ensures r.Ok? <==> commentId in old(comments) && memberId in old(members)
      ensures r.Err? ==> unchanged(this)
      ensures posts == old(posts) && members == old(members) && numbers == old(numbers) && comments == old(comments)
      ensures outbox == old(outbox) && nextCommentId == old(nextCommentId)
      ensures r.Ok? ==>
                commentId in comments && memberId in members &&
                likes == Likes.Toggled(old(likes), commentId, memberId) &&
                r.value == LikeResult(Likes.LikeCount(likes, commentId), (commentId, memberId) in likes)
      ensures r.Ok? ==>
                r.value.liked == ((commentId, memberId) !in old(likes)) &&
                r.value.likeCount == Likes.LikeCount(old(likes), commentId) + if r.value.liked then 1 else -1
    {
      if commentId !in comments {
        return Err(NotFoundComment);
      }
      if memberId !in members {
        return Err(MemberNotFoundById);
      }
      var existing := (commentId, memberId) in likes;
      var likeCount := Likes.LikeCount(likes, commentId);
      var result := ToggleCommentLike(likeCount, commentId, memberId, existing);
      Likes.ToggledCount(old(likes), commentId, memberId);
      r := Ok(result);
    }

    /** Removes an existing like or records a new one; `existing` says
        whether the like was found and `likeCount` is the count read before. */
    method ToggleCommentLike(likeCount: int, commentId: CommentId, memberId: MemberId, existing: bool)
      returns (r: LikeResult)
      requires existing == ((commentId, memberId) in likes)
      modifies this`likes
      ensures likes == Likes.Toggled(old(likes), commentId, memberId)
      ensures r == if existing then LikeResult(likeCount - 1, false) else LikeResult(likeCount + 1, true)
    {
      if existing {
        likes := likes - {(commentId, memberId)};
        return LikeResult(likeCount - 1, false);
      }
      likes := likes + {(commentId, memberId)};
      r := LikeResult(likeCount + 1, true);
    }

    /** Deletes a comment, for its author only. Comment numbers stay. */
    method DeleteComment(commentId: CommentId, memberId: MemberId) returns (r: Result<CommentId>)
      requires Valid()
      modifies this
      ensures Valid()
      ensures commentId !in old(comments) ==> r == Err(NotFoundComment)
      ensures commentId in old(comments) && memberId !in members ==> r == Err(MemberNotFoundById)
      ensures commentId in old(comments) && memberId in members && !old(comments)[commentId].IsMine(memberId) ==>
                r == Err(UnauthorizedDeleteComment)
      ensures r.Ok? <==> commentId in old(comments) && memberId in old(members) && old(comments)[commentId].IsMine(memberId)
      ensures r.Err? ==> unchanged(this)
      ensures posts == old(posts) && members == old(members) && numbers == old(numbers)
      ensures likes == old(likes) && outbox == old(outbox) && nextCommentId == old(nextCommentId)
      ensures r.Ok? ==>
                r.value == commentId && commentId in old(comments) && memberId in members &&
                old(comments)[commentId].IsMine(memberId) &&
                comments == old(comments) - {commentId}
    {
      if commentId !in comments {
        return Err(NotFoundComment);
      }
      var comment := comments[commentId];
      if memberId !in members {
        return Err(MemberNotFoundById);
      }
      if comment.author != memberId {
        return Err(UnauthorizedDeleteComment);
      }
      comments := comments - {commentId};
      r := Ok(commentId);
    }

    /** Publishes the "your post received a comment" event to the post's author. */
    method PublishNotificationEventFromPostReply(postId: PostId, post: Post)
      modifies this`outbox
      ensures outbox == old(outbox) + [PostReplyEvent(postId, post)]
    {
      outbox := outbox + [PostReplyEvent(postId, post)];
    }

    /** Publishes the "your comment received a reply" event to the parent's author. */
    method PublishNotificationEventFromCommentReply(postId: PostId, post: Post, parent: Comment)
      modifies this`outbox
      ensures outbox == old(outbox) + [CommentReplyEvent(postId, post, parent)]
    {
      outbox := outbox + [CommentReplyEvent(postId, post, parent)];
    }
  }
}
