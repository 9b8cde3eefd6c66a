/**
 Who hears about a reply: the author of the parent comment and the author of
 the post, each at most once, and never the member who replied.
 */
module FanOut {
  import opened Domain

  /** The events a reply by `replier` to `parent` on post `postId` publishes,
      in publishing order. */
  function ReplyNotifications(postId: PostId, post: Post, parent: Comment, replier: MemberId)
    : (sent: seq<NotificationEvent>)
    ensures |sent| <= 2
    ensures CommentReplyEvent(postId, post, parent) in sent <==> parent.author != replier
    ensures PostReplyEvent(postId, post) in sent <==> post.author != replier && post.author != parent.author
    ensures forall e :: e in sent ==> e == CommentReplyEvent(postId, post, parent) || e == PostReplyEvent(postId, post)
    ensures forall i :: 0 <= i < |sent| ==> sent[i].owner != replier
    ensures forall i, j :: 0 <= i < j < |sent| ==> sent[i].owner != sent[j].owner
    ensures forall i :: 0 <= i < |sent| - 1 ==> sent[i].notificationType == CommentReplay
  {
    (if parent.author != replier then [CommentReplyEvent(postId, post, parent)] else [])
    + (if post.author != replier && post.author != parent.author then [PostReplyEvent(postId, post)] else [])
  }

  /** Post by member 1, thread root by member 2. A reply by member 3 notifies
      member 2 and then member 1; a reply by the post's author notifies
      member 2 only; a reply by member 2 to a root of member 1 notifies
      member 1 once, about the comment. */
  lemma ReplyScenario(postId: PostId, title: string, content: string)
    ensures var post := Post(1, title);
            var root := Comment(postId, 2, content, false, 1, Root);
            ReplyNotifications(postId, post, root, 3) == [CommentReplyEvent(postId, post, root), PostReplyEvent(postId, post)] &&
            ReplyNotifications(postId, post, root, 1) == [CommentReplyEvent(postId, post, root)]
    ensures var post := Post(1, title);
            var root := Comment(postId, 1, content, false, 1, Root);
            ReplyNotifications(postId, post, root, 2) == [CommentReplyEvent(postId, post, root)]
  {
  }
}
