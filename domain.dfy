/**
 The entities the comment service works on, its error codes and the
 notification events it publishes.
 */
module Domain {

  type PostId = int
  type MemberId = int
  type CommentId = int

  /** A post, as loaded together with its author. */
  datatype Post = Post(author: MemberId, title: string) {
    /** The post was written by `member`. */
    predicate IsMine(member: MemberId) {
      author == member
    }
  }

  /** Where a comment sits in its thread: a thread root, or a reply whose
      comment group is the root `root`. */
  datatype Group = Root | ReplyTo(root: CommentId)

  /** A stored comment. `number` is the value of the author's comment number
      record for the post. */
  datatype Comment = Comment(
    post: PostId,
    author: MemberId,
    content: string,
    anonymity: bool,
    number: int,
    group: Group)
  {
    predicate IsMine(member: MemberId) {
      author == member
    }

    predicate IsAssociatedWithPost(postId: PostId) {
      post == postId
    }

    /** The comment is a thread root, so it may receive replies. */
    predicate IsParent() {
      group.Root?
    }
  }

  /** The error codes the service raises. */
  datatype Error =
    | NotFoundPost
    | MemberNotFoundById
    | NotFoundComment
    | NotAssociatedWithPost
    | ForbiddenReplySubComment
    | UnauthorizedUpdateComment
    | UnauthorizedDeleteComment

  datatype Result<T> = Ok(value: T) | Err(error: Error)

  /** The answer to a like toggle: the like count after the toggle and
      whether the member now likes the comment. */
  datatype LikeResult = LikeResult(likeCount: int, liked: bool)

  datatype NotificationType = PostReplay | CommentReplay

  datatype ServiceType = PostService

  /** A notification handed to the event publisher. The formatted message is
      represented by the post title it is built from. */
  datatype NotificationEvent = NotificationEvent(
    owner: MemberId,
    title: string,
    contentId: PostId,
    serviceType: ServiceType,
    notificationType: NotificationType)

  /** The event telling the author of post `postId` that it received a comment. */
  function PostReplyEvent(postId: PostId, post: Post): NotificationEvent {
    NotificationEvent(post.author, post.title, postId, PostService, PostReplay)
  }

  /** The event telling the author of `parent` that it received a reply. */
  function CommentReplyEvent(postId: PostId, post: Post, parent: Comment): NotificationEvent {
    NotificationEvent(parent.author, post.title, postId, PostService, CommentReplay)
  }
}
