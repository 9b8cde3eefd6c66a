# Comment service model

This project models the comment service of a community board: members write
comments and replies on posts, edit and delete their own comments, and
like or unlike comments. Replies are one level deep, so only a thread root can
receive a reply. Each member gets one comment number per post. The number is
assigned on the member's first comment on that post as the post's record
count plus one, and it is reused for every later comment or reply there.
Writing a comment or a reply publishes notification events to the post's
author and to the parent comment's author. Nobody is notified twice, and the
writer is never notified.

The repositories become fields of the class `Service.CommentService`:

- `posts`: post id to author and title
- `members`: a set of member ids
- `numbers`: (post, member) to comment number
- `comments`: comment id to comment
- `likes`: a set of (comment, member) pairs
- `outbox`: a sequence of notification events, standing for the event publisher
- `nextCommentId`: the id generator

Each public operation is a method that returns either an id (or a like
result) or one of the service's error codes. Every check runs before any
write, so an error leaves every field unchanged. The class invariant
`TablesValid` states four things:

- Every comment by a member on a post carries that pair's number.
- A reply's root, while it still exists, is a thread root on the same post.
- Ids are allocated below `nextCommentId`.
- The `k` number records of every post carry exactly the numbers `1..k`, no two alike.

The pure rules live in separate modules, each with its own lemmas:

- `Numbering`: number assignment and its density lemmas.
- `Likes`: the like toggle and its counts.
- `FanOut`: the reply notification rule.

Each method is proved against these modules.

Two points the code settles:

- A new thread root's comment group is set right after saving by a
  repository update (line 80). It is not left null. The model records it as
  the `Root` group, and `IsParent` means "is a thread root".
- Update and delete look up the comment before the member, so a missing
  comment is reported first.

## Model

| member | source | states |
|---|---|---|
| `Numbering.AssignNumber` | src/main/java/com/ssafy/ssafsound/domain/comment/service/CommentService.java:58-68 | an existing (post, member) number is returned and the table is unchanged; otherwise exactly one record is added, for that pair, numbered the post's record count plus one; no existing record is removed or changed |
| `Numbering.CountAfterAssign` | src/main/java/com/ssafy/ssafsound/domain/comment/service/CommentService.java:65 | a first comment raises its post's record count by exactly one and leaves every other post's count alone; a later comment changes no count |
| `Numbering.FreshRecordKeepsDense` | src/main/java/com/ssafy/ssafsound/domain/comment/service/CommentService.java:61-67 | if a post's k records carry exactly 1..k with no repeats, adding a record numbered count + 1 leaves k + 1 records carrying exactly 1..k+1 with no repeats |
| `Numbering.AssignKeepsDense` | src/main/java/com/ssafy/ssafsound/domain/comment/service/CommentService.java:134-144 | a post numbered exactly 1..k without repeats is numbered 1..k or 1..k+1 without repeats after any assignment, whichever post it was for |
| `Numbering.WritesKeepDense` | src/main/java/com/ssafy/ssafsound/domain/comment/service/CommentService.java:58-68 | any sequence of comment writes keeps every post's numbers exactly 1..k and distinct |
| `Likes.Toggled` | src/main/java/com/ssafy/ssafsound/domain/comment/service/CommentService.java:186-205 | the toggled pair flips membership; every other like is kept or left absent as it was |
| `Likes.ToggledCount` | src/main/java/com/ssafy/ssafsound/domain/comment/service/CommentService.java:181-192 | after a toggle the comment's stored like count is the earlier count minus one if the like existed, plus one if it did not |
| `Likes.ToggledCountOthers` | src/main/java/com/ssafy/ssafsound/domain/comment/service/CommentService.java:186-193 | a toggle leaves the like count of every other comment unchanged |
| `Likes.ToggledTwice` | src/main/java/com/ssafy/ssafsound/domain/comment/service/CommentService.java:186-193 | toggling the same like twice restores the like set exactly |
| `FanOut.ReplyNotifications` | src/main/java/com/ssafy/ssafsound/domain/comment/service/CommentService.java:157-165 | at most two events; the parent's author gets a comment-reply event iff they did not write the reply; the post's author gets a post-reply event iff they are neither the replier nor the parent's author; no event goes to the replier; no two events share a recipient; the comment-reply event comes first |
| `FanOut.ReplyScenario` | src/main/java/com/ssafy/ssafsound/domain/comment/service/CommentService.java:157-165 | on concrete threads: a third member's reply notifies the root's author and then the post's author; the post author's reply notifies only the root's author; when the post's author also wrote the root, another member's reply notifies that author once, with the comment-reply event |
| `Service.SaveCommentKeepsValid` | src/main/java/com/ssafy/ssafsound/domain/comment/service/CommentService.java:146-155 | saving a root, or a reply whose parent is a thread root on the same post, under a fresh id and the author's assigned number keeps the table invariant: shared numbers, one-level threads, dense numbering |
| `Service.CommentService.constructor` | src/main/java/com/ssafy/ssafsound/domain/comment/service/CommentService.java:43-48 | a service over given posts and members with no numbers, comments, likes or events satisfies the invariant |
| `Service.CommentService.WriteComment` | src/main/java/com/ssafy/ssafsound/domain/comment/service/CommentService.java:50-87 | fails with NOT_FOUND_POST, then MEMBER_NOT_FOUND_BY_ID, changing nothing; succeeds exactly when the post and the member exist, and then adds one root comment under a fresh id with the assigned number, and publishes one post-reply event to the post's author iff the writer is not that author; posts, members and likes unchanged; invariant kept |
| `Service.CommentService.FindComments` | src/main/java/com/ssafy/ssafsound/domain/comment/service/CommentService.java:89-97 | fails with NOT_FOUND_POST exactly when the post is missing; otherwise returns exactly the ids of the comments on that post |
| `Service.CommentService.UpdateComment` | src/main/java/com/ssafy/ssafsound/domain/comment/service/CommentService.java:99-113 | fails with NOT_FOUND_COMMENT, then MEMBER_NOT_FOUND_BY_ID, then UNAUTHORIZED_UPDATE_COMMENT for a non-author, changing nothing; succeeds exactly for the comment's author, and then only that comment's content and anonymity change and its id is returned |
| `Service.CommentService.WriteCommentReply` | src/main/java/com/ssafy/ssafsound/domain/comment/service/CommentService.java:115-168 | checks in order post, member, parent comment, parent on the same post (NOT_ASSOCIATED_WITH_POST), parent is a root (FORBIDDEN_REPLY_SUB_COMMENT); any error changes nothing; succeeds exactly when all five checks pass, and then adds one reply whose group is the parent, with the assigned number, and appends exactly the fan-out events, which the visited-set code is proved to produce |
| `Service.CommentService.LikeComment` | src/main/java/com/ssafy/ssafsound/domain/comment/service/CommentService.java:170-184 | fails with NOT_FOUND_COMMENT, then MEMBER_NOT_FOUND_BY_ID, changing nothing; succeeds exactly when the comment and the member exist, and then toggles the like and reports the true new like count and like state: liked iff it was not liked before, count one above or below the earlier count |
| `Service.CommentService.ToggleCommentLike` | src/main/java/com/ssafy/ssafsound/domain/comment/service/CommentService.java:186-205 | removes an existing like and reports (count - 1, false), or records a new one and reports (count + 1, true) |
| `Service.CommentService.DeleteComment` | src/main/java/com/ssafy/ssafsound/domain/comment/service/CommentService.java:207-221 | fails with NOT_FOUND_COMMENT, then MEMBER_NOT_FOUND_BY_ID, then UNAUTHORIZED_DELETE_COMMENT for a non-author, changing nothing; succeeds exactly for the comment's author, and then exactly that comment is removed, the input id is returned, and the comment numbers stay |
| `Service.CommentService.PublishNotificationEventFromPostReply` | src/main/java/com/ssafy/ssafsound/domain/comment/service/CommentService.java:223-232 | appends one post-reply event addressed to the post's author about the post |
| `Service.CommentService.PublishNotificationEventFromCommentReply` | src/main/java/com/ssafy/ssafsound/domain/comment/service/CommentService.java:234-243 | appends one comment-reply event addressed to the parent comment's author about the post |

## Left out

- Transactions and rollback: each operation is atomic, with every check before any write, so there is nothing to roll back.
- Concurrency: the model is sequential, so the races on number assignment and on like counts do not arise.
- Event delivery and listeners: publishing is an append to `outbox`. The formatted message text is represented by the post title it is built from.
- FindComments: returns the set of the post's comment ids. The query's ordering by comment group and the view model, with its anonymity rendering and like flags, are not part of this model.
- The repository update that sets a new root's group (line 80): its SQL is not visible, so the model records the group as `Root`.
- DeleteComment: removes only the comment itself. Any cascade onto replies or likes by the repository is not visible, so replies and likes stay.
- Comment ids: database-generated ids are a counter that never reuses an id.
- ToggleCommentLike: does not model the 32-bit `Integer` range of the like count, or the 64-bit range of ids; numbers are unbounded.
- The private `saveCommentLike` and `deleteCommentLike` helpers are folded into `ToggleCommentLike` as set insertion and removal.
- The posts and members tables are only read here: no operation of this service changes them.
