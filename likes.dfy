/**
 Comment likes: a set of (comment, member) pairs. Liking is a toggle: a
 present pair is removed, an absent one added.
 */
module Likes {
  import opened Domain

  type LikeTable = set<(CommentId, MemberId)>

  /** The count query: how many members like `comment`. */
  function LikeCount(likes: LikeTable, comment: CommentId): nat {
    |set like | like in likes && like.0 == comment|
  }

  /** The like table after `member` toggles its like of `comment`. */
  function Toggled(likes: LikeTable, comment: CommentId, member: MemberId): (r: LikeTable)
    ensures ((comment, member) in r) == ((comment, member) !in likes)
    ensures forall like :: like != (comment, member) ==> (like in r <==> like in likes)
  {
    if (comment, member) in likes then likes - {(comment, member)} else likes + {(comment, member)}
  }

  /** The stored count moves by exactly one: down when the like was present,
      up when it was absent. */
  lemma ToggledCount(likes: LikeTable, comment: CommentId, member: MemberId)
    ensures LikeCount(Toggled(likes, comment, member), comment)
            == if (comment, member) in likes then LikeCount(likes, comment) - 1
               else LikeCount(likes, comment) + 1
  {
    var before := set like | like in likes && like.0 == comment;
    var after := set like | like in Toggled(likes, comment, member) && like.0 == comment;
    if (comment, member) in likes {
      assert after == before - {(comment, member)};
    } else {
      assert after == before + {(comment, member)};
    }
  }

  /** Toggling one pair leaves the count of every other comment alone. */
  lemma ToggledCountOthers(likes: LikeTable, comment: CommentId, member: MemberId, other: CommentId)
    requires other != comment
    ensures LikeCount(Toggled(likes, comment, member), other) == LikeCount(likes, other)
  {
    assert (set like | like in Toggled(likes, comment, member) && like.0 == other)
        == (set like | like in likes && like.0 == other);
  }

  /** Toggling twice restores the like table exactly. */
  lemma ToggledTwice(likes: LikeTable, comment: CommentId, member: MemberId)
    ensures Toggled(Toggled(likes, comment, member), comment, member) == likes
  {
  }
}
