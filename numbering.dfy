/**
 Comment numbers: every member who comments on a post gets one number for
 that post, assigned on the first comment as the number of records the post
 already has plus one, and reused for all later comments and replies.
 */
module Numbering {
  import opened Domain

  /** The comment number records, keyed by (post, member). */
  type NumberTable = map<(PostId, MemberId), int>

  /** The keys of the records of one post. */
  function PostKeys(numbers: NumberTable, post: PostId): set<(PostId, MemberId)> {
    set key | key in numbers.Keys && key.0 == post
  }

  /** The count query over the records of one post. */
  function CountForPost(numbers: NumberTable, post: PostId): nat {
    |PostKeys(numbers, post)|
  }

  /** The numbers the records of one post carry. */
  ghost function NumbersOf(numbers: NumberTable, post: PostId): set<int> {
    set key | key in numbers.Keys && key.0 == post :: numbers[key]
  }

  /** The records of `post` carry exactly the numbers 1..k. */
  ghost predicate NumberedOneTo(numbers: NumberTable, post: PostId, k: nat) {
    forall i :: i in NumbersOf(numbers, post) <==> 1 <= i <= k
  }

  /** No two records of the post carry the same number. */
  ghost predicate Distinct(numbers: NumberTable, post: PostId) {
    forall a, b ::
      a in numbers && b in numbers && a.0 == post && b.0 == post && a != b ==> numbers[a] != numbers[b]
  }

  /** The k records of `post` carry exactly the numbers 1..k, no two alike. */
  ghost predicate DenseFor(numbers: NumberTable, post: PostId) {
    NumberedOneTo(numbers, post, CountForPost(numbers, post)) && Distinct(numbers, post)
  }

  /** Every post's records are numbered 1..k without repetition. */
  ghost predicate Dense(numbers: NumberTable) {
    forall post :: DenseFor(numbers, post)
  }

  datatype Assignment = Assignment(number: int, table: NumberTable)

  /** Find the (post, member) record, or create one numbered one past the
      post's record count. */
  function AssignNumber(numbers: NumberTable, post: PostId, member: MemberId): (r: Assignment)
    ensures (post, member) in r.table && r.table[(post, member)] == r.number
    ensures (post, member) in numbers ==> r.number == numbers[(post, member)] && r.table == numbers
    ensures (post, member) !in numbers ==>
              r.number == CountForPost(numbers, post) + 1 && r.table.Keys == numbers.Keys + {(post, member)}
    ensures forall key :: key in numbers ==> key in r.table && r.table[key] == numbers[key]
  {
    if (post, member) in numbers then
      Assignment(numbers[(post, member)], numbers)
    else
      var next := CountForPost(numbers, post) + 1;
      Assignment(next, numbers[(post, member) := next])
  }

  /** A first comment adds exactly one record to its post and none to any
      other post; a later one adds nothing. */
  lemma CountAfterAssign(numbers: NumberTable, post: PostId, member: MemberId, other: PostId)
    ensures var t := AssignNumber(numbers, post, member).table;
            CountForPost(t, other)
            == if other == post && (post, member) !in numbers then CountForPost(numbers, other) + 1
               else CountForPost(numbers, other)
  {
    var t := AssignNumber(numbers, post, member).table;
    if other == post && (post, member) !in numbers {
      assert PostKeys(t, other) == PostKeys(numbers, other) + {(post, member)};
      assert (post, member) !in PostKeys(numbers, other);
    } else {
      assert PostKeys(t, other) == PostKeys(numbers, other);
    }
  }

  /** A fresh record numbered one past the count keeps its post numbered
      1..k+1 without repetition. */
  lemma FreshRecordKeepsDense(numbers: NumberTable, key: (PostId, MemberId))
    requires key !in numbers && DenseFor(numbers, key.0)
    ensures var k := CountForPost(numbers, key.0);
            var t := numbers[key := k + 1];
            CountForPost(t, key.0) == k + 1 && NumberedOneTo(t, key.0, k + 1) && Distinct(t, key.0)
  {
    var post := key.0;
    var k: nat := CountForPost(numbers, post);
    var t := numbers[key := k + 1];
    assert PostKeys(t, post) == PostKeys(numbers, post) + {key};
    forall i ensures i in NumbersOf(t, post) <==> 1 <= i <= k + 1 {
      if 1 <= i <= k + 1 {
        if i == k + 1 {
          assert t[key] == i;
        } else {
          assert i in NumbersOf(numbers, post);
          var a :| a in numbers.Keys && a.0 == post && numbers[a] == i;
          assert t[a] == i;
        }
      }
      if i in NumbersOf(t, post) {
        var a :| a in t.Keys && a.0 == post && t[a] == i;
        if a != key {
          assert numbers[a] in NumbersOf(numbers, post);
        }
      }
    }
    forall a, b | a in t && b in t && a.0 == post && b.0 == post && a != b
      ensures t[a] != t[b]
    {
      if a == key {
        assert numbers[b] in NumbersOf(numbers, post);
      } else if b == key {
        assert numbers[a] in NumbersOf(numbers, post);
      }
    }
    assert NumberedOneTo(t, post, k + 1);
  }

  /** Assigning a number keeps every post numbered 1..k without repetition:
      a post numbered 1..k is numbered 1..k or 1..k+1 afterwards. */
  lemma AssignKeepsDense(numbers: NumberTable, post: PostId, member: MemberId, other: PostId)
    requires DenseFor(numbers, other)
    ensures var t := AssignNumber(numbers, post, member).table;
            DenseFor(t, other) &&
            (NumberedOneTo(t, other, CountForPost(numbers, other)) ||
             NumberedOneTo(t, other, CountForPost(numbers, other) + 1))
  {
    var t := AssignNumber(numbers, post, member).table;
    if other == post && (post, member) !in numbers {
      FreshRecordKeepsDense(numbers, (post, member));
    } else {
      assert PostKeys(t, other) == PostKeys(numbers, other);
      assert NumbersOf(t, other) == NumbersOf(numbers, other);
    }
  }

  /** The table a run of first-or-later comments leaves behind. */
  function AssignAll(numbers: NumberTable, writes: seq<(PostId, MemberId)>): NumberTable
    decreases |writes|
  {
    if writes == [] then numbers
    else AssignAll(AssignNumber(numbers, writes[0].0, writes[0].1).table, writes[1..])
  }

  /** From any densely numbered table, any sequence of comment writes leaves
      every post numbered 1..k without repetition. */
  lemma {:induction false} WritesKeepDense(numbers: NumberTable, writes: seq<(PostId, MemberId)>)
    requires Dense(numbers)
    ensures Dense(AssignAll(numbers, writes))
    decreases |writes|
  {
    if writes != [] {
      var t := AssignNumber(numbers, writes[0].0, writes[0].1).table;
      forall post ensures DenseFor(t, post) {
        AssignKeepsDense(numbers, writes[0].0, writes[0].1, post);
      }
      WritesKeepDense(t, writes[1..]);
    }
  }

  /** The empty table is dense. */
  lemma EmptyIsDense()
    ensures Dense(map[])
  {
  }
}
