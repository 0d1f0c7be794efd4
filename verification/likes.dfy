/**
 The like/unlike toggle on a property's `likes` sequence: a user already in
 the sequence is filtered out (every occurrence), any other user is appended.
 */
module Likes {
  import opened Seqs
  import opened PropertyModel

  const LikedMessage: string := "Successfully liked"
  const UnlikedMessage: string := "Successfully Unliked"

  /** The body of a successful toggle reply: the status message and the new `likes`. */
  datatype LikeReply = LikeReply(message: string, likes: seq<UserId>)

  /** The unlike filter's test: an entry that is not `user`. */
  function Others(user: UserId): UserId -> bool
  {
    (id: UserId) => id != user
  }

  /** One toggle by `user`. The test is the controller's: the filter of entries
      equal to the user is non-empty. */
  function ToggleLike(likes: seq<UserId>, user: UserId): (t: LikeReply)
    ensures user in likes ==> t.message == UnlikedMessage
    ensures user in likes ==> user !in t.likes
    ensures user in likes ==>
      forall v :: v != user ==> multiset(t.likes)[v] == multiset(likes)[v]
    ensures user !in likes ==> t.message == LikedMessage && t.likes == likes + [user]
  {
    var isLiked := Filter(likes, (like: UserId) => like == user);
    assert user in likes ==> multiset(isLiked)[user] > 0;
    if |isLiked| > 0 then
      LikeReply(UnlikedMessage, Filter(likes, Others(user)))
    else
      LikeReply(LikedMessage, likes + [user])
  }

  /** A toggle flips the caller's membership: the two states are Liked and NotLiked. */
  lemma ToggleFlipsMembership(likes: seq<UserId>, user: UserId)
    ensures user in ToggleLike(likes, user).likes <==> user !in likes
  {
  }

  /** Other users' entries are never touched: every other id keeps its count. */
  lemma {:induction false} ToggleLeavesOthers(likes: seq<UserId>, user: UserId, other: UserId)
    requires other != user
    ensures multiset(ToggleLike(likes, user).likes)[other] == multiset(likes)[other]
  {
    if user !in likes {
      assert multiset(likes + [user]) == multiset(likes) + multiset{user};
    }
  }

  /** A toggle keeps `likes` free of duplicates. */
  lemma {:induction false} ToggleKeepsNoDuplicates(likes: seq<UserId>, user: UserId)
    requires NoDuplicates(likes)
    ensures NoDuplicates(ToggleLike(likes, user).likes)
  {
    var t := ToggleLike(likes, user);
    forall x
      ensures multiset(t.likes)[x] <= 1
    {
      if x != user {
        ToggleLeavesOthers(likes, user, x);
      } else if user !in likes {
        assert multiset(likes + [user]) == multiset(likes) + multiset{user};
      }
    }
  }

  /** Two consecutive toggles by the same user restore the set of users liking
      the property. */
  lemma {:induction false} ToggleTwiceRestoresMembership(likes: seq<UserId>, user: UserId)
    ensures Members(ToggleLike(ToggleLike(likes, user).likes, user).likes) == Members(likes)
  {
    var once := ToggleLike(likes, user).likes;
    var twice := ToggleLike(once, user).likes;
    forall x
      ensures x in twice <==> x in likes
    {
      if x == user {
        ToggleFlipsMembership(likes, user);
        ToggleFlipsMembership(once, user);
      } else {
        ToggleLeavesOthers(likes, user, x);
        ToggleLeavesOthers(once, user, x);
      }
    }
  }

  /** When `likes` has no duplicates, two toggles restore it up to order, and a
      like followed by an unlike restores it exactly. */
  lemma {:induction false} ToggleTwiceRestoresLikes(likes: seq<UserId>, user: UserId)
    requires NoDuplicates(likes)
    ensures multiset(ToggleLike(ToggleLike(likes, user).likes, user).likes) == multiset(likes)
    ensures user !in likes ==> ToggleLike(ToggleLike(likes, user).likes, user).likes == likes
  {
    var once := ToggleLike(likes, user).likes;
    var twice := ToggleLike(once, user).likes;
    forall x
      ensures multiset(twice)[x] == multiset(likes)[x]
    {
      if x == user {
        ToggleKeepsNoDuplicates(likes, user);
        ToggleFlipsMembership(likes, user);
        ToggleFlipsMembership(once, user);
      } else {
        ToggleLeavesOthers(likes, user, x);
        ToggleLeavesOthers(once, user, x);
      }
    }
    if user !in likes {
      UnlikeAfterLike(likes, user);
    }
  }

  /** Unliking right after a like removes exactly the appended entry. */
  lemma {:induction false} UnlikeAfterLike(likes: seq<UserId>, user: UserId)
    requires user !in likes
    ensures Filter(likes + [user], Others(user)) == likes
  {
    FilterKeepsAll(likes, Others(user));
    FilterAppend(likes, [user], Others(user));
  }

  /** Unliking keeps the remaining entries in their original order, however
      often the caller occurs: whatever surrounds one of the caller's entries
      is filtered in place and the two parts close up. */
  lemma {:induction false} UnlikeKeepsOrder(a: seq<UserId>, b: seq<UserId>, user: UserId)
    ensures ToggleLike(a + [user] + b, user).likes == Filter(a, Others(user)) + Filter(b, Others(user))
  {
    var keep := Others(user);
    var likes := a + [user] + b;
    assert user in likes;
    assert ToggleLike(likes, user).likes == Filter(likes, keep);
    FilterAppend(a + [user], b, keep);
    FilterAppend(a, [user], keep);
    assert Filter([user], keep) == [];
    assert Filter(a + [user], keep) == Filter(a, keep);
  }

  /** With the caller liking only once, unliking leaves exactly the entries
      around that one entry, in order. */
  lemma {:induction false} UnlikeCutsSingleEntry(a: seq<UserId>, b: seq<UserId>, user: UserId)
    requires user !in a && user !in b
    ensures ToggleLike(a + [user] + b, user).likes == a + b
  {
    UnlikeKeepsOrder(a, b, user);
    FilterKeepsAll(a, Others(user));
    FilterKeepsAll(b, Others(user));
  }
}
