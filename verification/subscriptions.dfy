/** `UserViewSet.subscriptions`: the users the requester follows. The view
    filters users by `following__follower=user`; `following` is the reverse
    name of `Follow.follower`, so the filter compares a Follow row's
    follower with itself and selects the requester once per Follow row of
    theirs. The intended filter goes through `followers`, the reverse name
    of `Follow.following`. Both are modelled; the rest of the model uses
    the intended one. */
module Subscriptions {
  import opened Wrappers
  import opened Tables
  import opened Schema
  import opened Http
  import Serializers

  /** The query as written: one entry per Follow row whose follower is
      `user`, and that entry is the follower. */
  function AsWritten(follows: seq<(UserId, UserId)>, user: UserId): seq<UserId> {
    if |follows| == 0 then []
    else (if follows[0].0 == user then [follows[0].0] else []) + AsWritten(follows[1..], user)
  }

  /** The requester's subscriptions: the followed author of each Follow row
      whose follower is `user`. */
  function Following(follows: seq<(UserId, UserId)>, user: UserId): (r: seq<UserId>)
    ensures forall a :: a in r <==> (user, a) in follows
    ensures |r| == FollowingCount(follows, user)
  {
    if |follows| == 0 then []
    else
      assert forall p :: p in follows <==> p == follows[0] || p in follows[1..] by {
        assert follows == [follows[0]] + follows[1..];
      }
      (if follows[0].0 == user then [follows[0].1] else []) + Following(follows[1..], user)
  }

  /** Under the uniqueness of Follow rows nobody is listed twice. */
  lemma {:induction false} FollowingNoDup(follows: seq<(UserId, UserId)>, user: UserId)
    requires NoDup(follows)
    ensures NoDup(Following(follows, user))
  {
    if |follows| > 0 {
      var rest := Following(follows[1..], user);
      var head: seq<UserId> := if follows[0].0 == user then [follows[0].1] else [];
      assert NoDup(follows[1..]) by {
        forall i, j | 0 <= i < j < |follows[1..]| ensures follows[1..][i] != follows[1..][j] {
          assert follows[1..][i] == follows[i + 1] && follows[1..][j] == follows[j + 1];
        }
      }
      FollowingNoDup(follows[1..], user);
      assert follows[0] !in follows[1..] by {
        forall k | 0 <= k < |follows[1..]| ensures follows[1..][k] != follows[0] {
          assert follows[1..][k] == follows[k + 1];
        }
      }
      forall i, j | 0 <= i < j < |head + rest| ensures (head + rest)[i] != (head + rest)[j] {
        if |head| == 1 && i == 0 {
          assert (head + rest)[j] == rest[j - 1];
          assert (user, rest[j - 1]) in follows[1..];
        } else {
          assert (head + rest)[i] == rest[i - |head|] && (head + rest)[j] == rest[j - |head|];
        }
      }
    }
  }

  /** As written, the list holds nobody but the requester, once per user
      they follow. */
  lemma {:induction false} AsWrittenIsSelf(follows: seq<(UserId, UserId)>, user: UserId)
    ensures forall x :: x in AsWritten(follows, user) ==> x == user
    ensures |AsWritten(follows, user)| == FollowingCount(follows, user)
  {
    if |follows| > 0 {
      AsWrittenIsSelf(follows[1..], user);
    }
  }

  /** User 1 follows user 2: the list as written shows user 1, the intended
      list shows user 2. */
  lemma AsWrittenCounterexample()
    ensures AsWritten([(1, 2)], 1) == [1]
    ensures Following([(1, 2)], 1) == [2]
  {
  }

  /** Everyone on the intended list renders with `is_subscribed` true for
      the requester. */
  lemma FollowingAreSubscribed(follows: seq<(UserId, UserId)>, user: UserId, a: UserId)
    requires a in Following(follows, user)
    ensures Serializers.IsSubscribed(Some(Authenticated(user)), follows, a)
  {
  }
}
