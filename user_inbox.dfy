/**
 * What `getUserInbox(userId)` computes (services/mockApi.ts): one conversation per post
 * that has a message the user sent or received, in the order the posts first appear,
 * holding the last such message in log order; posts that no longer exist are skipped,
 * and the result is stably sorted newest first.
 */
module UserInbox {
  import opened Types
  import opened ListOps
  import opened Queries

  /** The user is the sender or the recipient of `m`. */
  predicate Touches(m: Message, userId: string)
  {
    m.senderId == userId || m.recipientId == userId
  }

  predicate InUserThread(m: Message, postId: string, userId: string)
  {
    m.postId == postId && Touches(m, userId)
  }

  function UserThreadFilter(postId: string, userId: string): Message -> bool
  {
    m => InUserThread(m, postId, userId)
  }

  /** `postMessages`: the user's messages on one post, in log order. */
  function UserThread(log: seq<Message>, postId: string, userId: string): (r: seq<Message>)
    ensures forall m :: m in r <==> m in log && m.postId == postId && Touches(m, userId)
  {
    Filter(log, UserThreadFilter(postId, userId))
  }

  function UserTime(c: UserConversation): nat
  {
    c.lastMessage.timestamp
  }

  function ConvPostId(c: UserConversation): string
  {
    c.post.id
  }

  /**
   * `new Set(messages.filter(touches).map(m => m.postId))`: the post ids of the user's
   * messages, each once, in the order of first appearance (`TouchedPostIdsInFirstAppearanceOrder`).
   */
  function TouchedPostIds(log: seq<Message>, userId: string): (ids: seq<string>)
    ensures forall a, b :: 0 <= a < b < |ids| ==> ids[a] != ids[b]
    ensures forall pid :: pid in ids <==> UserThread(log, pid, userId) != []
    decreases |log|
  {
    if log == [] then []
    else
      var prefix := log[..|log| - 1];
      var m := log[|log| - 1];
      var ids := TouchedPostIds(prefix, userId);
      assert log == prefix + [m];
      assert forall pid :: UserThread(log, pid, userId) == UserThread(prefix, pid, userId) + UserThread([m], pid, userId) by {
        forall pid ensures UserThread(log, pid, userId) == UserThread(prefix, pid, userId) + UserThread([m], pid, userId) {
          FilterAppend(prefix, [m], UserThreadFilter(pid, userId));
        }
      }
      if Touches(m, userId) && m.postId !in ids then
        assert m in UserThread([m], m.postId, userId);
        ids + [m.postId]
      else
        ids
  }

  /** One more message keeps the ids so far and adds at most its own post id, when that one is new. */
  lemma TouchedPostIdsSnoc(log: seq<Message>, userId: string)
    requires log != []
    ensures var ids := TouchedPostIds(log[..|log| - 1], userId);
      var ids' := TouchedPostIds(log, userId);
      && ids'[..|ids|] == ids
      && (|ids'| > |ids| ==> ids' == ids + [log[|log| - 1].postId])
  {
  }

  /** An id in the list has a message of the user on it somewhere in the log. */
  lemma TouchedPostIdHasMessage(log: seq<Message>, userId: string, x: nat) returns (i: nat)
    requires x < |TouchedPostIds(log, userId)|
    ensures i < |log| && InUserThread(log[i], TouchedPostIds(log, userId)[x], userId)
  {
    var pid := TouchedPostIds(log, userId)[x];
    var first := UserThread(log, pid, userId)[0];
    assert first in UserThread(log, pid, userId);
    i :| 0 <= i < |log| && log[i] == first;
  }

  /**
   * The ids come in the order of first appearance: every message of the user on a later
   * id is preceded in the log by one of the user's messages on each earlier id.
   */
  lemma {:induction false} TouchedPostIdsInFirstAppearanceOrder(log: seq<Message>, userId: string, a: nat, b: nat, j: nat)
    requires a < b < |TouchedPostIds(log, userId)|
    requires j < |log| && InUserThread(log[j], TouchedPostIds(log, userId)[b], userId)
    ensures exists i :: 0 <= i < j && InUserThread(log[i], TouchedPostIds(log, userId)[a], userId)
    decreases |log|
  {
    var prefix := log[..|log| - 1];
    var ids := TouchedPostIds(prefix, userId);
    TouchedPostIdsSnoc(log, userId);
    assert TouchedPostIds(log, userId)[a] == ids[a];
    var i0 := TouchedPostIdHasMessage(prefix, userId, a);
    assert log[i0] == prefix[i0];
    if j < |prefix| {
      assert log[j] == prefix[j];
      if b < |ids| {
        assert TouchedPostIds(log, userId)[b] == ids[b];
        TouchedPostIdsInFirstAppearanceOrder(prefix, userId, a, b, j);
        var k :| 0 <= k < j && InUserThread(prefix[k], ids[a], userId);
        assert log[k] == prefix[k];
      } else {
        assert false;
      }
    }
  }

  /** The `forEach` over the post ids: a conversation for each id whose post exists and whose thread is non-empty. */
  function UserThreadsOver(posts: seq<Post>, log: seq<Message>, userId: string, ids: seq<string>): seq<UserConversation>
    decreases |ids|
  {
    if ids == [] then []
    else
      var convs := UserThreadsOver(posts, log, userId, ids[..|ids| - 1]);
      var pid := ids[|ids| - 1];
      var pm := UserThread(log, pid, userId);
      match FindPost(posts, pid)
      case Some(post) =>
        if |pm| > 0 then convs + [UserConversation(post, pm[|pm| - 1])] else convs
      case None => convs
  }

  /** One more id extends the loop's result by that id's conversation, if it has one. */
  lemma UserThreadsOverSnoc(posts: seq<Post>, log: seq<Message>, userId: string, ids: seq<string>, k: nat)
    requires k < |ids|
    ensures var pm := UserThread(log, ids[k], userId);
      var rest := UserThreadsOver(posts, log, userId, ids[..k]);
      UserThreadsOver(posts, log, userId, ids[..k + 1])
        == if FindPost(posts, ids[k]).Some? && |pm| > 0
           then rest + [UserConversation(FindPost(posts, ids[k]).value, pm[|pm| - 1])]
           else rest
  {
    assert ids[..k + 1][..k] == ids[..k];
  }

  /** `getUserInbox(userId)`. */
  function UserInboxOf(posts: seq<Post>, log: seq<Message>, userId: string): seq<UserConversation>
  {
    SortNewestFirst(UserThreadsOver(posts, log, userId, TouchedPostIds(log, userId)), UserTime)
  }

  // ---------------------------------------------------------------------------
  // Reference definition of a correct user inbox.

  /** `c` is the conversation of its post: the post exists and `c` holds the user's last message on it. */
  ghost predicate IsUserThreadOf(posts: seq<Post>, log: seq<Message>, userId: string, c: UserConversation)
  {
    var pm := UserThread(log, c.post.id, userId);
    && FindPost(posts, c.post.id) == Some(c.post)
    && pm != []
    && c.lastMessage == pm[|pm| - 1]
  }

  ghost predicate UserInboxSpec(posts: seq<Post>, log: seq<Message>, userId: string, r: seq<UserConversation>)
  {
    && DistinctBy(r, ConvPostId)
    && (forall c :: c in r ==> IsUserThreadOf(posts, log, userId, c))
    && (forall pid :: FindPost(posts, pid).Some? && UserThread(log, pid, userId) != [] ==>
          exists c :: c in r && c.post.id == pid)
  }

  /** The loop over a list of distinct ids yields one correct conversation per id that qualifies. */
  lemma {:induction false} UserThreadsOverCorrect(posts: seq<Post>, log: seq<Message>, userId: string, ids: seq<string>)
    requires forall a, b :: 0 <= a < b < |ids| ==> ids[a] != ids[b]
    ensures DistinctBy(UserThreadsOver(posts, log, userId, ids), ConvPostId)
    ensures forall c :: c in UserThreadsOver(posts, log, userId, ids) ==>
      c.post.id in ids && IsUserThreadOf(posts, log, userId, c)
    ensures forall pid :: pid in ids && FindPost(posts, pid).Some? && UserThread(log, pid, userId) != [] ==>
      exists c :: c in UserThreadsOver(posts, log, userId, ids) && c.post.id == pid
    decreases |ids|
  {
    if ids != [] {
      var front := ids[..|ids| - 1];
      var pid := ids[|ids| - 1];
      assert forall x :: x in ids <==> x in front || x == pid by {
        assert ids == front + [pid];
      }
      UserThreadsOverCorrect(posts, log, userId, front);
      var convs := UserThreadsOver(posts, log, userId, front);
      var r := UserThreadsOver(posts, log, userId, ids);
      assert pid !in front by {
        forall k | 0 <= k < |front| ensures front[k] != pid {
          assert front[k] == ids[k];
        }
      }
      var pm := UserThread(log, pid, userId);
      if FindPost(posts, pid).Some? && |pm| > 0 {
        var nc := UserConversation(FindPost(posts, pid).value, pm[|pm| - 1]);
        assert r == convs + [nc];
        assert forall c :: c in r <==> c in convs || c == nc;
        AppendNewPostId(convs, nc);
        assert nc in r;
      } else {
        assert r == convs;
      }
    }
  }

  lemma AppendNewPostId(convs: seq<UserConversation>, nc: UserConversation)
    requires DistinctBy(convs, ConvPostId)
    requires forall c :: c in convs ==> c.post.id != nc.post.id
    ensures DistinctBy(convs + [nc], ConvPostId)
  {
    var r := convs + [nc];
    forall a, b | 0 <= a < b < |r| ensures ConvPostId(r[a]) != ConvPostId(r[b]) {
      assert r[a] == convs[a];
      if b < |convs| {
        assert r[b] == convs[b];
      }
    }
  }

  /** `getUserInbox` returns a correct inbox, sorted newest first. */
  lemma UserInboxCorrect(posts: seq<Post>, log: seq<Message>, userId: string)
    ensures UserInboxSpec(posts, log, userId, UserInboxOf(posts, log, userId))
    ensures NewestFirst(UserInboxOf(posts, log, userId), UserTime)
    ensures forall tm :: WithTime(UserInboxOf(posts, log, userId), UserTime, tm)
                         == WithTime(UserThreadsOver(posts, log, userId, TouchedPostIds(log, userId)), UserTime, tm)
  {
    var ids := TouchedPostIds(log, userId);
    var t := UserThreadsOver(posts, log, userId, ids);
    var r := UserInboxOf(posts, log, userId);
    UserThreadsOverCorrect(posts, log, userId, ids);
    SortNewestFirstDistinctBy(t, UserTime, ConvPostId);
    assert forall c :: c in r <==> c in t by {
      forall c ensures c in r <==> c in t {
        assert c in r <==> c in multiset(r);
        assert c in t <==> c in multiset(t);
      }
    }
    forall tm {
      SortNewestFirstStable(t, UserTime, tm);
    }
  }

  /**
   * Each conversation holds the user's last message on its post in log order: the message
   * is in the log, concerns the post and the user, and no later message does.
   */
  lemma UserThreadShows(posts: seq<Post>, log: seq<Message>, userId: string, c: UserConversation)
    requires c in UserInboxOf(posts, log, userId)
    ensures FindPost(posts, c.post.id) == Some(c.post)
    ensures c.lastMessage.postId == c.post.id && Touches(c.lastMessage, userId)
    ensures exists j ::
      (0 <= j < |log| && log[j] == c.lastMessage
       && forall i :: j < i < |log| ==> !InUserThread(log[i], c.post.id, userId))
  {
    UserInboxCorrect(posts, log, userId);
    LastOfThread(posts, log, userId, c);
  }

  lemma LastOfThread(posts: seq<Post>, log: seq<Message>, userId: string, c: UserConversation)
    requires IsUserThreadOf(posts, log, userId, c)
    ensures c.lastMessage.postId == c.post.id && Touches(c.lastMessage, userId)
    ensures exists j ::
      (0 <= j < |log| && log[j] == c.lastMessage
       && forall i :: j < i < |log| ==> !InUserThread(log[i], c.post.id, userId))
  {
    var pm := UserThread(log, c.post.id, userId);
    assert pm[|pm| - 1] in pm;
    var j := FilterLast(log, UserThreadFilter(c.post.id, userId));
    assert forall i :: j < i < |log| ==> !InUserThread(log[i], c.post.id, userId);
  }

  /** A message whose post no longer exists shows in no conversation. */
  lemma UserOrphanNotShown(posts: seq<Post>, log: seq<Message>, userId: string, m: Message)
    requires FindPost(posts, m.postId).None?
    ensures forall c :: c in UserInboxOf(posts, log, userId) ==> c.post.id != m.postId && c.lastMessage != m
  {
    UserInboxCorrect(posts, log, userId);
  }

  /** Once the user sends or receives `m` on an existing post, that post's conversation shows `m`. */
  lemma NewMessageShows(posts: seq<Post>, log: seq<Message>, userId: string, m: Message)
    requires Touches(m, userId) && FindPost(posts, m.postId).Some?
    ensures exists c :: c in UserInboxOf(posts, log + [m], userId) && c.post.id == m.postId && c.lastMessage == m
  {
    var log' := log + [m];
    FilterAppend(log, [m], UserThreadFilter(m.postId, userId));
    assert UserThread([m], m.postId, userId) == [m];
    UserInboxCorrect(posts, log', userId);
    assert UserThread(log', m.postId, userId) != [];
  }

  /**
   * A user's thread fetch, `getMessages(postId, userId)`, returns exactly the messages the
   * inbox conversation for that post was built from.
   */
  lemma UserFetchIsThread(log: seq<Message>, postId: string, userId: string)
    requires userId != ""
    ensures GetMessages(log, postId, Some(userId)) == UserThread(log, postId, userId)
  {
    FilterSamePredicate(log, PostThreadFilter(postId, Some(userId)), UserThreadFilter(postId, userId));
  }
}
