/**
 * The read-only queries of the in-memory API (services/mockApi.ts): looking a
 * record up by id, the post listing each role sees, the thread-scoped message
 * fetch, and the filter `deletePost` writes back.
 */
module Queries {
  import opened Types
  import opened ListOps

  /** `posts.findIndex(p => p.id === id)`: the first index whose id matches, or -1. */
  function PostIndex(posts: seq<Post>, id: string): (i: int)
    ensures -1 <= i < |posts|
    ensures i >= 0 ==> posts[i].id == id
    ensures forall j :: 0 <= j < |posts| && (i == -1 || j < i) ==> posts[j].id != id
  {
    if posts == [] then -1
    else if posts[0].id == id then 0
    else
      var k := PostIndex(posts[1..], id);
      if k == -1 then -1 else k + 1
  }

  /** `posts.find(p => p.id === id)`. */
  function FindPost(posts: seq<Post>, id: string): (r: Option<Post>)
    ensures r.Some? ==> r.value in posts && r.value.id == id
    ensures r.None? <==> forall p :: p in posts ==> p.id != id
  {
    var i := PostIndex(posts, id);
    if i == -1 then None else Some(posts[i])
  }

  /** `find` returns the first post with the id: no earlier post carries it. */
  lemma FindPostFirst(posts: seq<Post>, id: string)
    ensures FindPost(posts, id).Some? ==>
      exists i :: 0 <= i < |posts| && posts[i] == FindPost(posts, id).value && forall j :: 0 <= j < i ==> posts[j].id != id
  {
    var i := PostIndex(posts, id);
    if i >= 0 {
      assert posts[i] == FindPost(posts, id).value;
    }
  }

  /** `users.findIndex(u => u.id === id)`: the first index whose id matches, or -1. */
  function UserIndex(users: seq<User>, id: string): (i: int)
    ensures -1 <= i < |users|
    ensures i >= 0 ==> users[i].id == id
    ensures forall j :: 0 <= j < |users| && (i == -1 || j < i) ==> users[j].id != id
  {
    if users == [] then -1
    else if users[0].id == id then 0
    else
      var k := UserIndex(users[1..], id);
      if k == -1 then -1 else k + 1
  }

  /** An optional id the source tests with `!id`: missing or the empty string. */
  predicate Absent(id: Option<string>)
  {
    id.None? || id.value == ""
  }

  /** The condition `getMessages` filters the log with. */
  predicate InPostThread(m: Message, postId: string, userId: Option<string>)
  {
    m.postId == postId && (Absent(userId) || m.senderId == userId.value || m.recipientId == userId.value)
  }

  function PostThreadFilter(postId: string, userId: Option<string>): Message -> bool
  {
    m => InPostThread(m, postId, userId)
  }

  /**
   * `getMessages(postId, userId?)`: the messages of one post, oldest first; with a
   * participant id, only those that id sent or received.
   */
  function GetMessages(log: seq<Message>, postId: string, userId: Option<string>): (r: seq<Message>)
    ensures forall m :: m in r <==> (m in log && m.postId == postId
      && (Absent(userId) || m.senderId == userId.value || m.recipientId == userId.value))
  {
    Filter(log, PostThreadFilter(postId, userId))
  }

  /** The fetch keeps log order: fetching over a longer log extends the earlier result. */
  lemma GetMessagesAppend(a: seq<Message>, b: seq<Message>, postId: string, userId: Option<string>)
    ensures GetMessages(a + b, postId, userId) == GetMessages(a, postId, userId) + GetMessages(b, postId, userId)
  {
    FilterAppend(a, b, PostThreadFilter(postId, userId));
  }

  /** The messages of one post, whoever sent them. */
  function OnPost(postId: string): Message -> bool
  {
    (m: Message) => m.postId == postId
  }

  /**
   * With no participant, the fetch is every message of the post, in log order; on a log of
   * that post's messages alone it is the whole log.
   */
  lemma {:induction false} GetMessagesWholePost(log: seq<Message>, postId: string, userId: Option<string>)
    requires Absent(userId)
    ensures GetMessages(log, postId, userId) == Filter(log, OnPost(postId))
    ensures (forall m :: m in log ==> m.postId == postId) ==> GetMessages(log, postId, userId) == log
  {
    FilterSamePredicate(log, PostThreadFilter(postId, userId), OnPost(postId));
    if forall m :: m in log ==> m.postId == postId {
      FilterKeepsAll(log, PostThreadFilter(postId, userId));
    }
  }

  predicate IsApproved(p: Post)
  {
    p.status == APPROVED
  }

  predicate OwnedBy(p: Post, userId: string)
  {
    p.userId == userId
  }

  function OwnerFilter(userId: string): Post -> bool
  {
    p => OwnedBy(p, userId)
  }

  /**
   * `getPosts(role, userId?)`: an administrator sees every post; otherwise a given user id
   * sees that user's own posts, and no user id sees the approved posts.
   */
  function GetPosts(posts: seq<Post>, role: UserRole, userId: Option<string>): (r: seq<Post>)
    ensures role == ADMIN ==> r == posts
    ensures role != ADMIN && !Absent(userId) ==>
      forall p :: p in r <==> p in posts && p.userId == userId.value
    ensures role != ADMIN && Absent(userId) ==>
      forall p :: p in r <==> p in posts && p.status == APPROVED
  {
    if role == ADMIN then posts
    else if !Absent(userId) then Filter(posts, OwnerFilter(userId.value))
    else Filter(posts, IsApproved)
  }

  function OtherIdFilter(id: string): Post -> bool
  {
    (p: Post) => p.id != id
  }

  /** The list `deletePost(id)` writes back: every post with that id removed, the rest in order. */
  function PostsWithout(posts: seq<Post>, id: string): (r: seq<Post>)
    ensures forall p :: p in r <==> p in posts && p.id != id
    ensures FindPost(r, id) == None
  {
    Filter(posts, OtherIdFilter(id))
  }

  /** Deleting an id no post carries changes nothing. */
  lemma DeleteMissingIsNoOp(posts: seq<Post>, id: string)
    requires FindPost(posts, id) == None
    ensures PostsWithout(posts, id) == posts
  {
    FilterKeepsAll(posts, OtherIdFilter(id));
  }

  /** Deleting keeps the relative order of the remaining posts. */
  lemma PostsWithoutAppend(a: seq<Post>, b: seq<Post>, id: string)
    ensures PostsWithout(a + b, id) == PostsWithout(a, id) + PostsWithout(b, id)
  {
    FilterAppend(a, b, OtherIdFilter(id));
  }
}
