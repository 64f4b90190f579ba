/**
 * The in-memory registry API (services/mockApi.ts): three collections (users, posts,
 * messages) and the session pointer, with the operations that read and write them.
 *
 * Each collection lives under one storage key; reading a key that was never written
 * yields a default that the caller chooses. The defaults differ for users (`[]` in
 * `init`, `[DEFAULT_ADMIN]` in `login` and `updateUserProfile`), so `users` records
 * whether the key was ever written; posts and messages always default to `[]`.
 *
 * The random id suffixes and the clock are parameters; the ids built from them are
 * required to be fresh.
 */
module MockApi {
  import opened Types
  import opened Text
  import opened ListOps
  import opened Queries
  import opened AdminInbox
  import opened UserInbox

  const AVATAR_SEED_URL: string := "https://api.dicebear.com/7.x/avataaars/svg?seed="
  const USER_NOT_FOUND: string := "Registry record not found"

  /** `users.find(u => u.role === UserRole.ADMIN)` finds someone. */
  function HasAdmin(users: seq<User>): (r: bool)
    ensures r <==> exists u :: u in users && u.role == ADMIN
  {
    if users == [] then false
    else
      assert forall u :: u in users <==> u == users[0] || u in users[1..];
      users[0].role == ADMIN || HasAdmin(users[1..])
  }

  /** `users.findIndex(u => u.email.toLowerCase() === email.toLowerCase())`, or -1. */
  function EmailIndex(users: seq<User>, email: string): (i: int)
    ensures -1 <= i < |users|
    ensures i >= 0 ==> Lower(users[i].email) == Lower(email)
    ensures forall j :: 0 <= j < |users| && (i == -1 || j < i) ==> Lower(users[j].email) != Lower(email)
  {
    if users == [] then -1
    else if Lower(users[0].email) == Lower(email) then 0
    else
      var k := EmailIndex(users[1..], email);
      if k == -1 then -1 else k + 1
  }

  /** The record `login` registers for an unknown address; `encodedEmail` is `encodeURIComponent(email)`. */
  function NewUser(email: string, id: string, encodedEmail: string): (u: User)
    ensures u.email == Lower(email) && u.id == id
    ensures u.role == ADMIN <==> Contains(Lower(email), "admin")
    ensures |u.name| == |LocalPart(email)|
    ensures LocalPart(email) != [] ==> u.name[0] == UpperChar(email[0]) && u.name[1..] == LocalPart(email)[1..]
    ensures '@' !in u.name
    ensures u.avatar == Some(AVATAR_SEED_URL + encodedEmail)
  {
    User(id, Capitalize(LocalPart(email)), Lower(email),
         if Contains(Lower(email), "admin") then ADMIN else USER,
         Some(AVATAR_SEED_URL + encodedEmail))
  }

  /** Looking an address up ignores letter case. */
  lemma {:induction false} EmailLookupIgnoresCase(users: seq<User>, e1: string, e2: string)
    requires Lower(e1) == Lower(e2)
    ensures EmailIndex(users, e1) == EmailIndex(users, e2)
  {
    if users != [] {
      EmailLookupIgnoresCase(users[1..], e1, e2);
    }
  }

  /** A user registered by `login` is the one a later `login` with the same address (in any case) finds. */
  lemma {:induction false} RegisteredUserFoundAgain(users: seq<User>, email: string, id: string, encodedEmail: string)
    requires EmailIndex(users, email) == -1
    ensures EmailIndex(users + [NewUser(email, id, encodedEmail)], email) == |users|
  {
    var u := NewUser(email, id, encodedEmail);
    LowerIdempotent(email);
    if users != [] {
      assert (users + [u])[1..] == users[1..] + [u];
      RegisteredUserFoundAgain(users[1..], email, id, encodedEmail);
    }
  }

  /** The fields `updateUserProfile` may overwrite (`Partial<User>`): `Some` means the key is present. */
  datatype UserPatch = UserPatch(
    id: Option<string>,
    name: Option<string>,
    email: Option<string>,
    role: Option<UserRole>,
    avatar: Option<string>)

  function Pick<T>(patched: Option<T>, current: T): T
  {
    if patched.Some? then patched.value else current
  }

  /** `{ ...user, ...patch }`. */
  function ApplyPatch(u: User, patch: UserPatch): User
  {
    User(Pick(patch.id, u.id), Pick(patch.name, u.name), Pick(patch.email, u.email),
         Pick(patch.role, u.role), if patch.avatar.Some? then patch.avatar else u.avatar)
  }

  /** An empty patch changes nothing, and applying a patch twice is applying it once. */
  lemma ApplyPatchLaws(u: User, patch: UserPatch)
    ensures ApplyPatch(u, UserPatch(None, None, None, None, None)) == u
    ensures ApplyPatch(ApplyPatch(u, patch), patch) == ApplyPatch(u, patch)
    ensures patch.id.None? ==> ApplyPatch(u, patch).id == u.id
  {
  }

  /** The list `updatePostStatus(id, status)` writes back: the first post with that id takes the status. */
  function WithStatus(posts: seq<Post>, id: string, status: PostStatus): (r: seq<Post>)
    ensures |r| == |posts|
  {
    var i := PostIndex(posts, id);
    if i == -1 then posts else posts[i := posts[i].(status := status)]
  }

  /**
   * `updatePostStatus` changes the status of the first post with the id and nothing else:
   * every other position, every id and every other lookup is as before; with no such post
   * it is a no-op.
   */
  lemma WithStatusEffect(posts: seq<Post>, id: string, status: PostStatus)
    ensures FindPost(posts, id).None? ==> WithStatus(posts, id, status) == posts
    ensures FindPost(posts, id).Some? ==>
      FindPost(WithStatus(posts, id, status), id) == Some(FindPost(posts, id).value.(status := status))
    ensures forall k :: 0 <= k < |posts| ==> WithStatus(posts, id, status)[k].id == posts[k].id
    ensures forall k :: 0 <= k < |posts| && k != PostIndex(posts, id) ==> WithStatus(posts, id, status)[k] == posts[k]
    ensures forall x :: x != id ==> FindPost(WithStatus(posts, id, status), x) == FindPost(posts, x)
  {
    var r := WithStatus(posts, id, status);
    forall x ensures PostIndex(r, x) == PostIndex(posts, x) {
      PostIndexSameIds(posts, r, x);
    }
  }

  /** Two lists with the same ids position by position answer every `findIndex` alike. */
  lemma {:induction false} PostIndexSameIds(a: seq<Post>, b: seq<Post>, x: string)
    requires |a| == |b| && forall k :: 0 <= k < |a| ==> a[k].id == b[k].id
    ensures PostIndex(a, x) == PostIndex(b, x)
  {
    if a != [] {
      PostIndexSameIds(a[1..], b[1..], x);
    }
  }

  /** Approving a post makes it appear in the listing everyone sees. */
  lemma ApprovalPublishes(posts: seq<Post>, id: string)
    requires FindPost(posts, id).Some?
    ensures FindPost(WithStatus(posts, id, APPROVED), id).Some?
    ensures FindPost(WithStatus(posts, id, APPROVED), id).value in GetPosts(WithStatus(posts, id, APPROVED), USER, None)
  {
    WithStatusEffect(posts, id, APPROVED);
  }

  /**
   * A new report is pending: administrators and its owner see it, the public listing does not.
   */
  lemma NewPostVisibility(p: Post, posts: seq<Post>)
    requires p.status == PENDING
    ensures p in GetPosts([p] + posts, ADMIN, None)
    ensures p !in GetPosts([p] + posts, USER, None)
    ensures p.userId != "" ==> p in GetPosts([p] + posts, USER, Some(p.userId))
  {
  }

  /** After a send, the sender's thread fetch gains exactly that message, at the end. */
  lemma SentMessageFetched(log: seq<Message>, m: Message)
    ensures GetMessages(log + [m], m.postId, Some(m.senderId)) == GetMessages(log, m.postId, Some(m.senderId)) + [m]
    ensures GetMessages(log + [m], m.postId, Some(m.recipientId)) == GetMessages(log, m.postId, Some(m.recipientId)) + [m]
  {
    GetMessagesAppend(log, [m], m.postId, Some(m.senderId));
    GetMessagesAppend(log, [m], m.postId, Some(m.recipientId));
    assert m in GetMessages([m], m.postId, Some(m.senderId));
    assert m in GetMessages([m], m.postId, Some(m.recipientId));
  }

  /** The user `login(email)` returns when the registry holds `users`. */
  function LoginUser(users: seq<User>, email: string, id: string, encodedEmail: string): User
  {
    var i := EmailIndex(users, email);
    if i >= 0 then users[i] else NewUser(email, id, encodedEmail)
  }

  /** The registry after `login(email)`: unchanged when the address is known, the new user appended otherwise. */
  function LoginRegistry(users: seq<User>, email: string, id: string, encodedEmail: string): seq<User>
  {
    if EmailIndex(users, email) >= 0 then users else users + [NewUser(email, id, encodedEmail)]
  }

  /**
   * `login` returns a user with the address asked for (ignoring case): the first registered
   * one when there is one, a new one otherwise; and that user is what a lookup of the address
   * in the resulting registry finds.
   */
  lemma LoginFindsUser(users: seq<User>, email: string, id: string, encodedEmail: string)
    ensures Lower(LoginUser(users, email, id, encodedEmail).email) == Lower(email)
    ensures EmailIndex(users, email) >= 0 ==> LoginUser(users, email, id, encodedEmail) == users[EmailIndex(users, email)]
    ensures EmailIndex(users, email) == -1 ==> LoginUser(users, email, id, encodedEmail) == NewUser(email, id, encodedEmail)
    ensures var r := LoginRegistry(users, email, id, encodedEmail);
      && users <= r
      && EmailIndex(r, email) >= 0
      && r[EmailIndex(r, email)] == LoginUser(users, email, id, encodedEmail)
  {
    LowerIdempotent(email);
    if EmailIndex(users, email) == -1 {
      RegisteredUserFoundAgain(users, email, id, encodedEmail);
    }
  }

  class Store {
    var users: Option<seq<User>>
    var posts: seq<Post>
    var messages: seq<Message>
    var session: Option<User>

    /** A browser whose storage holds nothing yet. */
    constructor ()
      ensures users == None && posts == [] && messages == [] && session == None
    {
      users := None;
      posts := [];
      messages := [];
      session := None;
    }

    /** `getStorage(USERS, default)`. */
    function UsersOr(default: seq<User>): seq<User>
      reads this`users
    {
      if users.Some? then users.value else default
    }

    /** `init()`: seeds the default administrator unless the registry already has an administrator. */
    method Init()
      modifies this`users
      ensures HasAdmin(UsersOr([]))
      ensures old(HasAdmin(UsersOr([]))) ==> users == old(users)
      ensures !old(HasAdmin(UsersOr([]))) ==> users == Some(old(UsersOr([])) + [DEFAULT_ADMIN])
    {
      var us := UsersOr([]);
      if !HasAdmin(us) {
        users := Some(us + [DEFAULT_ADMIN]);
        assert DEFAULT_ADMIN in users.value;
      }
    }

    /** `getCurrentUser()`. */
    method GetCurrentUser() returns (u: Option<User>)
      ensures u == session
    {
      u := session;
    }

    /** `logout()`. */
    method Logout()
      modifies this`session
      ensures session == None
    {
      session := None;
    }

    /**
     * `login(email)`: the registered user with that address, ignoring case, or a new user
     * registered under the fresh id `"u_" + idSuffix`; either way it becomes the session.
     */
    method Login(email: string, idSuffix: string, encodedEmail: string) returns (u: User)
      requires EmailIndex(UsersOr([DEFAULT_ADMIN]), email) == -1 ==>
        UserIndex(UsersOr([DEFAULT_ADMIN]), "u_" + idSuffix) == -1
      modifies this`users, this`session
      ensures u == LoginUser(old(UsersOr([DEFAULT_ADMIN])), email, "u_" + idSuffix, encodedEmail)
      ensures session == Some(u)
      ensures old(EmailIndex(UsersOr([DEFAULT_ADMIN]), email)) >= 0 ==> users == old(users)
      ensures old(EmailIndex(UsersOr([DEFAULT_ADMIN]), email)) == -1 ==>
        users == Some(LoginRegistry(old(UsersOr([DEFAULT_ADMIN])), email, "u_" + idSuffix, encodedEmail))
    {
      var us := UsersOr([DEFAULT_ADMIN]);
      var i := EmailIndex(us, email);
      if i >= 0 {
        u := us[i];
      } else {
        u := NewUser(email, "u_" + idSuffix, encodedEmail);
        users := Some(us + [u]);
      }
      session := Some(u);
    }

    /** `createPost(data)`: a pending report under the fresh id `"p_" + idSuffix`, put first. */
    method CreatePost(draft: PostDraft, idSuffix: string, now: nat) returns (p: Post)
      requires FindPost(posts, "p_" + idSuffix).None?
      modifies this`posts
      ensures p == Post("p_" + idSuffix, draft.userId, draft.userName, draft.title, draft.description,
                        draft.category, draft.location, draft.date, draft.kind, PENDING, draft.image, now)
      ensures posts == [p] + old(posts)
      ensures FindPost(posts, p.id) == Some(p)
    {
      p := Post("p_" + idSuffix, draft.userId, draft.userName, draft.title, draft.description,
                draft.category, draft.location, draft.date, draft.kind, PENDING, draft.image, now);
      posts := [p] + posts;
    }

    /** `updatePostStatus(postId, status)`. */
    method UpdatePostStatus(postId: string, status: PostStatus)
      modifies this`posts
      ensures posts == WithStatus(old(posts), postId, status)
    {
      var idx := PostIndex(posts, postId);
      if idx != -1 {
        posts := posts[idx := posts[idx].(status := status)];
      }
    }

    /** `deletePost(postId)`. */
    method DeletePost(postId: string)
      modifies this`posts
      ensures posts == PostsWithout(old(posts), postId)
      ensures FindPost(posts, postId).None?
    {
      posts := PostsWithout(posts, postId);
    }

    /** `getAdminInbox()`: the loop over the log, then the sort. */
    method GetAdminInbox() returns (r: seq<AdminConversation>)
      ensures r == AdminInboxOf(posts, messages)
      ensures AdminInboxSpec(posts, messages, r) && NewestFirst(r, AdminTime)
    {
      var ps, log := posts, messages;
      var threads: seq<AdminConversation> := [];
      for i := 0 to |log|
        invariant threads == Threads(ps, log[..i])
      {
        var m := log[i];
        var post := FindPost(ps, m.postId);
        if post.Some? {
          var current := KeyIndex(threads, KeyOf(m));
          if current == |threads| {
            threads := threads + [ThreadFor(post.value, m)];
          } else if m.timestamp > threads[current].lastMessage.timestamp {
            threads := threads[current := ThreadFor(post.value, m)];
          }
        }
        assert log[..i + 1][..i] == log[..i];
      }
      assert log[..|log|] == log;
      r := SortNewestFirst(threads, AdminTime);
      AdminInboxCorrect(ps, log);
    }

    /** `getUserInbox(userId)`: the loop over the touched post ids, then the sort. */
    method GetUserInbox(userId: string) returns (r: seq<UserConversation>)
      ensures r == UserInboxOf(posts, messages, userId)
      ensures UserInboxSpec(posts, messages, userId, r) && NewestFirst(r, UserTime)
    {
      var ps, log := posts, messages;
      var ids := TouchedPostIds(log, userId);
      var conversations: seq<UserConversation> := [];
      for k := 0 to |ids|
        invariant conversations == UserThreadsOver(ps, log, userId, ids[..k])
      {
        var pid := ids[k];
        var postMessages := UserThread(log, pid, userId);
        var post := FindPost(ps, pid);
        if post.Some? && |postMessages| > 0 {
          conversations := conversations + [UserConversation(post.value, postMessages[|postMessages| - 1])];
        }
        UserThreadsOverSnoc(ps, log, userId, ids, k);
      }
      assert ids[..|ids|] == ids;
      r := SortNewestFirst(conversations, UserTime);
      UserInboxCorrect(ps, log, userId);
    }

    /** `sendMessage(data)`: the message under the fresh id `"m_" + idSuffix`, stamped `now`, appended. */
    method SendMessage(draft: MessageDraft, idSuffix: string, now: nat) returns (m: Message)
      requires forall x :: x in messages ==> x.id != "m_" + idSuffix
      modifies this`messages
      ensures m == Stamp(draft, "m_" + idSuffix, now)
      ensures messages == old(messages) + [m]
    {
      m := Stamp(draft, "m_" + idSuffix, now);
      messages := messages + [m];
    }

    /**
     * `updateUserProfile(userId, data)`: merges the patch into the first user with the id and,
     * when the session is that user, into the session; an unknown id is an error.
     */
    method UpdateUserProfile(userId: string, patch: UserPatch) returns (r: Result<User, string>)
      modifies this`users, this`session
      ensures old(UserIndex(UsersOr([DEFAULT_ADMIN]), userId)) == -1 ==>
        r == Err(USER_NOT_FOUND) && users == old(users) && session == old(session)
      ensures var i := old(UserIndex(UsersOr([DEFAULT_ADMIN]), userId));
        i >= 0 ==>
          && r == Ok(ApplyPatch(old(UsersOr([DEFAULT_ADMIN]))[i], patch))
          && users == Some(old(UsersOr([DEFAULT_ADMIN]))[i := r.value])
          && session == (if old(session).Some? && old(session).value.id == userId then Some(r.value) else old(session))
    {
      var us := UsersOr([DEFAULT_ADMIN]);
      var idx := UserIndex(us, userId);
      if idx == -1 {
        return Err(USER_NOT_FOUND);
      }
      var updated := ApplyPatch(us[idx], patch);
      users := Some(us[idx := updated]);
      if session.Some? && session.value.id == userId {
        session := Some(updated);
      }
      r := Ok(updated);
    }
  }
}
