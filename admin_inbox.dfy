/**
 * What `getAdminInbox` computes (services/mockApi.ts): one thread per
 * (post, student) pair seen in the message log, holding the pair's latest
 * message, with threads whose post no longer exists left out, sorted newest first.
 *
 * The source keys its `Map` by the string `${postId}_${studentId}`; ids contain
 * '_' themselves, so the model keys threads by the pair itself (ThreadKey).
 * The `Map` keeps insertion order and `set` on an existing key keeps its place,
 * so the map is a sequence of conversations with pairwise different keys.
 */
module AdminInbox {
  import opened Types
  import opened ListOps
  import opened Queries

  const PLACEHOLDER_NAME: string := "Student Registry User"

  /** The administrator-facing counterparty: the recipient of an admin message, else its sender. */
  function StudentId(m: Message): string
  {
    if m.isAdmin then m.recipientId else m.senderId
  }

  datatype ThreadKey = ThreadKey(postId: string, studentId: string)

  function KeyOf(m: Message): ThreadKey
  {
    ThreadKey(m.postId, StudentId(m))
  }

  function ConvKey(c: AdminConversation): ThreadKey
  {
    ThreadKey(c.post.id, c.user.id)
  }

  function AdminTime(c: AdminConversation): nat
  {
    c.lastMessage.timestamp
  }

  /** The name shown for a thread whose latest message is `m`. */
  function NameFor(m: Message): string
  {
    if m.isAdmin then PLACEHOLDER_NAME else m.senderName
  }

  function ThreadFor(post: Post, m: Message): AdminConversation
  {
    AdminConversation(post, m, ThreadUser(StudentId(m), NameFor(m)))
  }

  /** `threads.get(key)`: the position of the thread keyed `k`, or |threads| when there is none. */
  function KeyIndex(threads: seq<AdminConversation>, k: ThreadKey): (i: nat)
    ensures i <= |threads|
    ensures i < |threads| ==> ConvKey(threads[i]) == k
    ensures forall j :: 0 <= j < i ==> ConvKey(threads[j]) != k
  {
    if threads == [] then 0
    else if ConvKey(threads[0]) == k then 0
    else 1 + KeyIndex(threads[1..], k)
  }

  /** One turn of the `forEach` over the log. */
  function Step(threads: seq<AdminConversation>, posts: seq<Post>, m: Message): seq<AdminConversation>
  {
    match FindPost(posts, m.postId)
    case None => threads
    case Some(post) =>
      var i := KeyIndex(threads, KeyOf(m));
      if i == |threads| then threads + [ThreadFor(post, m)]
      else if m.timestamp > threads[i].lastMessage.timestamp then threads[i := ThreadFor(post, m)]
      else threads
  }

  /** The map's values after the `forEach` has visited every message of `log`, in insertion order. */
  function Threads(posts: seq<Post>, log: seq<Message>): seq<AdminConversation>
    decreases |log|
  {
    if log == [] then [] else Step(Threads(posts, log[..|log| - 1]), posts, log[|log| - 1])
  }

  /** `getAdminInbox()`: the threads, stably sorted newest first. */
  function AdminInboxOf(posts: seq<Post>, log: seq<Message>): seq<AdminConversation>
  {
    SortNewestFirst(Threads(posts, log), AdminTime)
  }

  // ---------------------------------------------------------------------------
  // Reference definition of a correct administrator inbox.

  /**
   * `log[j]` is the thread message of key `k` that wins: no message of that key is later,
   * and every earlier one of that key is strictly older (a tie keeps the first).
   */
  ghost predicate IsLatestAt(log: seq<Message>, k: ThreadKey, j: int)
  {
    && 0 <= j < |log|
    && KeyOf(log[j]) == k
    && (forall i :: 0 <= i < |log| && KeyOf(log[i]) == k ==> log[i].timestamp <= log[j].timestamp)
    && (forall i :: 0 <= i < j && KeyOf(log[i]) == k ==> log[i].timestamp < log[j].timestamp)
  }

  /** `c` is the thread of its key: its post resolves, and it holds the winning message and its name. */
  ghost predicate IsThreadOf(posts: seq<Post>, log: seq<Message>, c: AdminConversation)
  {
    && FindPost(posts, c.post.id) == Some(c.post)
    && exists j :: IsLatestAt(log, ConvKey(c), j) && c.lastMessage == log[j] && c.user.name == NameFor(log[j])
  }

  /**
   * Every message whose post resolves has a thread of its key. (Stated through `KeyIndex`
   * rather than an existential so that the solver does not chase threads and messages
   * back and forth; HasThreadIff gives the existential reading.)
   */
  ghost predicate Covers(posts: seq<Post>, log: seq<Message>, threads: seq<AdminConversation>)
  {
    forall j :: 0 <= j < |log| && FindPost(posts, log[j].postId).Some? ==>
      KeyIndex(threads, KeyOf(log[j])) < |threads|
  }

  ghost predicate AdminInboxSpec(posts: seq<Post>, log: seq<Message>, threads: seq<AdminConversation>)
  {
    && DistinctBy(threads, ConvKey)
    && (forall c :: c in threads ==> IsThreadOf(posts, log, c))
    && Covers(posts, log, threads)
  }

  /** `KeyIndex` finds a thread exactly when one of that key is present. */
  lemma HasThreadIff(threads: seq<AdminConversation>, k: ThreadKey)
    ensures KeyIndex(threads, k) < |threads| <==> exists c :: c in threads && ConvKey(c) == k
  {
    if exists c :: c in threads && ConvKey(c) == k {
      var c :| c in threads && ConvKey(c) == k;
      var i :| 0 <= i < |threads| && threads[i] == c;
      assert KeyIndex(threads, k) <= i;
    }
  }

  /** Two thread lists with the same members have threads of the same keys. */
  lemma SameMembersSameKeys(a: seq<AdminConversation>, b: seq<AdminConversation>)
    requires forall c :: c in a <==> c in b
    ensures forall k :: KeyIndex(a, k) < |a| <==> KeyIndex(b, k) < |b|
  {
    forall k ensures KeyIndex(a, k) < |a| <==> KeyIndex(b, k) < |b| {
      HasThreadIff(a, k);
      HasThreadIff(b, k);
    }
  }

  /** Appending a message of another key, or one that is not strictly later, keeps the winner. */
  lemma LatestKept(log: seq<Message>, k: ThreadKey, j: int, m: Message)
    requires IsLatestAt(log, k, j)
    requires KeyOf(m) != k || m.timestamp <= log[j].timestamp
    ensures IsLatestAt(log + [m], k, j)
  {
    var log' := log + [m];
    assert forall i :: 0 <= i < |log| ==> log'[i] == log[i];
  }

  /** Appending a strictly later message of the key, or the key's first message, makes it the winner. */
  lemma LatestTaken(log: seq<Message>, m: Message)
    requires forall i :: 0 <= i < |log| && KeyOf(log[i]) == KeyOf(m) ==> log[i].timestamp < m.timestamp
    ensures IsLatestAt(log + [m], KeyOf(m), |log|)
  {
    var log' := log + [m];
    assert forall i :: 0 <= i < |log| ==> log'[i] == log[i];
  }

  /** A thread of another key is unaffected by appending `m` to the log. */
  lemma KeepsOtherThread(posts: seq<Post>, log: seq<Message>, m: Message, c: AdminConversation)
    requires IsThreadOf(posts, log, c)
    requires ConvKey(c) != KeyOf(m)
    ensures IsThreadOf(posts, log + [m], c)
  {
    var j :| IsLatestAt(log, ConvKey(c), j) && c.lastMessage == log[j] && c.user.name == NameFor(log[j]);
    LatestKept(log, ConvKey(c), j, m);
    assert (log + [m])[j] == log[j];
  }

  /** Coverage survives appending `m` when no key loses its thread and `m`'s key has one (or `m` is an orphan). */
  lemma CoversExtended(posts: seq<Post>, log: seq<Message>, t: seq<AdminConversation>, t': seq<AdminConversation>, m: Message)
    requires Covers(posts, log, t)
    requires forall k :: KeyIndex(t, k) < |t| ==> KeyIndex(t', k) < |t'|
    requires FindPost(posts, m.postId).Some? ==> KeyIndex(t', KeyOf(m)) < |t'|
    ensures Covers(posts, log + [m], t')
  {
    var log' := log + [m];
    forall j | 0 <= j < |log'| && FindPost(posts, log'[j].postId).Some?
      ensures KeyIndex(t', KeyOf(log'[j])) < |t'|
    {
      if j < |log| {
        assert log'[j] == log[j];
      } else {
        assert log'[j] == m;
      }
    }
  }

  /** A message of a post that does not resolve leaves the inbox as it was. */
  lemma StepOrphan(posts: seq<Post>, log: seq<Message>, t: seq<AdminConversation>, m: Message)
    requires AdminInboxSpec(posts, log, t)
    requires FindPost(posts, m.postId).None?
    ensures AdminInboxSpec(posts, log + [m], t)
  {
    forall c | c in t ensures IsThreadOf(posts, log + [m], c) {
      KeepsOtherThread(posts, log, m, c);
    }
    CoversExtended(posts, log, t, t, m);
  }

  /** Appending a thread of a key not yet present keeps keys distinct and every key present. */
  lemma AppendNewKey(t: seq<AdminConversation>, nt: AdminConversation)
    requires DistinctBy(t, ConvKey)
    requires KeyIndex(t, ConvKey(nt)) == |t|
    ensures DistinctBy(t + [nt], ConvKey)
    ensures forall k :: KeyIndex(t, k) < |t| ==> KeyIndex(t + [nt], k) < |t| + 1
    ensures KeyIndex(t + [nt], ConvKey(nt)) < |t| + 1
  {
    var t' := t + [nt];
    forall a, b | 0 <= a < b < |t'| ensures ConvKey(t'[a]) != ConvKey(t'[b]) {
      if b == |t| {
        assert t'[a] == t[a];
      } else {
        assert t'[a] == t[a] && t'[b] == t[b];
      }
    }
    forall k | KeyIndex(t, k) < |t| ensures KeyIndex(t', k) < |t'| {
      assert t'[KeyIndex(t, k)] == t[KeyIndex(t, k)];
    }
    assert t'[|t|] == nt;
  }

  /** The first message of a new (post, student) pair opens a thread at the end. */
  lemma StepNewKey(posts: seq<Post>, log: seq<Message>, t: seq<AdminConversation>, m: Message, post: Post)
    requires AdminInboxSpec(posts, log, t)
    requires FindPost(posts, m.postId) == Some(post)
    requires KeyIndex(t, KeyOf(m)) == |t|
    ensures AdminInboxSpec(posts, log + [m], t + [ThreadFor(post, m)])
  {
    var nt := ThreadFor(post, m);
    var t' := t + [nt];
    LatestTaken(log, m);
    assert (log + [m])[|log|] == m;
    assert IsThreadOf(posts, log + [m], nt);
    forall c | c in t' ensures IsThreadOf(posts, log + [m], c) {
      if c != nt {
        KeepsOtherThread(posts, log, m, c);
      }
    }
    AppendNewKey(t, nt);
    CoversExtended(posts, log, t, t', m);
  }

  /** Replacing a thread by one of the same key keeps keys distinct and every key present. */
  lemma ReplaceSameKey(t: seq<AdminConversation>, i: nat, nt: AdminConversation)
    requires i < |t| && ConvKey(nt) == ConvKey(t[i])
    requires DistinctBy(t, ConvKey)
    ensures DistinctBy(t[i := nt], ConvKey)
    ensures forall k :: KeyIndex(t, k) < |t| ==> KeyIndex(t[i := nt], k) < |t|
  {
    var t' := t[i := nt];
    forall a, b | 0 <= a < b < |t'| ensures ConvKey(t'[a]) != ConvKey(t'[b]) {
      assert ConvKey(t'[a]) == ConvKey(t[a]) && ConvKey(t'[b]) == ConvKey(t[b]);
    }
    forall k | KeyIndex(t, k) < |t| ensures KeyIndex(t', k) < |t'| {
      var x := KeyIndex(t, k);
      assert ConvKey(t'[x]) == k;
      HasThreadIff(t', k);
    }
  }

  /** A strictly later message of an existing pair replaces that thread in place. */
  lemma StepNewer(posts: seq<Post>, log: seq<Message>, t: seq<AdminConversation>, m: Message, post: Post, i: nat)
    requires AdminInboxSpec(posts, log, t)
    requires FindPost(posts, m.postId) == Some(post)
    requires i == KeyIndex(t, KeyOf(m)) && i < |t|
    requires m.timestamp > t[i].lastMessage.timestamp
    ensures AdminInboxSpec(posts, log + [m], t[i := ThreadFor(post, m)])
  {
    var nt := ThreadFor(post, m);
    var t' := t[i := nt];
    var prev := t[i];
    assert prev in t;
    var j0 :| IsLatestAt(log, ConvKey(prev), j0) && prev.lastMessage == log[j0];
    LatestTaken(log, m);
    assert (log + [m])[|log|] == m;
    assert IsThreadOf(posts, log + [m], nt);
    ReplaceSameKey(t, i, nt);
    forall c | c in t' ensures IsThreadOf(posts, log + [m], c) {
      if c != nt {
        var k :| 0 <= k < |t'| && t'[k] == c;
        assert k != i && t[k] == c;
        KeepsOtherThread(posts, log, m, c);
      }
    }
    CoversExtended(posts, log, t, t', m);
  }

  /** A message of an existing pair that is not strictly later leaves the thread as it was. */
  lemma StepNotNewer(posts: seq<Post>, log: seq<Message>, t: seq<AdminConversation>, m: Message, i: nat)
    requires AdminInboxSpec(posts, log, t)
    requires i == KeyIndex(t, KeyOf(m)) && i < |t|
    requires m.timestamp <= t[i].lastMessage.timestamp
    ensures AdminInboxSpec(posts, log + [m], t)
  {
    var prev := t[i];
    assert prev in t;
    var j0 :| IsLatestAt(log, ConvKey(prev), j0) && prev.lastMessage == log[j0] && prev.user.name == NameFor(log[j0]);
    LatestKept(log, ConvKey(prev), j0, m);
    assert (log + [m])[j0] == log[j0];
    forall c | c in t ensures IsThreadOf(posts, log + [m], c) {
      if c != prev {
        var k :| 0 <= k < |t| && t[k] == c;
        KeepsOtherThread(posts, log, m, c);
      }
    }
    CoversExtended(posts, log, t, t, m);
  }

  /** One turn of the loop keeps the threads a correct inbox of the log read so far. */
  lemma StepPreserves(posts: seq<Post>, log: seq<Message>, t: seq<AdminConversation>, m: Message)
    requires AdminInboxSpec(posts, log, t)
    ensures AdminInboxSpec(posts, log + [m], Step(t, posts, m))
  {
    match FindPost(posts, m.postId)
    case None => StepOrphan(posts, log, t, m);
    case Some(post) =>
      var i := KeyIndex(t, KeyOf(m));
      if i == |t| {
        StepNewKey(posts, log, t, m, post);
      } else if m.timestamp > t[i].lastMessage.timestamp {
        StepNewer(posts, log, t, m, post, i);
      } else {
        StepNotNewer(posts, log, t, m, i);
      }
  }

  /** The threads the loop builds form a correct inbox of the whole log. */
  lemma {:induction false} ThreadsCorrect(posts: seq<Post>, log: seq<Message>)
    ensures AdminInboxSpec(posts, log, Threads(posts, log))
    decreases |log|
  {
    if log != [] {
      var prefix := log[..|log| - 1];
      ThreadsCorrect(posts, prefix);
      StepPreserves(posts, prefix, Threads(posts, prefix), log[|log| - 1]);
      assert prefix + [log[|log| - 1]] == log;
    }
  }

  /**
   * One more message keeps every thread's key in place and adds at most one thread,
   * of a key not yet present and of a live post, at the end.
   */
  lemma ThreadsSnocKeys(posts: seq<Post>, log: seq<Message>)
    requires log != []
    ensures var t := Threads(posts, log[..|log| - 1]);
      var t' := Threads(posts, log);
      var m := log[|log| - 1];
      && |t| <= |t'| <= |t| + 1
      && (forall x :: 0 <= x < |t| ==> ConvKey(t'[x]) == ConvKey(t[x]))
      && (|t'| == |t| + 1 ==>
            ConvKey(t'[|t|]) == KeyOf(m) && KeyIndex(t, KeyOf(m)) == |t| && FindPost(posts, m.postId).Some?)
  {
  }

  /** Every thread of the map is keyed by some message of a live post. */
  lemma ThreadHasMessage(posts: seq<Post>, log: seq<Message>, x: nat) returns (i: nat)
    requires x < |Threads(posts, log)|
    ensures i < |log| && FindPost(posts, log[i].postId).Some? && KeyOf(log[i]) == ConvKey(Threads(posts, log)[x])
  {
    var t := Threads(posts, log);
    ThreadsCorrect(posts, log);
    assert t[x] in t;
    var j :| IsLatestAt(log, ConvKey(t[x]), j) && t[x].lastMessage == log[j];
    i := j;
  }

  /** Every message of a live post has a thread in the map. */
  lemma MessageHasThread(posts: seq<Post>, log: seq<Message>, j: nat)
    requires j < |log| && FindPost(posts, log[j].postId).Some?
    ensures KeyIndex(Threads(posts, log), KeyOf(log[j])) < |Threads(posts, log)|
  {
    ThreadsCorrect(posts, log);
  }

  /**
   * The map's insertion order is the order in which the pairs first appear: every live
   * message of a later thread's pair is preceded by a live message of each earlier thread's pair.
   */
  lemma {:induction false} ThreadsInFirstAppearanceOrder(posts: seq<Post>, log: seq<Message>, a: nat, b: nat, j: nat)
    requires a < b < |Threads(posts, log)|
    requires j < |log| && FindPost(posts, log[j].postId).Some?
    requires KeyOf(log[j]) == ConvKey(Threads(posts, log)[b])
    ensures exists i :: 0 <= i < j && FindPost(posts, log[i].postId).Some?
                        && KeyOf(log[i]) == ConvKey(Threads(posts, log)[a])
    decreases |log|
  {
    var prefix := log[..|log| - 1];
    var t := Threads(posts, prefix);
    ThreadsSnocKeys(posts, log);
    var i0 := ThreadHasMessage(posts, prefix, a);
    assert log[i0] == prefix[i0];
    if j < |prefix| {
      assert log[j] == prefix[j];
      if b < |t| {
        ThreadsInFirstAppearanceOrder(posts, prefix, a, b, j);
        var k :| 0 <= k < j && FindPost(posts, prefix[k].postId).Some? && KeyOf(prefix[k]) == ConvKey(t[a]);
        assert log[k] == prefix[k];
      } else {
        MessageHasThread(posts, prefix, j);
        assert false;
      }
    }
  }

  /** `getAdminInbox` returns a correct inbox, newest first, ties in map insertion order. */
  lemma AdminInboxCorrect(posts: seq<Post>, log: seq<Message>)
    ensures AdminInboxSpec(posts, log, AdminInboxOf(posts, log))
    ensures NewestFirst(AdminInboxOf(posts, log), AdminTime)
    ensures forall t :: WithTime(AdminInboxOf(posts, log), AdminTime, t) == WithTime(Threads(posts, log), AdminTime, t)
  {
    var t := Threads(posts, log);
    var r := AdminInboxOf(posts, log);
    ThreadsCorrect(posts, log);
    SortNewestFirstDistinctBy(t, AdminTime, ConvKey);
    assert forall c :: c in r <==> c in t by {
      forall c ensures c in r <==> c in t {
        assert c in r <==> c in multiset(r);
        assert c in t <==> c in multiset(t);
      }
    }
    SameMembersSameKeys(t, r);
    forall tm {
      SortNewestFirstStable(t, AdminTime, tm);
    }
  }

  // ---------------------------------------------------------------------------
  // What an administrator sees.

  /**
   * Every message of a post that still exists is filed under exactly one thread of its
   * (post, student) key, and that thread's latest message is no older than it.
   */
  lemma MessageFiled(posts: seq<Post>, log: seq<Message>, j: nat) returns (c: AdminConversation)
    requires j < |log| && FindPost(posts, log[j].postId).Some?
    ensures c in AdminInboxOf(posts, log) && ConvKey(c) == KeyOf(log[j])
    ensures c.lastMessage.timestamp >= log[j].timestamp
    ensures forall c' :: c' in AdminInboxOf(posts, log) && ConvKey(c') == KeyOf(log[j]) ==> c' == c
  {
    AdminInboxCorrect(posts, log);
    c := FiledIn(posts, log, AdminInboxOf(posts, log), j);
  }

  lemma FiledIn(posts: seq<Post>, log: seq<Message>, t: seq<AdminConversation>, j: nat) returns (c: AdminConversation)
    requires AdminInboxSpec(posts, log, t)
    requires j < |log| && FindPost(posts, log[j].postId).Some?
    ensures c in t && ConvKey(c) == KeyOf(log[j])
    ensures c.lastMessage.timestamp >= log[j].timestamp
    ensures forall c' :: c' in t && ConvKey(c') == KeyOf(log[j]) ==> c' == c
  {
    var x := KeyIndex(t, KeyOf(log[j]));
    c := t[x];
    assert c in t;
    var w :| IsLatestAt(log, ConvKey(c), w) && c.lastMessage == log[w];
    forall c' | c' in t && ConvKey(c') == KeyOf(log[j]) ensures c' == c {
      var y :| 0 <= y < |t| && t[y] == c';
      assert !(x < y) && !(y < x);
    }
  }

  /** Two messages of one post and one student land in the same thread. */
  lemma SameKeySameThread(posts: seq<Post>, log: seq<Message>, j1: nat, j2: nat)
    requires j1 < |log| && j2 < |log| && FindPost(posts, log[j1].postId).Some?
    requires log[j1].postId == log[j2].postId && StudentId(log[j1]) == StudentId(log[j2])
    ensures exists c :: c in AdminInboxOf(posts, log) && ConvKey(c) == KeyOf(log[j1]) && ConvKey(c) == KeyOf(log[j2])
    ensures forall c1, c2 ::
      (c1 in AdminInboxOf(posts, log) && c2 in AdminInboxOf(posts, log)
       && ConvKey(c1) == KeyOf(log[j1]) && ConvKey(c2) == KeyOf(log[j2])) ==> c1 == c2
  {
    var c := MessageFiled(posts, log, j1);
  }

  /**
   * A thread shows the latest message of its (post, student) pair, the earliest one among
   * equal latest timestamps, and is named by that message: the sender's name when a student
   * wrote it, the placeholder when the office did.
   */
  lemma ThreadShows(posts: seq<Post>, log: seq<Message>, c: AdminConversation)
    requires c in AdminInboxOf(posts, log)
    ensures FindPost(posts, c.post.id) == Some(c.post)
    ensures c.lastMessage in log && KeyOf(c.lastMessage) == ConvKey(c)
    ensures c.post.id == c.lastMessage.postId && c.user.id == StudentId(c.lastMessage)
    ensures forall m :: m in log && KeyOf(m) == ConvKey(c) ==> m.timestamp <= c.lastMessage.timestamp
    ensures exists j ::
      (0 <= j < |log| && log[j] == c.lastMessage
       && forall i :: 0 <= i < j && KeyOf(log[i]) == ConvKey(c) ==> log[i].timestamp < c.lastMessage.timestamp)
    ensures c.lastMessage.isAdmin ==> c.user.name == PLACEHOLDER_NAME
    ensures !c.lastMessage.isAdmin ==> c.user.name == c.lastMessage.senderName
  {
    AdminInboxCorrect(posts, log);
    var j :| IsLatestAt(log, ConvKey(c), j) && c.lastMessage == log[j] && c.user.name == NameFor(log[j]);
    forall m | m in log && KeyOf(m) == ConvKey(c) ensures m.timestamp <= c.lastMessage.timestamp {
      var i :| 0 <= i < |log| && log[i] == m;
    }
  }

  /** A message whose post no longer exists contributes to no thread. */
  lemma OrphanNotFiled(posts: seq<Post>, log: seq<Message>, m: Message)
    requires FindPost(posts, m.postId).None?
    ensures forall c :: c in AdminInboxOf(posts, log) ==> c.post.id != m.postId && c.lastMessage != m
  {
    AdminInboxCorrect(posts, log);
    forall c | c in AdminInboxOf(posts, log) ensures c.post.id != m.postId && c.lastMessage != m {
      ThreadShows(posts, log, c);
    }
  }

  /** After `deletePost(id)` no administrator thread refers to that post. */
  lemma DeletedPostLeavesAdminInbox(posts: seq<Post>, log: seq<Message>, id: string)
    ensures forall c :: c in AdminInboxOf(PostsWithout(posts, id), log) ==> c.post.id != id
  {
    AdminInboxCorrect(PostsWithout(posts, id), log);
  }

  /**
   * Opening a thread fetches `getMessages(post.id, user.id)`: that shows every message of the
   * thread's pair, its latest message included.
   */
  lemma ThreadFetchShowsPair(posts: seq<Post>, log: seq<Message>, c: AdminConversation)
    requires c in AdminInboxOf(posts, log)
    ensures forall m :: m in log && KeyOf(m) == ConvKey(c) ==> m in GetMessages(log, c.post.id, Some(c.user.id))
    ensures c.lastMessage in GetMessages(log, c.post.id, Some(c.user.id))
  {
    ThreadShows(posts, log, c);
  }
}
