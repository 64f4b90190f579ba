/**
 * The inbox screen (components/Inbox.tsx): the conversation list for the signed-in user,
 * the messages of the selected thread, and the reply box.
 *
 * The list holds administrator conversations for an administrator and user conversations
 * for anyone else; a `Conversation` carries the thread user only when it came from the
 * administrator inbox.
 */
module InboxView {
  import opened Types
  import opened Text
  import opened ListOps
  import opened Queries
  import opened AdminInbox
  import opened UserInbox
  import opened MockApi

  datatype Conversation = Conversation(post: Post, lastMessage: Message, user: Option<ThreadUser>)

  function FromAdmin(s: seq<AdminConversation>): (r: seq<Conversation>)
    ensures |r| == |s|
    ensures forall i :: 0 <= i < |s| ==> r[i] == Conversation(s[i].post, s[i].lastMessage, Some(s[i].user))
  {
    if s == [] then [] else [Conversation(s[0].post, s[0].lastMessage, Some(s[0].user))] + FromAdmin(s[1..])
  }

  function FromUser(s: seq<UserConversation>): (r: seq<Conversation>)
    ensures |r| == |s|
    ensures forall i :: 0 <= i < |s| ==> r[i] == Conversation(s[i].post, s[i].lastMessage, None)
  {
    if s == [] then [] else [Conversation(s[0].post, s[0].lastMessage, None)] + FromUser(s[1..])
  }

  /** `fetchInbox`: the administrator inbox for an administrator, the user's own inbox otherwise. */
  function InboxFor(posts: seq<Post>, log: seq<Message>, me: User): (r: seq<Conversation>)
    ensures me.role == ADMIN ==> r == FromAdmin(AdminInboxOf(posts, log))
    ensures me.role != ADMIN ==> r == FromUser(UserInboxOf(posts, log, me.id))
    ensures me.role == ADMIN ==> forall c :: c in r ==> c.user.Some?
  {
    if me.role == ADMIN then FromAdmin(AdminInboxOf(posts, log)) else FromUser(UserInboxOf(posts, log, me.id))
  }

  /**
   * Each row of the list is a thread of the store: for an administrator, a live report with
   * the student the thread is with and that pair's latest message; for anyone else, a live
   * report and the viewer's last message on it.
   */
  lemma InboxRows(posts: seq<Post>, log: seq<Message>, me: User)
    ensures me.role == ADMIN ==> forall c :: c in InboxFor(posts, log, me) ==>
      && FindPost(posts, c.post.id) == Some(c.post)
      && c.user.Some? && c.user.value.id == StudentId(c.lastMessage)
      && c.lastMessage in log && c.lastMessage.postId == c.post.id
      && forall m :: m in log && KeyOf(m) == KeyOf(c.lastMessage) ==> m.timestamp <= c.lastMessage.timestamp
    ensures me.role != ADMIN ==> forall c :: c in InboxFor(posts, log, me) ==>
      && FindPost(posts, c.post.id) == Some(c.post)
      && c.user.None?
      && c.lastMessage.postId == c.post.id && Touches(c.lastMessage, me.id)
  {
    var r := InboxFor(posts, log, me);
    if me.role == ADMIN {
      var a := AdminInboxOf(posts, log);
      forall c | c in r
        ensures && FindPost(posts, c.post.id) == Some(c.post)
                && c.user.Some? && c.user.value.id == StudentId(c.lastMessage)
                && c.lastMessage in log && c.lastMessage.postId == c.post.id
                && forall m :: m in log && KeyOf(m) == KeyOf(c.lastMessage) ==> m.timestamp <= c.lastMessage.timestamp
      {
        var i :| 0 <= i < |r| && r[i] == c;
        ThreadShows(posts, log, a[i]);
      }
    } else {
      var u := UserInboxOf(posts, log, me.id);
      forall c | c in r
        ensures && FindPost(posts, c.post.id) == Some(c.post)
                && c.user.None?
                && c.lastMessage.postId == c.post.id && Touches(c.lastMessage, me.id)
      {
        var i :| 0 <= i < |r| && r[i] == c;
        UserThreadShows(posts, log, me.id, u[i]);
      }
    }
  }

  /** What an administrator's thread needs: the student it is with. */
  predicate Fits(role: UserRole, c: Conversation)
  {
    role == ADMIN ==> c.user.Some?
  }

  /** `fetchMessages`' participant: the thread's student for an administrator, oneself otherwise. */
  function Participant(me: User, t: Conversation): (id: string)
    requires Fits(me.role, t)
  {
    if me.role == ADMIN then t.user.value.id else me.id
  }

  /** `handleSend`'s recipient: the thread's student for an administrator, the office otherwise. */
  function Recipient(me: User, t: Conversation): (id: string)
    requires Fits(me.role, t)
  {
    if me.role == ADMIN then t.user.value.id else ADMIN_ID
  }

  /** The fields `handleSend` passes to `sendMessage`. */
  function Outgoing(me: User, t: Conversation, content: string): (d: MessageDraft)
    requires Fits(me.role, t)
    ensures d.postId == t.post.id && d.senderId == me.id && d.senderName == me.name && d.content == content
    ensures d.isAdmin <==> me.role == ADMIN
    ensures d.recipientId == Recipient(me, t)
  {
    MessageDraft(t.post.id, me.id, me.name, Recipient(me, t), content, me.role == ADMIN)
  }

  /**
   * The participant and the recipient of a thread are the two sides of one conversation:
   * an administrator fetches and addresses the thread's student; a user fetches their own
   * messages and addresses the office.
   */
  lemma ParticipantAndRecipient(me: User, t: Conversation)
    requires Fits(me.role, t)
    ensures me.role == ADMIN ==> Participant(me, t) == Recipient(me, t) == t.user.value.id
    ensures me.role != ADMIN ==> Participant(me, t) == me.id && Recipient(me, t) == ADMIN_ID
  {
  }

  /**
   * An administrator's reply is filed under the very thread it answers: its (post, student)
   * key is the thread's key.
   */
  lemma AdminReplyStaysInThread(me: User, c: AdminConversation, content: string, id: string, now: nat)
    requires me.role == ADMIN
    ensures var t := Conversation(c.post, c.lastMessage, Some(c.user));
      KeyOf(Stamp(Outgoing(me, t, content), id, now)) == ConvKey(c)
  {
  }

  /**
   * A user's message goes to the office, is filed in the administrator inbox under
   * (post, that user), and becomes the latest message of that post in the user's own inbox.
   */
  lemma UserMessageReachesOffice(posts: seq<Post>, log: seq<Message>, me: User, t: Conversation, content: string, id: string, now: nat)
    requires me.role != ADMIN
    requires FindPost(posts, t.post.id).Some?
    ensures var m := Stamp(Outgoing(me, t, content), id, now);
      && m.recipientId == ADMIN_ID
      && KeyOf(m) == ThreadKey(t.post.id, me.id)
      && (exists c :: c in AdminInboxOf(posts, log + [m]) && ConvKey(c) == ThreadKey(t.post.id, me.id))
      && (exists c :: c in UserInboxOf(posts, log + [m], me.id) && c.post.id == t.post.id && c.lastMessage == m)
  {
    var m := Stamp(Outgoing(me, t, content), id, now);
    assert (log + [m])[|log|] == m;
    var c := MessageFiled(posts, log + [m], |log|);
    NewMessageShows(posts, log, me.id, m);
  }

  /**
   * Appending the returned message to the shown list gives what the next fetch of the
   * thread returns: the local append agrees with the store.
   */
  lemma LocalAppendMatchesFetch(log: seq<Message>, me: User, t: Conversation, content: string, id: string, now: nat)
    requires Fits(me.role, t)
    ensures var m := Stamp(Outgoing(me, t, content), id, now);
      GetMessages(log + [m], t.post.id, Some(Participant(me, t)))
        == GetMessages(log, t.post.id, Some(Participant(me, t))) + [m]
  {
    var m := Stamp(Outgoing(me, t, content), id, now);
    SentMessageFetched(log, m);
  }

  /**
   * A user's opened thread shows exactly the messages its conversation summarises, ending
   * with the conversation's last message.
   */
  lemma UserThreadViewEndsWithPreview(posts: seq<Post>, log: seq<Message>, me: User, c: UserConversation)
    requires me.role != ADMIN && me.id != ""
    requires c in UserInboxOf(posts, log, me.id)
    ensures var shown := GetMessages(log, c.post.id, Some(me.id));
      shown != [] && shown[|shown| - 1] == c.lastMessage
  {
    UserInboxCorrect(posts, log, me.id);
    UserFetchIsThread(log, c.post.id, me.id);
  }

  class Inbox {
    const me: User
    const api: Store
    var conversations: seq<Conversation>
    var selected: Option<Conversation>
    var shown: seq<Message>
    var draft: string
    var loading: bool

    /** Every conversation on screen fits the viewer's role (it came from the role's inbox). */
    ghost predicate Valid()
      reads this
    {
      && (forall c :: c in conversations ==> Fits(me.role, c))
      && (selected.Some? ==> Fits(me.role, selected.value))
    }

    constructor (me: User, api: Store)
      ensures this.me == me && this.api == api
      ensures conversations == [] && selected == None && shown == [] && draft == [] && loading
      ensures Valid()
    {
      this.me := me;
      this.api := api;
      conversations := [];
      selected := None;
      shown := [];
      draft := [];
      loading := true;
    }

    /** `fetchInbox`. */
    method FetchInbox()
      requires Valid()
      modifies this`conversations, this`loading
      ensures conversations == InboxFor(api.posts, api.messages, me)
      ensures !loading
      ensures Valid()
    {
      if me.role == ADMIN {
        var data := api.GetAdminInbox();
        conversations := FromAdmin(data);
      } else {
        var data := api.GetUserInbox(me.id);
        conversations := FromUser(data);
      }
      loading := false;
    }

    /** Clicking the `i`-th conversation. */
    method Select(i: nat)
      requires Valid() && i < |conversations|
      modifies this`selected
      ensures selected == Some(conversations[i])
      ensures Valid()
    {
      selected := Some(conversations[i]);
    }

    /** `fetchMessages`: nothing without a selection; otherwise the selected thread's messages for the participant. */
    method FetchMessages()
      requires Valid()
      modifies this`shown
      ensures selected.None? ==> shown == old(shown)
      ensures selected.Some? ==> shown == GetMessages(api.messages, selected.value.post.id, Some(Participant(me, selected.value)))
      ensures Valid()
    {
      if selected.None? {
        return;
      }
      var userId := Participant(me, selected.value);
      shown := GetMessages(api.messages, selected.value.post.id, Some(userId));
    }

    /**
     * `handleSend`: a blank draft or no selection sends nothing; otherwise the draft goes to
     * the recipient, the returned message is appended to the shown list, the draft is
     * cleared and the inbox refetched.
     */
    method HandleSend(idSuffix: string, now: nat)
      requires Valid()
      requires forall x :: x in api.messages ==> x.id != "m_" + idSuffix
      modifies this`shown, this`draft, this`conversations, this`loading, api`messages
      ensures Valid()
      ensures IsBlank(old(draft)) || old(selected).None? ==>
        api.messages == old(api.messages) && shown == old(shown) && draft == old(draft)
        && conversations == old(conversations) && loading == old(loading)
      ensures !IsBlank(old(draft)) && old(selected).Some? ==>
        var m := Stamp(Outgoing(me, old(selected).value, old(draft)), "m_" + idSuffix, now);
        && api.messages == old(api.messages) + [m]
        && shown == old(shown) + [m]
        && draft == []
        && conversations == InboxFor(api.posts, api.messages, me)
        && !loading
    {
      if IsBlank(draft) || selected.None? {
        return;
      }
      var msg := api.SendMessage(Outgoing(me, selected.value, draft), idSuffix, now);
      shown := shown + [msg];
      draft := [];
      FetchInbox();
    }
  }
}
