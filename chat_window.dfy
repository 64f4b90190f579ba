/**
 * The chat window opened on one post (components/ChatWindow.tsx): the post's messages as
 * the signed-in user may see them, and the reply box.
 */
module ChatWindow {
  import opened Types
  import opened Text
  import opened Queries
  import opened AdminInbox
  import opened MockApi

  /** `fetchMessages`' participant: no filter for an administrator, oneself otherwise. */
  function Participant(me: User): (id: Option<string>)
    ensures me.role == ADMIN <==> id.None?
  {
    if me.role == ADMIN then None else Some(me.id)
  }

  /** `handleSend`'s recipient: the post's reporter for an administrator, the office otherwise. */
  function Recipient(me: User, post: Post): (id: string)
    ensures me.role == ADMIN ==> id == post.userId
    ensures me.role != ADMIN ==> id == ADMIN_ID
  {
    if me.role == ADMIN then post.userId else ADMIN_ID
  }

  /** The fields `handleSend` passes to `sendMessage`. */
  function Outgoing(me: User, post: Post, content: string): (d: MessageDraft)
    ensures d.postId == post.id && d.senderId == me.id && d.senderName == me.name && d.content == content
    ensures d.isAdmin <==> me.role == ADMIN
    ensures d.recipientId == Recipient(me, post)
  {
    MessageDraft(post.id, me.id, me.name, Recipient(me, post), content, me.role == ADMIN)
  }

  /** `isMe`: a message is drawn as one's own when one sent it. */
  predicate IsMe(m: Message, me: User)
  {
    m.senderId == me.id
  }

  /** What a user sees of a post: the messages they sent or received; an administrator sees them all. */
  lemma ShownMessages(log: seq<Message>, me: User, post: Post)
    ensures me.role == ADMIN ==> forall m :: m in GetMessages(log, post.id, Participant(me)) <==> m in log && m.postId == post.id
    ensures me.role != ADMIN && me.id != "" ==> forall m :: m in GetMessages(log, post.id, Participant(me)) <==>
      m in log && m.postId == post.id && (m.senderId == me.id || m.recipientId == me.id)
  {
  }

  /**
   * Where a sent message is filed in the administrator inbox: a user's under (post, the
   * user); an administrator's under (post, the reporter), whoever the administrator was
   * answering.
   */
  lemma SentMessageThread(me: User, post: Post, content: string, id: string, now: nat)
    ensures var m := Stamp(Outgoing(me, post, content), id, now);
      && (me.role != ADMIN ==> KeyOf(m) == ThreadKey(post.id, me.id))
      && (me.role == ADMIN ==> KeyOf(m) == ThreadKey(post.id, post.userId))
      && IsMe(m, me)
  {
  }

  /** Appending the returned message gives what the next fetch returns. */
  lemma LocalAppendMatchesFetch(log: seq<Message>, me: User, post: Post, content: string, id: string, now: nat)
    ensures var m := Stamp(Outgoing(me, post, content), id, now);
      GetMessages(log + [m], post.id, Participant(me)) == GetMessages(log, post.id, Participant(me)) + [m]
  {
    var m := Stamp(Outgoing(me, post, content), id, now);
    GetMessagesAppend(log, [m], post.id, Participant(me));
    assert m in GetMessages([m], post.id, Participant(me));
  }

  class Chat {
    const me: User
    const post: Post
    const api: Store
    var shown: seq<Message>
    var draft: string

    constructor (me: User, post: Post, api: Store)
      ensures this.me == me && this.post == post && this.api == api
      ensures shown == [] && draft == []
    {
      this.me := me;
      this.post := post;
      this.api := api;
      shown := [];
      draft := [];
    }

    /** `fetchMessages`. */
    method FetchMessages()
      modifies this`shown
      ensures shown == GetMessages(api.messages, post.id, Participant(me))
    {
      shown := GetMessages(api.messages, post.id, Participant(me));
    }

    /**
     * `handleSend`: a blank draft sends nothing; otherwise the draft goes to the recipient,
     * the returned message is appended to the shown list and the draft is cleared.
     */
    method HandleSend(idSuffix: string, now: nat)
      requires forall x :: x in api.messages ==> x.id != "m_" + idSuffix
      modifies this`shown, this`draft, api`messages
      ensures IsBlank(old(draft)) ==>
        api.messages == old(api.messages) && shown == old(shown) && draft == old(draft)
      ensures !IsBlank(old(draft)) ==>
        var m := Stamp(Outgoing(me, post, old(draft)), "m_" + idSuffix, now);
        && api.messages == old(api.messages) + [m]
        && shown == old(shown) + [m]
        && draft == []
    {
      if IsBlank(draft) {
        return;
      }
      var msg := api.SendMessage(Outgoing(me, post, draft), idSuffix, now);
      shown := shown + [msg];
      draft := [];
    }
  }
}
