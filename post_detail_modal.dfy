/**
 * The report detail modal (components/PostDetailModal.tsx): which controls its footer
 * offers, decided by the viewer's role, whether the viewer filed the report, and the
 * report's status; and what each control asks the application to do.
 */
module PostDetailModal {
  import opened Types

  /** A footer control. `AwaitingReview` is a notice and asks for nothing. */
  datatype Control = Approve | Reject | DeletePermanently | MessageOffice | AwaitingReview | MarkRecovered

  /** What a control hands to the application's callbacks. */
  datatype Request =
    | SetStatus(postId: string, status: PostStatus)   // `onAction(post.id, status)`
    | Delete(postId: string)                          // `onDelete(post.id)`
    | OpenChat(post: Post)                            // `onMessageOffice(post)`
    | NoRequest

  /** The record the modal is given when nobody is signed in. */
  const GUEST: User := User("", "Guest", "", USER, None)

  predicate IsAdmin(me: User)
  {
    me.role == ADMIN
  }

  predicate IsOwner(me: User, post: Post)
  {
    me.id == post.userId
  }

  /** The footer, in display order. */
  function Controls(me: User, post: Post): (r: seq<Control>)
    ensures |r| <= 2
    ensures IsAdmin(me) ==> r != []
    ensures !IsAdmin(me) ==> |r| <= 1
  {
    if IsAdmin(me) then
      if post.status == PENDING then [Approve, Reject] else [DeletePermanently]
    else
      (if !IsOwner(me, post) then [MessageOffice] else [])
      + (if IsOwner(me, post) && post.status == PENDING then [AwaitingReview] else [])
      + (if IsOwner(me, post) && post.status == APPROVED then [MarkRecovered] else [])
  }

  /** The callback a control's click makes. */
  function RequestOf(c: Control, post: Post): (q: Request)
    ensures q.SetStatus? || q.Delete? ==> q.postId == post.id
    ensures q.OpenChat? ==> q.post == post
  {
    match c
    case Approve => SetStatus(post.id, APPROVED)
    case Reject => SetStatus(post.id, DECLINED)
    case DeletePermanently => Delete(post.id)
    case MessageOffice => OpenChat(post)
    case AwaitingReview => NoRequest
    case MarkRecovered => SetStatus(post.id, CLEARED)
  }

  /**
   * The action table. An administrator reviews a pending report (approve or reject) and can
   * only delete any other; this holds even for a report the administrator filed. Anyone
   * else can message the office about someone else's report, sees a notice on their own
   * pending report, can close their own approved report, and gets nothing on their own
   * declined or cleared report.
   */
  lemma {:induction false} ControlTable(me: User, post: Post)
    ensures IsAdmin(me) && post.status == PENDING ==> Controls(me, post) == [Approve, Reject]
    ensures IsAdmin(me) && post.status != PENDING ==> Controls(me, post) == [DeletePermanently]
    ensures !IsAdmin(me) && !IsOwner(me, post) ==> Controls(me, post) == [MessageOffice]
    ensures !IsAdmin(me) && IsOwner(me, post) && post.status == PENDING ==> Controls(me, post) == [AwaitingReview]
    ensures !IsAdmin(me) && IsOwner(me, post) && post.status == APPROVED ==> Controls(me, post) == [MarkRecovered]
    ensures !IsAdmin(me) && IsOwner(me, post) && (post.status == DECLINED || post.status == CLEARED) ==>
      Controls(me, post) == []
  {
    if !IsAdmin(me) {
      var owner := IsOwner(me, post);
      assert Controls(me, post)
          == (if !owner then [MessageOffice] else [])
           + (if owner && post.status == PENDING then [AwaitingReview] else [])
           + (if owner && post.status == APPROVED then [MarkRecovered] else []);
    }
  }

  /** The footer is empty exactly for the reporter of a declined or cleared report. */
  lemma NoControlsIff(me: User, post: Post)
    ensures Controls(me, post) == [] <==>
      !IsAdmin(me) && IsOwner(me, post) && (post.status == DECLINED || post.status == CLEARED)
  {
    ControlTable(me, post);
  }

  /**
   * Who may change a report's status from the modal: an administrator, only while it is
   * pending and only to approved or declined; the reporter, only from approved to cleared.
   * Nobody else gets a status change, and only an administrator gets a deletion.
   */
  lemma StatusChangesGuarded(me: User, post: Post, c: Control)
    requires c in Controls(me, post)
    ensures RequestOf(c, post).SetStatus? ==>
      var s := RequestOf(c, post).status;
      || (IsAdmin(me) && post.status == PENDING && (s == APPROVED || s == DECLINED))
      || (!IsAdmin(me) && IsOwner(me, post) && post.status == APPROVED && s == CLEARED)
    ensures RequestOf(c, post).Delete? ==> IsAdmin(me) && post.status != PENDING
    ensures RequestOf(c, post).OpenChat? ==> !IsAdmin(me) && !IsOwner(me, post)
  {
    ControlTable(me, post);
  }

  /**
   * A visitor is shown the guest record, which owns no report with a non-empty reporter
   * id, so the only control is messaging the office.
   */
  lemma GuestMayOnlyMessage(post: Post)
    requires post.userId != ""
    ensures Controls(GUEST, post) == [MessageOffice]
  {
    ControlTable(GUEST, post);
  }
}
