/**
 * The administrator's table (components/AdminPanel.tsx): the reports split into the
 * pending queue and the rest, the buttons on each row, and the colour of each status
 * badge.
 */
module AdminPanel {
  import opened Types
  import opened ListOps
  import PostDetailModal

  function PendingFilter(): Post -> bool
  {
    (p: Post) => p.status == PENDING
  }

  function OthersFilter(): Post -> bool
  {
    Not(PendingFilter())
  }

  /** `pending`: the pending reports, in list order. */
  function Pending(posts: seq<Post>): (r: seq<Post>)
    ensures forall p :: p in r <==> p in posts && p.status == PENDING
  {
    Filter(posts, PendingFilter())
  }

  /** `others`: every other report, in list order. */
  function Others(posts: seq<Post>): (r: seq<Post>)
    ensures forall p :: p in r <==> p in posts && p.status != PENDING
  {
    Filter(posts, OthersFilter())
  }

  /**
   * The two tables partition the reports: every report is in exactly one of them, and
   * together they hold each report as often as the list does.
   */
  lemma Partition(posts: seq<Post>)
    ensures multiset(Pending(posts)) + multiset(Others(posts)) == multiset(posts)
    ensures |Pending(posts)| + |Others(posts)| == |posts|
    ensures forall p :: p in posts ==> (p in Pending(posts) <==> p !in Others(posts))
  {
    FilterSplit(posts, PendingFilter());
    assert |multiset(Pending(posts))| + |multiset(Others(posts))| == |multiset(posts)|;
  }

  /** Each table keeps the list's order: splitting the list splits each table the same way. */
  lemma PartitionKeepsOrder(a: seq<Post>, b: seq<Post>)
    ensures Pending(a + b) == Pending(a) + Pending(b)
    ensures Others(a + b) == Others(a) + Others(b)
  {
    FilterAppend(a, b, PendingFilter());
    FilterAppend(a, b, OthersFilter());
  }

  /** A row's buttons. */
  datatype RowAction = RowApprove | RowDecline | RowDelete

  function RowActions(post: Post): (r: seq<RowAction>)
    ensures r != []
    ensures RowDelete in r <==> post.status != PENDING
  {
    if post.status == PENDING then [RowApprove, RowDecline] else [RowDelete]
  }

  /** The callback a row button makes. */
  function RowRequest(a: RowAction, post: Post): (q: PostDetailModal.Request)
    ensures q.SetStatus? || q.Delete?
    ensures q.postId == post.id
  {
    match a
    case RowApprove => PostDetailModal.SetStatus(post.id, APPROVED)
    case RowDecline => PostDetailModal.SetStatus(post.id, DECLINED)
    case RowDelete => PostDetailModal.Delete(post.id)
  }

  function RowRequests(post: Post, actions: seq<RowAction>): (r: seq<PostDetailModal.Request>)
    ensures |r| == |actions|
    ensures forall i :: 0 <= i < |actions| ==> r[i] == RowRequest(actions[i], post)
  {
    if actions == [] then [] else [RowRequest(actions[0], post)] + RowRequests(post, actions[1..])
  }

  function ModalRequests(post: Post, controls: seq<PostDetailModal.Control>): (r: seq<PostDetailModal.Request>)
    ensures |r| == |controls|
    ensures forall i :: 0 <= i < |controls| ==> r[i] == PostDetailModal.RequestOf(controls[i], post)
  {
    if controls == [] then [] else [PostDetailModal.RequestOf(controls[0], post)] + ModalRequests(post, controls[1..])
  }

  /**
   * The table and the detail modal offer an administrator the same requests, in the same
   * order, for every report: approve then decline while pending, delete otherwise.
   */
  lemma RowsAgreeWithModal(me: User, post: Post)
    requires me.role == ADMIN
    ensures RowRequests(post, RowActions(post)) == ModalRequests(post, PostDetailModal.Controls(me, post))
  {
    PostDetailModal.ControlTable(me, post);
  }

  /** `colors[status]`: the badge classes. */
  function BadgeClass(s: PostStatus): (c: string)
    ensures c != []
  {
    match s
    case PENDING => "bg-amber-100 text-amber-700"
    case APPROVED => "bg-green-100 text-green-700"
    case DECLINED => "bg-rose-100 text-rose-700"
    case CLEARED => "bg-slate-100 text-slate-700"
  }

  /** The map is total over the four statuses, and no two statuses share a badge. */
  lemma BadgesDistinct(s1: PostStatus, s2: PostStatus)
    ensures s1 != s2 ==> BadgeClass(s1) != BadgeClass(s2)
  {
    if s1 != s2 {
      assert BadgeClass(s1)[3] != BadgeClass(s2)[3] || BadgeClass(s1)[4] != BadgeClass(s2)[4];
    }
  }
}
