/**
 * The application shell (App.tsx): which view a navigation request lands on, which posts
 * the public registry lists, and the handlers that write to the store through the API.
 */
module App {
  import opened Types
  import opened Text
  import opened ListOps
  import opened Queries
  import opened AdminInbox
  import opened MockApi

  const CAMPUS_CATEGORY: string := "AAU Campus Property"

  /** Views that need a signed-in user. */
  predicate NeedsUser(v: AppView)
  {
    v == Submit || v == Messages || v == Profile
  }

  /** `navigateTo(v)`: a view that needs a user sends a visitor to the login view; anything else is shown as asked. */
  function NextView(requested: AppView, user: Option<User>): (v: AppView)
    ensures v == requested || v == Login
  {
    if NeedsUser(requested) && user.None? then Login else requested
  }

  /** Gating in both directions: the login view is reached exactly when asked for, or when a visitor asks for a gated view. */
  lemma NavigationGate(requested: AppView, user: Option<User>)
    ensures NextView(requested, user) == Login <==> requested == Login || (NeedsUser(requested) && user.None?)
    ensures user.Some? ==> NextView(requested, user) == requested
  {
  }

  /** The type selector: every type, or one. */
  datatype TypeChoice = AllTypes | OnlyType(kind: PostType)

  datatype ListingFilter = ListingFilter(kind: TypeChoice, search: string)

  /** The predicate of `filteredPosts`. */
  predicate MatchesFilter(p: Post, f: ListingFilter)
  {
    && (f.kind.AllTypes? || p.kind == f.kind.kind)
    && (Contains(Lower(p.title), Lower(f.search)) || Contains(Lower(p.description), Lower(f.search)))
    && p.status == APPROVED
  }

  function ListingPredicate(f: ListingFilter): Post -> bool
  {
    p => MatchesFilter(p, f)
  }

  /** `filteredPosts`: the approved posts of the chosen type whose title or description contains the search, ignoring case. */
  function FilteredPosts(posts: seq<Post>, f: ListingFilter): (r: seq<Post>)
    ensures forall p :: p in r ==> p in posts && p.status == APPROVED
    ensures forall p :: p in r ==> f.kind.AllTypes? || p.kind == f.kind.kind
    ensures forall p :: p in r <==> p in posts && MatchesFilter(p, f)
  {
    Filter(posts, ListingPredicate(f))
  }

  /** An empty search with every type selected lists exactly the approved posts, in order. */
  lemma EmptySearchListsApproved(posts: seq<Post>)
    ensures FilteredPosts(posts, ListingFilter(AllTypes, "")) == Filter(posts, IsApproved)
  {
    forall p: Post ensures MatchesFilter(p, ListingFilter(AllTypes, "")) == IsApproved(p) {
      assert OccursAt(Lower(p.title), Lower(""), 0);
    }
    FilterSamePredicate(posts, ListingPredicate(ListingFilter(AllTypes, "")), IsApproved);
  }

  /** The search ignores letter case: two queries equal up to case list the same posts. */
  lemma SearchIgnoresCase(posts: seq<Post>, kind: TypeChoice, s1: string, s2: string)
    requires Lower(s1) == Lower(s2)
    ensures FilteredPosts(posts, ListingFilter(kind, s1)) == FilteredPosts(posts, ListingFilter(kind, s2))
  {
    FilterSamePredicate(posts, ListingPredicate(ListingFilter(kind, s1)), ListingPredicate(ListingFilter(kind, s2)));
  }

  /** The role `refreshPosts(role)` asks for: the user's role, and USER without one. */
  function RoleOrUser(role: Option<UserRole>): UserRole
  {
    if role.Some? then role.value else USER
  }

  function RoleOf(user: Option<User>): Option<UserRole>
  {
    if user.Some? then Some(user.value.role) else None
  }

  /** The fields `handlePostSubmit` passes to `createPost`: the form's, signed by the user, in the campus category. */
  function Enrich(data: PostDraft, u: User): (d: PostDraft)
    ensures d.userId == u.id && d.userName == u.name && d.category == CAMPUS_CATEGORY
    ensures d.title == data.title && d.description == data.description && d.location == data.location
    ensures d.date == data.date && d.kind == data.kind && d.image == data.image
  {
    data.(userId := u.id, userName := u.name, category := CAMPUS_CATEGORY)
  }

  /**
   * A submitted report waits for review: the public listing does not show it under any
   * filter until an administrator approves it.
   */
  lemma SubmittedReportHidden(posts: seq<Post>, p: Post, f: ListingFilter)
    requires p.status == PENDING
    ensures p !in FilteredPosts([p] + posts, f)
  {
  }

  class Shell {
    const api: Store
    var user: Option<User>
    var view: AppView
    var posts: seq<Post>

    constructor (api: Store)
      ensures this.api == api && user == None && view == Home && posts == []
    {
      this.api := api;
      user := None;
      view := Home;
      posts := [];
    }

    /** `navigateTo(v)`. */
    method NavigateTo(v: AppView)
      modifies this`view
      ensures view == NextView(v, user)
    {
      if NeedsUser(v) && user.None? {
        view := Login;
      } else {
        view := v;
      }
    }

    /** `refreshPosts(role)`: the listing the role sees, with no user id. */
    method RefreshPosts(role: Option<UserRole>)
      modifies this`posts
      ensures posts == GetPosts(api.posts, RoleOrUser(role), None)
    {
      posts := GetPosts(api.posts, RoleOrUser(role), None);
    }

    /** `handleLogin(email)`. */
    method HandleLogin(email: string, idSuffix: string, encodedEmail: string)
      requires EmailIndex(api.UsersOr([DEFAULT_ADMIN]), email) == -1 ==>
        UserIndex(api.UsersOr([DEFAULT_ADMIN]), "u_" + idSuffix) == -1
      modifies this`user, this`posts, this`view, api`users, api`session
      ensures user == Some(LoginUser(old(api.UsersOr([DEFAULT_ADMIN])), email, "u_" + idSuffix, encodedEmail))
      ensures api.session == user
      ensures old(EmailIndex(api.UsersOr([DEFAULT_ADMIN]), email)) >= 0 ==> api.users == old(api.users)
      ensures old(EmailIndex(api.UsersOr([DEFAULT_ADMIN]), email)) == -1 ==>
        api.users == Some(LoginRegistry(old(api.UsersOr([DEFAULT_ADMIN])), email, "u_" + idSuffix, encodedEmail))
      ensures posts == GetPosts(api.posts, user.value.role, None)
      ensures view == Home
    {
      var u := api.Login(email, idSuffix, encodedEmail);
      user := Some(u);
      posts := GetPosts(api.posts, u.role, None);
      view := Home;
    }

    /** `handleLogout()`. */
    method HandleLogout()
      modifies this`user, this`posts, this`view, api`session
      ensures user == None && api.session == None && view == Home
      ensures posts == GetPosts(api.posts, USER, None)
    {
      api.Logout();
      user := None;
      view := Home;
      RefreshPosts(None);
    }

    /**
     * `handlePostSubmit(data)`: nothing without a user; otherwise the enriched report is
     * created, the profile view shown and the listing refreshed.
     */
    method HandlePostSubmit(data: PostDraft, idSuffix: string, now: nat)
      requires FindPost(api.posts, "p_" + idSuffix).None?
      modifies this`view, this`posts, api`posts
      ensures user.None? ==> view == old(view) && posts == old(posts) && api.posts == old(api.posts)
      ensures user.Some? ==>
        && api.posts == [Post("p_" + idSuffix, user.value.id, user.value.name, data.title, data.description,
                              CAMPUS_CATEGORY, data.location, data.date, data.kind, PENDING, data.image, now)]
                        + old(api.posts)
        && view == Profile
        && posts == GetPosts(api.posts, user.value.role, None)
    {
      if user.None? {
        return;
      }
      var p := api.CreatePost(Enrich(data, user.value), idSuffix, now);
      view := Profile;
      RefreshPosts(Some(user.value.role));
    }

    /** `handlePostAction(postId, status)`: declining deletes the report; any other status is written. */
    method HandlePostAction(postId: string, status: PostStatus)
      modifies this`posts, api`posts
      ensures status == DECLINED ==> api.posts == PostsWithout(old(api.posts), postId)
      ensures status != DECLINED ==> api.posts == WithStatus(old(api.posts), postId, status)
      ensures posts == GetPosts(api.posts, RoleOrUser(RoleOf(user)), None)
    {
      if status == DECLINED {
        api.DeletePost(postId);
      } else {
        api.UpdatePostStatus(postId, status);
      }
      RefreshPosts(RoleOf(user));
    }

    /** `handleDeletePost(postId)`, with the confirmation dialog's answer as `confirmed`. */
    method HandleDeletePost(postId: string, confirmed: bool)
      modifies this`posts, api`posts
      ensures !confirmed ==> api.posts == old(api.posts) && posts == old(posts)
      ensures confirmed ==>
        api.posts == PostsWithout(old(api.posts), postId) && posts == GetPosts(api.posts, RoleOrUser(RoleOf(user)), None)
    {
      if confirmed {
        api.DeletePost(postId);
        RefreshPosts(RoleOf(user));
      }
    }
  }

  /**
   * Declining a report removes it for good: no post with its id remains, so it is neither
   * listed nor reachable from any administrator thread.
   */
  lemma DeclineRemovesEverywhere(posts: seq<Post>, log: seq<Message>, postId: string, f: ListingFilter)
    ensures FindPost(PostsWithout(posts, postId), postId).None?
    ensures forall p :: p in FilteredPosts(PostsWithout(posts, postId), f) ==> p.id != postId
    ensures forall c :: c in AdminInboxOf(PostsWithout(posts, postId), log) ==> c.post.id != postId
  {
    DeletedPostLeavesAdminInbox(posts, log, postId);
  }
}
