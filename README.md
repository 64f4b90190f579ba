# UniFound campus lost-and-found: a verified model of the registry and its screens

UniFound is the Ambrose Alli University (AAU) Property Office's lost-and-found registry. Students
sign in with an e-mail address, file LOST or FOUND reports, and message the office about reports.
The office is the administrator. It approves or declines new reports, deletes old ones, and answers
each student in a thread of its own.

This project models in Dafny:

- the in-memory API that stores everything (`services/mockApi.ts`);
- the decisions the screens make on top of it:
  - the inbox (`components/Inbox.tsx`);
  - the per-report chat window (`components/ChatWindow.tsx`);
  - the application shell (`App.tsx`);
  - the report detail modal (`components/PostDetailModal.tsx`);
  - the administrator table (`components/AdminPanel.tsx`);
  - the route guard (`middleware.ts`).

Modules, one per source concern:

| module | file | models |
|---|---|---|
| `Types` | `types.dfy` | the records of `types.ts` and the default administrator |
| `Text` | `text.dfy` | `trim`, `toLowerCase`, `includes`, `startsWith` and the e-mail name derivation, over ASCII |
| `ListOps` | `list_ops.dfy` | `filter` and the stable newest-first `sort` |
| `Queries` | `queries.dfy` | the lookups and filters: `getPosts`, `getMessages`, `deletePost`'s filter, `findIndex` |
| `AdminInbox` | `admin_inbox.dfy` | what `getAdminInbox` computes, with a declarative specification |
| `UserInbox` | `user_inbox.dfy` | what `getUserInbox` computes, with a declarative specification |
| `MockApi` | `mock_api.dfy` | the `Store` class: users, posts, messages and session as fields, one method per API operation |
| `InboxView` | `inbox.dfy` | the `Inbox` class: conversation list, selection, shown messages, reply draft |
| `ChatWindow` | `chat_window.dfy` | the `Chat` class: one report's messages and the reply draft |
| `App` | `app.dfy` | the `Shell` class: user, view and listing, and the handlers that call the store |
| `PostDetailModal` | `post_detail_modal.dfy` | the modal's footer controls and the requests they make |
| `AdminPanel` | `admin_panel.dfy` | the pending/other split, the row buttons and the status badges |
| `Middleware` | `middleware.dfy` | the redirect decision of the route guard |

The operations that loop in the source are `method`s with loop invariants:

- the `forEach` over the message log in `getAdminInbox`;
- the `forEach` over the touched post ids in `getUserInbox`.

Each of them is proved equal to a recursive function. Independent lemmas then prove that function
against a declarative specification:

- `AdminInboxSpec`: one thread per (post, student) pair, holding the pair's latest message.
- `UserInboxSpec`: one conversation per touched post, holding the user's last message on it.

State that the source changes in place lives in classes whose methods carry `modifies` clauses:

- storage keys: the fields of `Store`;
- React state: the fields of `Inbox`, `Chat` and `Shell`.

A note on reply routing (`ChatWindow.SentMessageThread`):

- In the chat window, an administrator's reply goes to the report's author (`post.userId`,
  `components/ChatWindow.tsx:37-39`).
- In the inbox, it goes to the thread's student (`InboxView.AdminReplyStaysInThread`).
- The shell lets any signed-in user open the chat window on someone else's report.
- So when the office answers a claimant through the chat window, the reply is filed in the
  author's thread, not the claimant's.

The model records this routing as written. It is not listed as a finding, because the source states
no other intent.

## Model

| member | source | states |
|---|---|---|
| `MockApi.HasAdmin` | services/mockApi.ts:45 | true exactly when some registered user is an administrator |
| `MockApi.EmailIndex` | services/mockApi.ts:60 | the first index whose e-mail equals the address ignoring case, or -1 when none does; no earlier index matches |
| `MockApi.NewUser` | services/mockApi.ts:62-73 | a new user's id is the fresh id and their e-mail is lower-cased; they are an administrator exactly when the lower-cased address contains "admin"; the name is the part before '@', first letter upper-cased |
| `MockApi.EmailLookupIgnoresCase` | services/mockApi.ts:60 | two addresses equal up to case find the same registered user |
| `MockApi.RegisteredUserFoundAgain` | services/mockApi.ts:60-73 | a user that login registers is exactly the one a later login with the same address finds |
| `MockApi.LoginFindsUser` | services/mockApi.ts:58-77 | login returns the first registered user with the address when there is one, and a new user otherwise; the returned user's e-mail matches the address ignoring case; the registry only grows, and a lookup in it then finds that user |
| `MockApi.LoginUser` | services/mockApi.ts:60-73 | definition: the first registered user with the address, else the new user; properties proved in `MockApi.LoginFindsUser` and `MockApi.RegisteredUserFoundAgain` |
| `MockApi.LoginRegistry` | services/mockApi.ts:60-73 | definition: the registry unchanged for a known address, else extended by the new user at the end; properties proved in `MockApi.LoginFindsUser` |
| `MockApi.ApplyPatchLaws` | services/mockApi.ts:192-193 | merging a profile patch: an empty patch changes nothing, applying it twice equals applying it once, and a patch without an id keeps the id |
| `MockApi.ApplyPatch` | services/mockApi.ts:192-193 | definition: each field of the patch that is present overrides the user's; properties proved in `MockApi.ApplyPatchLaws` |
| `MockApi.WithStatus` | services/mockApi.ts:107-111 | the list keeps its length; the rest of its effect is proved in `MockApi.WithStatusEffect` |
| `MockApi.WithStatusEffect` | services/mockApi.ts:105-112 | a status update changes only the status of the first post with the id; an unknown id is a no-op, and every other lookup is unchanged |
| `MockApi.ApprovalPublishes` | services/mockApi.ts:85-90 | approving a post puts it in the public listing |
| `MockApi.NewPostVisibility` | services/mockApi.ts:85-103 | a new pending report is listed for administrators and for its owner, and hidden from the public |
| `MockApi.SentMessageFetched` | services/mockApi.ts:119-125 | after a send, the thread fetch of both the sender and the recipient gains that message, at the end |
| `Types.Stamp` | services/mockApi.ts:178-182 | definition: the draft's fields with the fresh id and the time; properties proved in `MockApi.Store.SendMessage` and `MockApi.SentMessageFetched` |
| `MockApi.Store.constructor` | services/mockApi.ts:19-28 | empty storage: no users key, no posts, no messages, no session |
| `MockApi.Store.Init` | services/mockApi.ts:40-52 | afterwards the registry has an administrator; the default administrator is appended only when none was there |
| `MockApi.Store.GetCurrentUser` | services/mockApi.ts:54-56 | returns the session |
| `MockApi.Store.Logout` | services/mockApi.ts:79-83 | clears the session |
| `MockApi.Store.Login` | services/mockApi.ts:58-77 | returns `LoginUser` of the registry it read and makes it the session; the registry is untouched for a known address and extended by the new user otherwise |
| `MockApi.Store.CreatePost` | services/mockApi.ts:92-103 | a PENDING post under the fresh id, stamped now, is put first; it is found by its id |
| `MockApi.Store.UpdatePostStatus` | services/mockApi.ts:105-112 | the posts become `WithStatus` of the old posts |
| `MockApi.Store.DeletePost` | services/mockApi.ts:114-117 | the posts become the old ones without the id; no post with that id remains |
| `MockApi.Store.GetAdminInbox` | services/mockApi.ts:127-151 | the loop and sort return the administrator inbox, which meets `AdminInboxSpec` and is newest first |
| `MockApi.Store.GetUserInbox` | services/mockApi.ts:153-173 | the loop and sort return the user inbox, which meets `UserInboxSpec` and is newest first |
| `MockApi.Store.SendMessage` | services/mockApi.ts:175-185 | the draft is stamped with the fresh id and the time, and appended to the log |
| `MockApi.Store.UpdateUserProfile` | services/mockApi.ts:187-202 | an unknown id is an error and changes nothing; otherwise the first user with the id takes the merged fields, and so does the session when it is that user |
| `Queries.PostIndex` | services/mockApi.ts:107 | the first index with the id, or -1; no earlier index has it |
| `Queries.FindPost` | services/mockApi.ts:135 | a post with the id from the list, or None exactly when no post has the id |
| `Queries.FindPostFirst` | services/mockApi.ts:135 | the post found is the first one carrying the id: no earlier post has it |
| `Queries.UserIndex` | services/mockApi.ts:189 | the first user index with the id, or -1; no earlier index has it |
| `Queries.GetMessages` | services/mockApi.ts:119-125 | the messages of the post, filtered to those the participant sent or received when a participant is given |
| `Queries.GetMessagesAppend` | services/mockApi.ts:119-125 | the fetch keeps log order: fetching over a concatenation concatenates the fetches |
| `Queries.GetMessagesWholePost` | services/mockApi.ts:119-125 | with no participant, the fetch is exactly the post's messages in log order, for any log; on a log of that post's messages alone it returns the log unchanged |
| `Queries.GetPosts` | services/mockApi.ts:85-90 | an administrator gets every post; with a user id, that user's posts; otherwise the approved posts |
| `Queries.PostsWithout` | services/mockApi.ts:116 | keeps exactly the posts with another id; afterwards no post has the id |
| `Queries.DeleteMissingIsNoOp` | services/mockApi.ts:114-117 | deleting an id no post carries changes nothing |
| `Queries.PostsWithoutAppend` | services/mockApi.ts:116 | deleting keeps the order of the remaining posts |
| `AdminInbox.KeyIndex` | services/mockApi.ts:136 | the position of the thread with the key, or the length when there is none; no earlier thread has the key |
| `AdminInbox.StudentId` | services/mockApi.ts:133 | definition: the recipient of an administrator's message, the sender otherwise; properties proved in `AdminInbox.SameKeySameThread` and `AdminInbox.ThreadShows` |
| `AdminInbox.NameFor` | services/mockApi.ts:143 | definition: the placeholder for an administrator's message, the sender's name otherwise; properties proved in `AdminInbox.ThreadShows` |
| `AdminInbox.Step` | services/mockApi.ts:132-146 | definition of one turn of the `forEach`; properties proved in `AdminInbox.StepPreserves` and the four step lemmas |
| `AdminInbox.Threads` | services/mockApi.ts:132-146 | definition of the map after the `forEach`; properties proved in `AdminInbox.ThreadsCorrect` and `AdminInbox.ThreadsInFirstAppearanceOrder` |
| `AdminInbox.AdminInboxOf` | services/mockApi.ts:127-151 | definition of `getAdminInbox`; properties proved in `AdminInbox.AdminInboxCorrect` |
| `AdminInbox.HasThreadIff` | services/mockApi.ts:136 | the key lookup finds a thread exactly when a thread with that key is present |
| `AdminInbox.StepNewKey` | services/mockApi.ts:138-140 | the first message of a new (post, student) pair opens a thread at the end, and the specification still holds |
| `AdminInbox.StepNewer` | services/mockApi.ts:138-145 | a strictly later message of a known pair replaces that thread in place, and the specification still holds |
| `AdminInbox.StepNotNewer` | services/mockApi.ts:138 | a message of a known pair that is not strictly later leaves the threads as they are |
| `AdminInbox.StepOrphan` | services/mockApi.ts:135-137 | a message whose post is gone leaves the threads as they are |
| `AdminInbox.StepPreserves` | services/mockApi.ts:132-146 | one turn of the `forEach` keeps the threads a correct inbox of the log read so far |
| `AdminInbox.ThreadsCorrect` | services/mockApi.ts:127-146 | the threads built over the whole log meet `AdminInboxSpec`: distinct keys, one per pair with a live post, each holding its latest message |
| `AdminInbox.AdminInboxCorrect` | services/mockApi.ts:127-151 | the administrator inbox meets `AdminInboxSpec` and is newest first; ties keep the map's insertion order |
| `AdminInbox.ThreadsInFirstAppearanceOrder` | services/mockApi.ts:132-146 | the map's insertion order is the order in which the pairs first appear among messages of live posts: every such message of a later thread's pair is preceded by one of each earlier thread's pair |
| `AdminInbox.ThreadsSnocKeys` | services/mockApi.ts:138-144 | one more message keeps every thread's key in its place and adds at most one thread, of a new key and a live post, at the end |
| `AdminInbox.ThreadHasMessage` | services/mockApi.ts:132-146 | every thread in the map is keyed by some message of a live post |
| `AdminInbox.MessageHasThread` | services/mockApi.ts:132-146 | every message of a live post has a thread in the map |
| `AdminInbox.MessageFiled` | services/mockApi.ts:132-146 | every message of a live post is filed under exactly one thread of its pair, whose latest message is no older |
| `AdminInbox.SameKeySameThread` | services/mockApi.ts:133-134 | two messages of one post and one student land in the same thread |
| `AdminInbox.ThreadShows` | services/mockApi.ts:133-145 | a thread shows its pair's latest message (the first of equal times) and its live post; it is named by the student when the student wrote that message, and by the placeholder otherwise |
| `AdminInbox.OrphanNotFiled` | services/mockApi.ts:135-137 | a message whose post is gone contributes to no thread |
| `AdminInbox.DeletedPostLeavesAdminInbox` | services/mockApi.ts:114-117 | after a deletion, no administrator thread refers to that post |
| `AdminInbox.ThreadFetchShowsPair` | services/mockApi.ts:119-151 | opening a thread fetches every message of its pair, its latest one included |
| `UserInbox.UserThread` | services/mockApi.ts:160 | exactly the user's sent or received messages on the post |
| `UserInbox.TouchedPostIds` | services/mockApi.ts:156 | the post ids of the user's messages, each once: an id is present exactly when the user's thread on it is non-empty |
| `UserInbox.TouchedPostIdsInFirstAppearanceOrder` | services/mockApi.ts:156 | the `Set` keeps first-appearance order: every message of the user on a later id is preceded by one on each earlier id |
| `UserInbox.TouchedPostIdsSnoc` | services/mockApi.ts:156 | one more message keeps the ids so far and adds at most its own post id at the end |
| `UserInbox.TouchedPostIdHasMessage` | services/mockApi.ts:156 | every id in the set has a message of the user on it in the log |
| `UserInbox.UserThreadsOver` | services/mockApi.ts:159-168 | definition of the `forEach` over the ids; properties proved in `UserInbox.UserThreadsOverCorrect` |
| `UserInbox.UserInboxOf` | services/mockApi.ts:153-173 | definition of `getUserInbox`; properties proved in `UserInbox.UserInboxCorrect` |
| `UserInbox.UserThreadsOverCorrect` | services/mockApi.ts:159-168 | the `forEach` over distinct ids yields one correct conversation per id with a live post and a non-empty thread, and no others |
| `UserInbox.UserInboxCorrect` | services/mockApi.ts:153-173 | the user inbox meets `UserInboxSpec` and is newest first; ties keep the order of the `forEach`, which is the order of first appearance |
| `UserInbox.UserThreadShows` | services/mockApi.ts:159-168 | a conversation holds the user's last message on its live post in log order |
| `UserInbox.UserOrphanNotShown` | services/mockApi.ts:162-163 | a message whose post is gone shows in no conversation |
| `UserInbox.NewMessageShows` | services/mockApi.ts:153-173 | once the user sends or receives a message on a live post, that post's conversation shows it |
| `UserInbox.UserFetchIsThread` | services/mockApi.ts:119-125 | a user's thread fetch returns exactly the messages that post's conversation was built from |
| `Text.TrimStart` | components/Inbox.tsx:56 | removes exactly the leading whitespace: the result is a suffix, what was removed is whitespace, and the result does not start with whitespace |
| `Text.TrimEnd` | components/Inbox.tsx:56 | removes exactly the trailing whitespace |
| `Text.Trim` | components/Inbox.tsx:56 | definition: `TrimEnd` after `TrimStart`; properties proved in `Text.TrimEmptyIffBlank` and `Text.BlankIffTrimEmpty` |
| `Text.TrimEmptyIffBlank` | components/Inbox.tsx:56 | the trimmed draft is empty exactly when every character is whitespace |
| `Text.BlankIffTrimEmpty` | components/ChatWindow.tsx:34 | the blank test the reply boxes use agrees with `!s.trim()` |
| `Text.Lower` | services/mockApi.ts:60 | same length, and every character lower-cased |
| `Text.LowerIdempotent` | services/mockApi.ts:60-64 | lower-casing twice is lower-casing once, so a stored lower-case e-mail matches its own lookup |
| `Text.Contains` | App.tsx:117-118 | true exactly when the needle occurs at some position |
| `Text.StartsWith` | middleware.ts:16 | definition: the prefix test of `startsWith`; properties proved in `Middleware.PrefixExamples` and `Middleware.LoginNotProtected` |
| `Text.LocalPart` | services/mockApi.ts:66 | a prefix of the address without '@', ending at the first '@' when there is one |
| `Text.Capitalize` | services/mockApi.ts:66 | same length, with the first character upper-cased and the rest unchanged |
| `ListOps.Filter` | services/mockApi.ts:88-89 | keeps exactly the elements that pass, and never grows the list |
| `ListOps.FilterSplit` | components/AdminPanel.tsx:12-13 | a filter and its negation together keep every element exactly once |
| `ListOps.FilterAppend` | services/mockApi.ts:121-124 | filtering keeps relative order |
| `ListOps.FilterLast` | services/mockApi.ts:160-165 | the last element of a non-empty filter is the last element of the input that passes |
| `ListOps.InsertNewestSorted` | services/mockApi.ts:148-150 | inserting into a newest-first list keeps it newest first |
| `ListOps.SortNewestFirst` | services/mockApi.ts:148-150 | the sort returns a permutation of its input, newest first |
| `ListOps.SortNewestFirstStable` | services/mockApi.ts:148-150 | the sort is stable: elements with equal times keep their input order |
| `ListOps.SortNewestFirstDistinctBy` | services/mockApi.ts:148-150 | sorting never makes two elements share a key |
| `InboxView.InboxFor` | components/Inbox.tsx:20-29 | an administrator's list is the administrator inbox, a user's list is that user's inbox, in the stores' order |
| `InboxView.InboxRows` | components/Inbox.tsx:20-29 | every row an administrator sees is a live report with the student its thread is with and that pair's latest message; every row a user sees is a live report with a message the user sent or received on it |
| `InboxView.Participant` | components/Inbox.tsx:33 | definition: the thread's student for an administrator, oneself otherwise; properties proved in `InboxView.ParticipantAndRecipient` |
| `InboxView.Recipient` | components/Inbox.tsx:58-60 | definition: the thread's student for an administrator, the office otherwise; properties proved in `InboxView.ParticipantAndRecipient` |
| `InboxView.Outgoing` | components/Inbox.tsx:62-69 | the sent draft carries the thread's post, the sender and the content; `isAdmin` is set exactly for an administrator; it goes to the recipient |
| `InboxView.ParticipantAndRecipient` | components/Inbox.tsx:33-60 | an administrator fetches and addresses the thread's student; a user fetches their own messages and addresses the office |
| `InboxView.AdminReplyStaysInThread` | components/Inbox.tsx:58-69 | an administrator's reply is filed under the very thread it answers |
| `InboxView.UserMessageReachesOffice` | components/Inbox.tsx:54-73 | a user's message goes to the office, opens or joins their thread in the administrator inbox, and becomes the latest message of that post in their own inbox |
| `InboxView.LocalAppendMatchesFetch` | components/Inbox.tsx:71 | appending the returned message locally gives what the next fetch returns |
| `InboxView.UserThreadViewEndsWithPreview` | components/Inbox.tsx:31-36 | a user's opened thread is non-empty and ends with the message its conversation previews |
| `InboxView.Inbox.constructor` | components/Inbox.tsx:13-17 | no conversations, no selection, nothing shown, empty draft, loading |
| `InboxView.Inbox.FetchInbox` | components/Inbox.tsx:20-29 | the list becomes the role's inbox and loading ends |
| `InboxView.Inbox.Select` | components/Inbox.tsx:97 | the clicked conversation becomes the selection |
| `InboxView.Inbox.FetchMessages` | components/Inbox.tsx:31-36 | nothing without a selection; otherwise the selected thread's messages for the participant |
| `InboxView.Inbox.HandleSend` | components/Inbox.tsx:54-74 | a blank draft or no selection changes nothing, loading flag included; otherwise exactly one message is appended to the log and the view, the draft is cleared and the inbox refetched, which ends loading |
| `ChatWindow.Participant` | components/ChatWindow.tsx:20 | no participant filter exactly for an administrator |
| `ChatWindow.Recipient` | components/ChatWindow.tsx:37-39 | the report's author for an administrator, the office otherwise |
| `ChatWindow.Outgoing` | components/ChatWindow.tsx:41-48 | the sent draft carries the report, the sender and the content; `isAdmin` is set exactly for an administrator; it goes to the recipient |
| `ChatWindow.ShownMessages` | components/ChatWindow.tsx:17-22 | an administrator sees every message of the report; a user sees those they sent or received |
| `ChatWindow.SentMessageThread` | components/ChatWindow.tsx:37-48 | a user's message is filed under (report, user); an administrator's under (report, author); either way it is drawn as one's own |
| `ChatWindow.LocalAppendMatchesFetch` | components/ChatWindow.tsx:50 | appending the returned message locally gives what the next fetch returns |
| `ChatWindow.IsMe` | components/ChatWindow.tsx:85 | definition: a message is drawn as one's own when one sent it; properties proved in `ChatWindow.SentMessageThread` |
| `ChatWindow.Chat.constructor` | components/ChatWindow.tsx:13-14 | no messages shown and an empty draft, for the given user and report |
| `ChatWindow.Chat.FetchMessages` | components/ChatWindow.tsx:18-21 | the shown list becomes the report's messages for the participant |
| `ChatWindow.Chat.HandleSend` | components/ChatWindow.tsx:32-52 | a blank draft changes nothing; otherwise exactly one message is appended to the log and the view, and the draft is cleared |
| `App.NextView` | App.tsx:45-49 | the view shown is the one asked for, or the login view |
| `App.NavigationGate` | App.tsx:46 | the login view is shown exactly when it was asked for, or when a visitor asks for submit, messages or profile |
| `App.FilteredPosts` | App.tsx:115-120 | exactly the listed posts that are approved, of the chosen type, and whose title or description contains the search |
| `App.EmptySearchListsApproved` | App.tsx:115-120 | an empty search over every type lists exactly the approved posts, in order |
| `App.SearchIgnoresCase` | App.tsx:117-118 | searches equal up to letter case list the same posts |
| `App.Enrich` | App.tsx:80-85 | the submitted report keeps the form's fields, is signed by the user, and is in the campus category |
| `App.SubmittedReportHidden` | App.tsx:88 | a newly submitted report is in no public listing until it is approved |
| `App.MatchesFilter` | App.tsx:116-119 | definition of the listing predicate; properties proved in `App.FilteredPosts`, `App.EmptySearchListsApproved` and `App.SearchIgnoresCase` |
| `App.Shell.constructor` | App.tsx:14-16 | no user, the home view and an empty listing, over the given store |
| `App.Shell.NavigateTo` | App.tsx:45-49 | the view becomes `NextView` of the request |
| `App.Shell.RefreshPosts` | App.tsx:36-43 | the listing becomes what the role sees, defaulting to USER |
| `App.Shell.HandleLogin` | App.tsx:51-63 | the user becomes the one login returns, and so does the session; the registry is untouched for a known address and extended by the new user otherwise; the listing is that user's role's; the view is home |
| `App.Shell.HandleLogout` | App.tsx:65-70 | no user, no session, the home view, and the public listing |
| `App.Shell.HandlePostSubmit` | App.tsx:76-94 | without a user nothing changes; otherwise the enriched pending report is put first, the profile view is shown and the listing refreshed |
| `App.Shell.HandlePostAction` | App.tsx:96-103 | declining deletes the report; any other status is written; the listing is refreshed |
| `App.Shell.HandleDeletePost` | App.tsx:105-110 | nothing unless confirmed; then the report is deleted and the listing refreshed |
| `App.DeclineRemovesEverywhere` | App.tsx:96-98 | a declined report is gone: not found, not listed, in no administrator thread |
| `PostDetailModal.Controls` | components/PostDetailModal.tsx:118-169 | at most two controls; an administrator always has one, anyone else at most one |
| `PostDetailModal.RequestOf` | components/PostDetailModal.tsx:123-162 | each control's callback names the report it is on |
| `PostDetailModal.IsAdmin` | components/PostDetailModal.tsx:21 | definition: the viewer's role is ADMIN; properties proved in `PostDetailModal.ControlTable` |
| `PostDetailModal.IsOwner` | components/PostDetailModal.tsx:22 | definition: the viewer wrote the report; properties proved in `PostDetailModal.ControlTable` |
| `PostDetailModal.ControlTable` | components/PostDetailModal.tsx:118-169 | an administrator has approve and reject on a pending report and delete otherwise; anyone else has message-office on another's report, the awaiting notice on their own pending report, mark-recovered on their own approved report, and nothing on their own declined or cleared report |
| `PostDetailModal.NoControlsIff` | components/PostDetailModal.tsx:144-169 | the footer is empty exactly for a non-administrator author of a declined or cleared report |
| `PostDetailModal.StatusChangesGuarded` | components/PostDetailModal.tsx:118-169 | status changes come only from an administrator on a pending report (to approved or declined), or from the author on an approved report (to cleared); only an administrator deletes, and only on a non-pending report |
| `PostDetailModal.GuestMayOnlyMessage` | App.tsx:240 | the guest record a visitor is given can only message the office |
| `AdminPanel.Pending` | components/AdminPanel.tsx:12 | exactly the pending reports |
| `AdminPanel.Others` | components/AdminPanel.tsx:13 | exactly the reports that are not pending |
| `AdminPanel.Partition` | components/AdminPanel.tsx:12-13 | the two tables partition the reports: each report is in exactly one, and together they hold every report as often as the list does |
| `AdminPanel.PartitionKeepsOrder` | components/AdminPanel.tsx:12-13 | each table keeps list order |
| `AdminPanel.RowActions` | components/AdminPanel.tsx:50-75 | a row always has a button, and it offers delete exactly when the report is not pending |
| `AdminPanel.RowRequest` | components/AdminPanel.tsx:53-69 | each row button sets a status or deletes, on its own report |
| `AdminPanel.RowsAgreeWithModal` | components/AdminPanel.tsx:50-75 | for an administrator, the row buttons make the same requests, in the same order, as the detail modal |
| `AdminPanel.BadgeClass` | components/AdminPanel.tsx:16-21 | every status has a badge class |
| `AdminPanel.BadgesDistinct` | components/AdminPanel.tsx:16-21 | no two statuses share a badge |
| `Middleware.Guard` | middleware.ts:8-31 | redirect to login with the path as callback exactly when the path is protected and there is no session; redirect home exactly on the login page with a session; pass through otherwise |
| `Middleware.HasSession` | middleware.ts:12 | definition: the auth cookie is present and non-empty; properties proved in `Middleware.Guard` |
| `Middleware.IsAuthPage` | middleware.ts:15 | definition: the path is exactly the login page; properties proved in `Middleware.Guard` and `Middleware.LoginNotProtected` |
| `Middleware.IsProtected` | middleware.ts:16 | definition: the path starts with one of the four protected prefixes; properties proved in `Middleware.PrefixExamples` and `Middleware.LoginNotProtected` |
| `Middleware.LoginNotProtected` | middleware.ts:15-16 | the login page is not protected, so the two redirects never both apply |
| `Middleware.NoRedirectLoop` | middleware.ts:18-28 | the target of either redirect is passed through |
| `Middleware.PrefixExamples` | middleware.ts:16 | protection is a prefix test: `/adminx` and `/admin/users` are protected, `/` and `/about` are not |

## Left out

- Browser storage: `localStorage` and JSON are fields of `Store`. A storage error makes the source fall back to the default silently; the model does not. `users` is an `Option`, which records whether the key was ever written, because `init` and `login` read it with different defaults.
- The database connection in `init` is assumed to succeed. `lib/db` is not part of this model.
- Two tabs writing the same storage concurrently are not modelled.
- Polling intervals, scrolling, rendering, and the timing of the loading flags are not modelled. The only flag kept is the inbox's `loading`.
- `Math.random` ids and `new Date()` clocks are parameters. Each id built from them is required to be fresh. Timestamps are natural numbers compared as the source compares dates.
- `encodeURIComponent(email)` is a parameter of login, because the URL encoder is not modelled.
- `toLowerCase` and `toUpperCase` map ASCII letters only. Unicode case mapping is not modelled.
- The administrator thread key is the pair (post id, student id), not the string `postId_studentId`. Two distinct pairs can make the same string when ids contain `_`; the model does not capture that collision.
- `MockApi.Store.UpdateUserProfile`: a patch key present with the value `undefined` is treated as absent; the source would copy the `undefined` into the record.
- The `confirm` dialog in `handleDeletePost` is the boolean parameter `confirmed`.
- Login failures and their alert are not modelled: the modelled login cannot fail.
- `handleUpdateUser`, the profile page, the report form, the header, the about page and the Gemini service are not part of this model.
- The navigation wiring of "Initiate Claim" and of the modal's message button is not modelled; only the chat window they open is. In the source, these open the chat for a signed-in user and send a visitor to the login view.
- The middleware's `config.matcher` is not modelled: `Middleware.Guard` decides for every path. The redirect URL's construction from the request is reduced to its path and callback.
- `Text.TrimStart`, `Text.TrimEnd`: the whitespace set is ECMAScript's WhiteSpace and LineTerminator code points as listed in `Text.IsJsWhitespace`. Characters outside the Basic Multilingual Plane are not distinguished.
- An administrator thread is named by its latest message: with the placeholder whenever the office wrote it (services/mockApi.ts:143), not with the student's last known name. The model follows the code here.
- A user conversation previews the last of the user's messages on the report in log order (services/mockApi.ts:165), not the one with the latest timestamp. The model follows the code here.
