/**
 * The records of the lost-and-found registry: users, property reports ("posts"),
 * messages between a reporter and the property office, and the two conversation
 * summaries the inbox builders produce.
 *
 * Timestamps are natural numbers (milliseconds); the source stores ISO strings and
 * compares them through `Date`, which orders them the same way.
 */
module Types {

  datatype Option<+T> = None | Some(value: T)

  datatype Result<+T, +E> = Ok(value: T) | Err(error: E)

  datatype UserRole = USER | ADMIN

  datatype PostStatus = PENDING | APPROVED | DECLINED | CLEARED

  datatype PostType = LOST | FOUND

  datatype User = User(
    id: string,
    name: string,
    email: string,
    role: UserRole,
    avatar: Option<string>)

  datatype Post = Post(
    id: string,
    userId: string,
    userName: string,
    title: string,
    description: string,
    category: string,
    location: string,
    date: string,
    kind: PostType,      // `type` in the source
    status: PostStatus,
    image: Option<string>,
    createdAt: nat)

  datatype Message = Message(
    id: string,
    postId: string,
    senderId: string,
    recipientId: string,
    senderName: string,
    content: string,
    timestamp: nat,
    isAdmin: bool)

  /** The counterparty of an administrator thread. */
  datatype ThreadUser = ThreadUser(id: string, name: string)

  /** One administrator thread: a (post, student) pair and its latest message. */
  datatype AdminConversation = AdminConversation(post: Post, lastMessage: Message, user: ThreadUser)

  /** One thread of a regular user: a post and its latest message. */
  datatype UserConversation = UserConversation(post: Post, lastMessage: Message)

  /** The views the single-page application can show. */
  datatype AppView = Home | Submit | Admin | MyPosts | About | Login | Messages | Profile

  /** The fields a caller supplies to `sendMessage`; the store adds `id` and `timestamp`. */
  datatype MessageDraft = MessageDraft(
    postId: string,
    senderId: string,
    senderName: string,
    recipientId: string,
    content: string,
    isAdmin: bool)

  /** The fields a caller supplies to `createPost`; the store adds `id`, `createdAt` and `status`. */
  datatype PostDraft = PostDraft(
    userId: string,
    userName: string,
    title: string,
    description: string,
    category: string,
    location: string,
    date: string,
    kind: PostType,
    image: Option<string>)

  /** The fixed identity every non-administrator message is addressed to. */
  const ADMIN_ID: string := "admin_primary"

  const DEFAULT_ADMIN: User := User(
    ADMIN_ID,
    "AAU Property Office",
    "admin@aauekpoma.edu.ng",
    ADMIN,
    Some("https://api.dicebear.com/7.x/avataaars/svg?seed=admin&backgroundColor=4f46e5"))

  /** The message a store assigns `id` and `timestamp` to. */
  function Stamp(d: MessageDraft, id: string, timestamp: nat): Message
  {
    Message(id, d.postId, d.senderId, d.recipientId, d.senderName, d.content, timestamp, d.isAdmin)
  }
}
