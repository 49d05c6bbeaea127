/** The relational store the services delegate to, as an in-memory database:
    one table per model, each kept with the unique keys the services look rows up by. */
module Store {
  import opened Tables

  type Id = string
  type Timestamp = int
  /** A value of the `Emotion` enumeration of the schema. */
  type Emotion = string

  /** The exceptions a service call ends with. */
  datatype Error =
    | NotFound(message: string)            // NotFoundException
    | Conflict(message: string)            // ConflictException
    | Unauthorized(message: string)        // UnauthorizedException
    | ServiceUnavailable(message: string)  // ServiceUnavailableException
    | Failure(message: string)             // a plain `Error`
    | RecordNotFound                       // the store refuses to update or delete a missing row
    | UniqueViolation                      // the store refuses a write that duplicates a unique key
    | UnknownArgument(name: string)        // the store refuses a write naming a column the table lacks

  datatype Result<+T> = Ok(value: T) | Err(error: Error)

  datatype User = User(id: Id, email: string, nickname: Option<string>, name: Option<string>, image: Option<string>)
  datatype Advice = Advice(id: Id, content: string, author: Option<string>)
  datatype Bookmark = Bookmark(id: Id, userId: Id, adviceId: Id, createdAt: Timestamp)
  datatype Story = Story(id: Id, userId: Id, title: string, content: string, isPublic: bool,
                         emotion: Option<Emotion>, createdAt: Timestamp)
  datatype Comment = Comment(id: Id, userId: Id, storyId: Id, content: string, createdAt: Timestamp)

  // The columns the tables are keyed, filtered and ordered by.
  function UserId(u: User): Id { u.id }
  function UserEmail(u: User): string { u.email }
  function AdviceId(a: Advice): Id { a.id }
  function BookmarkId(b: Bookmark): Id { b.id }
  function BookmarkUser(b: Bookmark): Id { b.userId }
  function BookmarkKey(b: Bookmark): (Id, Id) { (b.userId, b.adviceId) }
  function BookmarkCreatedAt(b: Bookmark): Timestamp { b.createdAt }
  function StoryId(s: Story): Id { s.id }
  function StoryIsPublic(s: Story): bool { s.isPublic }
  function StoryEmotion(s: Story): Option<Emotion> { s.emotion }
  function StoryCreatedAt(s: Story): Timestamp { s.createdAt }
  function CommentId(c: Comment): Id { c.id }
  function CommentStory(c: Comment): Id { c.storyId }
  function CommentCreatedAt(c: Comment): Timestamp { c.createdAt }

  predicate HasUser(users: seq<User>, id: Id) { Lookup(users, UserId, id).Some? }
  predicate HasAdvice(advice: seq<Advice>, id: Id) { Lookup(advice, AdviceId, id).Some? }
  predicate HasBookmark(bookmarks: seq<Bookmark>, userId: Id, adviceId: Id) {
    Lookup(bookmarks, BookmarkKey, (userId, adviceId)).Some?
  }
  predicate HasStory(stories: seq<Story>, id: Id) { Lookup(stories, StoryId, id).Some? }

  /** The database: its tables, in storage order. */
  class Database {
    var users: seq<User>
    var advice: seq<Advice>
    var bookmarks: seq<Bookmark>
    var stories: seq<Story>
    var comments: seq<Comment>

    /** The unique keys of the schema: every id, a user's email,
        and a bookmark's (userId, adviceId) pair. */
    ghost predicate Valid()
      reads this
    {
      && Unique(users, UserId) && Unique(users, UserEmail)
      && Unique(advice, AdviceId)
      && Unique(bookmarks, BookmarkId) && Unique(bookmarks, BookmarkKey)
      && Unique(stories, StoryId)
      && Unique(comments, CommentId)
    }

    /** An empty database apart from the advice rows it is seeded with. */
    constructor (advice: seq<Advice>)
      requires Unique(advice, AdviceId)
      ensures Valid()
      ensures this.advice == advice
      ensures users == [] && bookmarks == [] && stories == [] && comments == []
    {
      this.advice := advice;
      users, bookmarks, stories, comments := [], [], [], [];
    }
  }
}
