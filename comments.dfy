/** Comments: remarks left by users on stories. */
module Comments {
  import opened Tables
  import opened Store

  const UserNotFound := "User not found"
  const StoryNotFound := "Story not found"
  const CommentNotFound := "Comment not found"

  class CommentsService {
    const prisma: Database

    constructor (prisma: Database)
      ensures this.prisma == prisma
    {
      this.prisma := prisma;
    }

    /** Posts `content` as a comment of user `userId` on story `storyId` at time `now`.
        The user is checked before the story. */
    method Create(userId: Id, storyId: Id, content: string, now: Timestamp) returns (r: Result<Comment>)
      requires prisma.Valid()
      modifies prisma`comments
      ensures prisma.Valid()
      ensures !HasUser(prisma.users, userId) ==> r == Err(NotFound(UserNotFound))
      ensures HasUser(prisma.users, userId) && !HasStory(prisma.stories, storyId) ==>
                r == Err(NotFound(StoryNotFound))
      ensures r.Err? ==> prisma.comments == old(prisma.comments)
      ensures r.Ok? <==> HasUser(prisma.users, userId) && HasStory(prisma.stories, storyId)
      ensures r.Ok? ==>
                && r.value.userId == userId && r.value.storyId == storyId
                && r.value.content == content && r.value.createdAt == now
                && Lookup(old(prisma.comments), CommentId, r.value.id).None?
                && prisma.comments == old(prisma.comments) + [r.value]
    {
      var user := Lookup(prisma.users, UserId, userId);
      var story := Lookup(prisma.stories, StoryId, storyId);
      if user.None? {
        return Err(NotFound(UserNotFound));
      }
      if story.None? {
        return Err(NotFound(StoryNotFound));
      }
      FreshKeyExists(prisma.comments, CommentId);
      var id :| Lookup(prisma.comments, CommentId, id).None?;
      var c := Comment(id, userId, storyId, content, now);
      AppendUnique(prisma.comments, CommentId, c);
      prisma.comments := prisma.comments + [c];
      return Ok(c);
    }

    /** The comments on story `storyId`, newest first. */
    method FindAll(storyId: Id) returns (r: Result<seq<Comment>>)
      ensures r.Err? <==> !HasStory(prisma.stories, storyId)
      ensures r.Err? ==> r.error == NotFound(StoryNotFound)
      ensures r.Ok? ==> multiset(r.value) == multiset(Where(prisma.comments, CommentStory, storyId))
      ensures r.Ok? ==> forall c :: c in r.value <==> c in prisma.comments && c.storyId == storyId
      ensures r.Ok? ==> NewestFirst(r.value, CommentCreatedAt)
    {
      var story := Lookup(prisma.stories, StoryId, storyId);
      if story.None? {
        return Err(NotFound(StoryNotFound));
      }
      var onStory := Where(prisma.comments, CommentStory, storyId);
      r := Ok(SortNewestFirst(onStory, CommentCreatedAt));
      assert forall c :: c in r.value <==> c in multiset(onStory);
    }

    /** Deletes the comment with id `id`, whoever wrote it. */
    method Remove(id: Id) returns (r: Result<Comment>)
      requires prisma.Valid()
      modifies prisma`comments
      ensures prisma.Valid()
      ensures r.Err? <==> Lookup(old(prisma.comments), CommentId, id).None?
      ensures r.Err? ==> r.error == NotFound(CommentNotFound) && prisma.comments == old(prisma.comments)
      ensures r.Ok? ==>
                && Lookup(old(prisma.comments), CommentId, id) == Some(r.value)
                && prisma.comments == WithoutKey(old(prisma.comments), CommentId, id)
                && |prisma.comments| == |old(prisma.comments)| - 1
    {
      var comment := Lookup(prisma.comments, CommentId, id);
      if comment.None? {
        return Err(NotFound(CommentNotFound));
      }
      WithoutKeyRemovesOne(prisma.comments, CommentId, id);
      WithoutKeyUnique(prisma.comments, CommentId, id, CommentId);
      prisma.comments := WithoutKey(prisma.comments, CommentId, id);
      return Ok(comment.value);
    }
  }
}
