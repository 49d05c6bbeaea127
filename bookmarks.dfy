/** Bookmarks: a user's membership set of advice, unique per (userId, adviceId). */
module Bookmarks {
  import opened Tables
  import opened Store

  const UserNotFound := "User not found"
  const AdviceNotFound := "Advice not found"
  const BookmarkExists := "Bookmark already exists"
  const BookmarkNotFound := "Bookmark not found"

  class BookmarksService {
    const prisma: Database

    constructor (prisma: Database)
      ensures this.prisma == prisma
    {
      this.prisma := prisma;
    }

    /** Bookmarks advice `adviceId` for user `userId` at time `now`. The user is checked
        before the advice, and both before the pair's uniqueness. */
    method Create(userId: Id, adviceId: Id, now: Timestamp) returns (r: Result<Bookmark>)
      requires prisma.Valid()
      modifies prisma`bookmarks
      ensures prisma.Valid()
      ensures !HasUser(prisma.users, userId) ==> r == Err(NotFound(UserNotFound))
      ensures HasUser(prisma.users, userId) && !HasAdvice(prisma.advice, adviceId) ==>
                r == Err(NotFound(AdviceNotFound))
      ensures HasUser(prisma.users, userId) && HasAdvice(prisma.advice, adviceId)
              && HasBookmark(old(prisma.bookmarks), userId, adviceId) ==>
                r == Err(Conflict(BookmarkExists))
      ensures r.Err? ==> prisma.bookmarks == old(prisma.bookmarks)
      ensures r.Ok? <==> HasUser(prisma.users, userId) && HasAdvice(prisma.advice, adviceId)
                         && !HasBookmark(old(prisma.bookmarks), userId, adviceId)
      ensures r.Ok? ==>
                && r.value.userId == userId && r.value.adviceId == adviceId && r.value.createdAt == now
                && Lookup(old(prisma.bookmarks), BookmarkId, r.value.id).None?
                && prisma.bookmarks == old(prisma.bookmarks) + [r.value]
    {
      var user := Lookup(prisma.users, UserId, userId);
      var advice := Lookup(prisma.advice, AdviceId, adviceId);
      if user.None? {
        return Err(NotFound(UserNotFound));
      }
      if advice.None? {
        return Err(NotFound(AdviceNotFound));
      }
      var existing := Lookup(prisma.bookmarks, BookmarkKey, (userId, adviceId));
      if existing.Some? {
        return Err(Conflict(BookmarkExists));
      }
      FreshKeyExists(prisma.bookmarks, BookmarkId);
      var id :| Lookup(prisma.bookmarks, BookmarkId, id).None?;
      var b := Bookmark(id, userId, adviceId, now);
      AppendUnique(prisma.bookmarks, BookmarkId, b);
      AppendUnique(prisma.bookmarks, BookmarkKey, b);
      prisma.bookmarks := prisma.bookmarks + [b];
      return Ok(b);
    }

    /** The bookmarks of user `userId`, newest first. */
    method FindAll(userId: Id) returns (r: Result<seq<Bookmark>>)
      ensures r.Err? <==> !HasUser(prisma.users, userId)
      ensures r.Err? ==> r.error == NotFound(UserNotFound)
      ensures r.Ok? ==> multiset(r.value) == multiset(Where(prisma.bookmarks, BookmarkUser, userId))
      ensures r.Ok? ==> forall b :: b in r.value <==> b in prisma.bookmarks && b.userId == userId
      ensures r.Ok? ==> NewestFirst(r.value, BookmarkCreatedAt)
    {
      var user := Lookup(prisma.users, UserId, userId);
      if user.None? {
        return Err(NotFound(UserNotFound));
      }
      var mine := Where(prisma.bookmarks, BookmarkUser, userId);
      r := Ok(SortNewestFirst(mine, BookmarkCreatedAt));
      assert forall b :: b in r.value <==> b in multiset(mine);
    }

    /** Deletes user `userId`'s bookmark of advice `adviceId`. */
    method Remove(userId: Id, adviceId: Id) returns (r: Result<Bookmark>)
      requires prisma.Valid()
      modifies prisma`bookmarks
      ensures prisma.Valid()
      ensures r.Err? <==> !HasBookmark(old(prisma.bookmarks), userId, adviceId)
      ensures r.Err? ==> r.error == NotFound(BookmarkNotFound) && prisma.bookmarks == old(prisma.bookmarks)
      ensures r.Ok? ==>
                && Lookup(old(prisma.bookmarks), BookmarkKey, (userId, adviceId)) == Some(r.value)
                && r.value in old(prisma.bookmarks)
                && r.value.userId == userId && r.value.adviceId == adviceId
                && prisma.bookmarks == WithoutKey(old(prisma.bookmarks), BookmarkKey, (userId, adviceId))
                && |prisma.bookmarks| == |old(prisma.bookmarks)| - 1
    {
      var existing := Lookup(prisma.bookmarks, BookmarkKey, (userId, adviceId));
      if existing.None? {
        return Err(NotFound(BookmarkNotFound));
      }
      WithoutKeyRemovesOne(prisma.bookmarks, BookmarkKey, (userId, adviceId));
      WithoutKeyUnique(prisma.bookmarks, BookmarkKey, (userId, adviceId), BookmarkId);
      WithoutKeyUnique(prisma.bookmarks, BookmarkKey, (userId, adviceId), BookmarkKey);
      prisma.bookmarks := WithoutKey(prisma.bookmarks, BookmarkKey, (userId, adviceId));
      return Ok(existing.value);
    }
  }

  /** Creating a bookmark and then removing the same pair restores the table;
      the removal returns the bookmark the creation added. */
  method CreateThenRemove(service: BookmarksService, userId: Id, adviceId: Id, now: Timestamp)
    returns (created: Result<Bookmark>, removed: Result<Bookmark>)
    requires service.prisma.Valid()
    modifies service.prisma`bookmarks
    ensures service.prisma.Valid()
    ensures created.Ok? ==> removed == created && service.prisma.bookmarks == old(service.prisma.bookmarks)
  {
    created := service.Create(userId, adviceId, now);
    if created.Ok? {
      LookupAppended(old(service.prisma.bookmarks), BookmarkKey, created.value);
      WithoutKeyAfterAppend(old(service.prisma.bookmarks), BookmarkKey, created.value);
    }
    removed := service.Remove(userId, adviceId);
  }
}
