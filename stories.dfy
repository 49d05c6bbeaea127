/** Stories: the anonymous stories users send, and the similar stories shown back on sending. */
module Stories {
  import opened Tables
  import opened Store

  const StorySent := "사연이 송신되었습니다."
  /** The number of similar stories the creation query returns at most. */
  const SimilarLimit := 5

  /** The values of the `Emotion` enumeration (it has at least `SAD`). */
  type EmotionValues = s: set<Emotion> | s != {} witness {"SAD"}

  /** The fields an update may carry; an absent field is left as it is. */
  datatype StoryPatch = StoryPatch(title: Option<string>, content: Option<string>,
                                   isPublic: Option<bool>, emotion: Option<Emotion>)

  datatype CreatedStory = CreatedStory(message: string, myStory: Story, similarStories: seq<Story>)

  /** A story with the comments attached to it. */
  datatype StoryDetail = StoryDetail(story: Story, comments: seq<Comment>)

  function Min(a: nat, b: nat): nat { if a <= b then a else b }

  /** A story after applying `patch`: the fields the patch carries are overwritten, the rest kept. */
  function ApplyPatch(s: Story, patch: StoryPatch): (r: Story)
    ensures r.id == s.id && r.userId == s.userId && r.createdAt == s.createdAt
    ensures r.title == (if patch.title.Some? then patch.title.value else s.title)
    ensures r.content == (if patch.content.Some? then patch.content.value else s.content)
    ensures r.isPublic == (if patch.isPublic.Some? then patch.isPublic.value else s.isPublic)
    ensures r.emotion == (if patch.emotion.Some? then patch.emotion else s.emotion)
  {
    s.(title := if patch.title.Some? then patch.title.value else s.title,
       content := if patch.content.Some? then patch.content.value else s.content,
       isPublic := if patch.isPublic.Some? then patch.isPublic.value else s.isPublic,
       emotion := if patch.emotion.Some? then patch.emotion else s.emotion)
  }

  /** The stories the similar-story query draws from: public, of `emotion`, and not the story `myId`. */
  function SimilarCandidates(stories: seq<Story>, emotion: Emotion, myId: Id): (r: seq<Story>)
    ensures forall i :: 0 <= i < |r| ==>
              r[i] in stories && r[i].emotion == Some(emotion) && r[i].isPublic && r[i].id != myId
    ensures forall i :: 0 <= i < |stories| ==>
              stories[i].emotion == Some(emotion) && stories[i].isPublic && stories[i].id != myId ==>
              stories[i] in r
  {
    WithoutKey(Where(Where(stories, StoryEmotion, Some(emotion)), StoryIsPublic, true), StoryId, myId)
  }

  /** The candidates are distinct stories, since the table's ids are unique. */
  lemma CandidatesUnique(stories: seq<Story>, emotion: Emotion, myId: Id)
    requires Unique(stories, StoryId)
    ensures Unique(SimilarCandidates(stories, emotion, myId), StoryId)
  {
    var ofEmotion := Where(stories, StoryEmotion, Some(emotion));
    var visible := Where(ofEmotion, StoryIsPublic, true);
    WhereUnique(stories, StoryEmotion, Some(emotion), StoryId);
    WhereUnique(ofEmotion, StoryIsPublic, true, StoryId);
    WithoutKeyUnique(visible, StoryId, myId, StoryId);
  }

  /** `ORDER BY RANDOM() LIMIT 5`: as many distinct candidates as the limit allows, in any order. */
  predicate IsRandomPick(pick: seq<Story>, candidates: seq<Story>) {
    && |pick| == Min(SimilarLimit, |candidates|)
    && (forall i :: 0 <= i < |pick| ==> pick[i] in candidates)
    && Unique(pick, StoryId)
  }

  /** Runs `ORDER BY RANDOM() LIMIT 5` over distinct candidates: the order is the database's
      random choice, so any pick the predicate allows may come back. */
  method RandomPick(candidates: seq<Story>) returns (pick: seq<Story>)
    requires Unique(candidates, StoryId)
    ensures IsRandomPick(pick, candidates)
  {
    assert IsRandomPick(candidates[..Min(SimilarLimit, |candidates|)], candidates);
    pick :| IsRandomPick(pick, candidates);
  }

  /** Every story the similar-story query picks after storing `myStory` is an earlier,
      public story of the same emotion. */
  lemma PickedStoriesAreOlderMatches(before: seq<Story>, myStory: Story, pick: seq<Story>)
    requires myStory.emotion.Some?
    requires IsRandomPick(pick, SimilarCandidates(before + [myStory], myStory.emotion.value, myStory.id))
    ensures forall i :: 0 <= i < |pick| ==>
              && pick[i] in before
              && pick[i].emotion == myStory.emotion
              && pick[i].isPublic
              && pick[i].id != myStory.id
  {
    var candidates := SimilarCandidates(before + [myStory], myStory.emotion.value, myStory.id);
    forall i | 0 <= i < |pick|
      ensures pick[i] in before
    {
      var k :| 0 <= k < |candidates| && candidates[k] == pick[i];
      var j :| 0 <= j < |before + [myStory]| && (before + [myStory])[j] == pick[i];
      assert pick[i].id != myStory.id;
      assert (before + [myStory])[|before|] == myStory;
      assert j < |before| && before[j] == pick[i];
    }
  }

  class StoriesService {
    const prisma: Database
    const emotions: EmotionValues

    constructor (prisma: Database, emotions: EmotionValues)
      ensures this.prisma == prisma && this.emotions == emotions
    {
      this.prisma := prisma;
      this.emotions := emotions;
    }

    /** Stores a story of user `userId` at time `now`, then picks up to five public
        stories of the same emotion. An omitted visibility means private; an omitted
        emotion is drawn from the enumeration. */
    method Create(userId: Id, title: string, content: string, isPublic: Option<bool>,
                  emotion: Option<Emotion>, now: Timestamp) returns (r: CreatedStory)
      requires prisma.Valid()
      modifies prisma`stories
      ensures prisma.Valid()
      ensures r.message == StorySent
      ensures r.myStory.userId == userId && r.myStory.title == title
      ensures r.myStory.content == content && r.myStory.createdAt == now
      ensures r.myStory.isPublic == (if isPublic.Some? then isPublic.value else false)
      ensures emotion.Some? && emotion.value != "" ==> r.myStory.emotion == emotion
      ensures r.myStory.emotion.Some?
      ensures emotion.None? || emotion.value == "" ==> r.myStory.emotion.value in emotions
      ensures !HasStory(old(prisma.stories), r.myStory.id)
      ensures prisma.stories == old(prisma.stories) + [r.myStory]
      ensures IsRandomPick(r.similarStories, SimilarCandidates(prisma.stories, r.myStory.emotion.value, r.myStory.id))
      ensures |r.similarStories| <= SimilarLimit
      ensures forall i :: 0 <= i < |r.similarStories| ==>
                && r.similarStories[i] in old(prisma.stories)
                && r.similarStories[i].emotion == r.myStory.emotion
                && r.similarStories[i].isPublic
                && r.similarStories[i].id != r.myStory.id
    {
      var finalEmotion: Emotion;
      if emotion.Some? && emotion.value != "" {
        finalEmotion := emotion.value;
      } else {
        finalEmotion :| finalEmotion in emotions;
      }
      FreshKeyExists(prisma.stories, StoryId);
      var id :| Lookup(prisma.stories, StoryId, id).None?;
      var myStory := Story(id, userId, title, content,
                           if isPublic.Some? then isPublic.value else false, Some(finalEmotion), now);
      AppendUnique(prisma.stories, StoryId, myStory);
      prisma.stories := prisma.stories + [myStory];

      var candidates := SimilarCandidates(prisma.stories, finalEmotion, id);
      CandidatesUnique(prisma.stories, finalEmotion, id);
      var similarStories := RandomPick(candidates);
      PickedStoriesAreOlderMatches(old(prisma.stories), myStory, similarStories);
      return CreatedStory(StorySent, myStory, similarStories);
    }

    /** The public stories, newest first. */
    method FindAll() returns (r: seq<Story>)
      ensures multiset(r) == multiset(Where(prisma.stories, StoryIsPublic, true))
      ensures forall s :: s in r <==> s in prisma.stories && s.isPublic
      ensures NewestFirst(r, StoryCreatedAt)
    {
      var visible := Where(prisma.stories, StoryIsPublic, true);
      r := SortNewestFirst(visible, StoryCreatedAt);
      assert forall s :: s in r <==> s in multiset(visible);
    }

    /** The story with id `id` together with its comments, or nothing. */
    method FindOne(id: Id) returns (r: Option<StoryDetail>)
      ensures r.None? <==> !HasStory(prisma.stories, id)
      ensures r.Some? ==> Lookup(prisma.stories, StoryId, id) == Some(r.value.story) && r.value.story.id == id
      ensures r.Some? ==> forall c :: c in r.value.comments <==> c in prisma.comments && c.storyId == id
      ensures r.Some? ==> multiset(r.value.comments) == multiset(Where(prisma.comments, CommentStory, id))
    {
      var story := Lookup(prisma.stories, StoryId, id);
      if story.None? {
        return None;
      }
      var comments := Where(prisma.comments, CommentStory, id);
      return Some(StoryDetail(story.value, comments));
    }

    /** Applies `patch` to the story with id `id`, whoever owns it. */
    method Update(id: Id, patch: StoryPatch) returns (r: Result<Story>)
      requires prisma.Valid()
      modifies prisma`stories
      ensures prisma.Valid()
      ensures r.Err? <==> !HasStory(old(prisma.stories), id)
      ensures r.Err? ==> r.error == RecordNotFound && prisma.stories == old(prisma.stories)
      ensures r.Ok? ==>
                && r.value == ApplyPatch(Lookup(old(prisma.stories), StoryId, id).value, patch)
                && prisma.stories == ReplaceKey(old(prisma.stories), StoryId, id, r.value)
    {
      var story := Lookup(prisma.stories, StoryId, id);
      if story.None? {
        return Err(RecordNotFound);
      }
      var updated := ApplyPatch(story.value, patch);
      ReplaceKeyUnique(prisma.stories, StoryId, id, updated, StoryId);
      prisma.stories := ReplaceKey(prisma.stories, StoryId, id, updated);
      return Ok(updated);
    }

    /** Deletes the story with id `id`, whoever owns it. */
    method Remove(id: Id) returns (r: Result<Story>)
      requires prisma.Valid()
      modifies prisma`stories
      ensures prisma.Valid()
      ensures r.Err? <==> !HasStory(old(prisma.stories), id)
      ensures r.Err? ==> r.error == RecordNotFound && prisma.stories == old(prisma.stories)
      ensures r.Ok? ==>
                && Lookup(old(prisma.stories), StoryId, id) == Some(r.value)
                && prisma.stories == WithoutKey(old(prisma.stories), StoryId, id)
                && |prisma.stories| == |old(prisma.stories)| - 1
    {
      var story := Lookup(prisma.stories, StoryId, id);
      if story.None? {
        return Err(RecordNotFound);
      }
      WithoutKeyRemovesOne(prisma.stories, StoryId, id);
      WithoutKeyUnique(prisma.stories, StoryId, id, StoryId);
      prisma.stories := WithoutKey(prisma.stories, StoryId, id);
      return Ok(story.value);
    }
  }
}
