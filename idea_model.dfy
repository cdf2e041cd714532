/** The stored idea document and its comments, with the schema's required
    fields, defaults and timestamps. Times are milliseconds as `Date.now()`
    returns them; the clock is a parameter of every operation that reads it. */
module IdeaModel {
  import opened Wrappers
  import opened Auth

  type Time = int

  /** Document ids, as the store allocates them. */
  type IdeaId = nat

  /** A comment: author name copied at posting time, the raw text (possibly
      missing: nothing checks it) and its creation time. */
  datatype Comment = Comment(username: string, text: Option<string>, createdAt: Time)

  /** An idea document. `creator` is the owner's id; `username` is the owner's
      name copied at creation and never re-synchronised. `upvotes` and
      `downvotes` are the voters' ids as strings, in voting order. */
  datatype Idea = Idea(
    title: string,
    description: Option<string>,
    tags: seq<string>,
    creator: UserId,
    username: string,
    upvotes: seq<UserId>,
    downvotes: seq<UserId>,
    comments: seq<Comment>,
    createdAt: Time,
    updatedAt: Time)

  /** The fields a create request may carry; any of them may be missing. */
  datatype NewIdeaRequest = NewIdeaRequest(
    title: Option<string>,
    description: Option<string>,
    tags: Option<seq<string>>)

  /** A required string path is satisfied by a present, non-empty string. */
  predicate RequiredString(s: Option<string>) {
    s.Some? && s.value != ""
  }

  /** The schema's required paths: `title` and `username` (`creator` is an
      object id, always present in this model). */
  predicate HasRequiredFields(i: Idea) {
    RequiredString(Some(i.title)) && RequiredString(Some(i.username))
  }

  /** `new Idea({...})` followed by `save()`: `None` when validation fails.
      Defaults: `tags`, `upvotes`, `downvotes` and `comments` start empty,
      both timestamps are the creation time. */
  function NewIdea(req: NewIdeaRequest, user: AuthUser, now: Time): (r: Option<Idea>)
    ensures r.Some? <==> RequiredString(req.title) && RequiredString(Some(user.username))
    ensures r.Some? ==> HasRequiredFields(r.value)
  {
    if RequiredString(req.title) && RequiredString(Some(user.username)) then
      Some(Idea(req.title.value, req.description, req.tags.GetOr([]), user.id, user.username,
                [], [], [], now, now))
    else None
  }

  /** A freshly created idea has no votes and no comments, carries the
      creator's id and name and the request's fields, and was created and last
      updated at the same instant. */
  lemma NewIdeaDefaults(req: NewIdeaRequest, user: AuthUser, now: Time)
    requires NewIdea(req, user, now).Some?
    ensures var i := NewIdea(req, user, now).value;
      && i.upvotes == [] && i.downvotes == [] && i.comments == []
      && i.creator == user.id && i.username == user.username
      && i.title == req.title.value && i.description == req.description
      && (req.tags.None? ==> i.tags == [])
      && (req.tags.Some? ==> i.tags == req.tags.value)
      && i.createdAt == now && i.updatedAt == now
  {
  }

  /** An update body: every schema path the client chooses to send. Paths it
      leaves out are `None`. */
  datatype Patch = Patch(
    title: Option<string>,
    description: Option<string>,
    tags: Option<seq<string>>,
    creator: Option<UserId>,
    username: Option<string>,
    upvotes: Option<seq<UserId>>,
    downvotes: Option<seq<UserId>>,
    comments: Option<seq<Comment>>)

  /** `findByIdAndUpdate(id, body, { new: true })`: each path in the body
      overwrites the stored value, every other path keeps its value, and the
      update time is refreshed. No validator runs. */
  function ApplyPatch(i: Idea, p: Patch, now: Time): (r: Idea)
    ensures p.title.None? ==> r.title == i.title
    ensures p.title.Some? ==> r.title == p.title.value
    ensures p.description.None? ==> r.description == i.description
    ensures p.description.Some? ==> r.description == p.description
    ensures p.tags.None? ==> r.tags == i.tags
    ensures p.tags.Some? ==> r.tags == p.tags.value
    ensures p.creator.None? ==> r.creator == i.creator
    ensures p.creator.Some? ==> r.creator == p.creator.value
    ensures p.username.None? ==> r.username == i.username
    ensures p.username.Some? ==> r.username == p.username.value
    ensures p.upvotes.None? ==> r.upvotes == i.upvotes
    ensures p.upvotes.Some? ==> r.upvotes == p.upvotes.value
    ensures p.downvotes.None? ==> r.downvotes == i.downvotes
    ensures p.downvotes.Some? ==> r.downvotes == p.downvotes.value
    ensures p.comments.None? ==> r.comments == i.comments
    ensures p.comments.Some? ==> r.comments == p.comments.value
    ensures r.createdAt == i.createdAt && r.updatedAt == now
  {
    Idea(p.title.GetOr(i.title), if p.description.Some? then p.description else i.description, p.tags.GetOr(i.tags),
         p.creator.GetOr(i.creator), p.username.GetOr(i.username),
         p.upvotes.GetOr(i.upvotes), p.downvotes.GetOr(i.downvotes),
         p.comments.GetOr(i.comments), i.createdAt, now)
  }

  /** The empty body changes nothing but the update time. */
  lemma EmptyPatchKeepsIdea(i: Idea, now: Time)
    ensures ApplyPatch(i, Patch(None, None, None, None, None, None, None, None), now)
         == i.(updatedAt := now)
  {
  }

  /** What a listing returns for one idea: everything except `comments` and
      `creator`, plus the id. */
  datatype IdeaSummary = IdeaSummary(
    id: IdeaId,
    title: string,
    description: Option<string>,
    tags: seq<string>,
    username: string,
    createdAt: Time,
    upvotes: seq<UserId>,
    downvotes: seq<UserId>)

  function Summary(id: IdeaId, i: Idea): (s: IdeaSummary)
    ensures s.id == id && s.createdAt == i.createdAt
    ensures s.title == i.title && s.description == i.description && s.tags == i.tags
    ensures s.username == i.username
    ensures s.upvotes == i.upvotes && s.downvotes == i.downvotes
  {
    IdeaSummary(id, i.title, i.description, i.tags, i.username, i.createdAt, i.upvotes, i.downvotes)
  }
}
