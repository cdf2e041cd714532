/** The idea handlers as one atomic step each over a store of idea documents.
    The store keeps the documents by id and the ids in insertion order (the
    order in which documents are found before sorting). Each handler returns
    the HTTP status and message it answers with; the authenticated user, the
    request fields and the clock are inputs. */
module IdeaStore {
  import opened Wrappers
  import opened Seqs
  import opened Text
  import opened Auth
  import opened IdeaModel
  import Votes

  /** The `:id` route parameter: either it casts to an object id, or the cast
      throws inside the store and the handler's catch answers 500. */
  datatype IdParam = ObjectId(id: IdeaId) | Malformed

  /** A JSON answer: its status and its body. `DriverError` is a body holding
      the message of an exception raised by the store or the runtime, whose
      text this model leaves open. */
  datatype Reply = Reply(status: int, body: Body)

  datatype Body =
    | Message(text: string)
    | DriverError
    | IdeaBody(id: IdeaId, idea: Idea)
    | VoteBody(text: string, idea: Idea)
    | Deletion(text: string, deleted: IdeaId)

  /** `doc.save()` on a loaded document re-runs the required validators of
      every path: it fails when an earlier update emptied `title` or
      `username`. */
  function Save(i: Idea, now: Time): (r: Option<Idea>)
    ensures r.Some? <==> HasRequiredFields(i)
    ensures r.Some? ==> r.value == i.(updatedAt := now)
  {
    if HasRequiredFields(i) then Some(i.(updatedAt := now)) else None
  }

  /** The idea with one more comment by `author`, stamped `now`. */
  function WithComment(i: Idea, author: string, text: Option<string>, now: Time): (r: Idea)
    ensures r.comments == i.comments + [Comment(author, text, now)]
    ensures BallotOf(r) == BallotOf(i) && r.title == i.title && r.creator == i.creator
  {
    i.(comments := i.comments + [Comment(author, text, now)])
  }

  /** The parameter names a stored idea. */
  predicate Found(p: IdParam, m: map<IdeaId, Idea>) {
    p.ObjectId? && p.id in m
  }

  /** The two vote lists of an idea. */
  function BallotOf(i: Idea): Votes.Ballot {
    Votes.Ballot(i.upvotes, i.downvotes)
  }

  /** The idea with new vote lists, saved at `now`. */
  function WithBallot(i: Idea, b: Votes.Ballot, now: Time): (r: Idea)
    ensures BallotOf(r) == b
    ensures r.title == i.title && r.creator == i.creator && r.comments == i.comments
  {
    i.(upvotes := b.upvotes, downvotes := b.downvotes, updatedAt := now)
  }

  /** No user is both an upvoter and a downvoter of any stored idea. */
  predicate AllExclusive(m: map<IdeaId, Idea>) {
    forall id :: id in m ==> Votes.Exclusive(BallotOf(m[id]))
  }

  /** The listing projection of the ideas named by `ids`, in that order. */
  function Summaries(ids: seq<IdeaId>, m: map<IdeaId, Idea>): (r: seq<IdeaSummary>)
    requires forall id :: id in ids ==> id in m
    ensures |r| == |ids|
    ensures forall k :: 0 <= k < |r| ==> r[k] == Summary(ids[k], m[ids[k]])
  {
    if ids == [] then [] else [Summary(ids[0], m[ids[0]])] + Summaries(ids[1..], m)
  }

  /** Every id of `ids` has its projection in `Summaries(ids, m)`. */
  lemma SummariesCover(ids: seq<IdeaId>, m: map<IdeaId, Idea>)
    requires forall id :: id in ids ==> id in m
    ensures forall id :: id in ids ==> Summary(id, m[id]) in Summaries(ids, m)
  {
    var r := Summaries(ids, m);
    forall id | id in ids
      ensures Summary(id, m[id]) in r
    {
      var k :| 0 <= k < |ids| && ids[k] == id;
      assert r[k] == Summary(id, m[id]);
    }
  }

  /** The ids occurring in `s`. */
  function IdSet(s: seq<IdeaId>): (r: set<IdeaId>)
    ensures forall x :: x in r <==> x in s
  {
    if s == [] then {} else {s[0]} + IdSet(s[1..])
  }

  /** A sequence without repetitions has as many distinct elements as it has
      elements. */
  lemma {:induction false} DistinctCount(s: seq<IdeaId>)
    requires NoDup(s)
    ensures |IdSet(s)| == |s|
  {
    if s != [] {
      assert NoDup(s[1..]) by {
        forall i, j | 0 <= i < j < |s[1..]| ensures s[1..][i] != s[1..][j] {
          assert s[1..][i] == s[i + 1] && s[1..][j] == s[j + 1];
        }
      }
      DistinctCount(s[1..]);
      assert s[0] !in s[1..] by {
        forall k | 0 <= k < |s[1..]| ensures s[1..][k] != s[0] {
          assert s[1..][k] == s[k + 1];
        }
      }
    }
  }

  // ---------------------------------------------------------------------------
  // Listing: page and limit parsing, newest-first order, the page window.

  /** A query parameter as `parseInt` reads it; a missing parameter is NaN. */
  function ParseQuery(q: Option<string>): Option<int> {
    match q
    case None => None
    case Some(s) => ParseInt(s)
  }

  /** `parseInt(q) || fallback`: NaN and zero fall back, anything else
      (negative numbers included) is kept. */
  function OrDefault(q: Option<string>, fallback: int): (n: int)
    ensures ParseQuery(q).Some? && ParseQuery(q).value != 0 ==> n == ParseQuery(q).value
    ensures ParseQuery(q).None? || ParseQuery(q).value == 0 ==> n == fallback
  {
    match ParseQuery(q)
    case None => fallback
    case Some(v) => if v == 0 then fallback else v
  }

  /** `Math.ceil(a / b)` on integers, `b` non-zero. */
  function CeilDiv(a: nat, b: int): (r: int)
    requires b != 0
    ensures b > 0 ==> (r - 1) * b < a <= r * b
    ensures b < 0 ==> r * b <= a < (r - 1) * b
  {
    if b > 0 then (a + b - 1) / b else -(a / -b)
  }

  /** Newest `createdAt` first. */
  predicate NewestFirst(s: seq<IdeaSummary>) {
    forall i, j :: 0 <= i < j < |s| ==> s[i].createdAt >= s[j].createdAt
  }

  /** `x` put into a sequence before the first element that is not newer
      than it. */
  function Insert(x: IdeaSummary, s: seq<IdeaSummary>): (r: seq<IdeaSummary>)
    ensures multiset(r) == multiset(s) + multiset{x}
  {
    if s == [] || s[0].createdAt <= x.createdAt then [x] + s
    else
      assert s == [s[0]] + s[1..];
      [s[0]] + Insert(x, s[1..])
  }

  /** Everything in `s` is at most `t` old-to-new: no element is newer than `t`. */
  predicate NoneNewer(s: seq<IdeaSummary>, t: int) {
    forall k :: 0 <= k < |s| ==> s[k].createdAt <= t
  }

  /** Inserting keeps a bound on the newest element. */
  lemma {:induction false} InsertNoneNewer(x: IdeaSummary, s: seq<IdeaSummary>, t: int)
    requires NoneNewer(s, t) && x.createdAt <= t
    ensures NoneNewer(Insert(x, s), t)
  {
    if s != [] && s[0].createdAt > x.createdAt {
      assert NoneNewer(s[1..], t) by {
        forall k | 0 <= k < |s[1..]| ensures s[1..][k].createdAt <= t { assert s[1..][k] == s[k + 1]; }
      }
      InsertNoneNewer(x, s[1..], t);
    }
  }

  /** Inserting into a newest-first sequence keeps it newest-first. */
  lemma {:induction false} InsertNewestFirst(x: IdeaSummary, s: seq<IdeaSummary>)
    requires NewestFirst(s)
    ensures NewestFirst(Insert(x, s))
  {
    if s != [] && s[0].createdAt > x.createdAt {
      var tail := s[1..];
      assert NewestFirst(tail) by {
        forall i, j | 0 <= i < j < |tail| ensures tail[i].createdAt >= tail[j].createdAt {
          assert tail[i] == s[i + 1] && tail[j] == s[j + 1];
        }
      }
      assert NoneNewer(tail, s[0].createdAt) by {
        forall k | 0 <= k < |tail| ensures tail[k].createdAt <= s[0].createdAt { assert tail[k] == s[k + 1]; }
      }
      InsertNewestFirst(x, tail);
      InsertNoneNewer(x, tail, s[0].createdAt);
      var r := Insert(x, s);
      var rest := Insert(x, tail);
      assert r == [s[0]] + rest;
      forall i, j | 0 <= i < j < |r| ensures r[i].createdAt >= r[j].createdAt {
        assert r[j] == rest[j - 1];
        if i > 0 { assert r[i] == rest[i - 1]; }
      }
    }
  }

  /** `sort({ createdAt: -1 })`: a newest-first arrangement of `s`. The store
      leaves the order of equal timestamps open; this one is one of the
      allowed orders. */
  function SortNewestFirst(s: seq<IdeaSummary>): (r: seq<IdeaSummary>)
    ensures NewestFirst(r)
    ensures multiset(r) == multiset(s)
  {
    if s == [] then []
    else
      assert s == [s[0]] + s[1..];
      InsertNewestFirst(s[0], SortNewestFirst(s[1..]));
      Insert(s[0], SortNewestFirst(s[1..]))
  }

  /** `.skip(skip).limit(count)` on a sequence. */
  function Window(s: seq<IdeaSummary>, skip: nat, count: nat): (r: seq<IdeaSummary>)
    ensures |r| <= count
    ensures skip >= |s| ==> r == []
    ensures skip < |s| ==> |r| == if skip + count <= |s| then count else |s| - skip
    ensures forall k :: 0 <= k < |r| ==> r[k] == s[skip + k]
  {
    var lo := if skip <= |s| then skip else |s|;
    var hi := if skip + count <= |s| then skip + count else |s|;
    s[lo..hi]
  }

  /** A page window holds nothing that the sequence does not. */
  lemma WindowIsSubMultiset(s: seq<IdeaSummary>, skip: nat, count: nat)
    ensures multiset(Window(s, skip, count)) <= multiset(s)
  {
    var lo := if skip <= |s| then skip else |s|;
    var hi := if skip + count <= |s| then skip + count else |s|;
    assert s == s[..lo] + s[lo..hi] + s[hi..];
  }

  /** The first window of a newest-first sequence leaves out nothing newer
      than what it shows. */
  lemma FirstWindowIsNewest(s: seq<IdeaSummary>, count: nat)
    requires NewestFirst(s)
    ensures var w := Window(s, 0, count);
      forall x, y :: x in w && y in s && y !in w ==> y.createdAt <= x.createdAt
  {
    var w := Window(s, 0, count);
    forall x, y | x in w && y in s && y !in w ensures y.createdAt <= x.createdAt {
      var i :| 0 <= i < |w| && w[i] == x;
      var j :| 0 <= j < |s| && s[j] == y;
      if j < |w| {
        assert w[j] == y;
      }
    }
  }

  /** The answer of the listing handler. */
  datatype PageReply =
    | PageFailed
    | Page(ideas: seq<IdeaSummary>, currentPage: int, totalPages: int)

  /** The absolute value, as the store applies a negative limit. */
  function Abs(n: int): nat {
    if n < 0 then -n else n
  }

  /** `parseInt(req.query.page) || 1`. */
  function PageNumber(pageQuery: Option<string>): (page: int)
    ensures page != 0
  {
    OrDefault(pageQuery, 1)
  }

  /** `parseInt(req.query.limit) || 10`. */
  function PageSize(limitQuery: Option<string>): (limit: int)
    ensures limit != 0
  {
    OrDefault(limitQuery, 10)
  }

  /** A missing or zero page reads as 1 and such a limit as 10. */
  lemma QueryFallbacks()
    ensures PageNumber(None) == 1 && PageSize(None) == 10
    ensures PageNumber(Some("0")) == 1 && PageSize(Some("0")) == 10
  {
    assert ParseInt("0") == Some(0) by {
      assert LeadingSpaces("0") == 0;
      assert ParseSigned("0") == ParseUnsigned("0") == ParseDigits("0", 10);
      assert DigitPrefix("0", 10) == "0" by {
        assert DigitPrefix("", 10) == [];
      }
      assert DigitsValue("0", 10) == 0;
    }
  }

  /** An unparsable page reads as 1 and an empty limit as 10. */
  lemma QueryUnparsableFallbacks()
    ensures PageNumber(Some("abc")) == 1 && PageSize(Some("")) == 10
  {
    assert ParseInt("abc") == None by {
      assert DigitPrefix("abc", 10) == [];
    }
    assert ParseInt("") == None by {
      assert DigitPrefix("", 10) == [];
    }
  }

  /** A negative page is kept as it is. */
  lemma QueryKeepsNegative()
    ensures PageNumber(Some("-2")) == -2
  {
    assert ParseInt("-2") == Some(-2) by {
      assert TrimStart("-2") == "-2";
      assert DigitPrefix("2", 10) == "2";
    }
  }

  /** A page with leading spaces or trailing text reads as its leading
      number. */
  lemma QueryReadsLeadingNumber()
    ensures PageNumber(Some(" 3rd")) == 3
  {
    assert ParseInt(" 3rd") == Some(3) by {
      assert TrimStart(" 3rd") == "3rd";
      assert DigitPrefix("3rd", 10) == "3";
    }
  }

  /** The listing handler over the stored ideas' summaries, once `page` and
      `limit` are read from the query: the store refuses a negative skip
      `(page - 1) * limit` (500); otherwise the page holds at most `|limit|`
      summaries from position `skip` of the newest-first listing, with
      `currentPage = page` and `totalPages = ceil(total / limit)`. */
  function Paginate(listing: seq<IdeaSummary>, page: int, limit: int): (r: PageReply)
    requires limit != 0
    ensures r.PageFailed? <==> (page - 1) * limit < 0
    ensures r.Page? ==> r.currentPage == page
    ensures r.Page? ==> (page - 1) * limit >= 0 && r.ideas == Window(SortNewestFirst(listing), (page - 1) * limit, Abs(limit))
    ensures r.Page? ==> |r.ideas| <= Abs(limit)
    ensures r.Page? ==> NewestFirst(r.ideas) && multiset(r.ideas) <= multiset(listing)
    ensures r.Page? ==> r.totalPages == CeilDiv(|listing|, limit)
  {
    var skip := (page - 1) * limit;
    if skip < 0 then PageFailed
    else
      var all := SortNewestFirst(listing);
      WindowIsSubMultiset(all, skip, Abs(limit));
      WindowNewestFirst(all, skip, Abs(limit));
      Page(Window(all, skip, Abs(limit)), page, CeilDiv(|listing|, limit))
  }

  /** A window of a newest-first sequence is newest-first. */
  lemma WindowNewestFirst(s: seq<IdeaSummary>, skip: nat, count: nat)
    requires NewestFirst(s)
    ensures NewestFirst(Window(s, skip, count))
  {
  }

  /** A page past the last one is empty, not an error; a page inside the
      listing is full unless it is the last one. */
  lemma PaginateSize(listing: seq<IdeaSummary>, page: int, limit: int)
    requires limit != 0 && (page - 1) * limit >= 0
    ensures var r := Paginate(listing, page, limit);
      var skip := (page - 1) * limit;
      && (skip >= |listing| ==> r.ideas == [])
      && (skip < |listing| ==> |r.ideas| == if skip + Abs(limit) <= |listing| then Abs(limit) else |listing| - skip)
  {
    var all := SortNewestFirst(listing);
    assert |all| == |multiset(all)| == |multiset(listing)| == |listing|;
  }

  /** On the first page nothing left off the page is newer than anything on
      it: the page holds the newest ideas of all. */
  lemma FirstPageNewest(listing: seq<IdeaSummary>, limit: int)
    requires limit != 0
    ensures var r := Paginate(listing, 1, limit);
      forall x, y :: x in r.ideas && y in listing && y !in r.ideas ==> y.createdAt <= x.createdAt
  {
    var all := SortNewestFirst(listing);
    FirstWindowIsNewest(all, Abs(limit));
    assert forall y :: y in listing ==> y in multiset(all);
  }

  /** Of two adjacent windows of a newest-first sequence, nothing in the
      second is newer than anything in the first. */
  lemma AdjacentWindowsOrdered(s: seq<IdeaSummary>, skip: nat, count: nat)
    requires NewestFirst(s)
    ensures forall x, y :: x in Window(s, skip, count) && y in Window(s, skip + count, count) ==> y.createdAt <= x.createdAt
  {
    var w, v := Window(s, skip, count), Window(s, skip + count, count);
    forall x, y | x in w && y in v ensures y.createdAt <= x.createdAt {
      var i :| 0 <= i < |w| && w[i] == x;
      var j :| 0 <= j < |v| && v[j] == y;
      assert x == s[skip + i] && y == s[skip + count + j];
    }
  }

  /** A page of a positive `limit` at a non-negative offset is the window
      of the newest-first order starting at that offset. */
  lemma PageIsWindow(listing: seq<IdeaSummary>, page: int, limit: int, skip: nat)
    requires limit > 0 && skip == (page - 1) * limit
    ensures Paginate(listing, page, limit).Page?
    ensures Paginate(listing, page, limit).ideas == Window(SortNewestFirst(listing), skip, limit)
  {
  }

  /** The offset of page `page`, and the next page's offset `limit` past it. */
  lemma NextOffset(page: int, limit: int) returns (skip: nat)
    requires limit > 0 && page >= 1
    ensures skip == (page - 1) * limit && skip + limit == (page + 1 - 1) * limit
  {
    skip := (page - 1) * limit;
  }

  /** Consecutive pages are ordered: nothing on page `page + 1` is newer than
      anything on page `page`. */
  lemma ConsecutivePagesOrdered(listing: seq<IdeaSummary>, page: int, limit: int)
    requires limit > 0 && page >= 1
    ensures forall x, y :: x in Paginate(listing, page, limit).ideas && y in Paginate(listing, page + 1, limit).ideas ==>
      y.createdAt <= x.createdAt
  {
    var skip := NextOffset(page, limit);
    PagesOrderedAt(listing, page, limit, skip);
  }

  /** `ConsecutivePagesOrdered` with the offset of page `page` given. */
  lemma PagesOrderedAt(listing: seq<IdeaSummary>, page: int, limit: int, skip: nat)
    requires limit > 0 && skip == (page - 1) * limit && skip + limit == (page + 1 - 1) * limit
    ensures forall x, y :: x in Paginate(listing, page, limit).ideas && y in Paginate(listing, page + 1, limit).ideas ==>
      y.createdAt <= x.createdAt
  {
    PageIsWindow(listing, page, limit, skip);
    PageIsWindow(listing, page + 1, limit, skip + limit);
    AdjacentWindowsOrdered(SortNewestFirst(listing), skip, limit);
  }

  /** `k * n < r * n` with a positive `n` means `k < r`. */
  lemma MulLess(k: int, r: int, n: int)
    requires n > 0 && k * n < r * n
    ensures k < r
  {
  }

  /** The window of width `n` starting at the multiple `k * n` of `n` just
      below `j` holds `s[j]`. */
  lemma WindowHolds(s: seq<IdeaSummary>, j: nat, n: nat) returns (k: nat)
    requires j < |s| && n > 0
    ensures k * n <= j < k * n + n
    ensures s[j] in Window(s, k * n, n)
  {
    k := j / n;
    var skip := k * n;
    assert j == skip + j % n;
    assert Window(s, skip, n)[j - skip] == s[j];
  }

  /** Where a listed idea sits in the newest-first order, which is as long
      as the listing. */
  lemma IndexInSorted(listing: seq<IdeaSummary>, y: IdeaSummary) returns (j: nat)
    requires y in listing
    ensures |SortNewestFirst(listing)| == |listing|
    ensures j < |listing| && SortNewestFirst(listing)[j] == y
  {
    var all := SortNewestFirst(listing);
    assert |all| == |multiset(all)| == |multiset(listing)| == |listing|;
    assert y in multiset(all);
    j :| 0 <= j < |all| && all[j] == y;
  }

  /** The page a listed idea is on, among pages 1 to `totalPages`. */
  lemma PageOf(listing: seq<IdeaSummary>, limit: int, y: IdeaSummary) returns (page: int)
    requires limit > 0 && y in listing
    ensures 1 <= page <= CeilDiv(|listing|, limit)
    ensures y in Paginate(listing, page, limit).ideas
  {
    var all := SortNewestFirst(listing);
    var j := IndexInSorted(listing, y);
    var k := WindowHolds(all, j, limit);
    page := k + 1;
    PageInRange(k, j, |listing|, limit);
    PageIsWindow(listing, page, limit, k * limit);
  }

  /** Page `k + 1` starts at `k * limit`; when that is before the end of a
      listing of `n` ideas, the page is within `totalPages`. */
  lemma PageInRange(k: nat, j: nat, n: nat, limit: int)
    requires limit > 0 && k * limit <= j < n
    ensures k + 1 <= CeilDiv(n, limit)
  {
    var total := CeilDiv(n, limit);
    MulLess(k, total, limit);
  }

  /** Every listed idea is on some page between 1 and `totalPages`. */
  lemma EveryIdeaOnSomePage(listing: seq<IdeaSummary>, limit: int)
    requires limit > 0
    ensures forall y :: y in listing ==>
      exists page :: 1 <= page <= CeilDiv(|listing|, limit) && y in Paginate(listing, page, limit).ideas
  {
    forall y | y in listing
      ensures exists page :: 1 <= page <= CeilDiv(|listing|, limit) && y in Paginate(listing, page, limit).ideas
    {
      var page := PageOf(listing, limit, y);
    }
  }

  /** An update body without vote paths leaves both vote lists as they were,
      so it cannot break their exclusivity. */
  lemma PatchKeepsBallot(i: Idea, p: Patch, now: Time)
    requires p.upvotes.None? && p.downvotes.None?
    ensures BallotOf(ApplyPatch(i, p, now)) == BallotOf(i)
  {
  }

  /** The update body is applied wholesale: the creator may send both vote
      lists holding the same id, and the stored idea then has a voter in
      both lists. */
  lemma PatchCanBreakExclusive(i: Idea, u: UserId, now: Time)
    ensures var p := Patch(None, None, None, None, None, Some([u]), Some([u]), None);
      !Votes.Exclusive(BallotOf(ApplyPatch(i, p, now)))
  {
    var p := Patch(None, None, None, None, None, Some([u]), Some([u]), None);
    assert u in ApplyPatch(i, p, now).upvotes;
  }

  /** The update body may also empty the title; every later save of that
      idea (a vote, a comment) is then refused. */
  lemma PatchCanEmptyTitle(i: Idea, now: Time)
    ensures var p := Patch(Some(""), None, None, None, None, None, None, None);
      !HasRequiredFields(ApplyPatch(i, p, now)) && Save(ApplyPatch(i, p, now), now).None?
  {
  }

  /** The search handler's reading of the `tags` parameter:
      `tags.split(",").map((tag) => tag.trim())`. */
  function TagFilter(tagsQuery: string): (r: seq<string>)
    ensures |r| == |Split(tagsQuery, ',')| >= 1
    ensures forall k :: 0 <= k < |r| ==> r[k] == Trim(Split(tagsQuery, ',')[k])
  {
    TrimAll(Split(tagsQuery, ','))
  }

  /** Every piece trimmed. */
  function TrimAll(parts: seq<string>): (r: seq<string>)
    ensures |r| == |parts|
    ensures forall k :: 0 <= k < |r| ==> r[k] == Trim(parts[k])
  {
    if parts == [] then [] else [Trim(parts[0])] + TrimAll(parts[1..])
  }

  class Store {
    var ideas: map<IdeaId, Idea>
    var order: seq<IdeaId>
    var nextId: IdeaId

    /** Ids in `order` are distinct and are exactly the stored ones, and all
        are below the next id to allocate. */
    ghost predicate Valid()
      reads this
    {
      && NoDup(order)
      && (forall id :: id in ideas <==> id in order)
      && (forall id :: id in ideas ==> id < nextId)
    }

    constructor ()
      ensures Valid() && ideas == map[] && order == []
    {
      ideas := map[];
      order := [];
      nextId := 0;
    }

    /** The listing projection of the stored ideas, in insertion order:
        each stored idea appears, once. */
    function Listing(): (r: seq<IdeaSummary>)
      reads this
      requires Valid()
      ensures |r| == |ideas| == |order|
      ensures forall k :: 0 <= k < |r| ==> r[k].id in ideas && r[k] == Summary(r[k].id, ideas[r[k].id])
      ensures forall k :: 0 <= k < |r| ==> r[k] == Summary(order[k], ideas[order[k]])
      ensures forall id :: id in ideas ==> Summary(id, ideas[id]) in r
    {
      DistinctCount(order);
      assert ideas.Keys == IdSet(order);
      SummariesCover(order, ideas);
      Summaries(order, ideas)
    }

    /** `GET /ideas` over the stored ideas, once `page = PageNumber(query.page)`
        and `limit = PageSize(query.limit)` are read: `total` is the number
        of stored ideas and the page is cut from all of them. */
    function GetIdeas(page: int, limit: int): (r: PageReply)
      reads this
      requires Valid() && limit != 0
      ensures r.PageFailed? <==> (page - 1) * limit < 0
      ensures r.Page? ==> r.currentPage == page && |r.ideas| <= Abs(limit)
      ensures r.Page? ==> r.ideas == Window(SortNewestFirst(Listing()), (page - 1) * limit, Abs(limit))
      ensures r.Page? ==> r.totalPages == CeilDiv(|ideas|, limit)
    {
      var listing := Listing();
      assert |listing| == |ideas|;
      Paginate(listing, page, limit)
    }

    /** Every idea on a page is a stored idea, listed without its comments
        and creator. */
    lemma PageHoldsStoredIdeas(page: int, limit: int)
      requires Valid() && limit != 0
      ensures var r := GetIdeas(page, limit);
        r.Page? ==> forall x :: x in r.ideas ==> x.id in ideas && x == Summary(x.id, ideas[x.id])
    {
      var listing := Listing();
      var r := GetIdeas(page, limit);
      if r.Page? {
        assert r.ideas == Paginate(listing, page, limit).ideas;
        assert multiset(r.ideas) <= multiset(listing);
        forall x | x in r.ideas
          ensures x.id in ideas && x == Summary(x.id, ideas[x.id])
        {
          assert x in multiset(listing);
        }
      }
    }

    /** `POST /ideas`: a request that fails validation answers 500 and stores
        nothing; otherwise the new idea gets the next id, goes to the end of
        the insertion order and is returned with 201. */
    method Create(req: NewIdeaRequest, user: AuthUser, now: Time) returns (reply: Reply)
      requires Valid()
      modifies this
      ensures Valid()
      ensures NewIdea(req, user, now).None? ==>
        reply == Reply(500, DriverError) && ideas == old(ideas) && order == old(order) && nextId == old(nextId)
      ensures NewIdea(req, user, now).Some? ==>
        && reply == Reply(201, IdeaBody(old(nextId), NewIdea(req, user, now).value))
        && old(nextId) !in old(ideas)
        && ideas == old(ideas)[old(nextId) := NewIdea(req, user, now).value]
        && order == old(order) + [old(nextId)]
        && nextId == old(nextId) + 1
      ensures AllExclusive(old(ideas)) ==> AllExclusive(ideas)
    {
      var created := NewIdea(req, user, now);
      if created.None? {
        return Reply(500, DriverError);
      }
      var id := nextId;
      assert id !in order;
      ideas := ideas[id := created.value];
      order := order + [id];
      nextId := nextId + 1;
      reply := Reply(201, IdeaBody(id, created.value));
    }

    /** `GET /ideas/:id`: 500 "Error fetching idea" for a malformed id, 404
        "Idea not found" for an absent one, else the idea. */
    method GetById(p: IdParam) returns (reply: Reply)
      requires Valid()
      ensures p.Malformed? ==> reply == Reply(500, Message("Error fetching idea"))
      ensures p.ObjectId? && p.id !in ideas ==> reply == Reply(404, Message("Idea not found"))
      ensures Found(p, ideas) ==> reply == Reply(200, IdeaBody(p.id, ideas[p.id]))
    {
      if p.Malformed? {
        reply := Reply(500, Message("Error fetching idea"));
      } else if p.id !in ideas {
        reply := Reply(404, Message("Idea not found"));
      } else {
        reply := Reply(200, IdeaBody(p.id, ideas[p.id]));
      }
    }

    /** `PUT /ideas/:id`: only the creator may update; the body's paths then
        overwrite the stored ones without validation. */
    method Update(p: IdParam, user: AuthUser, patch: Patch, now: Time) returns (reply: Reply)
      requires Valid()
      modifies this
      ensures Valid() && order == old(order) && nextId == old(nextId)
      ensures p.Malformed? ==> reply == Reply(500, DriverError) && ideas == old(ideas)
      ensures p.ObjectId? && p.id !in old(ideas) ==> reply == Reply(404, Message("Idea not found")) && ideas == old(ideas)
      ensures Found(p, old(ideas)) && old(ideas)[p.id].creator != user.id ==>
        reply == Reply(403, Message("Not authorized")) && ideas == old(ideas)
      ensures Found(p, old(ideas)) && old(ideas)[p.id].creator == user.id ==>
        && ideas == old(ideas)[p.id := ApplyPatch(old(ideas)[p.id], patch, now)]
        && reply == Reply(200, IdeaBody(p.id, ideas[p.id]))
      ensures patch.upvotes.None? && patch.downvotes.None? && AllExclusive(old(ideas)) ==> AllExclusive(ideas)
    {
      if p.Malformed? {
        return Reply(500, DriverError);
      }
      if p.id !in ideas {
        return Reply(404, Message("Idea not found"));
      }
      var idea := ideas[p.id];
      if idea.creator != user.id {
        return Reply(403, Message("Not authorized"));
      }
      var updated := ApplyPatch(idea, patch, now);
      ideas := ideas[p.id := updated];
      reply := Reply(200, IdeaBody(p.id, updated));
    }

    /** `DELETE /ideas/:id`: only the creator may delete; the idea leaves the
        store and the insertion order. */
    method Delete(p: IdParam, user: AuthUser) returns (reply: Reply)
      requires Valid()
      modifies this
      ensures Valid() && nextId == old(nextId)
      ensures p.Malformed? ==>
        reply == Reply(500, Message("Internal server error")) && ideas == old(ideas) && order == old(order)
      ensures p.ObjectId? && p.id !in old(ideas) ==>
        reply == Reply(404, Message("Idea not found")) && ideas == old(ideas) && order == old(order)
      ensures Found(p, old(ideas)) && old(ideas)[p.id].creator != user.id ==>
        reply == Reply(403, Message("Not authorized to delete this idea")) && ideas == old(ideas) && order == old(order)
      ensures Found(p, old(ideas)) && old(ideas)[p.id].creator == user.id ==>
        && reply == Reply(200, Deletion("Idea deleted successfully", p.id))
        && ideas == old(ideas) - {p.id}
        && order == Without(old(order), p.id)
        && |order| == |old(order)| - 1
      ensures AllExclusive(old(ideas)) ==> AllExclusive(ideas)
    {
      if p.Malformed? {
        return Reply(500, Message("Internal server error"));
      }
      if p.id !in ideas {
        return Reply(404, Message("Idea not found"));
      }
      if ideas[p.id].creator != user.id {
        return Reply(403, Message("Not authorized to delete this idea"));
      }
      WithoutNoDup(order, p.id);
      WithoutRemovesOne(order, p.id);
      ideas := ideas - {p.id};
      order := Without(order, p.id);
      reply := Reply(200, Deletion("Idea deleted successfully", p.id));
    }

    /** `POST /ideas/:id/upvote`: the toggle on the idea's lists, then a save
        that re-validates the document. */
    method Upvote(p: IdParam, user: AuthUser, now: Time) returns (reply: Reply)
      requires Valid()
      modifies this
      ensures Valid() && order == old(order) && nextId == old(nextId)
      ensures !Found(p, old(ideas)) ==> ideas == old(ideas)
      ensures p.Malformed? ==> reply == Reply(500, DriverError)
      ensures p.ObjectId? && p.id !in old(ideas) ==> reply == Reply(404, Message("Idea not found"))
      ensures Found(p, old(ideas)) && !HasRequiredFields(old(ideas)[p.id]) ==>
        reply == Reply(500, DriverError) && ideas == old(ideas)
      ensures Found(p, old(ideas)) && HasRequiredFields(old(ideas)[p.id]) ==>
        var before := old(ideas)[p.id];
        var after := WithBallot(before, Votes.Upvote(BallotOf(before), user.id), now);
        && ideas == old(ideas)[p.id := after]
        && reply == Reply(200, VoteBody(if user.id in before.upvotes then "Upvote removed" else "Upvoted successfully", after))
      ensures AllExclusive(old(ideas)) ==> AllExclusive(ideas)
    {
      if p.Malformed? {
        return Reply(500, DriverError);
      }
      if p.id !in ideas {
        return Reply(404, Message("Idea not found"));
      }
      var idea := ideas[p.id];
      var userId := user.id;
      var hasUpvoted := userId in idea.upvotes;
      var upvotes, downvotes := idea.upvotes, idea.downvotes;
      if hasUpvoted {
        upvotes := Without(upvotes, userId);
      } else {
        upvotes := upvotes + [userId];
        downvotes := Without(downvotes, userId);
      }
      var saved := Save(idea.(upvotes := upvotes, downvotes := downvotes), now);
      if saved.None? {
        return Reply(500, DriverError);
      }
      if AllExclusive(ideas) {
        Votes.VotePreservesExclusive(BallotOf(idea), userId, Votes.Up);
      }
      ideas := ideas[p.id := saved.value];
      reply := Reply(200, VoteBody(if hasUpvoted then "Upvote removed" else "Upvoted successfully", saved.value));
    }

    /** `POST /ideas/:id/downvote`: the same toggle with the lists' roles
        exchanged. */
    method Downvote(p: IdParam, user: AuthUser, now: Time) returns (reply: Reply)
      requires Valid()
      modifies this
      ensures Valid() && order == old(order) && nextId == old(nextId)
      ensures !Found(p, old(ideas)) ==> ideas == old(ideas)
      ensures p.Malformed? ==> reply == Reply(500, DriverError)
      ensures p.ObjectId? && p.id !in old(ideas) ==> reply == Reply(404, Message("Idea not found"))
      ensures Found(p, old(ideas)) && !HasRequiredFields(old(ideas)[p.id]) ==>
        reply == Reply(500, DriverError) && ideas == old(ideas)
      ensures Found(p, old(ideas)) && HasRequiredFields(old(ideas)[p.id]) ==>
        var before := old(ideas)[p.id];
        var after := WithBallot(before, Votes.Downvote(BallotOf(before), user.id), now);
        && ideas == old(ideas)[p.id := after]
        && reply == Reply(200, VoteBody(if user.id in before.downvotes then "Downvote removed" else "Downvoted successfully", after))
      ensures AllExclusive(old(ideas)) ==> AllExclusive(ideas)
    {
      if p.Malformed? {
        return Reply(500, DriverError);
      }
      if p.id !in ideas {
        return Reply(404, Message("Idea not found"));
      }
      var idea := ideas[p.id];
      var userId := user.id;
      var hasDownvoted := userId in idea.downvotes;
      var upvotes, downvotes := idea.upvotes, idea.downvotes;
      if hasDownvoted {
        downvotes := Without(downvotes, userId);
      } else {
        downvotes := downvotes + [userId];
        upvotes := Without(upvotes, userId);
      }
      var saved := Save(idea.(upvotes := upvotes, downvotes := downvotes), now);
      if saved.None? {
        return Reply(500, DriverError);
      }
      if AllExclusive(ideas) {
        Votes.VotePreservesExclusive(BallotOf(idea), userId, Votes.Down);
      }
      ideas := ideas[p.id := saved.value];
      reply := Reply(200, VoteBody(if hasDownvoted then "Downvote removed" else "Downvoted successfully", saved.value));
    }

    /** `POST /ideas/:id/comment`: a malformed or absent id answers 500 (the
        handler has no 404 branch: pushing onto a missing idea throws); the
        text is stored as sent, even when missing or empty. */
    method AddComment(p: IdParam, user: AuthUser, text: Option<string>, now: Time) returns (reply: Reply)
      requires Valid()
      modifies this
      ensures Valid() && order == old(order) && nextId == old(nextId)
      ensures !Found(p, old(ideas)) ==> reply == Reply(500, DriverError) && ideas == old(ideas)
      ensures Found(p, old(ideas)) && !HasRequiredFields(old(ideas)[p.id]) ==>
        reply == Reply(500, DriverError) && ideas == old(ideas)
      ensures Found(p, old(ideas)) && HasRequiredFields(old(ideas)[p.id]) ==>
        && reply == Reply(201, Message("Comment added"))
        && ideas == old(ideas)[p.id := WithComment(old(ideas)[p.id], user.username, text, now).(updatedAt := now)]
      ensures AllExclusive(old(ideas)) ==> AllExclusive(ideas)
    {
      if !Found(p, ideas) {
        return Reply(500, DriverError);
      }
      var saved := Save(WithComment(ideas[p.id], user.username, text, now), now);
      if saved.None? {
        return Reply(500, DriverError);
      }
      ideas := ideas[p.id := saved.value];
      reply := Reply(201, Message("Comment added"));
    }
  }
}
