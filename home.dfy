/** The home page's listing controls: the search box, the tag filter, the
    pager, and the query string its fetch sends to the listing handler. */
module Home {
  import opened Wrappers
  import opened Seqs
  import opened Text
  import IdeaStore

  /** The page size the home page always asks for. */
  const PageLimit: string := "5"

  /** `(prev) => prev.includes(tag) ? prev.filter((t) => t !== tag) : [...prev, tag]`. */
  function Toggle(selected: seq<string>, tag: string): (r: seq<string>)
    ensures tag in r <==> tag !in selected
    ensures forall x :: x != tag ==> (x in r <==> x in selected)
    ensures tag !in selected ==> |r| == |selected| + 1 && r[..|selected|] == selected
  {
    if tag in selected then Without(selected, tag) else selected + [tag]
  }

  /** Toggling an unselected tag twice restores the selection exactly. */
  lemma ToggleTwice(selected: seq<string>, tag: string)
    requires tag !in selected
    ensures Toggle(Toggle(selected, tag), tag) == selected
  {
    WithoutAppended(selected, tag);
    WithoutAbsent(selected, tag);
  }

  /** Toggling keeps a selection free of repeats. */
  lemma ToggleKeepsDistinct(selected: seq<string>, tag: string)
    requires NoDup(selected)
    ensures NoDup(Toggle(selected, tag))
  {
    if tag in selected {
      WithoutNoDup(selected, tag);
    } else {
      assert WithTag(selected, tag) == selected + [tag];
    }
  }

  /** One `name=value` pair of the query string. */
  datatype Param = Param(name: string, value: string)

  /** `URLSearchParams.get(name)`: the value of the first pair with that name. */
  function Get(params: seq<Param>, name: string): (r: Option<string>)
    ensures r.None? <==> forall k :: 0 <= k < |params| ==> params[k].name != name
    ensures r.Some? ==>
      exists k :: 0 <= k < |params| && params[k] == Param(name, r.value) && (forall j :: 0 <= j < k ==> params[j].name != name)
  {
    if params == [] then None
    else if params[0].name == name then Some(params[0].value)
    else
      var r := Get(params[1..], name);
      assert forall k :: 1 <= k < |params| ==> params[k] == params[1..][k - 1];
      r
  }

  /** Appending a pair changes the answer for its own name only when that
      name had no pair yet. */
  lemma {:induction false} GetAppend(params: seq<Param>, p: Param, name: string)
    ensures Get(params + [p], name) ==
      if Get(params, name).Some? then Get(params, name)
      else if p.name == name then Some(p.value) else None
  {
    if params != [] {
      assert (params + [p])[1..] == params[1..] + [p];
      GetAppend(params[1..], p, name);
    }
  }

  /** The two pairs every listing query starts with. */
  lemma QueryStart(pageText: string)
    ensures var params := [Param("page", pageText), Param("limit", PageLimit)];
      && Get(params, "page") == Some(pageText) && Get(params, "limit") == Some(PageLimit)
      && Get(params, "search") == None && Get(params, "tags") == None
  {
    var params := [Param("page", pageText), Param("limit", PageLimit)];
    assert params[1..] == [Param("limit", PageLimit)];
  }

  /** The page number the client sends is the one the listing handler reads
      back, and the page size "5" reads back as 5. */
  lemma ServerReadsClientPage(page: nat)
    requires page >= 1
    ensures IdeaStore.PageNumber(Some(NatToString(page))) == page
    ensures IdeaStore.PageSize(Some(PageLimit)) == 5
  {
    ParseIntOfNatToString(page);
    ParseIntOfNatToString(5);
    assert NatToString(5) == PageLimit;
  }

  /** The tags joined with "," and read back by splitting on "," and
      trimming give the list back, provided no tag holds a comma or
      surrounding whitespace. */
  lemma TagsRoundTrip(tags: seq<string>)
    requires |tags| >= 1
    requires forall k :: 0 <= k < |tags| ==> ',' !in tags[k] && Trim(tags[k]) == tags[k]
    ensures IdeaStore.TagFilter(Join(tags, ',')) == tags
  {
    SplitJoin(tags, ',');
  }

  class HomePage {
    var page: int
    var totalPages: int
    var search: string
    var searchQuery: string
    var selectedTags: seq<string>
    var ideaCount: nat

    /** Pages are numbered from 1. */
    ghost predicate Valid()
      reads this
    {
      page >= 1
    }

    constructor ()
      ensures Valid() && page == 1 && totalPages == 1
      ensures search == "" && searchQuery == "" && selectedTags == [] && ideaCount == 0
    {
      page := 1;
      totalPages := 1;
      search := "";
      searchQuery := "";
      selectedTags := [];
      ideaCount := 0;
    }

    /** Previous is disabled on the first page. */
    predicate PreviousDisabled()
      reads this
    {
      page == 1
    }

    /** Next is disabled on the page equal to the page count. */
    predicate NextDisabled()
      reads this
    {
      page == totalPages
    }

    /** The pager is rendered only with ideas on screen and more than one
        page. */
    predicate PagerShown()
      reads this
    {
      ideaCount > 0 && totalPages > 1
    }

    /** Typing into the search box. */
    method SetSearch(value: string)
      requires Valid()
      modifies this
      ensures Valid() && search == value
      ensures page == old(page) && searchQuery == old(searchQuery) && selectedTags == old(selectedTags)
      ensures totalPages == old(totalPages) && ideaCount == old(ideaCount)
    {
      search := value;
    }

    /** `handleSearchSubmit`: the typed text becomes the query, back to page 1. */
    method HandleSearchSubmit()
      requires Valid()
      modifies this
      ensures Valid() && searchQuery == old(search) && page == 1
      ensures search == old(search) && selectedTags == old(selectedTags)
      ensures totalPages == old(totalPages) && ideaCount == old(ideaCount)
    {
      searchQuery := search;
      page := 1;
    }

    /** `handleClearSearch`: box and query emptied, back to page 1. */
    method HandleClearSearch()
      requires Valid()
      modifies this
      ensures Valid() && search == "" && searchQuery == "" && page == 1
      ensures selectedTags == old(selectedTags)
      ensures totalPages == old(totalPages) && ideaCount == old(ideaCount)
    {
      search := "";
      searchQuery := "";
      page := 1;
    }

    /** `handleTagToggle`: the tag leaves or joins the selection, back to
        page 1. */
    method HandleTagToggle(tag: string)
      requires Valid()
      modifies this
      ensures Valid() && selectedTags == Toggle(old(selectedTags), tag) && page == 1
      ensures search == old(search) && searchQuery == old(searchQuery)
      ensures totalPages == old(totalPages) && ideaCount == old(ideaCount)
    {
      var prev := selectedTags;
      if tag in prev {
        selectedTags := Without(prev, tag);
      } else {
        selectedTags := prev + [tag];
      }
      page := 1;
    }

    /** A click on Previous: it moves one page back only when the button is
        on screen and enabled. */
    method ClickPrevious() returns (moved: bool)
      requires Valid()
      modifies this
      ensures Valid()
      ensures moved <==> old(PagerShown()) && !old(PreviousDisabled())
      ensures page == if moved then old(page) - 1 else old(page)
      ensures search == old(search) && searchQuery == old(searchQuery) && selectedTags == old(selectedTags)
      ensures totalPages == old(totalPages) && ideaCount == old(ideaCount)
    {
      moved := PagerShown() && !PreviousDisabled();
      if moved {
        page := page - 1;
      }
    }

    /** A click on Next: it moves one page on only when the button is on
        screen and enabled. */
    method ClickNext() returns (moved: bool)
      requires Valid()
      modifies this
      ensures Valid()
      ensures moved <==> old(PagerShown()) && !old(NextDisabled())
      ensures page == if moved then old(page) + 1 else old(page)
      ensures search == old(search) && searchQuery == old(searchQuery) && selectedTags == old(selectedTags)
      ensures totalPages == old(totalPages) && ideaCount == old(ideaCount)
    {
      moved := PagerShown() && !NextDisabled();
      if moved {
        page := page + 1;
      }
    }

    /** A listing answer arrives: `totalPages || 1`, so a missing or zero
        page count becomes 1. */
    method ReceivePage(count: nat, serverTotal: Option<int>)
      requires Valid()
      modifies this
      ensures Valid() && ideaCount == count
      ensures totalPages == if serverTotal.None? || serverTotal.value == 0 then 1 else serverTotal.value
      ensures page == old(page) && search == old(search) && searchQuery == old(searchQuery)
      ensures selectedTags == old(selectedTags)
    {
      ideaCount := count;
      if serverTotal.None? || serverTotal.value == 0 {
        totalPages := 1;
      } else {
        totalPages := serverTotal.value;
      }
    }

    /** `fetchIdeas`' query: always `page` and `limit=5`; `search` only for a
        non-empty query; `tags` only with a selection, joined with ",". */
    method BuildQuery() returns (params: seq<Param>)
      requires Valid()
      ensures |params| >= 2 && params[0].name == "page" && params[1].name == "limit"
      ensures Get(params, "page") == Some(NatToString(page))
      ensures Get(params, "limit") == Some(PageLimit)
      ensures Get(params, "search") == if searchQuery != "" then Some(searchQuery) else None
      ensures Get(params, "tags") == if |selectedTags| > 0 then Some(Join(selectedTags, ',')) else None
    {
      params := [Param("page", NatToString(page)), Param("limit", PageLimit)];
      QueryStart(NatToString(page));
      if searchQuery != "" {
        ghost var before := params;
        params := params + [Param("search", searchQuery)];
        assert params[0] == before[0] && params[1] == before[1];
        GetAppend(before, Param("search", searchQuery), "page");
        GetAppend(before, Param("search", searchQuery), "limit");
        GetAppend(before, Param("search", searchQuery), "search");
        GetAppend(before, Param("search", searchQuery), "tags");
      }
      if |selectedTags| > 0 {
        ghost var before := params;
        params := params + [Param("tags", Join(selectedTags, ','))];
        assert params[0] == before[0] && params[1] == before[1];
        GetAppend(before, Param("tags", Join(selectedTags, ',')), "page");
        GetAppend(before, Param("tags", Join(selectedTags, ',')), "limit");
        GetAppend(before, Param("tags", Join(selectedTags, ',')), "search");
        GetAppend(before, Param("tags", Join(selectedTags, ',')), "tags");
      }
    }
  }
}
