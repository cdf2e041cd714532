/** The idea form (both the plain and the Material variant run the same
    handlers): title, description, a tag input and the tag list, a validator
    on the trimmed title and description, duplicate-free tag adding and
    filtering removal. */
module IdeaForm {
  import opened Wrappers
  import opened Seqs
  import opened Text

  /** The keys of the form's errors object. */
  datatype Key = TitleKey | DescriptionKey

  const TitleRequired: string := "Title is required"
  const DescriptionRequired: string := "Description is required"

  /** What `onSubmit` receives. */
  datatype Submission = Submission(title: string, description: string, tags: seq<string>)

  /** `validate`'s errors object. */
  function IdeaErrors(title: string, description: string): (e: map<Key, string>)
    ensures TitleKey in e <==> IsBlank(title)
    ensures DescriptionKey in e <==> IsBlank(description)
    ensures TitleKey in e ==> e[TitleKey] == TitleRequired
    ensures DescriptionKey in e ==> e[DescriptionKey] == DescriptionRequired
  {
    var noTitle, noDescription := IsBlank(title), IsBlank(description);
    var e: map<Key, string> := if noTitle then map[TitleKey := TitleRequired] else map[];
    if noDescription then e[DescriptionKey := DescriptionRequired] else e
  }

  /** The form is valid exactly when both title and description keep a
      non-whitespace character. */
  lemma IdeaValidIff(title: string, description: string)
    ensures IdeaErrors(title, description) == map[] <==> !IsBlank(title) && !IsBlank(description)
  {
    var e := IdeaErrors(title, description);
    if e != map[] {
      var k :| k in e;
    }
  }

  /** The tag list after `handleAddTag` with input `input`. */
  function AddedTags(tags: seq<string>, input: string): (r: seq<string>)
    ensures IsBlank(input) ==> r == tags
    ensures !IsBlank(input) ==> r == WithTag(tags, Trim(input))
  {
    if IsBlank(input) then tags else WithTag(tags, Trim(input))
  }

  /** Adding a non-blank tag keeps a duplicate-free list duplicate-free, grows
      it by at most one element at the end, and the list then holds the
      trimmed tag. */
  lemma AddKeepsTagsDistinct(tags: seq<string>, input: string)
    requires NoDup(tags) && !IsBlank(input)
    ensures var r := AddedTags(tags, input);
      && NoDup(r) && Trim(input) in r
      && |tags| <= |r| <= |tags| + 1 && r[..|tags|] == tags
  {
  }

  /** Adding a new tag and then removing it restores the list. */
  lemma AddThenRemove(tags: seq<string>, input: string)
    requires !IsBlank(input) && Trim(input) !in tags
    ensures Without(AddedTags(tags, input), Trim(input)) == tags
  {
    WithTagThenWithout(tags, Trim(input));
  }

  class IdeaFormState {
    var title: string
    var description: string
    var tagInput: string
    var tags: seq<string>
    var errors: map<Key, string>

    /** Initial values: a missing or empty title or description starts as
        the empty string, missing tags as the empty list. */
    constructor (initialTitle: Option<string>, initialDescription: Option<string>, initialTags: Option<seq<string>>)
      ensures title == initialTitle.GetOr("") && description == initialDescription.GetOr("")
      ensures tags == initialTags.GetOr([]) && tagInput == "" && errors == map[]
    {
      title := initialTitle.GetOr("");
      description := initialDescription.GetOr("");
      tagInput := "";
      tags := initialTags.GetOr([]);
      errors := map[];
    }

    /** Typing into the tag input. */
    method SetTagInput(value: string)
      modifies this
      ensures tagInput == value
      ensures title == old(title) && description == old(description) && tags == old(tags) && errors == old(errors)
    {
      tagInput := value;
    }

    /** `setTitle`: typing into the title. */
    method SetTitle(value: string)
      modifies this
      ensures title == value
      ensures description == old(description) && tagInput == old(tagInput) && tags == old(tags) && errors == old(errors)
    {
      title := value;
    }

    /** `setDescription`: typing into the description. */
    method SetDescription(value: string)
      modifies this
      ensures description == value
      ensures title == old(title) && tagInput == old(tagInput) && tags == old(tags) && errors == old(errors)
    {
      description := value;
    }

    /** `validate`: replaces the errors and reports whether there are none. */
    method Validate() returns (ok: bool)
      modifies this
      ensures ok <==> !IsBlank(title) && !IsBlank(description)
      ensures title == old(title) && description == old(description)
      ensures errors == IdeaErrors(title, description)
      ensures tagInput == old(tagInput) && tags == old(tags)
    {
      var t, d := title, description;
      var e := IdeaErrors(t, d);
      IdeaValidIff(t, d);
      ok := e == map[];
      errors := e;
    }

    /** `handleAddTag`: blank input changes nothing (the input is kept);
        otherwise the trimmed tag is appended unless present and the input
        is cleared. */
    method HandleAddTag()
      modifies this
      ensures IsBlank(old(tagInput)) ==> tags == old(tags) && tagInput == old(tagInput)
      ensures !IsBlank(old(tagInput)) ==> tags == WithTag(old(tags), Trim(old(tagInput))) && tagInput == ""
      ensures tags == AddedTags(old(tags), old(tagInput))
      ensures title == old(title) && description == old(description) && errors == old(errors)
    {
      var input, current := tagInput, tags;
      if IsBlank(input) {
        return;
      }
      var tag := Trim(input);
      if tag !in current {
        tags := current + [tag];
      }
      tagInput := "";
    }

    /** `handleRemoveTag`: every copy of the tag leaves the list, the rest
        keep their order. */
    method HandleRemoveTag(tag: string)
      modifies this
      ensures tags == Without(old(tags), tag)
      ensures tagInput == old(tagInput) && title == old(title) && description == old(description) && errors == old(errors)
    {
      tags := Without(tags, tag);
    }

    /** `handleSubmit`: `onSubmit` receives the untrimmed title and
        description and the current tags, exactly when the form validates. */
    method HandleSubmit() returns (submitted: Option<Submission>)
      modifies this
      ensures errors == IdeaErrors(title, description)
      ensures submitted.Some? <==> !IsBlank(title) && !IsBlank(description)
      ensures submitted.Some? ==> submitted.value == Submission(title, description, tags)
      ensures title == old(title) && description == old(description)
      ensures tagInput == old(tagInput) && tags == old(tags)
    {
      var ok := Validate();
      if ok {
        submitted := Some(Submission(title, description, tags));
      } else {
        submitted := None;
      }
    }

    /** `handleKeyDown`: Enter on a non-blank tag input suppresses the
        default action and adds the tag; any other key changes nothing. */
    method HandleKeyDown(key: string) returns (prevented: bool)
      modifies this
      ensures prevented <==> key == "Enter" && !IsBlank(old(tagInput))
      ensures prevented ==> tags == WithTag(old(tags), Trim(old(tagInput))) && tagInput == ""
      ensures !prevented ==> tags == old(tags) && tagInput == old(tagInput)
      ensures title == old(title) && description == old(description) && errors == old(errors)
    {
      prevented := key == "Enter" && !IsBlank(tagInput);
      if prevented {
        HandleAddTag();
      }
    }
  }
}
