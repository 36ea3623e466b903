/** The tag manager dialog (src/components/custom/TagManager.tsx): its two
    pieces of component state, the rule that decides what a submitted name
    does, and the confirmation guard on deletion. */
module TagManager {
  import opened Wrappers
  import opened Strings

  /** What submitting the form does: nothing for a blank name, an alert for
      a name already in use, otherwise `onCreateTag` with the trimmed name. */
  datatype Submission = NoOp | Duplicate | Created(tag: string)

  /** The decision of `handleSubmit` for the typed text. */
  function Submit(newTag: string, availableTags: seq<string>): (r: Submission)
    ensures r == NoOp <==> AllWhitespace(newTag)
    ensures r == Duplicate <==> !AllWhitespace(newTag) && Trim(newTag) in availableTags
    ensures r.Created? ==> r.tag == Trim(newTag) && r.tag != "" && r.tag !in availableTags
  {
    var trimmed := Trim(newTag);
    if trimmed == "" then NoOp
    else if trimmed in availableTags then Duplicate
    else Created(trimmed)
  }

  /** A created name has no surrounding whitespace, and submitting it again
      once it is listed is reported as a duplicate. */
  lemma CreatedOnce(newTag: string, availableTags: seq<string>)
    requires Submit(newTag, availableTags).Created?
    ensures var tag := Submit(newTag, availableTags).tag;
      && Trim(tag) == tag
      && Submit(tag, availableTags + [tag]) == Duplicate
  {
    var tag := Trim(newTag);
    TrimKeepsTrimmed(tag);
  }

  /** The Add button is enabled exactly when submitting would do something. */
  lemma ButtonMatchesSubmit(newTag: string, availableTags: seq<string>)
    ensures Trim(newTag) != "" <==> Submit(newTag, availableTags) != NoOp
  {
  }

  /** The longest name the input accepts. */
  const MaxTagLength := 50

  /** The dialog's state: whether it is open and the text being typed. */
  class TagDialog {
    var isOpen: bool
    var newTag: string

    ghost predicate Valid()
      reads this
    {
      |newTag| <= MaxTagLength
    }

    /** The initial state: closed, with an empty input. */
    constructor ()
      ensures Valid() && !isOpen && newTag == ""
    {
      isOpen := false;
      newTag := "";
    }

    method Open()
      requires Valid()
      modifies this
      ensures Valid()
      ensures isOpen && newTag == old(newTag)
    {
      isOpen := true;
    }

    method Close()
      requires Valid()
      modifies this
      ensures Valid()
      ensures !isOpen && newTag == old(newTag)
    {
      isOpen := false;
    }

    /** Typing: the input holds at most 50 characters. */
    method Edit(value: string)
      requires Valid()
      modifies this
      ensures Valid() && isOpen == old(isOpen)
      ensures newTag == if |value| <= MaxTagLength then value else value[..MaxTagLength]
    {
      newTag := if |value| <= MaxTagLength then value else value[..MaxTagLength];
    }

    /** `handleSubmit`: the input is cleared only when a tag is created. */
    method HandleSubmit(availableTags: seq<string>) returns (r: Submission)
      requires Valid()
      modifies this
      ensures Valid() && isOpen == old(isOpen)
      ensures r == Submit(old(newTag), availableTags)
      ensures newTag == if r.Created? then "" else old(newTag)
    {
      r := Submit(newTag, availableTags);
      if r.Created? {
        newTag := "";
      }
    }
  }

  /** The question `handleDelete` asks before deleting. */
  function DeletePrompt(tag: string): (prompt: string)
    ensures Contains(prompt, tag)
  {
    ContainsMiddle("Delete tag \"", tag, "\"? This will remove it from all domains.");
    "Delete tag \"" + tag + "\"? This will remove it from all domains."
  }

  /** `handleDelete`: the tag passed to `onDeleteTag`, only when the user
      confirms. */
  function HandleDelete(tag: string, confirmed: bool): (r: Option<string>)
    ensures r.Some? <==> confirmed
    ensures r.Some? ==> r.value == tag
  {
    if confirmed then Some(tag) else None
  }
}
