/**
 * The composition form `CreateTweet`: its text and expanded state, the
 * submit guard, the disabled predicate of its button and the
 * remaining-characters count.
 */
module CreateTweet {
  import opened Wrappers
  import opened JsText

  /** The longest message the button lets through, in UTF-16 code units. */
  const MaxLength: nat := 280

  /** `280 - content.length`; negative once the text is too long. */
  function Remaining(content: string): (r: int)
    ensures r <= MaxLength - |content|
    ensures r == MaxLength - |content| <==> forall i :: 0 <= i < |content| ==> content[i] as int <= 0xFFFF
  {
    MaxLength - Utf16Length(content)
  }

  /** `!content.trim() || content.length > 280`, the button's `disabled`. */
  function SubmitDisabled(content: string): (r: bool)
    ensures r <==> (forall i :: 0 <= i < |content| ==> IsWhiteSpace(content[i])) || Utf16Length(content) > MaxLength
  {
    BlankIffAllWhiteSpace(content);
    IsBlank(content) || Utf16Length(content) > MaxLength
  }

  /** `content.trim()` is truthy: the only check `handleSubmit` makes. */
  function SubmitAccepted(content: string): (r: bool)
    ensures r <==> exists i :: 0 <= i < |content| && !IsWhiteSpace(content[i])
  {
    BlankIffAllWhiteSpace(content);
    !IsBlank(content)
  }

  /** `rows={isExpanded ? 4 : 2}` */
  function Rows(isExpanded: bool): (r: nat)
    ensures r == 4 <==> isExpanded
    ensures r == 2 <==> !isExpanded
  {
    if isExpanded then 4 else 2
  }

  /** The button is enabled exactly for text with a non-white-space character that fits in 280 code units. */
  lemma SubmitEnabledIff(content: string)
    ensures !SubmitDisabled(content) <==>
      (exists i :: 0 <= i < |content| && !IsWhiteSpace(content[i])) && Remaining(content) >= 0
  {
    BlankIffAllWhiteSpace(content);
  }

  /** 280 characters of the Basic Multilingual Plane, not all white space, enable the button. */
  lemma ExactlyAtLimitEnabled(content: string)
    requires |content| == 280
    requires forall i :: 0 <= i < |content| ==> content[i] as int <= 0xFFFF
    requires exists i :: 0 <= i < |content| && !IsWhiteSpace(content[i])
    ensures !SubmitDisabled(content)
  {
    SubmitEnabledIff(content);
  }

  /** 281 characters disable the button whatever they are. */
  lemma OverLimitDisabled(content: string)
    requires |content| == 281
    ensures SubmitDisabled(content)
  {
  }

  /** Whatever the button lets through, `handleSubmit` accepts. */
  lemma EnabledIsAccepted(content: string)
    ensures !SubmitDisabled(content) ==> SubmitAccepted(content)
  {
  }

  /** The converse fails: `handleSubmit` itself accepts 281 letters, which the button refuses. */
  lemma GuardIgnoresLimit()
    ensures var content := seq(281, _ => 'a'); SubmitAccepted(content) && SubmitDisabled(content)
  {
    var content := seq(281, _ => 'a');
    BlankIffAllWhiteSpace(content);
    assert !IsWhiteSpace(content[0]);
  }

  /** The form's state cells. */
  class Composer {
    var content: string
    var isExpanded: bool

    constructor ()
      ensures content == [] && !isExpanded
    {
      content, isExpanded := [], false;
    }

    /** `onChange` */
    method Change(text: string)
      modifies this
      ensures content == text && isExpanded == old(isExpanded)
    {
      content := text;
    }

    /** `onFocus` expands the text area to four rows. */
    method Focus()
      modifies this
      ensures isExpanded && Rows(isExpanded) == 4 && content == old(content)
    {
      isExpanded := true;
    }

    /**
     * `handleSubmit`: non-blank text is handed, untrimmed, to `onCreateTweet`
     * (`posted`) and the form is cleared and collapsed; blank text changes
     * nothing. The length limit is not checked here.
     */
    method HandleSubmit() returns (posted: Option<string>)
      modifies this
      ensures posted == if SubmitAccepted(old(content)) then Some(old(content)) else None
      ensures posted.Some? ==> content == [] && !isExpanded && Rows(isExpanded) == 2
      ensures posted.None? ==> content == old(content) && isExpanded == old(isExpanded)
    {
      if SubmitAccepted(content) {
        posted := Some(content);
        content := [];
        isExpanded := false;
      } else {
        posted := None;
      }
    }
  }
}
