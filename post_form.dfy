/** The post composer: a form with four text fields whose submit handler
    checks the caption, hands a draft to the feed and clears the fields of
    the post just made. */
module Composer {
  import opened Types
  import Text

  /** `value || undefined` on a string field: the empty string becomes
      absent, any other string is passed on unchanged. */
  function OrAbsent(s: string): (r: Option<string>)
    ensures r == None <==> s == ""
    ensures r.Some? ==> r.value == s
  {
    if s == "" then None else Some(s)
  }

  class PostForm {
    var name: string
    var caption: string
    var imageUrl: string
    var tags: string

    /** A fresh form: the placeholder author name and three empty fields. */
    constructor ()
      ensures name == "John Doe" && caption == "" && imageUrl == "" && tags == ""
    {
      name := "John Doe";
      caption := "";
      imageUrl := "";
      tags := "";
    }

    /** The `onChange` handler of the name input. */
    method SetName(value: string)
      modifies this`name
      ensures name == value
    {
      name := value;
    }

    /** The `onChange` handler of the caption text area. */
    method SetCaption(value: string)
      modifies this`caption
      ensures caption == value
    {
      caption := value;
    }

    /** The `onChange` handler of the image URL input. */
    method SetImageUrl(value: string)
      modifies this`imageUrl
      ensures imageUrl == value
    {
      imageUrl := value;
    }

    /** The `onChange` handler of the tags input. */
    method SetTags(value: string)
      modifies this`tags
      ensures tags == value
    {
      tags := value;
    }

    /** `handleSubmit`. A caption that is empty or all whitespace submits
        nothing and leaves every field as it was. Otherwise the one draft
        handed to the feed carries the author name and the caption exactly as
        typed, an empty image URL or tags string as absent and any other as
        typed; afterwards caption, image URL and tags are empty and the name
        field is not touched. (The feed hides the composer after a post, which
        discards this form; the next one starts again from the constructor.) */
    method HandleSubmit() returns (submitted: Option<Draft>)
      modifies this
      ensures name == old(name)
      ensures Text.IsBlank(old(caption)) ==>
        submitted == None && caption == old(caption) && imageUrl == old(imageUrl) && tags == old(tags)
      ensures !Text.IsBlank(old(caption)) ==>
        && submitted == Some(Draft(Creator(old(name), None), old(caption), OrAbsent(old(imageUrl)), OrAbsent(old(tags))))
        && caption == "" && imageUrl == "" && tags == ""
    {
      if Text.IsBlank(caption) {
        return None;
      }
      submitted := Some(Draft(Creator(name, None), caption, OrAbsent(imageUrl), OrAbsent(tags)));
      caption := "";
      imageUrl := "";
      tags := "";
    }
  }
}
