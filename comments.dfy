/**
  Editing a comment, as `comment_edit` allows it: only the author may edit,
  and only with a title and a text that are non-empty once stripped.
*/
module Comments {
  import opened Common

  const TitleRequired := "El título es obligatorio"
  const TextRequired := "El contenido del comentario es obligatorio"

  /** The checks of `comment_edit` on the raw form values (an absent field
      reads as ""). */
  function CommentErrors(title: string, text: string): (errors: Errors)
    ensures errors.Keys <= {"title", "text"}
    ensures "title" in errors <==> IsBlank(title)
    ensures "text" in errors <==> IsBlank(text)
    ensures "title" in errors ==> errors["title"] == TitleRequired
    ensures "text" in errors ==> errors["text"] == TextRequired
  {
    var titleErrors := if Strip(title) == [] then map["title" := TitleRequired] else map[];
    if Strip(text) == [] then titleErrors["text" := TextRequired] else titleErrors
  }

  /** What a POST to `comment_edit` ends in: a redirect away for anyone but
      the author, the form again with the errors, or the saved comment. */
  datatype EditOutcome = NotAuthor | Invalid(errors: Errors) | Saved

  class Comment {
    const id: nat
    const user: UserId
    const event: nat
    var title: string
    var text: string

    constructor Create(id: nat, user: UserId, event: nat, title: string, text: string)
      ensures this.id == id && this.user == user && this.event == event
      ensures this.title == title && this.text == text
    {
      this.id := id;
      this.user := user;
      this.event := event;
      this.title := title;
      this.text := text;
    }

    /** `comment_edit` on a POST by `caller`. */
    method Edit(caller: UserId, title: string, text: string) returns (outcome: EditOutcome)
      modifies this
      ensures outcome.NotAuthor? <==> caller != user
      ensures outcome.Invalid? <==> caller == user && CommentErrors(title, text) != map[]
      ensures outcome.Invalid? ==> outcome.errors == CommentErrors(title, text)
      ensures outcome.Saved? <==> caller == user && !IsBlank(title) && !IsBlank(text)
      ensures outcome.Saved? ==> this.title == Strip(title) && this.text == Strip(text)
      ensures !outcome.Saved? ==> unchanged(this)
    {
      if caller != user {
        return NotAuthor;
      }
      var stripped, strippedText := Strip(title), Strip(text);
      var errors := CommentErrors(title, text);
      if errors != map[] {
        return Invalid(errors);
      }
      this.title := stripped;
      this.text := strippedText;
      return Saved;
    }
  }
}
