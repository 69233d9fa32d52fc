/** The little XML the renderers write: elements whose content is character
    data, written verbatim. */
module Markup {

  function Open(tag: string): string {
    "<" + tag + ">"
  }

  function Close(tag: string): string {
    "</" + tag + ">"
  }

  /** `<tag>body</tag>`. The body is not escaped. */
  function Element(tag: string, body: string): string {
    Open(tag) + body + Close(tag)
  }

  /** Character data that cannot be mistaken for the start of a tag. */
  predicate NoMarkup(s: string) {
    forall i | 0 <= i < |s| :: s[i] != '<'
  }
}
