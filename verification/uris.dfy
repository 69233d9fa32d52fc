/** Locations. URI parsing is not modelled: a location is the text that the
    URI's string form produces, written verbatim without XML escaping. */
module Uris {

  /** Characters that can never occur in the string form of a URI. */
  predicate IsUriText(s: string) {
    forall i | 0 <= i < |s| :: s[i] != '<' && s[i] != '>'
  }

  type Uri = s: string | IsUriText(s) witness ""
}
