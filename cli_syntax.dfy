/** The prefixes that introduce field values on the command line (CliSyntax). */
module CliSyntax {

  /** One prefix per editable field of a person record. */
  datatype Prefix = NamePrefix | PhonePrefix | EmailPrefix | AddressPrefix | TagPrefix | DatePrefix

  /** The text of a prefix as the user types it: a letter followed by a slash. */
  function Marker(p: Prefix): (m: string)
    ensures |m| == 2 && m[1] == '/' && 'a' <= m[0] <= 'z'
  {
    match p
    case NamePrefix => "n/"
    case PhonePrefix => "p/"
    case EmailPrefix => "e/"
    case AddressPrefix => "a/"
    case TagPrefix => "t/"
    case DatePrefix => "i/"
  }

  /** Different prefixes start with different letters, so at most one prefix matches at a position. */
  lemma {:induction false} MarkersDistinct(p: Prefix, q: Prefix)
    requires Marker(p)[0] == Marker(q)[0]
    ensures p == q
  {
  }

  /**
   * The prefixes the edit command recognises, in the order in which it checks them
   * for duplicates and validates their values.
   */
  const EditPrefixes: seq<Prefix> := [NamePrefix, PhonePrefix, EmailPrefix, AddressPrefix, TagPrefix, DatePrefix]

  /** The edit command recognises every prefix, each once. */
  lemma {:induction false} EditPrefixesComplete(p: Prefix)
    ensures p in EditPrefixes
    ensures forall i, j :: 0 <= i < j < |EditPrefixes| ==> EditPrefixes[i] != EditPrefixes[j]
  {
  }

  /** The tag command recognises the tag prefix only. */
  const TagPrefixes: seq<Prefix> := [TagPrefix]
}
