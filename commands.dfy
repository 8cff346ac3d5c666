/**
 * EditCommand.EditPersonDescriptor and the commands the parsers produce: the descriptor has
 * one optional slot per field; only the slots the user supplied are set.
 */
module Commands {
  import opened Results
  import opened CliSyntax
  import opened ParserUtil
  import opened ArgumentTokenizer

  /**
   * A frozen descriptor. The tag slot has three states: None (leave tags alone),
   * Some({}) (clear all tags) and Some(tags) (replace the tags).
   */
  datatype Descriptor = Descriptor(
    name: Option<string>,
    phone: Option<string>,
    email: Option<string>,
    address: Option<string>,
    tags: Option<set<string>>,
    date: Option<string>)

  const NoEdits := Descriptor(None, None, None, None, None, None)

  /** Whether the slot of field `p` is set. */
  predicate IsSet(d: Descriptor, p: Prefix) {
    match p
    case NamePrefix => d.name.Some?
    case PhonePrefix => d.phone.Some?
    case EmailPrefix => d.email.Some?
    case AddressPrefix => d.address.Some?
    case TagPrefix => d.tags.Some?
    case DatePrefix => d.date.Some?
  }

  /** The fields whose slot is set. */
  function Populated(d: Descriptor): set<Prefix> {
    set p | p in EditPrefixes && IsSet(d, p)
  }

  /** A descriptor that only touches the tags sets the tag slot or nothing. */
  lemma {:induction false} PopulatedTagsOnly(tags: Option<set<string>>)
    ensures Populated(NoEdits.(tags := tags)) == if tags.Some? then {TagPrefix} else {}
  {
    var d := NoEdits.(tags := tags);
    EditPrefixesComplete(TagPrefix);
    assert forall p :: IsSet(d, p) ==> p == TagPrefix;
  }

  /** The slot of a text field (every field but the tags). */
  function TextSlot(d: Descriptor, p: Prefix): Option<string>
    requires p != TagPrefix
  {
    match p
    case NamePrefix => d.name
    case PhonePrefix => d.phone
    case EmailPrefix => d.email
    case AddressPrefix => d.address
    case DatePrefix => d.date
  }

  /** What a successful parse hands to the command layer: the target and the edits. */
  datatype Command =
    | EditCommand(index: Index, descriptor: Descriptor)
    | TagCommand(index: Index, descriptor: Descriptor)

  /** The mutable descriptor that a parser fills in slot by slot. */
  class EditPersonDescriptor {
    var name: Option<string>
    var phone: Option<string>
    var email: Option<string>
    var address: Option<string>
    var tags: Option<set<string>>
    var date: Option<string>

    /** A new descriptor has no slot set. */
    constructor ()
      ensures Snapshot() == NoEdits
    {
      name, phone, email, address, tags, date := None, None, None, None, None, None;
    }

    /** The current slots as a value. */
    function Snapshot(): Descriptor
      reads this
    {
      Descriptor(name, phone, email, address, tags, date)
    }

    /** setTags: sets the tag slot, possibly to the empty set, and nothing else. */
    method SetTags(newTags: set<string>)
      modifies this
      ensures Snapshot() == old(Snapshot()).(tags := Some(newTags))
    {
      tags := Some(newTags);
    }

    /** isAnyFieldEdited: some slot is set (an empty tag set counts as set). */
    predicate IsAnyFieldEdited(): (edited: bool)
      reads this
      ensures edited <==> Populated(Snapshot()) != {}
    {
      assert name.Some? ==> NamePrefix in Populated(Snapshot());
      assert phone.Some? ==> PhonePrefix in Populated(Snapshot());
      assert email.Some? ==> EmailPrefix in Populated(Snapshot());
      assert address.Some? ==> AddressPrefix in Populated(Snapshot());
      assert tags.Some? ==> TagPrefix in Populated(Snapshot());
      assert date.Some? ==> DatePrefix in Populated(Snapshot());
      name.Some? || phone.Some? || email.Some? || address.Some? || tags.Some? || date.Some?
    }
  }

  /** The tags an edit sets from one tag value: the empty value stands for "no tags". */
  function TagsOf(v: string): set<string> {
    if v == "" then {} else {v}
  }

  /**
   * EditPersonDescriptorBuilder's withName, withPhone, ..., withTag, withDate: set the slot
   * of `a`'s field to its value.
   */
  function With(d: Descriptor, a: Arg): (r: Descriptor)
    ensures forall p :: IsSet(r, p) <==> IsSet(d, p) || p == a.prefix
    ensures forall p :: p != a.prefix && p != TagPrefix ==> TextSlot(r, p) == TextSlot(d, p)
    ensures a.prefix != TagPrefix ==> TextSlot(r, a.prefix) == Some(a.value) && r.tags == d.tags
    ensures a.prefix == TagPrefix ==> r.tags == Some(TagsOf(a.value))
  {
    match a.prefix
    case NamePrefix => d.(name := Some(a.value))
    case PhonePrefix => d.(phone := Some(a.value))
    case EmailPrefix => d.(email := Some(a.value))
    case AddressPrefix => d.(address := Some(a.value))
    case TagPrefix => d.(tags := Some(TagsOf(a.value)))
    case DatePrefix => d.(date := Some(a.value))
  }

  /** A builder chain: start with no edits and apply the arguments from left to right. */
  function Built(args: seq<Arg>): Descriptor {
    if args == [] then NoEdits else With(Built(args[..|args| - 1]), args[|args| - 1])
  }

  /** Building a descriptor and asking which fields it sets recovers exactly the fields supplied. */
  lemma {:induction false} BuiltPopulatesSupplied(args: seq<Arg>)
    ensures Populated(Built(args)) == Supplied(args)
  {
    if args != [] {
      var init, last := args[..|args| - 1], args[|args| - 1];
      BuiltPopulatesSupplied(init);
      assert args == init + [last];
      assert Supplied(args) == Supplied(init) + {last.prefix};
      forall p ensures p in EditPrefixes { EditPrefixesComplete(p); }
    }
  }

  /** The last of a list of values, if any. */
  function LastOf(vs: seq<string>): Option<string> {
    if vs == [] then None else Some(vs[|vs| - 1])
  }

  /** Each text slot of a built descriptor holds the last value given for its field. */
  lemma {:induction false} BuiltTextSlot(args: seq<Arg>, p: Prefix)
    requires p != TagPrefix
    ensures TextSlot(Built(args), p) == LastOf(Collect(args, p))
  {
    if args != [] {
      var init, last := args[..|args| - 1], args[|args| - 1];
      BuiltTextSlot(init, p);
      assert args == init + [last];
      CollectAppend(init, last, p);
    }
  }

  /** The tag slot of a built descriptor reflects the last tag value given, if any. */
  lemma {:induction false} BuiltTagSlot(args: seq<Arg>)
    ensures Built(args).tags ==
      (var t := LastOf(Collect(args, TagPrefix)); if t.None? then None else Some(TagsOf(t.value)))
  {
    if args != [] {
      var init, last := args[..|args| - 1], args[|args| - 1];
      BuiltTagSlot(init);
      assert args == init + [last];
      CollectAppend(init, last, TagPrefix);
    }
  }
}
