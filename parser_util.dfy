/** ParserUtil: validation of the index and of each field's raw text. */
module ParserUtil {
  import opened Results
  import opened CliSyntax
  import opened Messages
  import opened StringUtil

  /** The largest index the parser accepts (Integer.MAX_VALUE). */
  const MAX_INDEX: nat := 2147483647

  /** A one-based position in the displayed list of persons. */
  datatype Index = Index(oneBased: nat)

  /**
   * ParserUtil.parseIndex: the trimmed text must be a decimal numeral of a positive number;
   * a numeral beyond MAX_INDEX is reported apart from every other malformed index.
   */
  function ParseIndex(s: string): (r: Result<Index, ParseError>)
    ensures r.Ok? ==> 1 <= r.value.oneBased <= MAX_INDEX
    ensures r.Err? ==> r.error == InvalidIndex || r.error == IndexOutOfRange
  {
    var t := Trim(s);
    if t == [] || !AllDigits(t) then Err(InvalidIndex)
    else
      var n := DecimalValue(t);
      if n == 0 then Err(InvalidIndex)
      else if n > MAX_INDEX then Err(IndexOutOfRange)
      else Ok(Index(n))
  }

  /** The index is read from the trimmed text, so surrounding spaces make no difference. */
  lemma {:induction false} ParseIndexTrims(s: string)
    ensures ParseIndex(Trim(s)) == ParseIndex(s)
  {
    TrimIdempotent(s);
  }

  /** Every positive index in range is accepted when written in decimal. */
  lemma {:induction false} ParseIndexOfNumeral(n: nat)
    requires 1 <= n <= MAX_INDEX
    ensures ParseIndex(Numeral(n)) == Ok(Index(n))
  {
    NumeralIsPlain(n);
    NumeralRoundTrip(n);
  }

  /** A numeral beyond MAX_INDEX is out of range, not malformed. */
  lemma {:induction false} ParseIndexTooLarge(n: nat)
    requires n > MAX_INDEX
    ensures ParseIndex(Numeral(n)) == Err(IndexOutOfRange)
  {
    NumeralIsPlain(n);
    NumeralRoundTrip(n);
  }

  /** Zero and any text that is not purely digits are malformed indexes. */
  lemma {:induction false} ParseIndexMalformed(s: string)
    requires Trimmed(s)
    requires s == [] || s == "0" || exists k :: 0 <= k < |s| && !IsDigit(s[k])
    ensures ParseIndex(s) == Err(InvalidIndex)
  {
    assert Trim(s) == s;
    if s == "0" {
      assert AllDigits(s);
      assert s[..|s| - 1] == [];
      assert DecimalValue(s) == 0;
    }
  }

  /** Numerals have no surrounding spaces. */
  lemma {:induction false} NumeralIsPlain(n: nat)
    ensures Trimmed(Numeral(n)) && Trim(Numeral(n)) == Numeral(n)
  {
    assert Trim(Numeral(n)) == Numeral(n);
  }

  /**
   * The syntactic rule of each field (Name, Phone, Email, Address, Tag, InterviewDate).
   * The rules are parameters of the model: each says which trimmed texts are valid.
   */
  datatype FieldRules = FieldRules(
    validName: string -> bool,
    validPhone: string -> bool,
    validEmail: string -> bool,
    validAddress: string -> bool,
    validTag: string -> bool,
    validDate: string -> bool)

  /** The rule of the field that prefix `p` introduces. */
  function IsValid(rules: FieldRules, p: Prefix, text: string): bool {
    match p
    case NamePrefix => rules.validName(text)
    case PhonePrefix => rules.validPhone(text)
    case EmailPrefix => rules.validEmail(text)
    case AddressPrefix => rules.validAddress(text)
    case TagPrefix => rules.validTag(text)
    case DatePrefix => rules.validDate(text)
  }

  /**
   * ParserUtil.parseName, parsePhone, parseEmail, parseAddress, parseTag, parseDate:
   * trim the text and accept it if the field's rule does, else report that field's constraints.
   */
  function ParseField(rules: FieldRules, p: Prefix, raw: string): (r: Result<string, ParseError>)
    ensures r.Ok? <==> IsValid(rules, p, Trim(raw))
    ensures r.Ok? ==> Trimmed(r.value) && IsValid(rules, p, r.value)
    ensures r.Err? ==> r.error == ConstraintViolation(p)
  {
    var t := Trim(raw);
    if IsValid(rules, p, t) then Ok(t) else Err(ConstraintViolation(p))
  }

  /** Validation has no hidden state: a parsed value is the trimmed text and parses to itself again. */
  lemma {:induction false} ParseFieldIdempotent(rules: FieldRules, p: Prefix, raw: string)
    ensures ParseField(rules, p, raw).Ok? ==>
      var v := ParseField(rules, p, raw).value;
      v == Trim(raw) && ParseField(rules, p, v) == Ok(v)
  {
    TrimIdempotent(raw);
  }

  /**
   * ParserUtil.parseTags: every name must be a valid tag (the first invalid one in order
   * fails the whole call); the result is the set of the trimmed names.
   */
  function ParseTags(rules: FieldRules, names: seq<string>): (r: Result<set<string>, ParseError>)
    ensures r.Ok? <==> forall t :: t in names ==> rules.validTag(Trim(t))
    ensures r.Ok? ==> r.value == set t | t in names :: Trim(t)
    ensures r.Err? ==> r.error == ConstraintViolation(TagPrefix)
    decreases |names|
  {
    if names == [] then Ok({})
    else
      var first := ParseField(rules, TagPrefix, names[0]);
      if first.Err? then Err(first.error)
      else
        var rest := ParseTags(rules, names[1..]);
        if rest.Err? then rest
        else
          assert names == [names[0]] + names[1..];
          assert (set t | t in names :: Trim(t)) == {first.value} + (set t | t in names[1..] :: Trim(t));
          Ok({first.value} + rest.value)
  }

  /**
   * parseTagsForEdit, the private helper that TagCommandParser and EditCommandParser each
   * carry, three-state: no tag values leaves the slot alone, a lone empty value clears the
   * tags, anything else must parse as a set of tags.
   */
  function ParseTagsForEdit(rules: FieldRules, tags: seq<string>): (r: Result<Option<set<string>>, ParseError>)
    ensures tags == [] ==> r == Ok(None)
    ensures tags == [""] ==> r == Ok(Some({}))
    ensures tags != [] && tags != [""] ==>
      (r.Ok? <==> forall t :: t in tags ==> rules.validTag(Trim(t)))
    ensures tags != [] && tags != [""] && r.Ok? ==> r.value == Some(set t | t in tags :: Trim(t))
    ensures r.Err? ==> r.error == ConstraintViolation(TagPrefix)
  {
    if tags == [] then Ok(None)
    else
      var tagSet := if |tags| == 1 && "" in tags then [] else tags;
      var parsed :- ParseTags(rules, tagSet);
      Ok(Some(parsed))
  }
}
