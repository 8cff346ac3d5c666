/**
 * EditCommandParser: `edit INDEX [n/NAME] [p/PHONE] [e/EMAIL] [a/ADDRESS] [t/TAG] [i/DATE]`.
 * Every field prefix may appear at most once; each supplied value is validated by its
 * field's rule and fills that field's slot of the descriptor.
 */
module EditCommandParser {
  import opened Results
  import opened CliSyntax
  import opened Messages
  import opened StringUtil
  import opened ArgumentTokenizer
  import opened ParserUtil
  import opened Commands

  /** An optional text field: absent leaves the slot unset, present must satisfy its rule. */
  function ParseOptional(m: ArgumentMultimap, p: Prefix, rules: FieldRules): (r: Result<Option<string>, ParseError>)
    requires p != TagPrefix
    ensures LastValue(m, p).None? ==> r == Ok(None)
    ensures LastValue(m, p).Some? ==>
      var v := Trim(LastValue(m, p).value);
      (r.Ok? <==> IsValid(rules, p, v)) && (r.Ok? ==> r.value == Some(v))
    ensures r.Err? ==> r.error == ConstraintViolation(p)
  {
    match LastValue(m, p)
    case None => Ok(None)
    case Some(raw) =>
      var v :- ParseField(rules, p, raw);
      Ok(Some(v))
  }

  /** The descriptor: fields are parsed in the order name, phone, email, address, tags, date. */
  function BuildDescriptor(m: ArgumentMultimap, rules: FieldRules): (r: Result<Descriptor, ParseError>)
    ensures r.Err? ==> r.error.ConstraintViolation?
  {
    var name :- ParseOptional(m, NamePrefix, rules);
    var phone :- ParseOptional(m, PhonePrefix, rules);
    var email :- ParseOptional(m, EmailPrefix, rules);
    var address :- ParseOptional(m, AddressPrefix, rules);
    var tags :- ParseTagsForEdit(rules, AllValues(m, TagPrefix));
    var date :- ParseOptional(m, DatePrefix, rules);
    Ok(Descriptor(name, phone, email, address, tags, date))
  }

  /**
   * EditCommandParser.parse: a missing preamble is a format error of the edit command; an
   * index error is reported as is; then repeated prefixes, all at once; then the field
   * values; a descriptor with nothing set is refused.
   */
  function Parse(args: string, rules: FieldRules): (r: Result<Command, ParseError>)
    ensures r.Ok? ==> r.value.EditCommand? && Populated(r.value.descriptor) != {}
    ensures r.Err? && r.error.DuplicatePrefixes? ==>
      var dups := r.error.prefixes;
      dups != [] && forall p :: p in dups ==> |AllValues(Tokenize(args, EditPrefixes), p)| > 1
    ensures r.Err? && r.error.ConstraintViolation? ==> DuplicatedPrefixes(Tokenize(args, EditPrefixes), EditPrefixes) == []
    ensures r.Err? && r.error.InvalidCommandFormat? ==> Tokenize(args, EditPrefixes).preamble == []
  {
    var m := Tokenize(args, EditPrefixes);
    if m.preamble == [] then Err(InvalidCommandFormat(EditWord))
    else
      var index :- ParseIndex(m.preamble);
      var dups := DuplicatedPrefixes(m, EditPrefixes);
      if dups != [] then Err(DuplicatePrefixes(dups))
      else
        var d :- BuildDescriptor(m, rules);
        if Populated(d) == {} then Err(NotEdited(EditWord))
        else Ok(EditCommand(index, d))
  }

  // ---------------------------------------------------------------------------------------
  // A reference definition in terms of the arguments the user wrote.

  /** Whether one supplied value is acceptable for its field; an empty tag means "clear tags". */
  predicate FieldOk(rules: FieldRules, a: Arg) {
    if a.prefix == TagPrefix then a.value == "" || rules.validTag(a.value)
    else IsValid(rules, a.prefix, a.value)
  }

  /** Field `p` was supplied with an unacceptable value. */
  predicate Fails(rules: FieldRules, args: seq<Arg>, p: Prefix) {
    exists a :: a in args && a.prefix == p && !FieldOk(rules, a)
  }

  /** The first field, in the order `ps`, that was supplied with an unacceptable value. */
  function FirstInvalid(rules: FieldRules, args: seq<Arg>, ps: seq<Prefix>): (r: Option<Prefix>)
    ensures r.Some? ==> r.value in ps && Fails(rules, args, r.value)
    ensures r.None? ==> forall a :: a in args && a.prefix in ps ==> FieldOk(rules, a)
  {
    if ps == [] then None
    else if Fails(rules, args, ps[0]) then Some(ps[0])
    else FirstInvalid(rules, args, ps[1..])
  }

  /**
   * The intended outcome for a preamble `pre` followed by the arguments `args`: the edit
   * the test suite's descriptor builder would produce, or the first error by precedence.
   */
  function Expected(pre: string, args: seq<Arg>, rules: FieldRules): Result<Command, ParseError> {
    var dups := DuplicatedPrefixes(BuildMultimap(pre, args), EditPrefixes);
    if pre == [] then Err(InvalidCommandFormat(EditWord))
    else if ParseIndex(pre).Err? then Err(ParseIndex(pre).error)
    else if dups != [] then Err(DuplicatePrefixes(dups))
    else if FirstInvalid(rules, args, EditPrefixes).Some? then
      Err(ConstraintViolation(FirstInvalid(rules, args, EditPrefixes).value))
    else if args == [] then Err(NotEdited(EditWord))
    else Ok(EditCommand(ParseIndex(pre).value, Built(args)))
  }

  // ---------------------------------------------------------------------------------------
  // The parser meets the reference definition.

  /** The arguments as grouped by the tokenizer, with each field given at most once. */
  predicate Grouped(m: ArgumentMultimap, args: seq<Arg>) {
    (forall p :: AllValues(m, p) == Collect(args, p) && |Collect(args, p)| <= 1)
    && forall a :: a in args ==> Trimmed(a.value)
  }

  /** One text field: its parse fails exactly when its value is unacceptable, else it fills the built slot. */
  lemma {:induction false} TextFieldStep(m: ArgumentMultimap, args: seq<Arg>, p: Prefix, rules: FieldRules)
    requires p != TagPrefix && Grouped(m, args)
    ensures ParseOptional(m, p, rules)
         == if Fails(rules, args, p) then Err(ConstraintViolation(p)) else Ok(TextSlot(Built(args), p))
  {
    BuiltTextSlot(args, p);
    var vs := Collect(args, p);
    if vs != [] {
      var v := vs[0];
      assert vs == [v];
      assert Arg(p, v) in args;
      assert Trim(v) == v;
      if IsValid(rules, p, v) {
        forall a | a in args && a.prefix == p
          ensures FieldOk(rules, a)
        {
          assert a.value in vs;
        }
      } else {
        assert !FieldOk(rules, Arg(p, v));
      }
    }
  }

  /** The tag field: an empty value clears the tags, any other must be a valid tag. */
  lemma {:induction false} TagFieldStep(m: ArgumentMultimap, args: seq<Arg>, rules: FieldRules)
    requires Grouped(m, args)
    ensures ParseTagsForEdit(rules, AllValues(m, TagPrefix))
         == if Fails(rules, args, TagPrefix) then Err(ConstraintViolation(TagPrefix)) else Ok(Built(args).tags)
  {
    BuiltTagSlot(args);
    var vs := Collect(args, TagPrefix);
    if vs == [] {
      assert forall a :: a in args ==> a.prefix != TagPrefix || a.value in vs;
    } else {
      var v := vs[0];
      assert vs == [v];
      assert Trimmed(v) by {
        assert Arg(TagPrefix, v) in args;
      }
      assert Fails(rules, args, TagPrefix) <==> !FieldOk(rules, Arg(TagPrefix, v)) by {
        assert Arg(TagPrefix, v) in args;
        forall a | a in args && a.prefix == TagPrefix
          ensures a == Arg(TagPrefix, v)
        {
          assert a.value in vs;
        }
      }
      SingleTagValue(rules, v);
    }
  }

  /** A lone trimmed tag value: empty clears the tags, otherwise it must be a valid tag. */
  lemma {:induction false} SingleTagValue(rules: FieldRules, v: string)
    requires Trimmed(v)
    ensures ParseTagsForEdit(rules, [v])
         == if !FieldOk(rules, Arg(TagPrefix, v)) then Err(ConstraintViolation(TagPrefix)) else Ok(Some(TagsOf(v)))
  {
    if v != "" {
      assert Trim(v) == v;
      assert (set t | t in [v] :: Trim(t)) == {v};
    }
  }

  /** FirstInvalid over the edit command's prefixes, written out field by field. */
  lemma {:induction false} FirstInvalidOfEdit(rules: FieldRules, args: seq<Arg>)
    ensures FirstInvalid(rules, args, EditPrefixes) ==
      if Fails(rules, args, NamePrefix) then Some(NamePrefix)
      else if Fails(rules, args, PhonePrefix) then Some(PhonePrefix)
      else if Fails(rules, args, EmailPrefix) then Some(EmailPrefix)
      else if Fails(rules, args, AddressPrefix) then Some(AddressPrefix)
      else if Fails(rules, args, TagPrefix) then Some(TagPrefix)
      else if Fails(rules, args, DatePrefix) then Some(DatePrefix)
      else None
  {
    var tail := [DatePrefix];
    FirstInvalidCons(rules, args, DatePrefix, []);
    FirstInvalidCons(rules, args, TagPrefix, tail);
    tail := [TagPrefix] + tail;
    FirstInvalidCons(rules, args, AddressPrefix, tail);
    tail := [AddressPrefix] + tail;
    FirstInvalidCons(rules, args, EmailPrefix, tail);
    tail := [EmailPrefix] + tail;
    FirstInvalidCons(rules, args, PhonePrefix, tail);
    tail := [PhonePrefix] + tail;
    FirstInvalidCons(rules, args, NamePrefix, tail);
    assert [NamePrefix] + tail == EditPrefixes;
  }

  lemma {:induction false} FirstInvalidCons(rules: FieldRules, args: seq<Arg>, p: Prefix, rest: seq<Prefix>)
    ensures FirstInvalid(rules, args, [p] + rest)
         == if Fails(rules, args, p) then Some(p) else FirstInvalid(rules, args, rest)
  {
    assert ([p] + rest)[1..] == rest;
  }

  /** Building the descriptor stops at the first unacceptable field, else yields the built descriptor. */
  lemma {:induction false} BuildDescriptorOfGrouped(m: ArgumentMultimap, args: seq<Arg>, rules: FieldRules)
    requires Grouped(m, args)
    ensures BuildDescriptor(m, rules)
         == if FirstInvalid(rules, args, EditPrefixes).Some?
            then Err(ConstraintViolation(FirstInvalid(rules, args, EditPrefixes).value))
            else Ok(Built(args))
  {
    FirstInvalidOfEdit(rules, args);
    BuildDescriptorEarly(m, args, rules);
    if !Fails(rules, args, NamePrefix) && !Fails(rules, args, PhonePrefix) && !Fails(rules, args, EmailPrefix) {
      BuildDescriptorLate(m, args, rules);
    }
  }

  /** The name, phone and email steps of the builder. */
  lemma {:induction false} BuildDescriptorEarly(m: ArgumentMultimap, args: seq<Arg>, rules: FieldRules)
    requires Grouped(m, args)
    ensures Fails(rules, args, NamePrefix) ==> BuildDescriptor(m, rules) == Err(ConstraintViolation(NamePrefix))
    ensures !Fails(rules, args, NamePrefix) && Fails(rules, args, PhonePrefix) ==>
      BuildDescriptor(m, rules) == Err(ConstraintViolation(PhonePrefix))
    ensures !Fails(rules, args, NamePrefix) && !Fails(rules, args, PhonePrefix) && Fails(rules, args, EmailPrefix) ==>
      BuildDescriptor(m, rules) == Err(ConstraintViolation(EmailPrefix))
  {
    TextFieldStep(m, args, NamePrefix, rules);
    TextFieldStep(m, args, PhonePrefix, rules);
    TextFieldStep(m, args, EmailPrefix, rules);
  }

  /** The address, tag and date steps of the builder, once the first three fields are acceptable. */
  lemma {:induction false} BuildDescriptorLate(m: ArgumentMultimap, args: seq<Arg>, rules: FieldRules)
    requires Grouped(m, args)
    requires !Fails(rules, args, NamePrefix) && !Fails(rules, args, PhonePrefix) && !Fails(rules, args, EmailPrefix)
    ensures Fails(rules, args, AddressPrefix) ==> BuildDescriptor(m, rules) == Err(ConstraintViolation(AddressPrefix))
    ensures !Fails(rules, args, AddressPrefix) && Fails(rules, args, TagPrefix) ==>
      BuildDescriptor(m, rules) == Err(ConstraintViolation(TagPrefix))
    ensures !Fails(rules, args, AddressPrefix) && !Fails(rules, args, TagPrefix) && Fails(rules, args, DatePrefix) ==>
      BuildDescriptor(m, rules) == Err(ConstraintViolation(DatePrefix))
    ensures !Fails(rules, args, AddressPrefix) && !Fails(rules, args, TagPrefix) && !Fails(rules, args, DatePrefix) ==>
      BuildDescriptor(m, rules) == Ok(Built(args))
  {
    TextFieldStep(m, args, NamePrefix, rules);
    TextFieldStep(m, args, PhonePrefix, rules);
    TextFieldStep(m, args, EmailPrefix, rules);
    TextFieldStep(m, args, AddressPrefix, rules);
    TagFieldStep(m, args, rules);
    TextFieldStep(m, args, DatePrefix, rules);
    var d := Built(args);
    assert d == Descriptor(TextSlot(d, NamePrefix), TextSlot(d, PhonePrefix), TextSlot(d, EmailPrefix),
                           TextSlot(d, AddressPrefix), d.tags, TextSlot(d, DatePrefix));
  }

  /** Nothing is set exactly when nothing was supplied. */
  lemma {:induction false} BuiltEmpty(args: seq<Arg>)
    ensures Populated(Built(args)) == {} <==> args == []
  {
    BuiltPopulatesSupplied(args);
    if args != [] {
      assert args[0].prefix in Supplied(args);
    }
  }

  /** The parser meets the reference outcome on whatever the tokenizer found. */
  lemma {:induction false} EditParseOfTokens(s: string, pre: string, args: seq<Arg>, rules: FieldRules)
    requires Tokenize(s, EditPrefixes) == BuildMultimap(pre, args)
    requires forall a :: a in args ==> Trimmed(a.value)
    ensures Parse(s, rules) == Expected(pre, args, rules)
  {
    var m := Tokenize(s, EditPrefixes);
    if pre != [] && ParseIndex(pre).Ok? && DuplicatedPrefixes(m, EditPrefixes) == [] {
      forall p
        ensures |Collect(args, p)| <= 1
      {
        EditPrefixesComplete(p);
      }
      assert Grouped(m, args);
      BuildDescriptorOfGrouped(m, args, rules);
      BuiltEmpty(args);
    }
  }

  /**
   * The parser on every argument string written as a preamble followed by field
   * occurrences, none of whose texts contains a field prefix, gives the reference outcome
   * for the trimmed preamble and values. Every string has this form
   * (ArgumentTokenizer.RawChunks).
   */
  lemma {:induction false} EditParseOfRendered(pre: string, args: seq<Arg>, rules: FieldRules)
    requires NoMatch(pre, EditPrefixes) && PlainArgs(args, EditPrefixes)
    ensures Parse(Render(pre, args), rules) == Expected(Trim(pre), TrimValues(args), rules)
  {
    TokenizeRender(pre, args, EditPrefixes);
    TrimValuesShape(args);
    EditParseOfTokens(Render(pre, args), Trim(pre), TrimValues(args), rules);
  }

  /** The same for a string given as such: the pieces are those of the untrimmed scan. */
  lemma {:induction false} EditParseOfAnyString(s: string, rules: FieldRules)
    ensures var t := RawChunks(s, EditPrefixes);
      Parse(s, rules) == Expected(Trim(t.preamble), TrimValues(t.args), rules)
  {
    var t := RawChunks(s, EditPrefixes);
    EditParseOfRendered(t.preamble, t.args, rules);
  }

  /** The case without surrounding spaces, where nothing is trimmed. */
  lemma {:induction false} EditParseOfPlain(pre: string, args: seq<Arg>, rules: FieldRules)
    requires Plain(pre, EditPrefixes) && PlainTrimmedArgs(args, EditPrefixes)
    ensures Parse(Render(pre, args), rules) == Expected(pre, args, rules)
  {
    EditParseOfRendered(pre, args, rules);
    TrimValuesOfTrimmed(args);
  }

  /** The duplicate check sees the same repeats whether or not the values are trimmed. */
  lemma {:induction false} DuplicatesOfTrimmed(pre: string, args: seq<Arg>)
    ensures DuplicatedPrefixes(BuildMultimap(Trim(pre), TrimValues(args)), EditPrefixes)
         == DuplicatedPrefixes(BuildMultimap(pre, args), EditPrefixes)
  {
    TrimValuesShape(args);
    DuplicatesDependOnlyOnRepeats(BuildMultimap(Trim(pre), TrimValues(args)), BuildMultimap(pre, args), EditPrefixes);
  }

  // ---------------------------------------------------------------------------------------
  // Consequences for the shapes of input the edit command's test suite exercises.

  /** An empty argument string is a format error of the edit command. */
  lemma {:induction false} EditEmptyInput(rules: FieldRules)
    ensures Parse("", rules) == Err(InvalidCommandFormat(EditWord))
  {
    assert Render("", []) == "";
    EditParseOfPlain("", [], rules);
  }

  /** An index with no fields edits nothing. */
  lemma {:induction false} EditIndexOnly(n: nat, rules: FieldRules)
    requires 1 <= n <= MAX_INDEX
    ensures Parse(Numeral(n), rules) == Err(NotEdited(EditWord))
  {
    NumeralIsPlain(n);
    NumeralHasNoMatch(n, EditPrefixes);
    ParseIndexOfNumeral(n);
    assert Render(Numeral(n), []) == Numeral(n);
    NoDuplicatesWithoutRepeats(BuildMultimap(Numeral(n), []), EditPrefixes);
    EditParseOfPlain(Numeral(n), [], rules);
  }

  /**
   * A preamble that is zero or holds anything but digits (a name, a sign, trailing words)
   * is an invalid index, whatever fields follow and whatever their values.
   */
  lemma {:induction false} EditMalformedIndex(pre: string, args: seq<Arg>, rules: FieldRules)
    requires Plain(pre, EditPrefixes) && PlainArgs(args, EditPrefixes)
    requires pre == "0" || exists k :: 0 <= k < |pre| && !IsDigit(pre[k])
    ensures Parse(Render(pre, args), rules) == Err(InvalidIndex)
  {
    ParseIndexMalformed(pre);
    EditParseOfRendered(pre, args, rules);
  }

  /** A negative index is invalid. */
  lemma {:induction false} EditNegativeIndex(n: nat, args: seq<Arg>, rules: FieldRules)
    requires PlainArgs(args, EditPrefixes)
    ensures Parse(Render("-" + Numeral(n), args), rules) == Err(InvalidIndex)
  {
    var pre := "-" + Numeral(n);
    assert forall k :: 0 <= k < |pre| ==> pre[k] != ' ' by {
      assert forall k :: 1 <= k < |pre| ==> pre[k] == Numeral(n)[k - 1];
    }
    NoSpaceHasNoMatch(pre, EditPrefixes);
    assert !IsDigit(pre[0]);
    EditMalformedIndex(pre, args, rules);
  }

  /** Zero is not an index. */
  lemma {:induction false} EditZeroIndex(args: seq<Arg>, rules: FieldRules)
    requires PlainArgs(args, EditPrefixes)
    ensures Parse(Render("0", args), rules) == Err(InvalidIndex)
  {
    NoSpaceHasNoMatch("0", EditPrefixes);
    EditMalformedIndex("0", args, rules);
  }

  /**
   * Text after the index that does not start with a field prefix belongs to the preamble,
   * which makes the index invalid; this covers free words and unknown prefixes alike.
   */
  lemma {:induction false} EditTextAfterIndex(n: nat, w: string, rules: FieldRules)
    requires Plain(w, EditPrefixes) && w != []
    requires forall p :: p in EditPrefixes && 2 <= |w| ==> w[..2] != Marker(p)
    ensures Parse(Numeral(n) + " " + w, rules) == Err(InvalidIndex)
  {
    var pre := Numeral(n) + " " + w;
    NumeralHasNoMatch(n, EditPrefixes);
    JoinHasNoMatch(Numeral(n), w, EditPrefixes);
    assert pre[0] == Numeral(n)[0] && pre[|pre| - 1] == w[|w| - 1];
    assert !IsDigit(pre[|Numeral(n)|]);
    assert Render(pre, []) == pre;
    EditMalformedIndex(pre, [], rules);
  }

  /** A numeral beyond the largest index is out of range, whatever fields follow. */
  lemma {:induction false} EditIndexOutOfRange(n: nat, args: seq<Arg>, rules: FieldRules)
    requires n > MAX_INDEX && PlainArgs(args, EditPrefixes)
    ensures Parse(Render(Numeral(n), args), rules) == Err(IndexOutOfRange)
  {
    NumeralIsPlain(n);
    NumeralHasNoMatch(n, EditPrefixes);
    ParseIndexTooLarge(n);
    EditParseOfRendered(Numeral(n), args, rules);
  }

  /**
   * Repeated prefixes are reported before any value is validated: the outcome is the
   * duplicate error whatever the field rules say about the values.
   */
  lemma {:induction false} EditDuplicatesBeforeValues(pre: string, args: seq<Arg>, rules1: FieldRules, rules2: FieldRules)
    requires NoMatch(pre, EditPrefixes) && PlainArgs(args, EditPrefixes) && ParseIndex(pre).Ok?
    requires exists p :: |Collect(args, p)| > 1
    ensures Parse(Render(pre, args), rules1) == Parse(Render(pre, args), rules2)
    ensures Parse(Render(pre, args), rules1) == Err(DuplicatePrefixes(DuplicatedPrefixes(BuildMultimap(pre, args), EditPrefixes)))
  {
    var p :| |Collect(args, p)| > 1;
    EditPrefixesComplete(p);
    assert AllValues(BuildMultimap(pre, args), p) == Collect(args, p);
    ParseIndexTrims(pre);
    DuplicatesOfTrimmed(pre, args);
    EditParseOfRendered(pre, args, rules1);
    EditParseOfRendered(pre, args, rules2);
  }

  /**
   * The duplicate error depends only on which prefixes are repeated, never on the order
   * or the values of the arguments.
   */
  lemma {:induction false} EditDuplicatesIgnoreOrder(pre: string, args1: seq<Arg>, args2: seq<Arg>, rules: FieldRules)
    requires NoMatch(pre, EditPrefixes) && ParseIndex(pre).Ok?
    requires PlainArgs(args1, EditPrefixes) && PlainArgs(args2, EditPrefixes)
    requires forall p :: |Collect(args1, p)| > 1 <==> |Collect(args2, p)| > 1
    requires exists p :: |Collect(args1, p)| > 1
    ensures Parse(Render(pre, args1), rules) == Parse(Render(pre, args2), rules)
  {
    var m1, m2 := BuildMultimap(pre, args1), BuildMultimap(pre, args2);
    DuplicatesDependOnlyOnRepeats(m1, m2, EditPrefixes);
    EditDuplicatesBeforeValues(pre, args1, rules, rules);
    var p :| |Collect(args1, p)| > 1;
    EditDuplicatesBeforeValues(pre, args2, rules, rules);
  }

  /** The members of `S`, in the order of `ps`. */
  function InOrder(ps: seq<Prefix>, S: set<Prefix>): seq<Prefix> {
    if ps == [] then [] else (if ps[0] in S then [ps[0]] else []) + InOrder(ps[1..], S)
  }

  lemma {:induction false} InOrderCons(p: Prefix, rest: seq<Prefix>, S: set<Prefix>)
    ensures InOrder([p] + rest, S) == (if p in S then [p] else []) + InOrder(rest, S)
  {
    assert ([p] + rest)[1..] == rest;
  }

  /** The members of `S` in the edit command's order, written out field by field. */
  lemma {:induction false} InOrderOfEdit(S: set<Prefix>)
    ensures InOrder(EditPrefixes, S) ==
      (if NamePrefix in S then [NamePrefix] else [])
      + ((if PhonePrefix in S then [PhonePrefix] else [])
      + ((if EmailPrefix in S then [EmailPrefix] else [])
      + ((if AddressPrefix in S then [AddressPrefix] else [])
      + ((if TagPrefix in S then [TagPrefix] else [])
      + (if DatePrefix in S then [DatePrefix] else [])))))
  {
    var d := if DatePrefix in S then [DatePrefix] else [];
    var t := (if TagPrefix in S then [TagPrefix] else []) + d;
    var a := (if AddressPrefix in S then [AddressPrefix] else []) + t;
    var e := (if EmailPrefix in S then [EmailPrefix] else []) + a;
    var p := (if PhonePrefix in S then [PhonePrefix] else []) + e;
    var n := (if NamePrefix in S then [NamePrefix] else []) + p;
    assert InOrder([DatePrefix], S) == d by {
      InOrderCons(DatePrefix, [], S);
    }
    assert InOrder([TagPrefix, DatePrefix], S) == t by {
      InOrderCons(TagPrefix, [DatePrefix], S);
    }
    assert InOrder([AddressPrefix, TagPrefix, DatePrefix], S) == a by {
      InOrderCons(AddressPrefix, [TagPrefix, DatePrefix], S);
    }
    assert InOrder([EmailPrefix, AddressPrefix, TagPrefix, DatePrefix], S) == e by {
      InOrderCons(EmailPrefix, [AddressPrefix, TagPrefix, DatePrefix], S);
    }
    assert InOrder([PhonePrefix, EmailPrefix, AddressPrefix, TagPrefix, DatePrefix], S) == p by {
      InOrderCons(PhonePrefix, [EmailPrefix, AddressPrefix, TagPrefix, DatePrefix], S);
    }
    assert InOrder(EditPrefixes, S) == n by {
      InOrderCons(NamePrefix, [PhonePrefix, EmailPrefix, AddressPrefix, TagPrefix, DatePrefix], S);
    }
  }

  /** The duplicate report lists the repeated prefixes in the fixed order of `ps`. */
  lemma {:induction false} DuplicatesInOrder(m: ArgumentMultimap, ps: seq<Prefix>, S: set<Prefix>)
    requires forall p :: |AllValues(m, p)| > 1 <==> p in S
    ensures DuplicatedPrefixes(m, ps) == InOrder(ps, S)
  {
    if ps != [] {
      DuplicatesInOrder(m, ps[1..], S);
    }
  }

  /**
   * When the repeated prefixes are exactly `S`, the error lists them in the order name,
   * phone, email, address, tag, date, however the arguments were ordered.
   */
  lemma {:induction false} EditDuplicateReport(pre: string, args: seq<Arg>, rules: FieldRules, S: set<Prefix>)
    requires NoMatch(pre, EditPrefixes) && PlainArgs(args, EditPrefixes) && ParseIndex(pre).Ok?
    requires S != {} && forall p :: |Collect(args, p)| > 1 <==> p in S
    ensures Parse(Render(pre, args), rules) == Err(DuplicatePrefixes(InOrder(EditPrefixes, S)))
  {
    DuplicatesInOrder(BuildMultimap(pre, args), EditPrefixes, S);
    var p :| p in S;
    EditDuplicatesBeforeValues(pre, args, rules, rules);
  }

  /** A repeated phone is reported alone, whether its values are valid or not. */
  lemma {:induction false} EditRepeatedPhone(pre: string, args: seq<Arg>, rules: FieldRules)
    requires NoMatch(pre, EditPrefixes) && PlainArgs(args, EditPrefixes) && ParseIndex(pre).Ok?
    requires forall p :: |Collect(args, p)| > 1 <==> p == PhonePrefix
    ensures Parse(Render(pre, args), rules) == Err(DuplicatePrefixes([PhonePrefix]))
  {
    InOrderSingle(PhonePrefix);
    EditDuplicateReport(pre, args, rules, {PhonePrefix});
  }

  /** Phone, address, email and tag all repeated: all four are named, in the fixed order. */
  lemma {:induction false} EditRepeatedFourFields(pre: string, args: seq<Arg>, rules: FieldRules)
    requires NoMatch(pre, EditPrefixes) && PlainArgs(args, EditPrefixes) && ParseIndex(pre).Ok?
    requires forall p :: |Collect(args, p)| > 1 <==> p in {PhonePrefix, EmailPrefix, AddressPrefix, TagPrefix}
    ensures Parse(Render(pre, args), rules)
         == Err(DuplicatePrefixes([PhonePrefix, EmailPrefix, AddressPrefix, TagPrefix]))
  {
    InOrderFourFields();
    EditDuplicateReport(pre, args, rules, {PhonePrefix, EmailPrefix, AddressPrefix, TagPrefix});
  }

  lemma {:induction false} InOrderFourFields()
    ensures InOrder(EditPrefixes, {PhonePrefix, EmailPrefix, AddressPrefix, TagPrefix})
         == [PhonePrefix, EmailPrefix, AddressPrefix, TagPrefix]
  {
    InOrderOfEdit({PhonePrefix, EmailPrefix, AddressPrefix, TagPrefix});
  }

  /** Phone, address and email repeated with invalid values: the three are named, in the fixed order. */
  lemma {:induction false} EditRepeatedThreeFields(pre: string, args: seq<Arg>, rules: FieldRules)
    requires NoMatch(pre, EditPrefixes) && PlainArgs(args, EditPrefixes) && ParseIndex(pre).Ok?
    requires forall p :: |Collect(args, p)| > 1 <==> p in {PhonePrefix, EmailPrefix, AddressPrefix}
    ensures Parse(Render(pre, args), rules) == Err(DuplicatePrefixes([PhonePrefix, EmailPrefix, AddressPrefix]))
  {
    InOrderThreeFields();
    EditDuplicateReport(pre, args, rules, {PhonePrefix, EmailPrefix, AddressPrefix});
  }

  /** A single repeated prefix is reported alone. */
  lemma {:induction false} InOrderSingle(p: Prefix)
    ensures InOrder(EditPrefixes, {p}) == [p]
  {
    InOrderOfEdit({p});
  }

  lemma {:induction false} InOrderThreeFields()
    ensures InOrder(EditPrefixes, {PhonePrefix, EmailPrefix, AddressPrefix}) == [PhonePrefix, EmailPrefix, AddressPrefix]
  {
    InOrderOfEdit({PhonePrefix, EmailPrefix, AddressPrefix});
  }

  /**
   * The tag prefix may not repeat either: an empty tag next to other tags, wherever it
   * stands, is a duplicate tag prefix rather than a request to clear the tags.
   */
  lemma {:induction false} EditEmptyTagAmongOthers(pre: string, args: seq<Arg>, rules: FieldRules)
    requires NoMatch(pre, EditPrefixes) && PlainArgs(args, EditPrefixes) && ParseIndex(pre).Ok?
    requires "" in Collect(TrimValues(args), TagPrefix) && |Collect(args, TagPrefix)| > 1
    requires forall p :: p != TagPrefix ==> |Collect(args, p)| <= 1
    ensures Parse(Render(pre, args), rules) == Err(DuplicatePrefixes([TagPrefix]))
  {
    InOrderSingle(TagPrefix);
    EditDuplicateReport(pre, args, rules, {TagPrefix});
  }

  /** The first failing prefix in the order `ps` is the one reported. */
  lemma {:induction false} FirstInvalidIsFirst(rules: FieldRules, args: seq<Arg>, ps: seq<Prefix>, k: nat)
    requires k < |ps| && Fails(rules, args, ps[k])
    requires forall j :: 0 <= j < k ==> !Fails(rules, args, ps[j])
    ensures FirstInvalid(rules, args, ps) == Some(ps[k])
  {
    if k > 0 {
      assert !Fails(rules, args, ps[0]);
      FirstInvalidIsFirst(rules, args, ps[1..], k - 1);
    }
  }

  /** Without repeated prefixes, the reference outcome is that for the trimmed parts. */
  lemma {:induction false} EditWithoutRepeats(pre: string, args: seq<Arg>, rules: FieldRules)
    requires NoMatch(pre, EditPrefixes) && PlainArgs(args, EditPrefixes) && ParseIndex(pre).Ok?
    requires forall p :: |Collect(args, p)| <= 1
    ensures var tv := TrimValues(args);
      Parse(Render(pre, args), rules) ==
        if FirstInvalid(rules, tv, EditPrefixes).Some? then Err(ConstraintViolation(FirstInvalid(rules, tv, EditPrefixes).value))
        else if args == [] then Err(NotEdited(EditWord))
        else Ok(EditCommand(ParseIndex(pre).value, Built(tv)))
  {
    NoDuplicatesWithoutRepeats(BuildMultimap(pre, args), EditPrefixes);
    DuplicatesOfTrimmed(pre, args);
    ParseIndexTrims(pre);
    TrimValuesShape(args);
    EditParseOfRendered(pre, args, rules);
  }

  /**
   * Without repeated prefixes, the error names the first field (name, phone, email,
   * address, tags, date) whose trimmed value is unacceptable; later invalid fields are not
   * looked at.
   */
  lemma {:induction false} EditFirstInvalidWins(pre: string, args: seq<Arg>, rules: FieldRules, k: nat)
    requires NoMatch(pre, EditPrefixes) && PlainArgs(args, EditPrefixes) && ParseIndex(pre).Ok?
    requires forall p :: |Collect(args, p)| <= 1
    requires k < |EditPrefixes| && Fails(rules, TrimValues(args), EditPrefixes[k])
    requires forall j :: 0 <= j < k ==> !Fails(rules, TrimValues(args), EditPrefixes[j])
    ensures Parse(Render(pre, args), rules) == Err(ConstraintViolation(EditPrefixes[k]))
  {
    FirstInvalidIsFirst(rules, TrimValues(args), EditPrefixes, k);
    EditWithoutRepeats(pre, args, rules);
  }

  /**
   * Success: with a valid index, no repeated prefix and only acceptable trimmed values,
   * the command carries the built descriptor, which sets exactly the supplied fields, each
   * to the trimmed value supplied for it.
   */
  lemma {:induction false} EditSuccess(pre: string, args: seq<Arg>, rules: FieldRules)
    requires NoMatch(pre, EditPrefixes) && PlainArgs(args, EditPrefixes) && ParseIndex(pre).Ok?
    requires forall p :: |Collect(args, p)| <= 1
    requires forall a :: a in TrimValues(args) ==> FieldOk(rules, a)
    requires args != []
    ensures Parse(Render(pre, args), rules) == Ok(EditCommand(ParseIndex(pre).value, Built(TrimValues(args))))
    ensures Populated(Built(TrimValues(args))) == Supplied(args)
    ensures forall p :: p != TagPrefix ==>
      TextSlot(Built(TrimValues(args)), p) == LastOf(Collect(TrimValues(args), p))
  {
    var tv := TrimValues(args);
    EditWithoutRepeats(pre, args, rules);
    TrimValuesShape(args);
    BuiltPopulatesSupplied(tv);
    forall p | p != TagPrefix
      ensures TextSlot(Built(tv), p) == LastOf(Collect(tv, p))
    {
      BuiltTextSlot(tv, p);
    }
  }

  /** One acceptable field after a valid index sets that field's slot and nothing else. */
  lemma {:induction false} EditSingleField(n: nat, p: Prefix, v: string, rules: FieldRules)
    requires 1 <= n <= MAX_INDEX && NoMatch(v, EditPrefixes) && FieldOk(rules, Arg(p, Trim(v)))
    ensures Parse(Numeral(n) + " " + Marker(p) + v, rules)
         == Ok(EditCommand(Index(n), With(NoEdits, Arg(p, Trim(v)))))
  {
    var args := [Arg(p, v)];
    assert RenderArgs(args[1..]) == "";
    assert Render(Numeral(n), args) == Numeral(n) + " " + Marker(p) + v;
    assert TrimValues(args) == [Arg(p, Trim(v))] by {
      TrimValuesCons(Arg(p, v), []);
    }
    EditPrefixesComplete(p);
    NumeralHasNoMatch(n, EditPrefixes);
    ParseIndexOfNumeral(n);
    assert forall q :: |Collect(args, q)| <= 1;
    assert Built([Arg(p, Trim(v))]) == With(NoEdits, Arg(p, Trim(v)));
    EditSuccess(Numeral(n), args, rules);
  }
}
