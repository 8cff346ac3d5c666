/**
 * TagCommandParser: `tag INDEX t/TAG...` replaces the tags of the person at INDEX; a single
 * empty `t/` clears them. Only the tag prefix is recognised.
 */
module TagCommandParser {
  import opened Results
  import opened CliSyntax
  import opened Messages
  import opened StringUtil
  import opened ArgumentTokenizer
  import opened ParserUtil
  import opened Commands

  /**
   * What TagCommandParser.parse computes: a bad index is reported as a format error of the
   * tag command (whatever the index error was), before the tags are looked at; then the tag
   * slot is filled; a descriptor with nothing set is refused.
   */
  function ParseResult(args: string, rules: FieldRules): (r: Result<Command, ParseError>)
    ensures r.Ok? ==> r.value.TagCommand? && Populated(r.value.descriptor) == {TagPrefix}
    ensures r.Ok? ==> r.value.descriptor == NoEdits.(tags := r.value.descriptor.tags)
    ensures r.Err? ==> r.error in {InvalidCommandFormat(TagWord), NotEdited(TagWord), ConstraintViolation(TagPrefix)}
  {
    var m := Tokenize(args, TagPrefixes);
    var index := ParseIndex(m.preamble);
    if index.Err? then Err(InvalidCommandFormat(TagWord))
    else
      var tags := ParseTagsForEdit(rules, AllValues(m, TagPrefix));
      if tags.Err? then Err(tags.error)
      else
        var d := NoEdits.(tags := tags.value);
        PopulatedTagsOnly(d.tags);
        if Populated(d) == {} then Err(NotEdited(TagWord))
        else Ok(TagCommand(index.value, d))
  }

  /**
   * TagCommandParser.parse: fills a fresh mutable descriptor and hands it to the command.
   */
  method Parse(args: string, rules: FieldRules) returns (r: Result<Command, ParseError>)
    ensures r == ParseResult(args, rules)
  {
    var m := Tokenize(args, TagPrefixes);
    var index := ParseIndex(m.preamble);
    if index.Err? {
      return Err(InvalidCommandFormat(TagWord));
    }
    var descriptor := new EditPersonDescriptor();
    var tags := ParseTagsForEdit(rules, AllValues(m, TagPrefix));
    if tags.Err? {
      return Err(tags.error);
    }
    if tags.value.Some? {
      descriptor.SetTags(tags.value.value);
    }
    if !descriptor.IsAnyFieldEdited() {
      return Err(NotEdited(TagWord));
    }
    return Ok(TagCommand(index.value, descriptor.Snapshot()));
  }

  /**
   * The outcome on every argument string written as a preamble followed by tag
   * occurrences, none of whose texts contains ` t/`: index errors first, then no tags, a
   * lone empty tag, or the set of tags. Texts may carry spaces around them; the tokenizer
   * trims them. Every string has this form (ArgumentTokenizer.RawChunks).
   */
  lemma {:induction false} TagParseOfRendered(pre: string, args: seq<Arg>, rules: FieldRules)
    requires NoMatch(pre, TagPrefixes) && PlainArgs(args, TagPrefixes)
    ensures TagOutcome(ParseResult(Render(pre, args), rules), ParseIndex(pre), Collect(TrimValues(args), TagPrefix), rules)
  {
    var s := Render(pre, args);
    var vs := Collect(TrimValues(args), TagPrefix);
    assert Tokenize(s, TagPrefixes).preamble == Trim(pre) && AllValues(Tokenize(s, TagPrefixes), TagPrefix) == vs by {
      TokenizeRender(pre, args, TagPrefixes);
    }
    ParseIndexTrims(pre);
    TrimmedValuesFixed(args, vs);
    TagParseOfTokens(s, ParseIndex(pre), vs, rules);
  }

  /** The same outcome for a string given as such: the pieces are those of the untrimmed scan. */
  lemma {:induction false} TagParseOfAnyString(s: string, rules: FieldRules)
    ensures var t := RawChunks(s, TagPrefixes);
      TagOutcome(ParseResult(s, rules), ParseIndex(t.preamble), Collect(TrimValues(t.args), TagPrefix), rules)
  {
    var t := RawChunks(s, TagPrefixes);
    TagParseOfRendered(t.preamble, t.args, rules);
  }

  /**
   * The tag command's outcome for an index and the trimmed tag values: index errors
   * first, then no tags, a lone empty tag, or the set of tags.
   */
  predicate TagOutcome(r: Result<Command, ParseError>, index: Result<Index, ParseError>, vs: seq<string>, rules: FieldRules) {
    (index.Err? ==> r == Err(InvalidCommandFormat(TagWord)))
    && (index.Ok? && vs == [] ==> r == Err(NotEdited(TagWord)))
    && (index.Ok? && vs == [""] ==> r == Ok(TagCommand(index.value, NoEdits.(tags := Some({})))))
    && (index.Ok? && vs != [] && vs != [""] ==>
          r == if forall t :: t in vs ==> rules.validTag(t)
               then Ok(TagCommand(index.value, NoEdits.(tags := Some(set t | t in vs))))
               else Err(ConstraintViolation(TagPrefix)))
  }

  /** The outcome from what the tokenizer found: the parsed preamble and the tag values. */
  lemma {:induction false} TagParseOfTokens(s: string, index: Result<Index, ParseError>, vs: seq<string>, rules: FieldRules)
    requires ParseIndex(Tokenize(s, TagPrefixes).preamble) == index
    requires AllValues(Tokenize(s, TagPrefixes), TagPrefix) == vs
    requires forall t :: t in vs ==> Trim(t) == t
    ensures TagOutcome(ParseResult(s, rules), index, vs, rules)
  {
    var tags := ParseTagsForEdit(rules, vs);
    if tags.Ok? {
      PopulatedTagsOnly(tags.value);
    }
    if vs != [] && vs != [""] {
      TrimSetOfFixed(vs);
    }
  }

  lemma {:induction false} TrimSetOfFixed(vs: seq<string>)
    requires forall t :: t in vs ==> Trim(t) == t
    ensures (set t | t in vs :: Trim(t)) == (set t | t in vs)
  {
  }

  /** The tag values the tokenizer hands over are left alone by trimming. */
  lemma {:induction false} TrimmedValuesFixed(args: seq<Arg>, vs: seq<string>)
    requires vs == Collect(TrimValues(args), TagPrefix)
    ensures forall t :: t in vs ==> Trim(t) == t
  {
    var tv := TrimValues(args);
    TrimValuesAt(args);
    forall t | t in vs
      ensures Trim(t) == t
    {
      assert Arg(TagPrefix, t) in tv;
      var k :| 0 <= k < |tv| && tv[k] == Arg(TagPrefix, t);
      assert t == Trim(args[k].value);
    }
  }

  /** An index without tags edits nothing. */
  lemma {:induction false} TagIndexOnly(n: nat, rules: FieldRules)
    requires 1 <= n <= MAX_INDEX
    ensures ParseResult(Numeral(n), rules) == Err(NotEdited(TagWord))
  {
    NumeralIsPlain(n);
    NumeralHasNoMatch(n, TagPrefixes);
    ParseIndexOfNumeral(n);
    assert Render(Numeral(n), []) == Numeral(n);
    TrimValuesOfTrimmed([]);
    TagParseOfRendered(Numeral(n), [], rules);
  }

  /** A lone empty tag clears the tags, whatever the tag rules. */
  lemma {:induction false} TagClearAll(n: nat, rules: FieldRules)
    requires 1 <= n <= MAX_INDEX
    ensures ParseResult(Numeral(n) + " t/", rules) == Ok(TagCommand(Index(n), NoEdits.(tags := Some({}))))
  {
    NumeralIsPlain(n);
    NumeralHasNoMatch(n, TagPrefixes);
    ParseIndexOfNumeral(n);
    var args := [Arg(TagPrefix, "")];
    assert Render(Numeral(n), args) == Numeral(n) + " t/";
    TrimValuesOfTrimmed(args);
    assert Collect(args, TagPrefix) == [""];
    TagParseOfRendered(Numeral(n), args, rules);
  }

  /** Spaces around the index and around the empty tag are trimmed away: the tags are still cleared. */
  lemma {:induction false} TagClearAllSpaced(n: nat, rules: FieldRules)
    requires 1 <= n <= MAX_INDEX
    ensures ParseResult(Numeral(n) + "  t/ ", rules) == Ok(TagCommand(Index(n), NoEdits.(tags := Some({}))))
  {
    assert Render(Numeral(n) + " ", [Arg(TagPrefix, " ")]) == Numeral(n) + "  t/ ";
    TagClearAllPadded(n, rules);
  }

  lemma {:induction false} TagClearAllPadded(n: nat, rules: FieldRules)
    requires 1 <= n <= MAX_INDEX
    ensures ParseResult(Render(Numeral(n) + " ", [Arg(TagPrefix, " ")]), rules)
         == Ok(TagCommand(Index(n), NoEdits.(tags := Some({}))))
  {
    PaddedNumeral(n);
    BlankTagValue();
    TagsCleared(Numeral(n) + " ", [Arg(TagPrefix, " ")], rules);
  }

  /** A numeral followed by a space holds no tag prefix and still reads as that index. */
  lemma {:induction false} PaddedNumeral(n: nat)
    requires 1 <= n <= MAX_INDEX
    ensures NoMatch(Numeral(n) + " ", TagPrefixes) && ParseIndex(Numeral(n) + " ") == Ok(Index(n))
  {
    var pre := Numeral(n) + " ";
    NumeralHasNoMatch(n, TagPrefixes);
    JoinHasNoMatch(Numeral(n), "", TagPrefixes);
    assert Numeral(n) + " " + "" == pre;
    TrimAppendSpace(Numeral(n), ' ');
    ParseIndexTrims(pre);
    ParseIndexOfNumeral(n);
  }

  /** A tag value of spaces only is the empty tag once trimmed. */
  lemma {:induction false} BlankTagValue()
    ensures Collect(TrimValues([Arg(TagPrefix, " ")]), TagPrefix) == [""]
  {
    TrimAppendSpace("", ' ');
    assert "" + [' '] == " ";
    TrimValuesCons(Arg(TagPrefix, " "), []);
  }

  /** A lone tag value that trims to nothing clears the tags. */
  lemma {:induction false} TagsCleared(pre: string, args: seq<Arg>, rules: FieldRules)
    requires NoMatch(pre, TagPrefixes) && PlainArgs(args, TagPrefixes) && ParseIndex(pre).Ok?
    requires Collect(TrimValues(args), TagPrefix) == [""]
    ensures ParseResult(Render(pre, args), rules) == Ok(TagCommand(ParseIndex(pre).value, NoEdits.(tags := Some({}))))
  {
    TagParseOfRendered(pre, args, rules);
  }

  /**
   * No duplicate check: repeated tag prefixes are all collected, and two valid tags give
   * a descriptor holding both.
   */
  lemma {:induction false} TagRepeated(n: nat, a: string, b: string, rules: FieldRules)
    requires 1 <= n <= MAX_INDEX
    requires NoMatch(a, TagPrefixes) && NoMatch(b, TagPrefixes)
    requires rules.validTag(Trim(a)) && rules.validTag(Trim(b))
    ensures ParseResult(Numeral(n) + " t/" + a + " t/" + b, rules)
         == Ok(TagCommand(Index(n), NoEdits.(tags := Some({Trim(a), Trim(b)}))))
  {
    RenderTwo(Numeral(n), a, b);
    TagRepeatedRendered(n, a, b, rules);
  }

  lemma {:induction false} TagRepeatedRendered(n: nat, a: string, b: string, rules: FieldRules)
    requires 1 <= n <= MAX_INDEX
    requires NoMatch(a, TagPrefixes) && NoMatch(b, TagPrefixes)
    requires rules.validTag(Trim(a)) && rules.validTag(Trim(b))
    ensures ParseResult(Render(Numeral(n), [Arg(TagPrefix, a), Arg(TagPrefix, b)]), rules)
         == Ok(TagCommand(Index(n), NoEdits.(tags := Some({Trim(a), Trim(b)}))))
  {
    var args := [Arg(TagPrefix, a), Arg(TagPrefix, b)];
    TwoTagArgs(a, b);
    ParseIndexOfNumeral(n);
    NumeralHasNoMatch(n, TagPrefixes);
    TagsAccepted(Numeral(n), args, rules);
  }

  /** Two plain tag arguments: their trimmed values, in order, and the set they make. */
  lemma {:induction false} TwoTagArgs(a: string, b: string)
    requires NoMatch(a, TagPrefixes) && NoMatch(b, TagPrefixes)
    ensures var args := [Arg(TagPrefix, a), Arg(TagPrefix, b)];
      PlainArgs(args, TagPrefixes) && Collect(TrimValues(args), TagPrefix) == [Trim(a), Trim(b)]
      && (set t | t in [Trim(a), Trim(b)]) == {Trim(a), Trim(b)}
  {
    TrimValuesTwo(a, b);
    CollectTwo(Trim(a), Trim(b));
    assert Trim(a) in [Trim(a), Trim(b)] && Trim(b) in [Trim(a), Trim(b)];
  }

  /** Two or more tag values, all valid, are accepted as the set of tags. */
  lemma {:induction false} TagsAccepted(pre: string, args: seq<Arg>, rules: FieldRules)
    requires NoMatch(pre, TagPrefixes) && PlainArgs(args, TagPrefixes) && ParseIndex(pre).Ok?
    requires var vs := Collect(TrimValues(args), TagPrefix);
      |vs| >= 2 && forall t :: t in vs ==> rules.validTag(t)
    ensures ParseResult(Render(pre, args), rules)
         == Ok(TagCommand(ParseIndex(pre).value, NoEdits.(tags := Some(set t | t in Collect(TrimValues(args), TagPrefix)))))
  {
    TagParseOfRendered(pre, args, rules);
  }

  lemma {:induction false} RenderTwo(pre: string, a: string, b: string)
    ensures Render(pre, [Arg(TagPrefix, a), Arg(TagPrefix, b)]) == pre + " t/" + a + " t/" + b
  {
    var args := [Arg(TagPrefix, a), Arg(TagPrefix, b)];
    assert RenderArgs(args[1..][1..]) == "";
    assert RenderArgs(args[1..]) == " t/" + b;
  }

  lemma {:induction false} TrimValuesTwo(a: string, b: string)
    ensures TrimValues([Arg(TagPrefix, a), Arg(TagPrefix, b)]) == [Arg(TagPrefix, Trim(a)), Arg(TagPrefix, Trim(b))]
  {
    var args := [Arg(TagPrefix, a), Arg(TagPrefix, b)];
    assert args[1..][1..] == [];
    assert TrimValues(args[1..]) == [Arg(TagPrefix, Trim(b))];
  }

  lemma {:induction false} CollectTwo(a: string, b: string)
    ensures Collect([Arg(TagPrefix, a), Arg(TagPrefix, b)], TagPrefix) == [a, b]
  {
    var args := [Arg(TagPrefix, a), Arg(TagPrefix, b)];
    assert Collect(args[1..], TagPrefix) == [b];
  }

  /**
   * An empty tag among other tags is passed on as a tag name, so it fails when the empty
   * name is not a valid tag.
   */
  lemma {:induction false} TagEmptyAmongOthers(pre: string, args: seq<Arg>, rules: FieldRules)
    requires NoMatch(pre, TagPrefixes) && PlainArgs(args, TagPrefixes)
    requires ParseIndex(pre).Ok? && !rules.validTag("")
    requires "" in Collect(TrimValues(args), TagPrefix) && |Collect(TrimValues(args), TagPrefix)| > 1
    ensures ParseResult(Render(pre, args), rules) == Err(ConstraintViolation(TagPrefix))
  {
    TagParseOfRendered(pre, args, rules);
  }

  /**
   * Only the tag prefix is recognised: another field's prefix after the index stays in the
   * preamble and the index is rejected with the tag command's usage.
   */
  lemma {:induction false} TagOtherPrefixInPreamble(n: nat, q: Prefix, v: string, rules: FieldRules)
    requires q != TagPrefix && Plain(v, TagPrefixes)
    ensures ParseResult(Numeral(n) + " " + Marker(q) + v, rules) == Err(InvalidCommandFormat(TagWord))
  {
    var s := Numeral(n) + " " + Marker(q) + v;
    NumeralHasNoMatch(n, TagPrefixes);
    UnrecognisedMarkerIsText(Numeral(n), q, v, TagPrefixes);
    assert IsSpace(Numeral(n)[0]) == IsSpace(s[0]);
    assert !IsSpace(s[|s| - 1]) by {
      if v == [] {
        assert s[|s| - 1] == '/';
      } else {
        assert s[|s| - 1] == v[|v| - 1];
      }
    }
    assert !IsDigit(s[|Numeral(n)|]);
    ParseIndexMalformed(s);
    assert Render(s, []) == s;
    TrimValuesOfTrimmed([]);
    TagParseOfRendered(s, [], rules);
  }
}
