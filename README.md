# HireHive argument parsing for `edit` and `tag`

HireHive is a command-line editor of applicant records. This project models how it parses the
arguments of two commands:

- `tag INDEX t/TAG...` replaces the tags of the record at INDEX. A lone empty `t/` clears them.
- `edit INDEX [n/NAME] [p/PHONE] [e/EMAIL] [a/ADDRESS] [t/TAG] [i/DATE]` changes the supplied
  fields of the record at INDEX.

Each parser takes the raw argument string and returns a command, meaning an index and an edit
descriptor, or a parse error. The model has these parts:

- `CliSyntax` holds the field prefixes and their markers.
- `Messages` holds the parse errors, one constructor per kind of message.
- `StringUtil` models `String.trim` and decimal numerals.
- `ArgumentTokenizer` splits the string into a preamble and, for each recognised prefix, the
  ordered list of values. It also detects repeated prefixes.
- `ParserUtil` parses the index, the field values and the tag sets, including the three-state
  `parseTagsForEdit` that both command parsers carry. The syntax of each field is a parameter
  of type `FieldRules`.
- `Commands` holds the edit descriptor, both as a mutable class (`EditPersonDescriptor`) and as
  a frozen value (`Descriptor`). It also holds the builder that the tests use to state the
  expected descriptors.
- `TagCommandParser` holds the parse as a specification function (`ParseResult`) and the
  parse as an imperative method (`Parse`). The method fills a fresh
  mutable descriptor and is proved equal to the function.
- `EditCommandParser` holds the edit parse as a function. A reference definition (`Expected`)
  states the intended outcome directly from the arguments the user wrote. A lemma proves that
  the parser meets it.

Many lemmas speak of argument strings written as `pre p1/v1 p2/v2 ...` (`Render`), where no
piece contains a recognised prefix (`NoMatch`, `PlainArgs`). The pieces may carry spaces,
which the tokenizer trims. Every string can be written this way: `RawChunks` cuts any string
into such pieces and renders back to it. So the lemmas about rendered strings cover every
input.

## Model

| member | source | states |
|---|---|---|
| ArgumentTokenizer.Tokenize | src/main/java/hirehive/address/logic/parser/TagCommandParser.java:29-31 | The preamble and every value come out trimmed. A prefix that was not asked for never has a value. |
| ArgumentTokenizer.Chunks | src/main/java/hirehive/address/logic/parser/TagCommandParser.java:29-31 | The preamble and every value are trimmed. Every argument carries one of the prefixes asked for. |
| ArgumentTokenizer.ChunksOfRender | src/main/java/hirehive/address/logic/parser/TagCommandParser.java:29-31 | Scanning `pre p1/v1 p2/v2 ...` gives back the trimmed preamble and the trimmed arguments, in order. |
| ArgumentTokenizer.TokenizeRender | src/main/java/hirehive/address/logic/parser/TagCommandParser.java:29-31 | Tokenizing a rendered string gives the multimap of its trimmed preamble and trimmed values. |
| ArgumentTokenizer.RawChunks | src/main/java/hirehive/address/logic/parser/TagCommandParser.java:29-31 | Every argument string is the rendering of a preamble and arguments, none of which contains a recognised prefix. |
| ArgumentTokenizer.TokenizeAnyString | src/main/java/hirehive/address/logic/parser/TagCommandParser.java:29-31 | On any string, the tokenizer's multimap is built from the trimmed pieces of `RawChunks`. |
| ArgumentTokenizer.TrimValuesShape | src/main/java/hirehive/address/logic/parser/TagCommandParser.java:29-31 | Trimming the values keeps which prefixes occur and how often each does. Every trimmed value is trimmed. |
| ArgumentTokenizer.TokenizeRenderPlain | src/main/java/hirehive/address/logic/parser/TagCommandParser.java:29-31 | Round trip: tokenizing a rendered string gives back its preamble and, for every prefix, the ordered list of that prefix's values. An absent prefix gets an empty list. |
| ArgumentTokenizer.BuildMultimap | src/main/java/hirehive/address/logic/parser/TagCommandParser.java:43 | The multimap keeps the preamble. `getAllValues` of a prefix is the ordered list of its occurrences' values, and the empty list when the prefix is absent. |
| ArgumentTokenizer.CollectAbsent | src/main/java/hirehive/address/logic/parser/TagCommandParser.java:43 | A prefix that never occurs has no values. |
| ArgumentTokenizer.UnrecognisedMarkerIsText | src/main/java/hirehive/address/logic/parser/TagCommandParser.java:29-31 | The marker of a prefix that is not asked for is ordinary text, so the string still contains no recognised prefix. |
| ArgumentTokenizer.NoSpaceHasNoMatch | src/test/java/hirehive/address/logic/parser/EditCommandParserTest.java:45-48 | A prefix is recognised only after a space, so a text without spaces contains none. |
| ArgumentTokenizer.JoinHasNoMatch | src/test/java/hirehive/address/logic/parser/EditCommandParserTest.java:51-54 | Words joined by a space contain no prefix unless a word starts with a recognised marker. |
| ArgumentTokenizer.LastValue | src/test/java/hirehive/address/logic/parser/EditCommandParserTest.java:62-67 | `getValue` is empty exactly when the prefix has no values. Otherwise it is one of those values. |
| ArgumentTokenizer.DuplicatedPrefixes | src/test/java/hirehive/address/logic/parser/EditCommandParserTest.java:171-185 | A prefix is reported exactly when it is one of the command's prefixes and has more than one value. |
| ArgumentTokenizer.DuplicatesDependOnlyOnRepeats | src/test/java/hirehive/address/logic/parser/EditCommandParserTest.java:171-185 | The report depends only on which prefixes repeat, not on the values or how often they repeat. |
| ArgumentTokenizer.NoDuplicatesWithoutRepeats | src/test/java/hirehive/address/logic/parser/EditCommandParserTest.java:89-153 | Nothing is reported when no prefix repeats. |
| StringUtil.Trim | src/main/java/hirehive/address/logic/parser/TagCommandParser.java:29-31 | `String.trim`: the result has no space at either end. It is a piece of the input with only spaces around it. A string without surrounding spaces is unchanged. |
| StringUtil.TrimIdempotent | src/main/java/hirehive/address/logic/parser/TagCommandParser.java:35 | Trimming twice is trimming once. |
| StringUtil.NumeralRoundTrip | src/main/java/hirehive/address/logic/parser/TagCommandParser.java:35 | Reading back the decimal spelling of a number gives the number. |
| ParserUtil.ParseIndex | src/main/java/hirehive/address/logic/parser/TagCommandParser.java:35 | An accepted index lies in 1..MAX_INDEX. A rejected one is either an invalid index or out of range. |
| ParserUtil.ParseIndexTrims | src/main/java/hirehive/address/logic/parser/TagCommandParser.java:35 | Spaces around the index make no difference. |
| ParserUtil.ParseIndexOfNumeral | src/test/java/hirehive/address/logic/parser/EditCommandParserTest.java:36 | Every index in 1..MAX_INDEX, written in decimal, is accepted as itself. |
| ParserUtil.ParseIndexTooLarge | src/test/java/hirehive/address/logic/parser/EditCommandParserTest.java:57 | A numeral beyond MAX_INDEX is out of range, not invalid. |
| ParserUtil.ParseIndexMalformed | src/test/java/hirehive/address/logic/parser/EditCommandParserTest.java:33-54 | An empty preamble, zero, and any preamble holding a non-digit are invalid indexes. |
| ParserUtil.ParseField | src/test/java/hirehive/address/logic/parser/EditCommandParserTest.java:62-67 | A value is accepted exactly when its trimmed text satisfies the field's rule. The accepted value is trimmed and satisfies the rule. A failure names the field being parsed. |
| ParserUtil.ParseFieldIdempotent | src/test/java/hirehive/address/logic/parser/EditCommandParserTest.java:62-67 | The accepted value is the trimmed text, and it parses to itself again. |
| ParserUtil.ParseTags | src/main/java/hirehive/address/logic/parser/TagCommandParser.java:64 | It succeeds exactly when every trimmed name is a valid tag. The result is the set of trimmed names. A failure is the tag constraint error. |
| Commands.EditPersonDescriptor.constructor | src/main/java/hirehive/address/logic/parser/TagCommandParser.java:41 | A new descriptor has no slot set. |
| Commands.EditPersonDescriptor.SetTags | src/main/java/hirehive/address/logic/parser/TagCommandParser.java:43 | It sets the tag slot, possibly to the empty set, and changes nothing else. |
| Commands.EditPersonDescriptor.IsAnyFieldEdited | src/main/java/hirehive/address/logic/parser/TagCommandParser.java:45 | True exactly when some slot is set. An empty tag set counts as set. |
| Commands.PopulatedTagsOnly | src/main/java/hirehive/address/logic/parser/TagCommandParser.java:41-49 | A descriptor that only touches tags sets the tag slot or nothing. |
| Commands.With | src/test/java/hirehive/address/logic/parser/EditCommandParserTest.java:94-96 | A builder step sets its own field's slot to the value and leaves every other slot alone. An empty tag value means "no tags". |
| Commands.BuiltPopulatesSupplied | src/test/java/hirehive/address/logic/parser/EditCommandParserTest.java:89-153 | A built descriptor sets exactly the fields that were supplied. |
| Commands.BuiltTextSlot | src/test/java/hirehive/address/logic/parser/EditCommandParserTest.java:89-153 | Each text slot of a built descriptor holds the last value supplied for its field. |
| Commands.BuiltTagSlot | src/test/java/hirehive/address/logic/parser/EditCommandParserTest.java:94-96 | The tag slot reflects the last tag value supplied. An empty value means the empty set. |
| ParserUtil.ParseTagsForEdit | src/main/java/hirehive/address/logic/parser/TagCommandParser.java:57-65 | No values gives "absent". A lone empty value gives the empty set. Anything else succeeds exactly when every value is a valid tag, and gives the set of trimmed values. Otherwise the error is the tag constraint error. |
| TagCommandParser.ParseResult | src/main/java/hirehive/address/logic/parser/TagCommandParser.java:27-50 | Success is a tag command whose descriptor sets only the tag slot. Every failure is one of three errors: the tag command's format error, its "not edited" error, or the tag constraint error. |
| TagCommandParser.Parse | src/main/java/hirehive/address/logic/parser/TagCommandParser.java:27-50 | The imperative parse, which fills a fresh mutable descriptor through `SetTags`, returns exactly what `ParseResult` specifies. |
| TagCommandParser.TagParseOfRendered | src/main/java/hirehive/address/logic/parser/TagCommandParser.java:34-47 | For every rendered input, with spaces around the parts trimmed, a bad index is always the tag command's format error, even when the tags are invalid too. Otherwise no tags means "not edited". A lone empty tag clears the tags. Other tags succeed exactly when all are valid, giving their set. |
| TagCommandParser.TagParseOfAnyString | src/main/java/hirehive/address/logic/parser/TagCommandParser.java:27-50 | The same outcome for every argument string, read through the pieces of `RawChunks`. |
| TagCommandParser.TagsAccepted | src/main/java/hirehive/address/logic/parser/TagCommandParser.java:43-49 | Two or more tag values, all valid, are accepted as the set of tags. |
| TagCommandParser.TagsCleared | src/main/java/hirehive/address/logic/parser/TagCommandParser.java:60-64 | A lone tag value that trims to nothing clears the tags. |
| TagCommandParser.TagClearAllSpaced | src/main/java/hirehive/address/logic/parser/TagCommandParser.java:60-64 | `INDEX  t/ `, with extra spaces, still clears the tags. |
| TagCommandParser.TagIndexOnly | src/main/java/hirehive/address/logic/parser/TagCommandParser.java:43-47 | An index without any tag is the "not edited" error. |
| TagCommandParser.TagClearAll | src/main/java/hirehive/address/logic/parser/TagCommandParser.java:63-64 | `INDEX t/` succeeds with the tag slot set to the empty set, whatever the tag rules. |
| TagCommandParser.TagRepeated | src/main/java/hirehive/address/logic/parser/TagCommandParser.java:57-64 | There is no duplicate check. Two tag occurrences are both collected, and both trimmed values land in the tag set. |
| TagCommandParser.TagEmptyAmongOthers | src/main/java/hirehive/address/logic/parser/TagCommandParser.java:63-64 | An empty tag beside other tags is passed on as a tag name. When the empty name is not a valid tag, the parse fails with the tag constraint error. |
| TagCommandParser.TagOtherPrefixInPreamble | src/main/java/hirehive/address/logic/parser/TagCommandParser.java:29-39 | Another field's prefix after the index stays in the preamble, so the result is the tag command's format error. |
| EditCommandParser.ParseOptional | src/test/java/hirehive/address/logic/parser/EditCommandParserTest.java:62-67 | An absent field leaves its slot unset. A present field succeeds exactly when its trimmed value satisfies the field's rule. Otherwise the error names that field. |
| EditCommandParser.BuildDescriptor | src/test/java/hirehive/address/logic/parser/EditCommandParserTest.java:62-86 | Building the descriptor can only fail with a field constraint error. |
| EditCommandParser.Parse | src/test/java/hirehive/address/logic/parser/EditCommandParserTest.java:31-186 | Success is an edit command with some slot set. A duplicate report is non-empty and names only prefixes given more than once. A constraint error only arises when no prefix repeats. A format error only arises when the preamble is empty. |
| EditCommandParser.FirstInvalid | src/test/java/hirehive/address/logic/parser/EditCommandParserTest.java:70-86 | The reported field was supplied with an unacceptable value. When none is reported, every supplied value is acceptable. |
| EditCommandParser.FirstInvalidIsFirst | src/test/java/hirehive/address/logic/parser/EditCommandParserTest.java:70-86 | The first failing field in the fixed order is the one reported. |
| EditCommandParser.TextFieldStep | src/test/java/hirehive/address/logic/parser/EditCommandParserTest.java:62-67 | A text field fails exactly when its supplied value is unacceptable. Otherwise it fills the slot the builder would fill. |
| EditCommandParser.TagFieldStep | src/test/java/hirehive/address/logic/parser/EditCommandParserTest.java:66 | The tag field fails exactly when a non-empty, invalid tag is supplied. Otherwise it fills the builder's tag slot. |
| EditCommandParser.BuildDescriptorOfGrouped | src/test/java/hirehive/address/logic/parser/EditCommandParserTest.java:62-86 | Without repeats, building stops at the first unacceptable field in the fixed order. Otherwise it yields the builder's descriptor. |
| EditCommandParser.BuiltEmpty | src/test/java/hirehive/address/logic/parser/EditCommandParserTest.java:36 | A built descriptor sets nothing exactly when no field was supplied. |
| EditCommandParser.EditParseOfTokens | src/test/java/hirehive/address/logic/parser/EditCommandParserTest.java:31-186 | The parser gives the reference outcome for the preamble and trimmed arguments that the tokenizer found. |
| EditCommandParser.EditParseOfRendered | src/test/java/hirehive/address/logic/parser/EditCommandParserTest.java:31-186 | On every rendered input the parser gives the reference outcome for the trimmed preamble and trimmed values. The precedence is: empty preamble, index error as is, every repeated prefix at once, first invalid field, "not edited". Otherwise success with the builder's descriptor. |
| EditCommandParser.EditParseOfAnyString | src/test/java/hirehive/address/logic/parser/EditCommandParserTest.java:31-186 | The same for every argument string, read through the pieces of `RawChunks`. |
| EditCommandParser.EditEmptyInput | src/test/java/hirehive/address/logic/parser/EditCommandParserTest.java:39 | Empty input is the edit command's format error. |
| EditCommandParser.EditIndexOnly | src/test/java/hirehive/address/logic/parser/EditCommandParserTest.java:36 | An index with no field is the "not edited" error. |
| EditCommandParser.EditMalformedIndex | src/test/java/hirehive/address/logic/parser/EditCommandParserTest.java:33-54 | A preamble that is zero or holds a non-digit is an invalid index, whatever fields follow. |
| EditCommandParser.EditNegativeIndex | src/test/java/hirehive/address/logic/parser/EditCommandParserTest.java:45 | A negative index is invalid. |
| EditCommandParser.EditZeroIndex | src/test/java/hirehive/address/logic/parser/EditCommandParserTest.java:48 | Zero is an invalid index. |
| EditCommandParser.EditTextAfterIndex | src/test/java/hirehive/address/logic/parser/EditCommandParserTest.java:51-54 | Free words, or an unknown prefix such as `z/`, after the index stay in the preamble and make the index invalid. |
| EditCommandParser.EditIndexOutOfRange | src/test/java/hirehive/address/logic/parser/EditCommandParserTest.java:57 | A numeral beyond MAX_INDEX is the out-of-range error, whatever fields follow. |
| EditCommandParser.EditDuplicatesBeforeValues | src/test/java/hirehive/address/logic/parser/EditCommandParserTest.java:160-169 | A repeated prefix gives the duplicate error whatever the field rules say about the values. |
| EditCommandParser.EditDuplicatesIgnoreOrder | src/test/java/hirehive/address/logic/parser/EditCommandParserTest.java:171-185 | Inputs whose repeated prefixes are the same get the same duplicate error, whatever the order and values of the arguments. |
| EditCommandParser.InOrderOfEdit | src/test/java/hirehive/address/logic/parser/EditCommandParserTest.java:171-185 | The members of a set of prefixes, in the edit command's order, written out field by field. |
| EditCommandParser.DuplicatesInOrder | src/test/java/hirehive/address/logic/parser/EditCommandParserTest.java:171-185 | The duplicate report lists the repeated prefixes in the command's fixed prefix order. |
| EditCommandParser.EditDuplicateReport | src/test/java/hirehive/address/logic/parser/EditCommandParserTest.java:171-185 | When the repeated prefixes are exactly S, the error lists S in the order name, phone, email, address, tag, date. |
| EditCommandParser.EditRepeatedPhone | src/test/java/hirehive/address/logic/parser/EditCommandParserTest.java:160-169 | A repeated phone is reported alone, whether its values are valid or invalid. |
| EditCommandParser.EditRepeatedFourFields | src/test/java/hirehive/address/logic/parser/EditCommandParserTest.java:171-178 | Repeated phone, address, email and tag are reported as [phone, email, address, tag]. |
| EditCommandParser.EditRepeatedThreeFields | src/test/java/hirehive/address/logic/parser/EditCommandParserTest.java:180-185 | Repeated phone, address and email are reported as [phone, email, address]. |
| EditCommandParser.EditEmptyTagAmongOthers | src/test/java/hirehive/address/logic/parser/EditCommandParserTest.java:72-82 | An empty tag beside other tags, in any position, is the duplicate error for the tag prefix. |
| EditCommandParser.EditWithoutRepeats | src/test/java/hirehive/address/logic/parser/EditCommandParserTest.java:62-112 | Without repeats and with a valid index, the outcome is the first invalid field, else "not edited" for no fields, else the builder's descriptor of the trimmed values. |
| EditCommandParser.EditFirstInvalidWins | src/test/java/hirehive/address/logic/parser/EditCommandParserTest.java:62-86 | Without repeats, the error names the first field in the fixed order whose trimmed value is unacceptable. Later invalid fields are ignored. |
| EditCommandParser.EditSuccess | src/test/java/hirehive/address/logic/parser/EditCommandParserTest.java:89-112 | With a valid index, no repeats and only acceptable values, the command carries the builder's descriptor. That descriptor sets exactly the supplied fields, each to its trimmed supplied value. |
| EditCommandParser.EditSingleField | src/test/java/hirehive/address/logic/parser/EditCommandParserTest.java:114-153 | One acceptable field after a valid index sets that field's slot to the trimmed value and nothing else. |

## Left out

- `ArgumentTokenizer`, `ArgumentMultimap`, `ParserUtil`, `EditCommandParser`, `EditCommand`,
  `Messages` and the model classes (`Name`, `Tag`, ...) are not part of this model's source.
  Their behaviour is modelled from how `TagCommandParser` uses them and from what
  `EditCommandParserTest` asserts.
- The syntax of names, phones, emails, addresses, tags and interview dates is a parameter
  (`FieldRules`). Regular expressions and calendar parsing are not modelled.
- Error messages are constructors of `ParseError`, not formatted text. The usage strings and
  the exception cause chain of `ParseException` are not modelled.
- `ParseIndex` accepts ASCII digits only. The numeric bound is the constant
  `MAX_INDEX = 2147483647`. Other details of Java's `Integer.parseInt` are not modelled,
  such as its acceptance of non-ASCII decimal digits.
- The tokenizer recognises a prefix only directly after a space character, as a search for
  `" " + prefix` does. The application passes the text after the command word, which keeps
  its leading space. A prefix at the very start of the string, or after a tab, is not
  recognised.
- The date field's marker letter is not visible in the tests. `i/` is assumed. Only the fact
  that the markers are distinct matters to the proofs.
- The edit parser's order of checks is: empty preamble, then index, then repeated prefixes,
  then field values, then "not edited". The tests fix only part of this order. The index is
  checked before repeats, as in the upstream address-book parser this code derives from.
  Every duplicate test uses a valid index, so the tests agree with either order.
- EditCommandParser.Parse: an empty preamble is reported as the edit command's format error.
  Any other bad preamble gives the index error unwrapped, as the tests assert. Whether the
  original checks the preamble or the whole argument string for emptiness is not visible, so
  the contract states only the preamble case. The full outcome is stated by
  `EditParseOfRendered`.
- The tag command wraps every index error in its own format error, as its source does. The
  edit command reports index errors unwrapped, as its tests assert. The model keeps the
  difference.
- A command holds a frozen copy of the descriptor (`Snapshot`), not a reference to the
  mutable object. Aliasing of the descriptor after the hand-off is not modelled.
- Tags are modelled as the set of their names. Tag objects compare equal by name.
- The edit parser is modelled as a function. Its test treats it as a map from input string
  to result, so its in-place descriptor updates are not modelled.
- `parseTagsForEdit` is private to `TagCommandParser`. The edit parser is taken to carry the
  same helper, so both use `ParserUtil.ParseTagsForEdit`.
- A few lemmas about concrete input shapes (`EditMalformedIndex`, `EditTextAfterIndex`,
  `TagOtherPrefixInPreamble`) take their parts without surrounding spaces.
  The general lemmas (`TagParseOfAnyString`, `EditParseOfAnyString`) state the outcome for
  every string.
- Command execution, the person model, storage, the UI and all I/O are out of scope.
