/** The failures a command parser reports, one constructor per message kind (Messages). */
module Messages {
  import opened CliSyntax

  /** The command whose usage string or "not edited" message a failure refers to. */
  datatype CommandWord = EditWord | TagWord

  datatype ParseError =
    /** MESSAGE_INVALID_COMMAND_FORMAT formatted with the command's MESSAGE_USAGE */
    | InvalidCommandFormat(usage: CommandWord)
    /** ParserUtil.MESSAGE_INVALID_INDEX: the preamble is not a positive integer */
    | InvalidIndex
    /** ParserUtil.MESSAGE_OUT_OF_RANGE: the preamble is a number too large for an index */
    | IndexOutOfRange
    /** getErrorMessageForDuplicatePrefixes: every repeated prefix, in the command's fixed order */
    | DuplicatePrefixes(prefixes: seq<Prefix>)
    /** The MESSAGE_CONSTRAINTS of the field that the prefix introduces */
    | ConstraintViolation(field: Prefix)
    /** The command's MESSAGE_NOT_EDITED: no field of the descriptor was set */
    | NotEdited(command: CommandWord)
}
