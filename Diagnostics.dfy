/**
 * The warnings a parse issues. The source hands each one to `Parser.warn`,
 * which prefixes the program name and passes the text to the host's warning
 * machinery; here each is an event appended to a log, one case per warning method.
 */
module Diagnostics {

  datatype Diag =
    | UnrecognizedOption(option: string)                            // warnAboutUnrecognizedOption
    | InvalidOption(flag: char)                                     // warnAboutInvalidOption
    | AmbiguousOption(option: string, possibilities: seq<string>)   // warnAboutAmbigousOption
    | NotAllowedArgument(option: string)                            // warnAboutNotAllowedArgument
    | RequiredArgument(option: string)                              // warnAboutRequiredArgument
}
