/**
 * The logging collaborator (spdlog). Messages are kept as structured entries
 * rather than formatted text; field widths such as `{:3d}` are cosmetic.
 */
module Logging {

  datatype LogEntry =
    | CompileHeader(severity: string, stageName: string)  // warn: "<severity> during <stage> shader compilation."
    | SourceLine(number: int, text: string)            // info: "<number>:\t<text>"
    | CompileLog(text: string)                         // warn: "Compilation log: <text>"
    | LinkError(text: string)                          // warn: "Linking error: <text>"
    | UnsupportedType                                  // error: "Unsupported type"

  class Logger {
    var entries: seq<LogEntry>

    constructor ()
      ensures entries == []
    {
      entries := [];
    }

    method Append(es: seq<LogEntry>)
      modifies this
      ensures entries == old(entries) + es
    {
      entries := entries + es;
    }
  }
}
