/** What the parser hands on: located symbols of a file. */
module Spans {
  import opened Prelude

  datatype SymbolSpan = SymbolSpan(
    name: string,
    kind: string,
    source: string,
    lineStart: int,
    lineEnd: int,
    byteStart: nat,
    byteEnd: nat,
    parent: Option<string>,
    signature: string,
    complexity: int)

  datatype ParsedFile = ParsedFile(path: string, language: string, source: string, symbols: seq<SymbolSpan>,
                                   parseFailed: bool)
}
