/**
 * Completion items as the editor host receives them, and the builder both providers
 * share (extension.ts, newCompletionItem).
 */
module CompletionItems {
  import opened Options
  import JsonString

  datatype Position = Position(line: nat, character: nat)

  datatype Range = Range(start: Position, end: Position)

  /** The editor host's completion item kinds. */
  datatype CompletionItemKind =
    | Text | Method | Function | Constructor | Field | Variable | Class | Interface
    | Module | Property | Unit | Value | Enum | Keyword | Snippet | Color | File | Reference

  datatype TextEdit = TextEdit(range: Range, newText: string)

  /** `labelText` is the host's `label` (a reserved word in Dafny). */
  datatype CompletionItem = CompletionItem(
    labelText: string,
    kind: CompletionItemKind,
    documentation: Option<string>,
    textEdit: TextEdit)

  /**
   * The range a response's items replace: the word at the cursor when there is
   * one, otherwise the empty range at the cursor.
   */
  function ReplacementRange(wordRange: Option<Range>, position: Position): (r: Range)
    ensures wordRange.Some? ==> r == wordRange.value
    ensures wordRange.None? ==> r.start == r.end == position
  {
    match wordRange
    case Some(word) => word
    case None => Range(position, position)
  }

  /**
   * A value suggestion for `text`: its label is the JSON string literal of `text`,
   * and accepting it replaces exactly `range` with that literal.
   */
  function NewCompletionItem(text: string, range: Range, documentation: Option<string>): (item: CompletionItem)
    ensures item.labelText == JsonString.Quote(text)
    ensures JsonString.Unquote(item.labelText) == Some(text)
    ensures item.kind == Value
    ensures item.documentation == documentation
    ensures item.textEdit.range == range && item.textEdit.newText == item.labelText
  {
    JsonString.UnquoteQuote(text);
    var quoted := JsonString.Quote(text);
    CompletionItem(quoted, Value, documentation, TextEdit(range, quoted))
  }
}
