/**
 * Command suggestions in keybindings.json (extension.ts, registerKeybindingsCompletions).
 *
 * The provider is registered once with the command ids the host reports at that moment
 * through `getCommands(true)`, which leaves out internal ids (those starting with `_`);
 * a command registered later is never offered. Every request maps that same list, so
 * the provider is a value closing over it.
 */
module KeybindingsCompletions {
  import opened Options
  import opened JsonLocation
  import opened CompletionItems
  import JsonString

  /** The name path segment 1 must have, whatever segment 0 is and whether on key or value. */
  const CommandProperty: string := "command"

  datatype KeybindingsProvider = KeybindingsProvider(commands: seq<string>)
  {
    /**
     * Suggestions for a request at `location`, None (no suggestions) unless path
     * segment 1 is the property `command`, with the cursor on its key or in its value:
     * unlike the settings provider, this one never looks at `isAtPropertyKey`. Then one value item
     * per command id, in the order of the ids, each labelled with the quoted id,
     * without documentation, and all replacing the same range.
     */
    function ProvideCompletionItems(location: Location, position: Position, wordRange: Option<Range>)
      : (r: Option<seq<CompletionItem>>)
      ensures r.Some? <==> SegmentIs(location.path, 1, CommandProperty)
      ensures |location.path| < 2 ==> r.None?
      ensures r.Some? ==> |r.value| == |commands|
      ensures r.Some? ==> forall i :: 0 <= i < |r.value| ==>
        && r.value[i].labelText == JsonString.Quote(commands[i])
        && r.value[i].kind == Value
        && r.value[i].documentation == None
        && r.value[i].textEdit == TextEdit(ReplacementRange(wordRange, position), r.value[i].labelText)
    {
      if SegmentIs(location.path, 1, CommandProperty) then
        var range := ReplacementRange(wordRange, position);
        Some(seq(|commands|, i requires 0 <= i < |commands| => NewCompletionItem(commands[i], range, None)))
      else
        None
    }
  }

  /** Whether the cursor is on a property key does not change the suggestions. */
  lemma PropertyKeyIgnored(
    provider: KeybindingsProvider, path: seq<Segment>, position: Position, wordRange: Option<Range>)
    ensures provider.ProvideCompletionItems(Location(path, true), position, wordRange)
         == provider.ProvideCompletionItems(Location(path, false), position, wordRange)
    ensures SegmentIs(path, 1, CommandProperty) ==>
      provider.ProvideCompletionItems(Location(path, true), position, wordRange).Some?
  {
  }

  function Labels(items: seq<CompletionItem>): seq<string>
  {
    seq(|items|, i requires 0 <= i < |items| => items[i].labelText)
  }

  /**
   * Two requests that both offer commands offer the same labels, those of the ids
   * taken at registration, whatever their locations, positions and word ranges.
   */
  lemma SameCommandsForEveryRequest(
    provider: KeybindingsProvider,
    location1: Location, position1: Position, wordRange1: Option<Range>,
    location2: Location, position2: Position, wordRange2: Option<Range>)
    requires SegmentIs(location1.path, 1, CommandProperty)
    requires SegmentIs(location2.path, 1, CommandProperty)
    ensures provider.ProvideCompletionItems(location1, position1, wordRange1).Some?
    ensures provider.ProvideCompletionItems(location2, position2, wordRange2).Some?
    ensures Labels(provider.ProvideCompletionItems(location1, position1, wordRange1).value)
         == Labels(provider.ProvideCompletionItems(location2, position2, wordRange2).value)
         == seq(|provider.commands|, i requires 0 <= i < |provider.commands| => JsonString.Quote(provider.commands[i]))
  {
    var items1 := provider.ProvideCompletionItems(location1, position1, wordRange1).value;
    var items2 := provider.ProvideCompletionItems(location2, position2, wordRange2).value;
    assert |Labels(items1)| == |Labels(items2)| == |provider.commands|;
  }

  /** Distinct command ids give distinct suggestions. */
  lemma DistinctCommandsDistinctLabels(
    provider: KeybindingsProvider, location: Location, position: Position, wordRange: Option<Range>,
    i: nat, j: nat)
    requires SegmentIs(location.path, 1, CommandProperty)
    requires i < |provider.commands| && j < |provider.commands|
    requires provider.commands[i] != provider.commands[j]
    ensures provider.ProvideCompletionItems(location, position, wordRange).Some?
    ensures provider.ProvideCompletionItems(location, position, wordRange).value[i].labelText
         != provider.ProvideCompletionItems(location, position, wordRange).value[j].labelText
  {
    var items := provider.ProvideCompletionItems(location, position, wordRange).value;
    if items[i].labelText == items[j].labelText {
      JsonString.QuoteInjective(provider.commands[i], provider.commands[j]);
    }
  }
}
