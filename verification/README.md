# Completion providers of the configuration-editing extension

A Dafny model of the two completion providers that the editor's configuration-editing
extension registers (`extensions/configuration-editing/src/extension.ts`):

- in `keybindings.json`, whenever path segment 1 is the property `command` (with the
  cursor on its key or in its value: this provider never reads `isAtPropertyKey`),
  every non-internal command id the host knew when the provider was registered is
  offered (`getCommands(true)` drops ids starting with `_`);
- in `settings.json`, when the cursor is in the value of `files.iconTheme` (and not on
  the key), every icon theme that an installed extension contributes under
  `contributes.fileIcons` is offered, except the built-in `vs-standard`.

Both providers build their suggestions with `newCompletionItem`. It makes a value item
labelled with the JSON string literal of the candidate. The item carries the optional
documentation, and its edit replaces a range with the label. That range is the word at
the cursor, or the empty range at the cursor when there is no word.

The host's collaborators are inputs:

- the JSONC parser's location is a `Location` record (path segments and whether the
  cursor is on a property key);
- the word range at the cursor is an `Option<Range>`;
- the command ids resolved at registration are a `seq<string>` held by the provider value;
  that the host filters out internal ids is the host's part, not modelled here;
- the installed extensions are a `seq<Extension>`, where each package.json is typed down
  to what the provider reads.

Files:

- `options.dfy` holds `Option`.
- `json_string.dfy` holds `Quote`, the string-literal encoding of section 7 of RFC 8259,
  written as ECMAScript's `JSON.stringify` writes it. It also holds its decoder `Unquote`.
- `json_location.dfy` holds the parser's location and the path test `path[i] === name`.
- `completion_items.dfy` holds the item types, the range fallback and `newCompletionItem`.
- `keybindings_completions.dfy` holds the keybindings provider. It is pure: a test on the
  location, then a map over the ids.
- `settings_completions.dfy` holds the icon-theme provider. It is a method with the
  source's nested walk over the extensions and their `fileIcons` entries, proved equal
  to `IconThemeItems`. `IconThemeItems` is a declarative specification: it flattens the
  well-formed `fileIcons` arrays, filters out `vs-standard`, and maps each remaining
  entry to an item.

## Model

| member | source | states |
|---|---|---|
| `JsonString.Quote` | extensions/configuration-editing/src/extension.ts:62 | the label text is a JSON string literal: it starts and ends with a quotation mark |
| `JsonString.UnquoteQuote` | extensions/configuration-editing/src/extension.ts:62 | the quoted text is a well-formed JSON string literal that decodes back to exactly the candidate string |
| `JsonString.QuoteInjective` | extensions/configuration-editing/src/extension.ts:62 | two candidates with the same label are the same string |
| `JsonLocation.SegmentIs` | extensions/configuration-editing/src/extension.ts:27 | `path[i] === name` (also line 41): false when the segment is missing (undefined) or an array index (a number); for a property-name segment, true iff the name matches |
| `CompletionItems.ReplacementRange` | extensions/configuration-editing/src/extension.ts:29 | the replacement range is the word range when there is one, otherwise the empty range at the cursor (also line 43) |
| `CompletionItems.NewCompletionItem` | extensions/configuration-editing/src/extension.ts:61-70 | the item's label is `Quote(text)` and decodes back to `text`; its kind is Value; its documentation is the argument; its edit replaces exactly the given range with the label |
| `KeybindingsCompletions.KeybindingsProvider.ProvideCompletionItems` | extensions/configuration-editing/src/extension.ts:25-32 | suggestions exist iff path segment 1 exists and is the property `command`, so a path shorter than 2 yields none; they are one item per command id in the same order, each labelled `Quote(id)`, kind Value, no documentation, all replacing the same fallback range |
| `KeybindingsCompletions.PropertyKeyIgnored` | extensions/configuration-editing/src/extension.ts:27 | the keybindings test reads only path segment 1: being on a property key changes nothing, so the ids are offered on the `command` key itself too |
| `KeybindingsCompletions.SameCommandsForEveryRequest` | extensions/configuration-editing/src/extension.ts:21-30 | the id list is fixed at registration: any two requests that offer commands offer the same labels, the quoted registered ids |
| `KeybindingsCompletions.DistinctCommandsDistinctLabels` | extensions/configuration-editing/src/extension.ts:30 | distinct command ids give suggestions with distinct labels |
| `SettingsCompletions.ProvideCompletionItems` | extensions/configuration-editing/src/extension.ts:39-57 | suggestions exist iff the cursor is not on a property key and path segment 0 is `files.iconTheme`; a property key alone rules them out whatever the path; when they exist, the items pushed by the nested walk equal `IconThemeItems` over the fallback range |
| `SettingsCompletions.IsIconThemeValue` | extensions/configuration-editing/src/extension.ts:41 | false whenever the cursor is on a property key; otherwise true iff path segment 0 is the property `files.iconTheme` |
| `SettingsCompletions.FileIconsContributions` | extensions/configuration-editing/src/extension.ts:46-47 | the entries are read iff `contributes` is present and its `fileIcons` is an array, and then they are that array's entries; a missing `contributes`, a missing `fileIcons` or a non-array gives none |
| `SettingsCompletions.PushOfferedItems` | extensions/configuration-editing/src/extension.ts:48-52 | the inner walk appends to what was pushed before one item per entry whose id is not `vs-standard`, in entry order |
| `SettingsCompletions.ContributionStep` | extensions/configuration-editing/src/extension.ts:49-50 | one more entry adds its item exactly when its id is not `vs-standard` |
| `SettingsCompletions.ExtensionStep` | extensions/configuration-editing/src/extension.ts:45-54 | walking one more extension appends the items of that extension's offered entries |
| `SettingsCompletions.IconThemeItemsAppend` | extensions/configuration-editing/src/extension.ts:45 | the items for a list of extensions are those of its parts, in extension order |
| `SettingsCompletions.DeclaredAppend` | extensions/configuration-editing/src/extension.ts:45-47 | the declared entries of a list of extensions are those of its parts, in order |
| `SettingsCompletions.NotReservedAppend` | extensions/configuration-editing/src/extension.ts:48-49 | dropping `vs-standard` entries distributes over concatenation |
| `SettingsCompletions.DeclaredMembership` | extensions/configuration-editing/src/extension.ts:45-48 | an entry is declared iff some installed extension's well-formed `fileIcons` array holds it |
| `SettingsCompletions.NotReservedMembership` | extensions/configuration-editing/src/extension.ts:49 | an entry is kept iff it is declared and its id is not `vs-standard` |
| `SettingsCompletions.NotReservedNoneReserved` | extensions/configuration-editing/src/extension.ts:48-52 | a list with no `vs-standard` entry comes back unchanged |
| `SettingsCompletions.NotReservedCount` | extensions/configuration-editing/src/extension.ts:49 | the kept entries number the entries minus the occurrences of the id `vs-standard` |
| `SettingsCompletions.IconThemeItemsCount` | extensions/configuration-editing/src/extension.ts:45-55 | the number of suggestions equals the number of declared entries whose id is not `vs-standard` |
| `SettingsCompletions.IconThemeItemsMembership` | extensions/configuration-editing/src/extension.ts:45-55 | an item is offered iff it is built, with that entry's label as documentation, from a declared entry whose id is not `vs-standard` |
| `SettingsCompletions.IconThemeItemsShape` | extensions/configuration-editing/src/extension.ts:49-50 | no offered item is the `vs-standard` suggestion; every item is a Value item replacing the request's shared range |
| `SettingsCompletions.MalformedExtensionAddsNothing` | extensions/configuration-editing/src/extension.ts:46-47 | an extension without `contributes`, or whose `fileIcons` is missing or not an array, adds nothing and fails nothing, wherever it stands in the list |

## Left out

- `activate`, the subscription of the two disposables and the document filters
  (`**/keybindings.json`; `**/settings.json` with language `json`): these are host
  registration. A provider here is only called for documents those filters would pass.
- `getLocation` from the JSONC parser: its result is the `Location` input.
- `document.getText`, `offsetAt` and `getWordRangeAtPosition`: these are host text-model
  calls. The word range is an input.
- The promise returned by `vscode.commands.getCommands(true)` and `commands.then`: the
  model holds the resolved id list. A rejected promise, and when it resolves, belong to the host.
- The cancellation token: the source never reads it.
- Non-string values where the source expects strings: a command id or a contribution `id`
  or `label` that is not a string, and `JSON.stringify(undefined)`. Ids and labels are
  strings here.
- A `fileIcons` array entry that is not an object: a `null` entry would make the source
  throw on `contribution.id`. Entries are `Contribution` records here.
- `JsonString.Unquote` does not decode surrogate-pair `\u` escapes. `Quote` never writes
  them, because every Dafny `char` is a Unicode scalar value, so the lone surrogates that
  `JSON.stringify` would escape cannot occur.
- Item kinds are the enumeration of the host's completion kinds. Only Value is used, and
  the host's other item fields are not modelled.
- Identical requests giving identical responses is not stated separately: the providers
  are a function and a method whose results the contracts fix from the inputs.
