/**
 * Icon-theme suggestions in settings.json (extension.ts, registerSettingsCompletions).
 *
 * Each request walks the installed extensions in order and, inside each, the entries
 * of its `contributes.fileIcons` array in order, pushing one value item per entry
 * whose id is not the built-in "vs-standard".
 */
module SettingsCompletions {
  import opened Options
  import opened JsonLocation
  import opened CompletionItems
  import JsonString

  /** The setting whose value the provider completes. */
  const IconThemeSetting: string := "files.iconTheme"

  /** The icon theme the provider never offers. */
  const ReservedId: string := "vs-standard"

  /** One entry of a `fileIcons` contribution; `labelText` is its `label`. */
  datatype Contribution = Contribution(id: string, labelText: Option<string>)

  /** What `contributes.fileIcons` holds in an extension's package.json. */
  datatype FileIconsValue = FileIconsMissing | FileIconsNotArray | FileIconsArray(entries: seq<Contribution>)

  datatype Contributes = Contributes(fileIcons: FileIconsValue)

  datatype PackageJson = PackageJson(contributes: Option<Contributes>)

  datatype Extension = Extension(packageJSON: PackageJson)

  /**
   * `contributes && contributes.fileIcons`, kept only when it is an array: None when
   * `contributes` is missing or `fileIcons` is missing or not an array.
   */
  function FileIconsContributions(e: Extension): (r: Option<seq<Contribution>>)
    ensures r.Some? <==>
      e.packageJSON.contributes.Some? && e.packageJSON.contributes.value.fileIcons.FileIconsArray?
    ensures r.Some? ==> r.value == e.packageJSON.contributes.value.fileIcons.entries
  {
    match e.packageJSON.contributes
    case None => None
    case Some(contributes) =>
      match contributes.fileIcons
      case FileIconsArray(entries) => Some(entries)
      case _ => None
  }

  function DeclaredBy(e: Extension): seq<Contribution>
  {
    match FileIconsContributions(e)
    case None => []
    case Some(entries) => entries
  }

  /** Every well-formed `fileIcons` entry, in extension order and then entry order. */
  function Declared(extensions: seq<Extension>): seq<Contribution>
  {
    if extensions == [] then [] else DeclaredBy(extensions[0]) + Declared(extensions[1..])
  }

  /** The entries of `cs` whose id is not the reserved one, in their order. */
  function NotReserved(cs: seq<Contribution>): seq<Contribution>
  {
    if cs == [] then []
    else if cs[0].id != ReservedId then [cs[0]] + NotReserved(cs[1..])
    else NotReserved(cs[1..])
  }

  function ItemsFor(cs: seq<Contribution>, range: Range): seq<CompletionItem>
  {
    seq(|cs|, i requires 0 <= i < |cs| => NewCompletionItem(cs[i].id, range, cs[i].labelText))
  }

  /** The items an icon-theme request offers: one per offered contribution, in order. */
  function IconThemeItems(extensions: seq<Extension>, range: Range): seq<CompletionItem>
  {
    ItemsFor(NotReserved(Declared(extensions)), range)
  }

  /** The cursor is in the value of `files.iconTheme`: never on a property key. */
  predicate IsIconThemeValue(location: Location)
    ensures location.isAtPropertyKey ==> !IsIconThemeValue(location)
    ensures !location.isAtPropertyKey ==>
      (IsIconThemeValue(location) <==> SegmentIs(location.path, 0, IconThemeSetting))
  {
    !location.isAtPropertyKey && SegmentIs(location.path, 0, IconThemeSetting)
  }

  /**
   * Suggestions for a request at `location` with `extensions` installed: None unless
   * the cursor is in the value (not on the key) of `files.iconTheme`, and then the
   * items built in the nested walk over extensions and their `fileIcons` entries.
   */
  method ProvideCompletionItems(
    location: Location, position: Position, wordRange: Option<Range>, extensions: seq<Extension>)
    returns (r: Option<seq<CompletionItem>>)
    ensures r.Some? <==> IsIconThemeValue(location)
    ensures location.isAtPropertyKey ==> r.None?
    ensures !SegmentIs(location.path, 0, IconThemeSetting) ==> r.None?
    ensures r.Some? ==> r.value == IconThemeItems(extensions, ReplacementRange(wordRange, position))
  {
    if !location.isAtPropertyKey && SegmentIs(location.path, 0, IconThemeSetting) {
      var result: seq<CompletionItem> := [];
      var range := ReplacementRange(wordRange, position);
      var i := 0;
      while i < |extensions|
        invariant 0 <= i <= |extensions|
        invariant result == IconThemeItems(extensions[..i], range)
      {
        var e := extensions[i];
        var fileIconsContributions := FileIconsContributions(e);
        if fileIconsContributions.Some? {
          result := PushOfferedItems(result, fileIconsContributions.value, range);
        }
        ExtensionStep(extensions, i, range);
        i := i + 1;
      }
      assert extensions[..i] == extensions;
      r := Some(result);
    } else {
      r := None;
    }
  }

  /**
   * The inner walk over one extension's `fileIcons` entries: pushes onto `result` one
   * item per entry whose id is not "vs-standard", in entry order.
   */
  method PushOfferedItems(result: seq<CompletionItem>, contributions: seq<Contribution>, range: Range)
    returns (pushed: seq<CompletionItem>)
    ensures pushed == result + ItemsFor(NotReserved(contributions), range)
  {
    pushed := result;
    var j := 0;
    while j < |contributions|
      invariant 0 <= j <= |contributions|
      invariant pushed == result + ItemsFor(NotReserved(contributions[..j]), range)
    {
      var contribution := contributions[j];
      ghost var done := ItemsFor(NotReserved(contributions[..j]), range);
      ContributionStep(contributions, j, range);
      if contribution.id != ReservedId {
        var item := NewCompletionItem(contribution.id, range, contribution.labelText);
        pushed := pushed + [item];
        assert pushed == result + (done + [item]);
      }
      j := j + 1;
    }
    assert contributions[..|contributions|] == contributions;
  }

  // Lemmas about the specification

  /** Walking one more entry appends its item unless its id is the reserved one. */
  lemma ContributionStep(contributions: seq<Contribution>, j: nat, range: Range)
    requires j < |contributions|
    ensures ItemsFor(NotReserved(contributions[..j + 1]), range)
         == ItemsFor(NotReserved(contributions[..j]), range)
          + (if contributions[j].id != ReservedId
             then [NewCompletionItem(contributions[j].id, range, contributions[j].labelText)]
             else [])
  {
    var c := contributions[j];
    assert contributions[..j + 1] == contributions[..j] + [c];
    NotReservedAppend(contributions[..j], [c]);
    ItemsForAppend(NotReserved(contributions[..j]), NotReserved([c]), range);
    assert [c][1..] == [];
  }

  lemma {:induction false} DeclaredAppend(a: seq<Extension>, b: seq<Extension>)
    ensures Declared(a + b) == Declared(a) + Declared(b)
  {
    if a != [] {
      assert (a + b)[1..] == a[1..] + b;
      DeclaredAppend(a[1..], b);
    } else {
      assert a + b == b;
    }
  }

  lemma {:induction false} NotReservedAppend(a: seq<Contribution>, b: seq<Contribution>)
    ensures NotReserved(a + b) == NotReserved(a) + NotReserved(b)
  {
    if a != [] {
      assert (a + b)[1..] == a[1..] + b;
      NotReservedAppend(a[1..], b);
    } else {
      assert a + b == b;
    }
  }

  lemma ItemsForAppend(a: seq<Contribution>, b: seq<Contribution>, range: Range)
    ensures ItemsFor(a + b, range) == ItemsFor(a, range) + ItemsFor(b, range)
  {
  }

  /** An entry is offered exactly when it is declared and its id is not the reserved one. */
  lemma {:induction false} NotReservedMembership(cs: seq<Contribution>, c: Contribution)
    ensures c in NotReserved(cs) <==> c in cs && c.id != ReservedId
  {
    if cs != [] {
      NotReservedMembership(cs[1..], c);
      assert cs == [cs[0]] + cs[1..];
    }
  }

  /** A list with no "vs-standard" entry comes back unchanged. */
  lemma {:induction false} NotReservedNoneReserved(cs: seq<Contribution>)
    requires forall i :: 0 <= i < |cs| ==> cs[i].id != ReservedId
    ensures NotReserved(cs) == cs
  {
    if cs != [] {
      NotReservedNoneReserved(cs[1..]);
    }
  }

  function Ids(cs: seq<Contribution>): seq<string>
  {
    seq(|cs|, i requires 0 <= i < |cs| => cs[i].id)
  }

  lemma {:induction false} NotReservedCount(cs: seq<Contribution>)
    ensures |NotReserved(cs)| == |cs| - multiset(Ids(cs))[ReservedId]
  {
    if cs != [] {
      NotReservedCount(cs[1..]);
      assert Ids(cs) == [cs[0].id] + Ids(cs[1..]);
    }
  }

  /** A contribution is declared exactly when some extension's `fileIcons` array holds it. */
  lemma {:induction false} DeclaredMembership(extensions: seq<Extension>, c: Contribution)
    ensures c in Declared(extensions) <==>
      exists k :: 0 <= k < |extensions| && c in DeclaredBy(extensions[k])
  {
    if extensions != [] {
      DeclaredMembership(extensions[1..], c);
      if c in Declared(extensions[1..]) {
        var k :| 0 <= k < |extensions[1..]| && c in DeclaredBy(extensions[1..][k]);
        assert c in DeclaredBy(extensions[k + 1]);
      }
      if exists k :: 0 <= k < |extensions| && c in DeclaredBy(extensions[k]) {
        var k :| 0 <= k < |extensions| && c in DeclaredBy(extensions[k]);
        if k > 0 {
          assert c in DeclaredBy(extensions[1..][k - 1]);
        }
      }
    }
  }

  /**
   * The number of items is the number of declared entries whose id is not
   * "vs-standard".
   */
  lemma IconThemeItemsCount(extensions: seq<Extension>, range: Range)
    ensures |IconThemeItems(extensions, range)|
         == |Declared(extensions)| - multiset(Ids(Declared(extensions)))[ReservedId]
  {
    NotReservedCount(Declared(extensions));
  }

  /**
   * An item is offered exactly when it is built from an entry some extension declares
   * in a `fileIcons` array and whose id is not "vs-standard".
   */
  lemma IconThemeItemsMembership(extensions: seq<Extension>, range: Range, item: CompletionItem)
    ensures item in IconThemeItems(extensions, range) <==>
      exists c :: c in Declared(extensions) && c.id != ReservedId
        && item == NewCompletionItem(c.id, range, c.labelText)
  {
    var offered := NotReserved(Declared(extensions));
    if item in IconThemeItems(extensions, range) {
      var i :| 0 <= i < |offered| && item == IconThemeItems(extensions, range)[i];
      NotReservedMembership(Declared(extensions), offered[i]);
    }
    if exists c :: c in Declared(extensions) && c.id != ReservedId
        && item == NewCompletionItem(c.id, range, c.labelText) {
      var c :| c in Declared(extensions) && c.id != ReservedId
        && item == NewCompletionItem(c.id, range, c.labelText);
      NotReservedMembership(Declared(extensions), c);
      var i :| 0 <= i < |offered| && offered[i] == c;
      assert IconThemeItems(extensions, range)[i] == item;
    }
  }

  /** No item is the "vs-standard" suggestion, and every item replaces the shared range. */
  lemma IconThemeItemsShape(extensions: seq<Extension>, range: Range, item: CompletionItem)
    requires item in IconThemeItems(extensions, range)
    ensures item.labelText != JsonString.Quote(ReservedId)
    ensures item.kind == Value
    ensures item.textEdit.range == range
  {
    IconThemeItemsMembership(extensions, range, item);
    var c :| c in Declared(extensions) && c.id != ReservedId
      && item == NewCompletionItem(c.id, range, c.labelText);
    if item.labelText == JsonString.Quote(ReservedId) {
      JsonString.QuoteInjective(c.id, ReservedId);
    }
  }

  /**
   * An extension without `contributes`, or whose `fileIcons` is missing or not an
   * array, adds nothing wherever it stands in the list.
   */
  lemma MalformedExtensionAddsNothing(
    before: seq<Extension>, e: Extension, after: seq<Extension>, range: Range)
    requires FileIconsContributions(e).None?
    ensures IconThemeItems(before + [e] + after, range) == IconThemeItems(before + after, range)
  {
    DeclaredAppend(before + [e], after);
    DeclaredAppend(before, [e]);
    DeclaredAppend(before, after);
    assert Declared([e]) == [] by { assert [e][1..] == []; }
    assert Declared(before) + [] == Declared(before);
  }

  /** Walking one more extension appends the items of its offered entries. */
  lemma ExtensionStep(extensions: seq<Extension>, i: nat, range: Range)
    requires i < |extensions|
    ensures IconThemeItems(extensions[..i + 1], range)
         == IconThemeItems(extensions[..i], range) + ItemsFor(NotReserved(DeclaredBy(extensions[i])), range)
  {
    assert extensions[..i + 1] == extensions[..i] + [extensions[i]];
    IconThemeItemsAppend(extensions[..i], [extensions[i]], range);
    assert Declared([extensions[i]]) == DeclaredBy(extensions[i]) by {
      assert [extensions[i]][1..] == [];
    }
  }

  /** The items of a list of extensions are those of each part, in order. */
  lemma IconThemeItemsAppend(a: seq<Extension>, b: seq<Extension>, range: Range)
    ensures IconThemeItems(a + b, range) == IconThemeItems(a, range) + IconThemeItems(b, range)
  {
    DeclaredAppend(a, b);
    NotReservedAppend(Declared(a), Declared(b));
    ItemsForAppend(NotReserved(Declared(a)), NotReserved(Declared(b)), range);
  }
}
