/**
 * The location the JSONC parser reports for a cursor offset: the path of property
 * names and array indices leading to the cursor, and whether the cursor is on a
 * property key rather than on a value. The parser itself is not part of this model;
 * its result is an input.
 */
module JsonLocation {

  datatype Segment = Key(name: string) | Index(index: nat)

  datatype Location = Location(path: seq<Segment>, isAtPropertyKey: bool)

  /**
   * `path[i] === name`: the segment exists and is that property name. A missing
   * segment reads as `undefined` and an array index is a number, so neither matches.
   */
  predicate SegmentIs(path: seq<Segment>, i: nat, name: string)
    ensures |path| <= i ==> !SegmentIs(path, i, name)
    ensures i < |path| && path[i].Index? ==> !SegmentIs(path, i, name)
    ensures i < |path| && path[i].Key? ==> (SegmentIs(path, i, name) <==> path[i].name == name)
  {
    i < |path| && path[i] == Key(name)
  }
}
