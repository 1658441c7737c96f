/** Maps from strings to strings as the program holds them: by reference, absent or shared. */
module StringMaps {

  class StringMap {
    var entries: map<string, string>

    constructor (entries: map<string, string>)
      ensures this.entries == entries
    {
      this.entries := entries;
    }
  }

  /** What an absent map reads as: nothing. */
  function Entries(m: StringMap?): map<string, string>
    reads m
  {
    if m == null then map[] else m.entries
  }

  /** The entries whose keys have been visited. */
  function Visited(entries: map<string, string>, left: set<string>): map<string, string> {
    map key | key in entries && key !in left :: entries[key]
  }

  /** A map of its own with the same entries, whatever order they are copied in. */
  method CopyEntries(source: StringMap) returns (copied: StringMap)
    ensures fresh(copied) && copied.entries == source.entries
  {
    copied := new StringMap(map[]);
    var left := source.entries.Keys;
    while left != {}
      invariant left <= source.entries.Keys && fresh(copied)
      invariant copied.entries == Visited(source.entries, left)
      decreases |left|
    {
      var key :| key in left;
      copied.entries := copied.entries[key := source.entries[key]];
      left := left - {key};
    }
  }
}
