/** Copying the keys of a map into a slice. */
module Listings {
  import opened Rooms

  /** Each key once, in some order. */
  ghost predicate IsListing(s: seq<Text>, keys: set<Text>) {
    multiset(s) == multiset(keys)
  }

  /** Appends the keys of a map in whatever order they come up. */
  method Listing(keys: set<Text>) returns (s: seq<Text>)
    ensures IsListing(s, keys)
    ensures forall i | 0 <= i < |s| :: s[i] in keys
  {
    s := [];
    var pending := keys;
    while pending != {}
      invariant pending <= keys && IsListing(s, keys - pending)
      invariant forall i | 0 <= i < |s| :: s[i] in keys
      decreases |pending|
    {
      var k :| k in pending;
      pending := pending - {k};
      s := s + [k];
      assert keys - pending == keys - (pending + {k}) + {k};
    }
    assert keys - {} == keys;
  }
}
