/**
 A Go `map[string]bool`. Go maps are references: every variable holding the
 map sees what any other one writes into it, so the map is an object whose
 `entries` the methods below update in place.
 */
module GoMaps {

  class BoolMap {
    var entries: map<string, bool>

    /** `map[string]bool{}` */
    constructor ()
      ensures entries == map[]
    {
      entries := map[];
    }

    /** `m[k] = v` */
    method Set(k: string, v: bool)
      modifies this
      ensures entries == old(entries)[k := v]
    {
      entries := entries[k := v];
    }

    /** `delete(m, k)`: removing an absent key does nothing. */
    method Delete(k: string)
      modifies this
      ensures entries == old(entries) - {k}
    {
      entries := entries - {k};
    }
  }

  /** Every key of `m` maps to true, as in a Go map used as a set. */
  ghost predicate AllTrue(m: map<string, bool>) {
    forall k :: k in m ==> m[k]
  }

  /**
   `maps.Copy(dst, src)`: every key of `src` is written into `dst` with its
   value, overwriting what `dst` had under that key. When `dst` and `src` are
   the same map nothing changes.
   */
  method Copy(dst: BoolMap, src: BoolMap)
    modifies dst
    ensures dst.entries == old(dst.entries) + old(src.entries)
    ensures src != dst ==> src.entries == old(src.entries)
  {
    var from := src.entries;
    var pending := from.Keys;
    while pending != {}
      invariant pending <= from.Keys
      invariant dst.entries == old(dst.entries) + (map k | k in from && k !in pending :: from[k])
      invariant src != dst ==> src.entries == old(src.entries)
      decreases pending
    {
      var k :| k in pending;
      dst.Set(k, from[k]);
      pending := pending - {k};
    }
    assert (map k | k in from && k !in pending :: from[k]) == from;
  }
}
