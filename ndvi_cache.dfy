/**
 * The per-year NDVI composite cache. A composite is an image description
 * built on the client; building one allocates a new object, so the cache is
 * what makes two requests for the same year return the same handle.
 */
module NdviCache {
  import opened Text

  /** The median NDVI composite of one calendar year, masked to the national extent. */
  class Composite {
    const year: int

    constructor (year: int)
      ensures this.year == year
    {
      this.year := year;
    }
  }

  /** The cache object, keyed by `String(year)`. */
  class Cache {
    var entries: map<string, Composite>

    /** Every entry is stored under the decimal string of its own year. */
    ghost predicate Valid()
      reads this
    {
      forall k :: k in entries ==> k == DecimalString(entries[k].year)
    }

    constructor ()
      ensures Valid() && entries == map[]
    {
      entries := map[];
    }

    /**
     * Returns the stored composite for `y` when there is one; otherwise
     * builds one, stores it and returns it. Entries are only added.
     */
    method ImageForYear(y: int) returns (img: Composite)
      requires Valid()
      modifies this
      ensures Valid()
      ensures img.year == y
      ensures DecimalString(y) in old(entries) ==> img == old(entries)[DecimalString(y)] && entries == old(entries)
      ensures DecimalString(y) !in old(entries) ==> fresh(img) && entries == old(entries)[DecimalString(y) := img]
      ensures forall k :: k in old(entries) ==> k in entries && entries[k] == old(entries)[k]
    {
      var key := DecimalString(y);
      if key in entries {
        img := entries[key];
        DecimalInjective(img.year, y);
        return;
      }
      img := new Composite(y);
      entries := entries[key := img];
    }
  }

  /** Two requests for the same year give one handle, and only the first one builds. */
  method RequestTwice(cache: Cache, y: int) returns (first: Composite, second: Composite)
    requires cache.Valid()
    modifies cache
    ensures cache.Valid()
    ensures first == second && first.year == y
    ensures DecimalString(y) in old(cache.entries) ==> first == old(cache.entries)[DecimalString(y)]
    ensures cache.entries.Keys == old(cache.entries).Keys + {DecimalString(y)}
  {
    first := cache.ImageForYear(y);
    second := cache.ImageForYear(y);
  }
}
