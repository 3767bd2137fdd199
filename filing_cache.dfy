/**
 * The in-memory cache of fetched filing HTML: an ordered map from filing id to
 * (html, source url), least recently used first, bounded by a capacity.
 */
module FilingCache {
  import opened OrderedMaps
  import opened Wrappers

  /** One cached filing; the timestamp the source also records is not modelled. */
  datatype Entry = Entry(html: string, sourceUrl: string)

  class FilingCache {
    var cache: OrderedMap<Entry>
    const maxFilings: nat

    ghost predicate Valid()
      reads this
    {
      cache.Valid() && 1 <= maxFilings && |cache.keys| <= maxFilings
    }

    constructor (maxFilings: nat)
      requires maxFilings >= 1
      ensures Valid() && this.maxFilings == maxFilings && cache.keys == []
    {
      this.maxFilings := maxFilings;
      cache := Empty();
    }

    /** `has_filing`: membership, without touching the recency order. */
    function HasFiling(filingId: string): (r: bool)
      reads this
      requires Valid()
      ensures r <==> filingId in cache.keys
    {
      filingId in cache.values
    }

    /** `get_source_url`: the stored url, or `None` on a miss; never reorders. */
    function GetSourceUrl(filingId: string): (r: Option<string>)
      reads this
      requires Valid()
      ensures r.Some? <==> filingId in cache.keys
      ensures r.Some? ==> r.value == cache.values[filingId].sourceUrl
    {
      if filingId in cache.values then Some(cache.values[filingId].sourceUrl) else None
    }

    /**
     * `store`: at capacity the oldest entry is deleted first; then the filing is
     * written (a new id is appended, an existing one updated in place) and moved to the
     * most recent position.
     */
    method Store(filingId: string, html: string, sourceUrl: string)
      requires Valid()
      modifies this
      ensures Valid()
      ensures cache.keys == InsertOrder(old(cache.keys), maxFilings, filingId)
      ensures cache.values ==
        (if |old(cache.keys)| >= maxFilings then old(cache.values) - {old(cache.keys)[0]}
         else old(cache.values))[filingId := Entry(html, sourceUrl)]
      ensures GetSourceUrl(filingId) == Some(sourceUrl)
      ensures cache.values[filingId].html == html
      ensures cache.keys[|cache.keys| - 1] == filingId
    {
      InsertOrderFacts(cache.keys, maxFilings, filingId);
      cache := cache.Insert(maxFilings, filingId, Entry(html, sourceUrl));
    }

    /** `get_html`: a hit returns the html and makes the filing the most recent. */
    method GetHtml(filingId: string) returns (r: Option<string>)
      requires Valid()
      modifies this
      ensures Valid()
      ensures r.Some? <==> filingId in old(cache.keys)
      ensures r.Some? ==> r.value == old(cache.values)[filingId].html
      ensures cache.values == old(cache.values)
      ensures cache.keys == if r.Some? then Without(old(cache.keys), filingId) + [filingId]
                            else old(cache.keys)
    {
      if filingId in cache.values {
        WithoutDistinct(cache.keys, filingId);
        r := Some(cache.values[filingId].html);
        cache := cache.MoveToEnd(filingId);
      } else {
        r := None;
      }
    }

    /** `evict`: removes only this filing; absent ids leave the cache unchanged. */
    method Evict(filingId: string)
      requires Valid()
      modifies this
      ensures Valid()
      ensures cache == old(cache).Delete(filingId)
      ensures cache.keys == Without(old(cache.keys), filingId)
      ensures cache.values == old(cache.values) - {filingId}
    {
      if filingId in cache.values {
        cache := cache.Delete(filingId);
      } else {
        assert cache.values - {filingId} == cache.values;
      }
    }
  }
}
