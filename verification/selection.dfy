/**
 * The tag-driven selection rules: which packs of the main database run, and
 * which records of a files database populate the cache.
 */
module Selection {
  import opened Manifest

  /** The acceptance test `name in l_tags` of the nested tag loops. */
  function Requested(tags: set<string>): string -> bool
  {
    n => n in tags
  }

  /**
   * Pack inclusion: a pack with no tags always runs; otherwise it runs when
   * some dictionary entry is requested by name and its identifier is among the
   * pack's tags.
   */
  predicate PackIncluded(d: TagDict, packTags: seq<TagId>, requested: set<string>)
  {
    packTags == [] || exists j :: 0 <= j < |d| && d[j].1 in packTags && d[j].0 in requested
  }

  /** The flag loop of `main` over `d_tags`, leaving at the first matching entry. */
  method PackFlag(d: TagDict, packTags: seq<TagId>, requested: set<string>) returns (doPack: bool)
    ensures doPack == PackIncluded(d, packTags, requested)
  {
    doPack := true;
    if packTags != [] {
      doPack := false;
      var j := 0;
      while j < |d|
        invariant 0 <= j <= |d|
        invariant !doPack
        invariant forall k :: 0 <= k < j ==> !(d[k].1 in packTags && d[k].0 in requested)
      {
        if d[j].1 in packTags && d[j].0 in requested {
          doPack := true;
          break;
        }
        j := j + 1;
      }
    }
  }

  /** Asking for more tags never drops a pack. */
  lemma PackIncludedMonotone(d: TagDict, packTags: seq<TagId>, requested: set<string>, more: set<string>)
    requires requested <= more
    requires PackIncluded(d, packTags, requested)
    ensures PackIncluded(d, packTags, more)
  {
  }

  /**
   * The kind/type facet of `chk_files_cache`: a fully tagged record whose kind
   * and type are both requested, or a record with an empty kind.
   * `.get('type', None) in l_type` is false when the type is absent.
   */
  predicate KindTypeAdmits(r: Record, kinds: set<string>, types: set<string>)
  {
    (r.kind in kinds && r.kindType.Some? && r.kindType.value in types) || r.kind == ""
  }

  /**
   * Whether `chk_files_cache` fetches a record: always without a tag
   * dictionary; otherwise the kind/type facet must admit it and one of its
   * identifiers must be named by a requested tag.
   */
  predicate CacheWanted(r: Record, d: TagDict, kinds: set<string>, types: set<string>, tags: set<string>)
  {
    d == [] || (KindTypeAdmits(r, kinds, types) && Hits(r.tags, d, Requested(tags)) != [])
  }

  /** The cache-population filter stated over the dictionary directly. */
  lemma CacheWantedIff(r: Record, d: TagDict, kinds: set<string>, types: set<string>, tags: set<string>)
    ensures CacheWanted(r, d, kinds, types, tags)
        <==> d == []
             || (((r.kind in kinds && r.kindType.Some? && r.kindType.value in types) || r.kind == "")
                 && exists i, j :: 0 <= i < |r.tags| && 0 <= j < |d| && d[j].1 == r.tags[i] && d[j].0 in tags)
  {
    HitsNonEmpty(r.tags, d, Requested(tags));
  }

  /** A record with an empty kind is fetched on its tags alone, whatever kinds and types are requested. */
  lemma PartialTagBypass(r: Record, d: TagDict, kinds: set<string>, types: set<string>,
                         kinds': set<string>, types': set<string>, tags: set<string>)
    requires r.kind == ""
    ensures CacheWanted(r, d, kinds, types, tags) == CacheWanted(r, d, kinds', types', tags)
  {
  }

  /**
   * The nested tag loops of `chk_files_cache`: the flag ends true exactly
   * when some identifier of the record is named by a requested tag.
   */
  method AnyRequestedHit(ids: seq<TagId>, d: TagDict, tags: set<string>) returns (found: bool)
    ensures found == (Hits(ids, d, Requested(tags)) != [])
  {
    found := false;
    var a := 0;
    while a < |ids|
      invariant 0 <= a <= |ids|
      invariant found == (Hits(ids[..a], d, Requested(tags)) != [])
    {
      var b := 0;
      while b < |d|
        invariant 0 <= b <= |d|
        invariant found == (Hits(ids[..a], d, Requested(tags)) + HitsOne(ids[a], d[..b], Requested(tags)) != [])
      {
        HitsOneStep(ids[a], d, Requested(tags), b);
        if d[b].1 == ids[a] && d[b].0 in tags {
          found := true;
        }
        b := b + 1;
      }
      HitsStep(ids, d, Requested(tags), a);
      assert d[..|d|] == d;
      a := a + 1;
    }
    assert ids[..a] == ids;
  }
}
