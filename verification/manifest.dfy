/**
 * The already-parsed shape of the downloader's JSON databases: file tables
 * keyed by an in-archive or remote path, and the tag dictionary that maps a
 * caller-facing tag name to the opaque identifier records carry.
 */
module Manifest {
  import opened Wrappers

  /** Tag identifiers are opaque JSON values, compared only for equality. */
  type TagId = int

  /** A `tag_dictionary`: tag name -> identifier, in document order. Several names may share an identifier. */
  type TagDict = seq<(string, TagId)>

  /**
   * One entry of a `files` table. Absent optional keys take the value the
   * source's `.get` supplies: `kind` "", `path` []; `type` is absent (None)
   * when the document omits it, because the two places that read it differ.
   * `file` is only read for entries of an archive table.
   */
  datatype Record = Record(
    file: string,
    kind: string,
    kindType: Option<string>,
    tags: seq<TagId>,
    path: seq<string>,
    hash: string,
    size: int,
    url: string)

  /** A `files` table: key -> record, in document order. */
  type Table = seq<(string, Record)>

  /** A files database: its `files` table and its `tag_dictionary` (empty when absent). */
  datatype Db = Db(files: Table, tags: TagDict)

  /** An entry of the cores database (`jtcores_db`). */
  datatype Core = Core(defaultMra: string, defaultArc: string)

  /** The names `n` with `d[n] == id` and `accept(n)`, in dictionary order (the inner loop over `d_tags`). */
  function HitsOne(id: TagId, d: TagDict, accept: string -> bool): seq<string>
  {
    if d == [] then []
    else HitsOne(id, d[..|d| - 1], accept)
         + (if d[|d| - 1].1 == id && accept(d[|d| - 1].0) then [d[|d| - 1].0] else [])
  }

  /**
   * The names matched by the source's nested loop `for i in record['tags']:
   * for j in d_tags: if d_tags[j] == i and <accept j>`, in the order the loop
   * meets them.
   */
  function Hits(ids: seq<TagId>, d: TagDict, accept: string -> bool): seq<string>
  {
    if ids == [] then []
    else Hits(ids[..|ids| - 1], d, accept) + HitsOne(ids[|ids| - 1], d, accept)
  }

  /** A dictionary name `n` with identifier `id`, accepted by `accept`. */
  predicate Names(d: TagDict, j: int, n: string, id: TagId)
  {
    0 <= j < |d| && d[j] == (n, id)
  }

  lemma {:induction false} HitsOneMember(id: TagId, d: TagDict, accept: string -> bool, n: string)
    ensures n in HitsOne(id, d, accept) <==> accept(n) && exists j :: Names(d, j, n, id)
  {
    if d != [] {
      var d' := d[..|d| - 1];
      var last := d[|d| - 1];
      HitsOneMember(id, d', accept, n);
      NamesSnoc(d, d', n, id);
      var tail := if last.1 == id && accept(last.0) then [last.0] else [];
      assert n in HitsOne(id, d, accept) <==> n in HitsOne(id, d', accept) || n in tail;
    }
  }

  /** A non-empty dictionary names `n` as `id` in its last entry or in the entries before it. */
  lemma NamesSnoc(d: TagDict, d': TagDict, n: string, id: TagId)
    requires d != [] && d' == d[..|d| - 1]
    ensures (exists j :: Names(d, j, n, id)) <==> (exists j :: Names(d', j, n, id)) || d[|d| - 1] == (n, id)
  {
    if d[|d| - 1] == (n, id) {
      assert Names(d, |d| - 1, n, id);
    }
    if exists j :: Names(d, j, n, id) {
      var j :| Names(d, j, n, id);
      if j < |d'| {
        assert Names(d', j, n, id);
      }
    }
    if exists j :: Names(d', j, n, id) {
      var j :| Names(d', j, n, id);
      assert Names(d, j, n, id);
    }
  }

  /** A name is matched exactly when it is accepted and some identifier of the record names it. */
  lemma {:induction false} HitsMember(ids: seq<TagId>, d: TagDict, accept: string -> bool, n: string)
    ensures n in Hits(ids, d, accept)
        <==> accept(n) && exists i, j :: 0 <= i < |ids| && Names(d, j, n, ids[i])
  {
    if ids != [] {
      var ids' := ids[..|ids| - 1];
      var last := ids[|ids| - 1];
      HitsMember(ids', d, accept, n);
      HitsOneMember(last, d, accept, n);
      if exists i, j :: 0 <= i < |ids| && Names(d, j, n, ids[i]) {
        var i, j :| 0 <= i < |ids| && Names(d, j, n, ids[i]);
        if i < |ids'| { assert Names(d, j, n, ids'[i]); }
      }
      if exists i, j :: 0 <= i < |ids'| && Names(d, j, n, ids'[i]) {
        var i, j :| 0 <= i < |ids'| && Names(d, j, n, ids'[i]);
        assert Names(d, j, n, ids[i]);
      }
    }
  }

  /** Some identifier of the record is named by an accepted dictionary entry. */
  lemma HitsNonEmpty(ids: seq<TagId>, d: TagDict, accept: string -> bool)
    ensures Hits(ids, d, accept) != []
        <==> exists i, j :: 0 <= i < |ids| && 0 <= j < |d| && d[j].1 == ids[i] && accept(d[j].0)
  {
    if Hits(ids, d, accept) != [] {
      var n := Hits(ids, d, accept)[0];
      HitsMember(ids, d, accept, n);
    }
    if exists i, j :: 0 <= i < |ids| && 0 <= j < |d| && d[j].1 == ids[i] && accept(d[j].0) {
      var i, j :| 0 <= i < |ids| && 0 <= j < |d| && d[j].1 == ids[i] && accept(d[j].0);
      HitsMember(ids, d, accept, d[j].0);
      assert Names(d, j, d[j].0, ids[i]);
    }
  }

  /** One step of the inner loop over the dictionary: entry `d[b]` is looked at. */
  lemma HitsOneStep(id: TagId, d: TagDict, accept: string -> bool, b: nat)
    requires b < |d|
    ensures HitsOne(id, d[..b + 1], accept)
            == HitsOne(id, d[..b], accept) + (if d[b].1 == id && accept(d[b].0) then [d[b].0] else [])
  {
    assert d[..b + 1][..b] == d[..b];
  }

  /** One step of the outer loop over the record's identifiers: `ids[a]` is looked at. */
  lemma HitsStep(ids: seq<TagId>, d: TagDict, accept: string -> bool, a: nat)
    requires a < |ids|
    ensures Hits(ids[..a + 1], d, accept) == Hits(ids[..a], d, accept) + HitsOne(ids[a], d, accept)
  {
    assert ids[..a + 1][..a] == ids[..a];
  }

  /**
   * One step of the inner loop, as a loop that accumulates the names after
   * `prefix` sees it: entry `d[b]` adds its name exactly when it matches.
   */
  lemma HitsOneNext(prefix: seq<string>, id: TagId, d: TagDict, accept: string -> bool, b: nat)
    requires b < |d|
    ensures d[b].1 == id && accept(d[b].0)
            ==> prefix + HitsOne(id, d[..b + 1], accept) == prefix + HitsOne(id, d[..b], accept) + [d[b].0]
    ensures !(d[b].1 == id && accept(d[b].0))
            ==> prefix + HitsOne(id, d[..b + 1], accept) == prefix + HitsOne(id, d[..b], accept)
  {
    HitsOneStep(id, d, accept, b);
    var names := HitsOne(id, d[..b], accept);
    if d[b].1 == id && accept(d[b].0) {
      assert prefix + (names + [d[b].0]) == prefix + names + [d[b].0];
    } else {
      assert names + [] == names;
    }
  }
}
