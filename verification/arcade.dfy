/**
 * The arcade pack: ROM archives and MRA descriptions are cached for the cores
 * the cores database lists, the MRA names are grouped by tag, and each group
 * becomes a sequence of runs of the external MRA-to-ARC converter.
 */
module Arcade {
  import opened Wrappers
  import opened Text
  import opened Manifest
  import opened Cache

  /** The cores database (`jtcores_db`): core name -> its defaults. */
  type Cores = map<string, Core>

  /** The acceptance test `j_item in d_cores_db` of `chk_zip_cache`. */
  function InCores(cores: Cores): string -> bool
  {
    n => n in cores
  }

  /** `''.join(tag.split('arcade'))`: the core an MRA tag names. */
  function CoreOf(tag: string): string
  {
    Strip(tag, "arcade")
  }

  /** The acceptance test `''.join(s_tagitem.split('arcade')) in d_cores_db` of `chk_mra_cache`. */
  function NamesCore(cores: Cores): string -> bool
  {
    n => CoreOf(n) in cores
  }

  /** The value `v` once per name. */
  function Each<T>(names: seq<string>, v: T): (r: seq<T>)
    ensures |r| == |names|
    ensures forall k :: 0 <= k < |r| ==> r[k] == v
  {
    if names == [] then [] else Each(names[..|names| - 1], v) + [v]
  }

  lemma EachAppend<T>(x: seq<string>, y: seq<string>, v: T)
    ensures Each(x + y, v) == Each(x, v) + Each(y, v)
  {
  }

  // ---------------------------------------------------------------------------
  // chk_zip_cache

  /** The download `chk_zip_cache` makes for a ROM record: into the ROM cache, under the key's last segment. */
  function ZipRequest(roms: Path, key: string, r: Record, force: bool): Request
  {
    Request(roms, BaseName(key), r.hash, r.size, r.url, force)
  }

  /**
   * The downloads of `chk_zip_cache`: one per dictionary entry that names a
   * core and one of the record's identifiers.
   */
  function ZipRequests(table: Table, d: TagDict, cores: Cores, roms: Path, force: bool): seq<Request>
  {
    if table == [] then []
    else
      var (key, r) := table[|table| - 1];
      ZipRequests(table[..|table| - 1], d, cores, roms, force)
      + Each(Hits(r.tags, d, InCores(cores)), ZipRequest(roms, key, r, force))
  }

  /** Record `i` has a tag naming a core, and `q` is its download. */
  predicate ZipRequestOf(table: Table, d: TagDict, cores: Cores, roms: Path, force: bool, i: int, q: Request)
  {
    0 <= i < |table| && Hits(table[i].1.tags, d, InCores(cores)) != []
    && q == ZipRequest(roms, table[i].0, table[i].1, force)
  }

  /** ROM filtering: an archive is fetched exactly when one of its tags names a core of the cores database. */
  lemma {:induction false} ZipRequestsMember(table: Table, d: TagDict, cores: Cores, roms: Path, force: bool,
                                             q: Request)
    ensures q in ZipRequests(table, d, cores, roms, force)
            <==> exists i :: ZipRequestOf(table, d, cores, roms, force, i, q)
  {
    if table != [] {
      var prefix := table[..|table| - 1];
      var last := |table| - 1;
      var (key, r) := table[last];
      ZipRequestsMember(prefix, d, cores, roms, force, q);
      var mine := Each(Hits(r.tags, d, InCores(cores)), ZipRequest(roms, key, r, force));
      assert ZipRequests(table, d, cores, roms, force) == ZipRequests(prefix, d, cores, roms, force) + mine;
      if ZipRequestOf(table, d, cores, roms, force, last, q) {
        assert mine[0] == q;
      }
      if q in mine {
        assert ZipRequestOf(table, d, cores, roms, force, last, q);
      }
      if exists i :: ZipRequestOf(prefix, d, cores, roms, force, i, q) {
        var i :| ZipRequestOf(prefix, d, cores, roms, force, i, q);
        assert ZipRequestOf(table, d, cores, roms, force, i, q);
      }
      if exists i :: ZipRequestOf(table, d, cores, roms, force, i, q) {
        var i :| ZipRequestOf(table, d, cores, roms, force, i, q);
        if i < last {
          assert ZipRequestOf(prefix, d, cores, roms, force, i, q);
        }
      }
    }
  }

  /**
   * The ROM cache is flat: populating it touches no file outside the ROM
   * directory itself and launches nothing.
   */
  lemma ZipCacheFrame(w: World, db: Db, cores: Cores, roms: Path, force: bool, net: Network, digest: Digest,
                      p: Path)
    requires !(|p| == |roms| + 1 && p[..|roms|] == roms)
    ensures var w' := DownloadAll(w, ZipRequests(db.files, db.tags, cores, roms, force), net, digest);
            && (p in w'.files <==> p in w.files)
            && (p in w.files ==> w'.files[p] == w.files[p])
            && w'.commands == w.commands
  {
    var qs := ZipRequests(db.files, db.tags, cores, roms, force);
    forall k | 0 <= k < |qs|
      ensures Target(qs[k]) != p
    {
      ZipRequestsMember(db.files, db.tags, cores, roms, force, qs[k]);
      var i :| ZipRequestOf(db.files, db.tags, cores, roms, force, i, qs[k]);
      assert (roms + [qs[k].name])[..|roms|] == roms;
    }
    DownloadAllFrame(w, qs, net, digest, p);
  }

  lemma ZipRequestsStep(table: Table, i: nat, d: TagDict, cores: Cores, roms: Path, force: bool)
    requires i < |table|
    ensures ZipRequests(table[..i + 1], d, cores, roms, force)
            == ZipRequests(table[..i], d, cores, roms, force)
               + Each(Hits(table[i].1.tags, d, InCores(cores)), ZipRequest(roms, table[i].0, table[i].1, force))
  {
    assert table[..i + 1][..i] == table[..i];
  }

  /** `chk_zip_cache(arcade_db, cores_db, roms, force)`. */
  method ChkZipCache(m: Machine, db: Db, cores: Cores, roms: Path, force: bool, net: Network)
    modifies m
    ensures m.State() == DownloadAll(old(m.State()), ZipRequests(db.files, db.tags, cores, roms, force), net, m.digest)
  {
    ghost var w0 := m.State();
    var d := db.tags;
    var i := 0;
    while i < |db.files|
      invariant 0 <= i <= |db.files|
      invariant m.State() == DownloadAll(w0, ZipRequests(db.files[..i], d, cores, roms, force), net, m.digest)
    {
      var (key, r) := db.files[i];
      var name := BaseName(key);
      ghost var done := ZipRequests(db.files[..i], d, cores, roms, force);
      ZipRequestsStep(db.files, i, d, cores, roms, force);
      ZipFetchRecord(m, r.tags, d, cores, Request(roms, name, r.hash, r.size, r.url, force), net, w0, done);
      i := i + 1;
    }
    assert db.files[..i] == db.files;
  }

  /** The nested tag loops of `chk_zip_cache` for one record: `q` once per matching entry. */
  method ZipFetchRecord(m: Machine, ids: seq<TagId>, d: TagDict, cores: Cores, q: Request, net: Network,
                        ghost w0: World, ghost done: seq<Request>)
    requires m.State() == DownloadAll(w0, done, net, m.digest)
    modifies m
    ensures m.State() == DownloadAll(w0, done + Each(Hits(ids, d, InCores(cores)), q), net, m.digest)
  {
    var a := 0;
    assert ids[..0] == [] && done + [] == done;
    while a < |ids|
      invariant 0 <= a <= |ids|
      invariant m.State() == DownloadAll(w0, done + Each(Hits(ids[..a], d, InCores(cores)), q), net, m.digest)
    {
      ghost var names := Hits(ids[..a], d, InCores(cores));
      ZipFetchId(m, ids[a], d, cores, q, net, w0, done + Each(names, q));
      HitsStep(ids, d, InCores(cores), a);
      EachAppend(names, HitsOne(ids[a], d, InCores(cores)), q);
      Assoc(done, Each(names, q), Each(HitsOne(ids[a], d, InCores(cores)), q));
      a := a + 1;
    }
    assert ids[..a] == ids;
  }

  /** The inner loop of `chk_zip_cache`: the dictionary entries naming `id` and a core. */
  method ZipFetchId(m: Machine, id: TagId, d: TagDict, cores: Cores, q: Request, net: Network,
                    ghost w0: World, ghost done: seq<Request>)
    requires m.State() == DownloadAll(w0, done, net, m.digest)
    modifies m
    ensures m.State() == DownloadAll(w0, done + Each(HitsOne(id, d, InCores(cores)), q), net, m.digest)
  {
    var b := 0;
    assert d[..0] == [] && done + [] == done;
    while b < |d|
      invariant 0 <= b <= |d|
      invariant m.State() == DownloadAll(w0, done + Each(HitsOne(id, d[..b], InCores(cores)), q), net, m.digest)
    {
      ghost var names := HitsOne(id, d[..b], InCores(cores));
      HitsOneStep(id, d, InCores(cores), b);
      if d[b].1 == id && d[b].0 in cores {
        var ok := m.ChkOrDownload(q.dir, q.name, q.hash, q.size, q.url, q.force, net);
        DownloadAllSnoc(w0, done + Each(names, q), q, net, m.digest);
        EachAppend(names, [d[b].0], q);
        assert Each([d[b].0], q) == [q];
        Assoc(done, Each(names, q), [q]);
      } else {
        assert names + [] == names;
      }
      b := b + 1;
    }
    assert d[..b] == d;
  }

  // ---------------------------------------------------------------------------
  // chk_mra_cache

  /** One matching (tag, MRA) pair met by `chk_mra_cache`, with the download it triggers. */
  datatype MraHit = MraHit(tag: string, q: Request)

  /** Only `.mra` files outside any `_alternatives` folder are considered. */
  predicate IsMraKey(key: string)
  {
    EndsWith(BaseName(key), ".mra") && !Contains(key, "_alternatives")
  }

  /** The download of an MRA file: into the MRA cache, from `baseurl + name`. */
  function MraRequest(mras: Path, key: string, r: Record, baseurl: string, force: bool): Request
  {
    Request(mras, BaseName(key), r.hash, r.size, baseurl + BaseName(key), force)
  }

  /** The hits of one record: one per matching tag name. */
  function Tagged(names: seq<string>, q: Request): (r: seq<MraHit>)
    ensures |r| == |names|
    ensures forall k :: 0 <= k < |r| ==> r[k] == MraHit(names[k], q)
  {
    if names == [] then [] else Tagged(names[..|names| - 1], q) + [MraHit(names[|names| - 1], q)]
  }

  lemma TaggedAppend(x: seq<string>, y: seq<string>, q: Request)
    ensures Tagged(x + y, q) == Tagged(x, q) + Tagged(y, q)
  {
  }

  /** The (tag, MRA) pairs `chk_mra_cache` meets, in the order of its loops. */
  function MraHits(table: Table, d: TagDict, cores: Cores, mras: Path, baseurl: string, force: bool): seq<MraHit>
  {
    if table == [] then []
    else
      MraHits(table[..|table| - 1], d, cores, mras, baseurl, force)
      + EntryHits(table[|table| - 1], d, cores, mras, baseurl, force)
  }

  /** The hits of one table entry: none unless it is an `.mra` file outside `_alternatives`. */
  function EntryHits(entry: (string, Record), d: TagDict, cores: Cores, mras: Path, baseurl: string, force: bool)
    : seq<MraHit>
  {
    if IsMraKey(entry.0) then
      Tagged(Hits(entry.1.tags, d, NamesCore(cores)), MraRequest(mras, entry.0, entry.1, baseurl, force))
    else []
  }

  /** The downloads of a sequence of hits, in order. */
  function RequestsOf(hs: seq<MraHit>): (r: seq<Request>)
    ensures |r| == |hs|
    ensures forall k :: 0 <= k < |hs| ==> r[k] == hs[k].q
  {
    if hs == [] then [] else RequestsOf(hs[..|hs| - 1]) + [hs[|hs| - 1].q]
  }

  /**
   * `d_mras`: tag name -> MRA names, iterated in the order tags were first
   * inserted (Python dictionaries keep insertion order).
   */
  datatype MraIndex = MraIndex(order: seq<string>, lists: map<string, seq<string>>)

  /** `if tag not in d_mras: d_mras[tag] = []` then `d_mras[tag].append(name)`. */
  function Insert(idx: MraIndex, tag: string, name: string): MraIndex
  {
    if tag in idx.lists then MraIndex(idx.order, idx.lists[tag := idx.lists[tag] + [name]])
    else MraIndex(idx.order + [tag], idx.lists[tag := [name]])
  }

  /** The index built from a sequence of hits. */
  function Index(hs: seq<MraHit>): MraIndex
  {
    if hs == [] then MraIndex([], map[])
    else Insert(Index(hs[..|hs| - 1]), hs[|hs| - 1].tag, hs[|hs| - 1].q.name)
  }

  /** The names of the hits carrying `tag`, in order. */
  function NamesFor(hs: seq<MraHit>, tag: string): seq<string>
  {
    if hs == [] then []
    else NamesFor(hs[..|hs| - 1], tag) + (if hs[|hs| - 1].tag == tag then [hs[|hs| - 1].q.name] else [])
  }

  /**
   * The index lists, for each tag, the names of its hits in the order they
   * were met; a tag is a key, and in the iteration order, exactly when it was
   * met at least once.
   */
  lemma {:induction false} IndexLookup(hs: seq<MraHit>, tag: string)
    ensures var idx := Index(hs);
            && (tag in idx.lists <==> NamesFor(hs, tag) != [])
            && (tag in idx.lists <==> tag in idx.order)
            && (tag in idx.lists ==> idx.lists[tag] == NamesFor(hs, tag))
  {
    if hs != [] {
      IndexLookup(hs[..|hs| - 1], tag);
    }
  }

  /** Each tag appears once in the iteration order. */
  lemma {:induction false} IndexOrderDistinct(hs: seq<MraHit>)
    ensures var o := Index(hs).order;
            forall i, j :: 0 <= i < j < |o| ==> o[i] != o[j]
  {
    if hs != [] {
      var prefix := hs[..|hs| - 1];
      IndexOrderDistinct(prefix);
      IndexLookup(prefix, hs[|hs| - 1].tag);
    }
  }

  /** The hits of `chk_mra_cache` carry core-naming tags and `.mra` names fetched from `baseurl + name`. */
  lemma {:induction false} MraHitsShape(table: Table, d: TagDict, cores: Cores, mras: Path, baseurl: string,
                                        force: bool, k: nat)
    requires k < |MraHits(table, d, cores, mras, baseurl, force)|
    ensures var h := MraHits(table, d, cores, mras, baseurl, force)[k];
            && CoreOf(h.tag) in cores
            && EndsWith(h.q.name, ".mra")
            && h.q.dir == mras && h.q.url == baseurl + h.q.name
  {
    var prefix := table[..|table| - 1];
    var (key, r) := table[|table| - 1];
    var before := MraHits(prefix, d, cores, mras, baseurl, force);
    if k >= |before| {
      var names := Hits(r.tags, d, NamesCore(cores));
      HitsMember(r.tags, d, NamesCore(cores), names[k - |before|]);
    } else {
      MraHitsShape(prefix, d, cores, mras, baseurl, force, k);
    }
  }

  /** A record's hits are its matching tag names, each with the record's download. */
  lemma TaggedMember(names: seq<string>, q: Request, h: MraHit)
    ensures h in Tagged(names, q) <==> h.tag in names && h.q == q
  {
    var r := Tagged(names, q);
    if h in r {
      var k :| 0 <= k < |r| && r[k] == h;
      assert names[k] == h.tag;
    }
    if h.tag in names && h.q == q {
      var k :| 0 <= k < |names| && names[k] == h.tag;
      assert r[k] == h;
    }
  }

  /**
   * The table entry is an `.mra` file outside `_alternatives`, `h.tag` is one
   * of its core-naming tag names, and `h` downloads it.
   */
  predicate MraHitFrom(entry: (string, Record), d: TagDict, cores: Cores, mras: Path, baseurl: string, force: bool,
                       h: MraHit)
  {
    && IsMraKey(entry.0)
    && h.tag in Hits(entry.1.tags, d, NamesCore(cores))
    && h.q == MraRequest(mras, entry.0, entry.1, baseurl, force)
  }

  /** An entry yields exactly the pairs of its core-naming tag names with its download. */
  lemma EntryHitsMember(entry: (string, Record), d: TagDict, cores: Cores, mras: Path, baseurl: string,
                        force: bool, h: MraHit)
    ensures h in EntryHits(entry, d, cores, mras, baseurl, force) <==> MraHitFrom(entry, d, cores, mras, baseurl, force, h)
  {
    TaggedMember(Hits(entry.1.tags, d, NamesCore(cores)), MraRequest(mras, entry.0, entry.1, baseurl, force), h);
  }

  /**
   * MRA filtering: `chk_mra_cache` meets the pair `h` exactly when some `.mra`
   * record outside `_alternatives` carries a tag whose name strips to a core,
   * and `h` pairs that tag name with the record's download.
   */
  lemma {:induction false} MraHitsMember(table: Table, d: TagDict, cores: Cores, mras: Path, baseurl: string,
                                         force: bool, h: MraHit)
    ensures h in MraHits(table, d, cores, mras, baseurl, force)
            <==> exists e :: e in table && MraHitFrom(e, d, cores, mras, baseurl, force, h)
  {
    if table != [] {
      var prefix := table[..|table| - 1];
      var last := table[|table| - 1];
      assert table == prefix + [last];
      MraHitsMember(prefix, d, cores, mras, baseurl, force, h);
      EntryHitsMember(last, d, cores, mras, baseurl, force, h);
      if h in MraHits(prefix, d, cores, mras, baseurl, force) {
        var e :| e in prefix && MraHitFrom(e, d, cores, mras, baseurl, force, h);
        assert e in table;
      }
      if exists e :: e in table && MraHitFrom(e, d, cores, mras, baseurl, force, h) {
        var e :| e in table && MraHitFrom(e, d, cores, mras, baseurl, force, h);
        if e != last {
          assert e in prefix;
        }
      }
    }
  }

  /**
   * The index `chk_mra_cache` returns is ready for `build_arc_files`: every
   * key is in the iteration order, names a core, and lists at least one MRA.
   */
  lemma IndexReady(table: Table, d: TagDict, cores: Cores, mras: Path, baseurl: string, force: bool)
    ensures var idx := Index(MraHits(table, d, cores, mras, baseurl, force));
            forall k :: k in idx.order ==> k in idx.lists && CoreOf(k) in cores && idx.lists[k] != []
  {
    var hs := MraHits(table, d, cores, mras, baseurl, force);
    var idx := Index(hs);
    forall k | k in idx.order
      ensures k in idx.lists && CoreOf(k) in cores && idx.lists[k] != []
    {
      IndexLookup(hs, k);
      var j := NamesForWitness(hs, k);
      MraHitsShape(table, d, cores, mras, baseurl, force, j);
    }
  }

  /** A hit carrying a tag whose name list is non-empty. */
  lemma {:induction false} NamesForWitness(hs: seq<MraHit>, tag: string) returns (j: nat)
    requires NamesFor(hs, tag) != []
    ensures j < |hs| && hs[j].tag == tag
  {
    if hs[|hs| - 1].tag == tag {
      j := |hs| - 1;
    } else {
      j := NamesForWitness(hs[..|hs| - 1], tag);
    }
  }

  lemma MraHitsStep(table: Table, i: nat, d: TagDict, cores: Cores, mras: Path, baseurl: string, force: bool)
    requires i < |table|
    ensures MraHits(table[..i + 1], d, cores, mras, baseurl, force)
            == MraHits(table[..i], d, cores, mras, baseurl, force)
               + (if IsMraKey(table[i].0)
                  then Tagged(Hits(table[i].1.tags, d, NamesCore(cores)),
                              MraRequest(mras, table[i].0, table[i].1, baseurl, force))
                  else [])
  {
    assert table[..i + 1][..i] == table[..i];
  }

  /** `chk_mra_cache(mra_db, cores_db, mras, force, baseurl)`. */
  method ChkMraCache(m: Machine, db: Db, cores: Cores, mras: Path, force: bool, baseurl: string, net: Network)
    returns (idx: MraIndex)
    modifies m
    ensures idx == Index(MraHits(db.files, db.tags, cores, mras, baseurl, force))
    ensures m.State()
            == DownloadAll(old(m.State()), RequestsOf(MraHits(db.files, db.tags, cores, mras, baseurl, force)), net,
                           m.digest)
  {
    ghost var w0 := m.State();
    idx := MraIndex([], map[]);
    var d := db.tags;
    var i := 0;
    while i < |db.files|
      invariant 0 <= i <= |db.files|
      invariant Reached(m.State(), idx, w0, MraHits(db.files[..i], d, cores, mras, baseurl, force), net, m.digest)
    {
      var (key, r) := db.files[i];
      var name := BaseName(key);
      ghost var hs := MraHits(db.files[..i], d, cores, mras, baseurl, force);
      MraHitsStep(db.files, i, d, cores, mras, baseurl, force);
      if EndsWith(name, ".mra") && !Contains(key, "_alternatives") {
        idx := MraFetchRecord(m, r.tags, d, cores, Request(mras, name, r.hash, r.size, baseurl + name, force), net,
                              w0, hs, idx);
      } else {
        assert hs + [] == hs;
      }
      i := i + 1;
    }
    assert db.files[..i] == db.files;
  }

  /** One more hit: one more insertion and one more download. */
  lemma HitSnoc(w0: World, hs: seq<MraHit>, h: MraHit, net: Network, digest: Digest)
    ensures Index(hs + [h]) == Insert(Index(hs), h.tag, h.q.name)
    ensures DownloadAll(w0, RequestsOf(hs + [h]), net, digest)
            == Perform(DownloadAll(w0, RequestsOf(hs), net, digest), h.q, net, digest).world
  {
    assert (hs + [h])[..|hs|] == hs;
    assert RequestsOf(hs + [h]) == RequestsOf(hs) + [h.q];
    DownloadAllSnoc(w0, RequestsOf(hs), h.q, net, digest);
  }

  /** The in-place update of `d_mras` for one hit: create the list on first sight of the tag, then append. */
  method AddMra(idx: MraIndex, tag: string, name: string) returns (idx': MraIndex)
    ensures idx' == Insert(idx, tag, name)
  {
    var order := idx.order;
    var lists := idx.lists;
    if tag !in lists {
      order := order + [tag];
      lists := lists[tag := []];
      assert lists[tag] + [name] == [name];
    }
    lists := lists[tag := lists[tag] + [name]];
    idx' := MraIndex(order, lists);
  }

  /**
   * What the loops of `chk_mra_cache` keep: after the hits `hs`, the index
   * and the world are those the hits produce from the empty index and `w0`.
   */
  predicate Reached(w: World, idx: MraIndex, w0: World, hs: seq<MraHit>, net: Network, digest: Digest)
  {
    idx == Index(hs) && w == DownloadAll(w0, RequestsOf(hs), net, digest)
  }

  /** One hit: the MRA is listed under its tag in `d_mras`, then checked or downloaded. */
  method FetchMra(m: Machine, ghost w0: World, ghost hs: seq<MraHit>, tag: string, q: Request, net: Network,
                  idx0: MraIndex)
    returns (idx: MraIndex)
    requires Reached(m.State(), idx0, w0, hs, net, m.digest)
    modifies m
    ensures Reached(m.State(), idx, w0, hs + [MraHit(tag, q)], net, m.digest)
  {
    idx := AddMra(idx0, tag, q.name);
    var ok := m.ChkOrDownload(q.dir, q.name, q.hash, q.size, q.url, q.force, net);
    HitSnoc(w0, hs, MraHit(tag, q), net, m.digest);
  }

  /** One step of the outer tag loop of `chk_mra_cache`: the hits of `ids[a]` follow those of `ids[..a]`. */
  lemma MraRecordStep(done: seq<MraHit>, ids: seq<TagId>, d: TagDict, cores: Cores, q: Request, a: nat)
    requires a < |ids|
    ensures done + Tagged(Hits(ids[..a + 1], d, NamesCore(cores)), q)
            == done + Tagged(Hits(ids[..a], d, NamesCore(cores)), q) + Tagged(HitsOne(ids[a], d, NamesCore(cores)), q)
  {
    HitsStep(ids, d, NamesCore(cores), a);
    TaggedAppend(Hits(ids[..a], d, NamesCore(cores)), HitsOne(ids[a], d, NamesCore(cores)), q);
  }

  /** One step of the inner tag loop of `chk_mra_cache`: entry `d[b]` adds a hit when it names `id` and a core. */
  lemma MraIdStep(done: seq<MraHit>, id: TagId, d: TagDict, cores: Cores, q: Request, b: nat)
    requires b < |d|
    ensures var cur := done + Tagged(HitsOne(id, d[..b], NamesCore(cores)), q);
            var next := done + Tagged(HitsOne(id, d[..b + 1], NamesCore(cores)), q);
            && (d[b].1 == id && CoreOf(d[b].0) in cores ==> next == cur + [MraHit(d[b].0, q)])
            && (!(d[b].1 == id && CoreOf(d[b].0) in cores) ==> next == cur)
  {
    HitsOneStep(id, d, NamesCore(cores), b);
    var names := HitsOne(id, d[..b], NamesCore(cores));
    if d[b].1 == id && CoreOf(d[b].0) in cores {
      TaggedAppend(names, [d[b].0], q);
      assert Tagged([d[b].0], q) == [MraHit(d[b].0, q)];
    } else {
      assert names + [] == names;
    }
  }

  /** The nested tag loops of `chk_mra_cache` for one MRA record. */
  method MraFetchRecord(m: Machine, ids: seq<TagId>, d: TagDict, cores: Cores, q: Request, net: Network,
                        ghost w0: World, ghost done: seq<MraHit>, idx0: MraIndex)
    returns (idx: MraIndex)
    requires Reached(m.State(), idx0, w0, done, net, m.digest)
    modifies m
    ensures Reached(m.State(), idx, w0, done + Tagged(Hits(ids, d, NamesCore(cores)), q), net, m.digest)
  {
    idx := idx0;
    ghost var hs := done;
    var a := 0;
    assert done + Tagged(Hits(ids[..0], d, NamesCore(cores)), q) == done;
    while a < |ids|
      invariant 0 <= a <= |ids|
      invariant hs == done + Tagged(Hits(ids[..a], d, NamesCore(cores)), q)
      invariant Reached(m.State(), idx, w0, hs, net, m.digest)
    {
      idx := MraFetchId(m, ids[a], d, cores, q, net, w0, hs, idx);
      MraRecordStep(done, ids, d, cores, q, a);
      hs := hs + Tagged(HitsOne(ids[a], d, NamesCore(cores)), q);
      a := a + 1;
    }
    assert ids[..a] == ids;
  }

  /** The inner loop of `chk_mra_cache`: the dictionary entries naming `id` and, stripped, a core. */
  method MraFetchId(m: Machine, id: TagId, d: TagDict, cores: Cores, q: Request, net: Network,
                    ghost w0: World, ghost done: seq<MraHit>, idx0: MraIndex)
    returns (idx: MraIndex)
    requires Reached(m.State(), idx0, w0, done, net, m.digest)
    modifies m
    ensures Reached(m.State(), idx, w0, done + Tagged(HitsOne(id, d, NamesCore(cores)), q), net, m.digest)
  {
    idx := idx0;
    ghost var hs := done;
    var b := 0;
    assert done + Tagged(HitsOne(id, d[..0], NamesCore(cores)), q) == done;
    while b < |d|
      invariant 0 <= b <= |d|
      invariant hs == done + Tagged(HitsOne(id, d[..b], NamesCore(cores)), q)
      invariant Reached(m.State(), idx, w0, hs, net, m.digest)
    {
      var tag := d[b].0;
      MraIdStep(done, id, d, cores, q, b);
      if d[b].1 == id && CoreOf(tag) in cores {
        idx := FetchMra(m, w0, hs, tag, q, net, idx);
        hs := hs + [MraHit(tag, q)];
      }
      b := b + 1;
    }
    assert d[..b] == d;
  }

  // ---------------------------------------------------------------------------
  // chk_or_download_mrabin: the MRA converter binary

  /** The world after looking for the converter, and its path (the source's '' is None). */
  datatype Converter = Converter(world: World, bin: Option<Path>)

  /**
   * `chk_or_download_mrabin(dir)`: a converter already at `dir/name` is used
   * as is. Otherwise it is downloaded without hash or size check, `chmod a+x`
   * runs on it where the platform needs that (also when the download failed),
   * and its path is returned only when the download succeeded. The binary's
   * name and URL and whether chmod runs depend on the platform and are
   * parameters here.
   */
  function ConverterFetch(w: World, dir: Path, name: string, url: string, force: bool, chmod: bool,
                          net: Network, digest: Digest): Converter
  {
    var p := dir + [name];
    if p in w.files then Converter(w, Some(p))
    else
      var s := Download(w, dir, name, "", 0, url, force, net, digest);
      var w' := if chmod then s.world.(commands := s.world.commands + [["chmod", "a+x", Render(p)]]) else s.world;
      Converter(w', if s.ok then Some(p) else None)
  }

  /**
   * A converter path is only handed back when the binary is in place, and it
   * is always `dir/name`; an existing binary is neither fetched nor touched.
   */
  lemma ConverterReady(w: World, dir: Path, name: string, url: string, force: bool, chmod: bool,
                       net: Network, digest: Digest)
    ensures var c := ConverterFetch(w, dir, name, url, force, chmod, net, digest);
            && (c.bin.Some? ==> c.bin.value == dir + [name] && dir + [name] in c.world.files)
            && (dir + [name] in w.files ==> c.bin.Some? && c.world == w)
  {
  }

  /**
   * When the binary is missing, the only command issued is the chmod, which
   * runs whether or not the download succeeded; nothing runs when it is present.
   */
  lemma ConverterCommands(w: World, dir: Path, name: string, url: string, force: bool, chmod: bool,
                          net: Network, digest: Digest)
    ensures var c := ConverterFetch(w, dir, name, url, force, chmod, net, digest);
            c.world.commands
            == w.commands + (if dir + [name] !in w.files && chmod then [["chmod", "a+x", Render(dir + [name])]] else [])
  {
    if dir + [name] !in w.files {
      DownloadFrame(w, dir, name, "", 0, url, force, net, digest, dir + [name] + [""]);
    }
  }

  /** `chk_or_download_mrabin`. */
  method FetchConverter(m: Machine, dir: Path, name: string, url: string, force: bool, chmod: bool, net: Network)
    returns (bin: Option<Path>)
    modifies m
    ensures Converter(m.State(), bin) == ConverterFetch(old(m.State()), dir, name, url, force, chmod, net, m.digest)
  {
    var p := dir + [name];
    var ok := true;
    if p !in m.files {
      ok := m.ChkOrDownload(dir, name, "", 0, url, force, net);
      if chmod {
        m.RunProcess(["chmod", "a+x", Render(p)]);
      }
    }
    bin := if ok then Some(p) else None;
  }

  // ---------------------------------------------------------------------------
  // build_arc_files: one converter run per MRA, plus a named run for some

  /** The sub-directory of a core's ARC files: only for a core listing several MRAs. */
  function SubdirOf(tag: string, l: seq<string>): string
  {
    if |l| > 1 then Upper(Strip(CoreOf(tag), "jt")) else ""
  }

  /** The `-a` name: the core's default ARC name, else the core's name, with `.arc`, upper-cased. */
  function ArcName(tag: string, core: Core): string
  {
    Upper((if core.defaultArc != "" then core.defaultArc else CoreOf(tag)) + ".arc")
  }

  /** Whether an MRA also gets the run that writes a named ARC into the output root. */
  predicate NamedRun(sub: string, core: Core, mra: string)
  {
    sub == "" || (core.defaultMra != "" && StartsWith(mra, core.defaultMra))
  }

  /** The converter run writing the named ARC into `out`. */
  function NamedCmd(bin: string, roms: Path, out: Path, mras: Path, tag: string, core: Core, mra: string)
    : seq<string>
  {
    [bin, "-A", "-z", Render(roms), "-O", Render(out), "-a", ArcName(tag, core), Render(mras + [mra])]
  }

  /** The converter run without `-a`, into `out` or into its sub-directory `sub`. */
  function UnnamedCmd(bin: string, roms: Path, out: Path, mras: Path, sub: string, mra: string): seq<string>
  {
    [bin, "-A", "-z", Render(roms), "-O", Render(if sub != "" then out + [sub] else out), Render(mras + [mra])]
  }

  /** The runs for one MRA: the named one first when it applies, then the plain one. */
  function MraRuns(bin: string, roms: Path, out: Path, mras: Path, tag: string, core: Core, sub: string, mra: string)
    : seq<seq<string>>
  {
    (if NamedRun(sub, core, mra) then [NamedCmd(bin, roms, out, mras, tag, core, mra)] else [])
    + [UnnamedCmd(bin, roms, out, mras, sub, mra)]
  }

  /** The runs for the MRAs of one key, in list order. */
  function ListRuns(bin: string, roms: Path, out: Path, mras: Path, tag: string, core: Core, sub: string,
                    l: seq<string>): seq<seq<string>>
  {
    if l == [] then []
    else ListRuns(bin, roms, out, mras, tag, core, sub, l[..|l| - 1])
         + MraRuns(bin, roms, out, mras, tag, core, sub, l[|l| - 1])
  }

  /** The runs for the keys `order` of the index, each with the core its name strips to. */
  function ArcCommands(order: seq<string>, lists: map<string, seq<string>>, cores: Cores, bin: string,
                       roms: Path, out: Path, mras: Path): seq<seq<string>>
    requires forall k :: k in order ==> k in lists && CoreOf(k) in cores
  {
    if order == [] then []
    else
      var tag := order[|order| - 1];
      ArcCommands(order[..|order| - 1], lists, cores, bin, roms, out, mras)
      + ListRuns(bin, roms, out, mras, tag, cores[CoreOf(tag)], SubdirOf(tag, lists[tag]), lists[tag])
  }

  /**
   * `build_arc_files(idx, cores, out, mras, roms, cache)`: fetch the converter
   * into `cache/bin`; when it is available, issue the runs of `ArcCommands`.
   */
  function ArcBuild(w: World, idx: MraIndex, cores: Cores, out: Path, mras: Path, roms: Path, cacheDir: Path,
                    binName: string, binUrl: string, chmod: bool, net: Network, digest: Digest): World
    requires forall k :: k in idx.order ==> k in idx.lists && CoreOf(k) in cores
  {
    var c := ConverterFetch(w, cacheDir + ["bin"], binName, binUrl, false, chmod, net, digest);
    match c.bin
    case None => c.world
    case Some(bin) =>
      c.world.(commands := c.world.commands + ArcCommands(idx.order, idx.lists, cores, Render(bin), roms, out, mras))
  }

  /** One step of the loop over the index keys: key `order[i]` is processed. */
  lemma ArcCommandsStep(order: seq<string>, lists: map<string, seq<string>>, cores: Cores, bin: string,
                        roms: Path, out: Path, mras: Path, i: nat)
    requires forall k :: k in order ==> k in lists && CoreOf(k) in cores
    requires i < |order|
    ensures forall k :: k in order[..i] ==> k in lists && CoreOf(k) in cores
    ensures order[i] in lists && CoreOf(order[i]) in cores
    ensures ArcCommands(order[..i + 1], lists, cores, bin, roms, out, mras)
            == ArcCommands(order[..i], lists, cores, bin, roms, out, mras)
               + ListRuns(bin, roms, out, mras, order[i], cores[CoreOf(order[i])], SubdirOf(order[i], lists[order[i]]),
                          lists[order[i]])
  {
    assert order[i] in order;
    assert order[..i + 1][..i] == order[..i];
  }

  /** The runs issued for the MRAs `x + y` are those for `x`, then those for `y`. */
  lemma {:induction false} ListRunsAppend(bin: string, roms: Path, out: Path, mras: Path, tag: string, core: Core,
                                          sub: string, x: seq<string>, y: seq<string>)
    ensures ListRuns(bin, roms, out, mras, tag, core, sub, x + y)
            == ListRuns(bin, roms, out, mras, tag, core, sub, x) + ListRuns(bin, roms, out, mras, tag, core, sub, y)
  {
    if y != [] {
      var y' := y[..|y| - 1];
      assert (x + y)[..|x + y| - 1] == x + y';
      ListRunsAppend(bin, roms, out, mras, tag, core, sub, x, y');
    } else {
      assert x + y == x;
    }
  }

  /**
   * The runs of the k-th MRA sit between those of the MRAs before and after
   * it; they end with its plain run, and start with its named run when the
   * naming rule selects it.
   */
  lemma ListRunsAt(bin: string, roms: Path, out: Path, mras: Path, tag: string, core: Core, sub: string,
                   l: seq<string>, k: nat)
    requires k < |l|
    ensures ListRuns(bin, roms, out, mras, tag, core, sub, l)
            == ListRuns(bin, roms, out, mras, tag, core, sub, l[..k])
               + MraRuns(bin, roms, out, mras, tag, core, sub, l[k])
               + ListRuns(bin, roms, out, mras, tag, core, sub, l[k + 1..])
    ensures var rs := MraRuns(bin, roms, out, mras, tag, core, sub, l[k]);
            && rs[|rs| - 1] == UnnamedCmd(bin, roms, out, mras, sub, l[k])
            && (NamedRun(sub, core, l[k]) <==> |rs| == 2)
            && (NamedRun(sub, core, l[k]) ==> rs[0] == NamedCmd(bin, roms, out, mras, tag, core, l[k]))
  {
    assert l == l[..k] + [l[k]] + l[k + 1..];
    ListRunsAppend(bin, roms, out, mras, tag, core, sub, l[..k] + [l[k]], l[k + 1..]);
    ListRunsAppend(bin, roms, out, mras, tag, core, sub, l[..k], [l[k]]);
    assert ListRuns(bin, roms, out, mras, tag, core, sub, [l[k]])
           == MraRuns(bin, roms, out, mras, tag, core, sub, l[k]) by {
      assert [l[k]][..0] == [];
    }
  }

  /** The runs without `-a` (seven arguments), in order. */
  function Plain(cs: seq<seq<string>>): seq<seq<string>>
  {
    if cs == [] then []
    else Plain(cs[..|cs| - 1]) + (if |cs[|cs| - 1]| == 7 then [cs[|cs| - 1]] else [])
  }

  /** The runs with `-a` (nine arguments), in order. */
  function Labelled(cs: seq<seq<string>>): seq<seq<string>>
  {
    if cs == [] then []
    else Labelled(cs[..|cs| - 1]) + (if |cs[|cs| - 1]| == 9 then [cs[|cs| - 1]] else [])
  }

  lemma {:induction false} FilterAppend(x: seq<seq<string>>, y: seq<seq<string>>)
    ensures Plain(x + y) == Plain(x) + Plain(y)
    ensures Labelled(x + y) == Labelled(x) + Labelled(y)
  {
    if y != [] {
      var y' := y[..|y| - 1];
      assert (x + y)[..|x + y| - 1] == x + y';
      FilterAppend(x, y');
    } else {
      assert x + y == x;
    }
  }

  /** The MRAs of `l` that get a named run, in list order. */
  function NamedMras(sub: string, core: Core, l: seq<string>): seq<string>
  {
    if l == [] then []
    else NamedMras(sub, core, l[..|l| - 1]) + (if NamedRun(sub, core, l[|l| - 1]) then [l[|l| - 1]] else [])
  }

  /**
   * Every MRA of a key gets exactly one run without `-a`, in list order,
   * into the key's sub-directory when it has one.
   */
  lemma {:induction false} PlainRunsPerMra(bin: string, roms: Path, out: Path, mras: Path, tag: string, core: Core,
                                           sub: string, l: seq<string>)
    ensures var p := Plain(ListRuns(bin, roms, out, mras, tag, core, sub, l));
            |p| == |l| && forall k :: 0 <= k < |l| ==> p[k] == UnnamedCmd(bin, roms, out, mras, sub, l[k])
  {
    if l != [] {
      var l' := l[..|l| - 1];
      var mra := l[|l| - 1];
      PlainRunsPerMra(bin, roms, out, mras, tag, core, sub, l');
      FilterAppend(ListRuns(bin, roms, out, mras, tag, core, sub, l'),
                   MraRuns(bin, roms, out, mras, tag, core, sub, mra));
      var n := [NamedCmd(bin, roms, out, mras, tag, core, mra)];
      var u := [UnnamedCmd(bin, roms, out, mras, sub, mra)];
      if NamedRun(sub, core, mra) {
        FilterAppend(n, u);
        assert Plain(n) == Plain([]) + [];
      }
      assert Plain(u) == Plain([]) + u;
    }
  }

  /**
   * The runs with `-a` are exactly one per MRA that the naming rule selects,
   * in list order, each into the output root under the key's ARC name.
   */
  lemma {:induction false} NamedRunsPerMra(bin: string, roms: Path, out: Path, mras: Path, tag: string, core: Core,
                                           sub: string, l: seq<string>)
    ensures var nm := NamedMras(sub, core, l);
            var a := Labelled(ListRuns(bin, roms, out, mras, tag, core, sub, l));
            |a| == |nm| && forall k :: 0 <= k < |nm| ==> a[k] == NamedCmd(bin, roms, out, mras, tag, core, nm[k])
  {
    if l != [] {
      var l' := l[..|l| - 1];
      var mra := l[|l| - 1];
      NamedRunsPerMra(bin, roms, out, mras, tag, core, sub, l');
      FilterAppend(ListRuns(bin, roms, out, mras, tag, core, sub, l'),
                   MraRuns(bin, roms, out, mras, tag, core, sub, mra));
      var n := [NamedCmd(bin, roms, out, mras, tag, core, mra)];
      var u := [UnnamedCmd(bin, roms, out, mras, sub, mra)];
      assert Labelled(u) == Labelled([]) + [];
      if NamedRun(sub, core, mra) {
        FilterAppend(n, u);
        assert Labelled(n) == Labelled([]) + n;
      }
    }
  }

  /** Every MRA named by the rule is in the list, and the rule holds for it. */
  lemma {:induction false} NamedMrasMember(sub: string, core: Core, l: seq<string>, mra: string)
    ensures mra in NamedMras(sub, core, l) <==> mra in l && NamedRun(sub, core, mra)
  {
    if l != [] {
      var l' := l[..|l| - 1];
      NamedMrasMember(sub, core, l', mra);
      assert l == l' + [l[|l| - 1]];
    }
  }

  /** A core with a single MRA: a named run, then a plain run, both into the output root. */
  lemma SingleMraRuns(bin: string, roms: Path, out: Path, mras: Path, tag: string, core: Core, mra: string)
    ensures ListRuns(bin, roms, out, mras, tag, core, SubdirOf(tag, [mra]), [mra])
            == [NamedCmd(bin, roms, out, mras, tag, core, mra),
                [bin, "-A", "-z", Render(roms), "-O", Render(out), Render(mras + [mra])]]
  {
    assert [mra][..0] == [];
  }

  /**
   * A core with several MRAs whose name keeps something once `jt` is removed
   * gets a non-empty sub-directory, and an MRA is then named exactly when it
   * starts with the core's non-empty default MRA.
   */
  lemma SharedCoreNaming(tag: string, core: Core, l: seq<string>, mra: string)
    requires |l| > 1 && Strip(CoreOf(tag), "jt") != ""
    ensures SubdirOf(tag, l) != ""
    ensures NamedRun(SubdirOf(tag, l), core, mra) <==> core.defaultMra != "" && StartsWith(mra, core.defaultMra)
  {
    assert |SubdirOf(tag, l)| == |Strip(CoreOf(tag), "jt")| > 0;
  }

  /** `w` is `w0` after the external commands `cmds` ran, in order; nothing else changed. */
  predicate Issued(w0: World, cmds: seq<seq<string>>, w: World)
  {
    w == w0.(commands := w0.commands + cmds)
  }

  /** Commands issued in two batches are issued as one. */
  lemma IssuedThen(w0: World, x: seq<seq<string>>, w1: World, y: seq<seq<string>>, w2: World)
    requires Issued(w0, x, w1) && Issued(w1, y, w2)
    ensures Issued(w0, x + y, w2)
  {
    Assoc(w0.commands, x, y);
  }

  /** The converter runs for one MRA `mra` of a key whose sub-directory is `sub`. */
  method RunMra(m: Machine, bin: string, roms: Path, out: Path, mras: Path, tag: string, core: Core, sub: string,
                mra: string)
    modifies m
    ensures Issued(old(m.State()), MraRuns(bin, roms, out, mras, tag, core, sub, mra), m.State())
  {
    var mraPath := Render(mras + [mra]);
    var arcPath := out;
    if sub == "" || (core.defaultMra != "" && StartsWith(mra, core.defaultMra)) {
      var arcName := Strip(tag, "arcade") + ".arc";
      if core.defaultArc != "" {
        arcName := core.defaultArc + ".arc";
      }
      m.RunProcess([bin, "-A", "-z", Render(roms), "-O", Render(arcPath), "-a", Upper(arcName), mraPath]);
    }
    if sub != "" {
      arcPath := arcPath + [sub];
    }
    m.RunProcess([bin, "-A", "-z", Render(roms), "-O", Render(arcPath), mraPath]);
  }

  /** The converter runs for the MRA list `l` of key `tag`. */
  method RunCore(m: Machine, bin: string, roms: Path, out: Path, mras: Path, tag: string, core: Core,
                 l: seq<string>)
    modifies m
    ensures Issued(old(m.State()), ListRuns(bin, roms, out, mras, tag, core, SubdirOf(tag, l), l), m.State())
  {
    var sub := "";
    if |l| > 1 {
      sub := Upper(Strip(Strip(tag, "arcade"), "jt"));
    }
    ghost var w0 := m.State();
    var j := 0;
    assert l[..0] == [] && w0.commands + [] == w0.commands;
    while j < |l|
      invariant 0 <= j <= |l|
      invariant Issued(w0, ListRuns(bin, roms, out, mras, tag, core, sub, l[..j]), m.State())
    {
      ghost var w1 := m.State();
      RunMra(m, bin, roms, out, mras, tag, core, sub, l[j]);
      assert l[..j + 1][..j] == l[..j];
      IssuedThen(w0, ListRuns(bin, roms, out, mras, tag, core, sub, l[..j]), w1,
                 MraRuns(bin, roms, out, mras, tag, core, sub, l[j]), m.State());
      j := j + 1;
    }
    assert l[..j] == l;
  }

  /** `build_arc_files`. */
  method BuildArcFiles(m: Machine, idx: MraIndex, cores: Cores, out: Path, mras: Path, roms: Path, cacheDir: Path,
                       binName: string, binUrl: string, chmod: bool, net: Network)
    requires forall k :: k in idx.order ==> k in idx.lists && CoreOf(k) in cores
    modifies m
    ensures m.State() == ArcBuild(old(m.State()), idx, cores, out, mras, roms, cacheDir, binName, binUrl, chmod, net,
                                  m.digest)
  {
    var bin := FetchConverter(m, cacheDir + ["bin"], binName, binUrl, false, chmod, net);
    if bin.Some? {
      var binPath := Render(bin.value);
      ghost var w1 := m.State();
      var i := 0;
      assert idx.order[..0] == [] && w1.commands + [] == w1.commands;
      while i < |idx.order|
        invariant 0 <= i <= |idx.order|
        invariant Issued(w1, ArcCommands(idx.order[..i], idx.lists, cores, binPath, roms, out, mras), m.State())
      {
        var tag := idx.order[i];
        ArcCommandsStep(idx.order, idx.lists, cores, binPath, roms, out, mras, i);
        ghost var w2 := m.State();
        RunCore(m, binPath, roms, out, mras, tag, cores[Strip(tag, "arcade")], idx.lists[tag]);
        IssuedThen(w1, ArcCommands(idx.order[..i], idx.lists, cores, binPath, roms, out, mras), w2,
                   ListRuns(binPath, roms, out, mras, tag, cores[CoreOf(tag)], SubdirOf(tag, idx.lists[tag]),
                            idx.lists[tag]), m.State());
        i := i + 1;
      }
      assert idx.order[..i] == idx.order;
    }
  }
}
