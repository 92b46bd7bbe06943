/**
 * The `files` packs: `chk_files_cache` populates the cache with the records
 * the selection admits, and `build_sd_files` copies them from the cache into
 * the output tree, deriving each destination from the record's kind, type,
 * tags and declared path.
 */
module Deploy {
  import opened Wrappers
  import opened Text
  import opened Manifest
  import opened Selection
  import opened Cache

  // ---------------------------------------------------------------------------
  // chk_files_cache

  /** Where `chk_files_cache` keeps a record: `files_path/<path...>/<last segment of key>`. */
  function CacheTarget(filesPath: Path, key: string, r: Record): Path
  {
    filesPath + r.path + [BaseName(key)]
  }

  function FileRequest(filesPath: Path, key: string, r: Record, force: bool): (q: Request)
    ensures Target(q) == CacheTarget(filesPath, key, r)
  {
    Request(filesPath + r.path, BaseName(key), r.hash, r.size, r.url, force)
  }

  /** The downloads `chk_files_cache` makes over a table, in order: one per admitted record. */
  function FilesRequests(table: Table, d: TagDict, kinds: set<string>, types: set<string>, tags: set<string>,
                         filesPath: Path, force: bool): seq<Request>
  {
    if table == [] then []
    else
      var (key, r) := table[|table| - 1];
      FilesRequests(table[..|table| - 1], d, kinds, types, tags, filesPath, force)
      + (if CacheWanted(r, d, kinds, types, tags) then [FileRequest(filesPath, key, r, force)] else [])
  }

  /** Record `i` of the table is admitted and `q` is its download. */
  predicate RequestOf(table: Table, d: TagDict, kinds: set<string>, types: set<string>, tags: set<string>,
                      filesPath: Path, force: bool, i: int, q: Request)
  {
    0 <= i < |table| && CacheWanted(table[i].1, d, kinds, types, tags)
    && q == FileRequest(filesPath, table[i].0, table[i].1, force)
  }

  /** A download is made exactly for each record the cache filter admits. */
  lemma {:induction false} FilesRequestsMember(table: Table, d: TagDict, kinds: set<string>, types: set<string>,
                                               tags: set<string>, filesPath: Path, force: bool, q: Request)
    ensures q in FilesRequests(table, d, kinds, types, tags, filesPath, force)
            <==> exists i :: RequestOf(table, d, kinds, types, tags, filesPath, force, i, q)
  {
    if table != [] {
      var prefix := table[..|table| - 1];
      var last := |table| - 1;
      FilesRequestsMember(prefix, d, kinds, types, tags, filesPath, force, q);
      if RequestOf(table, d, kinds, types, tags, filesPath, force, last, q) {
        assert q in FilesRequests(table, d, kinds, types, tags, filesPath, force);
      }
      if exists i :: RequestOf(prefix, d, kinds, types, tags, filesPath, force, i, q) {
        var i :| RequestOf(prefix, d, kinds, types, tags, filesPath, force, i, q);
        assert RequestOf(table, d, kinds, types, tags, filesPath, force, i, q);
      }
      if exists i :: RequestOf(table, d, kinds, types, tags, filesPath, force, i, q) {
        var i :| RequestOf(table, d, kinds, types, tags, filesPath, force, i, q);
        if i < last {
          assert RequestOf(prefix, d, kinds, types, tags, filesPath, force, i, q);
        }
      }
    }
  }

  /**
   * Populating the cache touches only the cache locations of admitted
   * records, launches nothing, and fetches only their URLs.
   */
  lemma FilesCacheFrame(w: World, db: Db, kinds: set<string>, types: set<string>, tags: set<string>,
                        filesPath: Path, force: bool, net: Network, digest: Digest, p: Path)
    requires forall i :: 0 <= i < |db.files| && CacheWanted(db.files[i].1, db.tags, kinds, types, tags)
                         ==> CacheTarget(filesPath, db.files[i].0, db.files[i].1) != p
    ensures var w' := DownloadAll(w, FilesRequests(db.files, db.tags, kinds, types, tags, filesPath, force), net,
                                  digest);
            && (p in w'.files <==> p in w.files)
            && (p in w.files ==> w'.files[p] == w.files[p])
            && w'.commands == w.commands
  {
    var qs := FilesRequests(db.files, db.tags, kinds, types, tags, filesPath, force);
    forall k | 0 <= k < |qs|
      ensures Target(qs[k]) != p
    {
      FilesRequestsMember(db.files, db.tags, kinds, types, tags, filesPath, force, qs[k]);
      var i :| RequestOf(db.files, db.tags, kinds, types, tags, filesPath, force, i, qs[k]);
    }
    DownloadAllFrame(w, qs, net, digest, p);
  }

  /** `chk_files_cache(db, kinds, types, tags, files_path, force)`. */
  method ChkFilesCache(m: Machine, db: Db, kinds: set<string>, types: set<string>, tags: set<string>,
                       filesPath: Path, force: bool, net: Network)
    modifies m
    ensures m.State()
            == DownloadAll(old(m.State()), FilesRequests(db.files, db.tags, kinds, types, tags, filesPath, force),
                           net, m.digest)
  {
    ghost var w0 := m.State();
    var d := db.tags;
    var i := 0;
    while i < |db.files|
      invariant 0 <= i <= |db.files|
      invariant m.State()
                == DownloadAll(w0, FilesRequests(db.files[..i], d, kinds, types, tags, filesPath, force), net, m.digest)
    {
      var (key, r) := db.files[i];
      var name := BaseName(key);
      var download := true;
      if d != [] {
        download := false;
        var kind := r.kind;
        if kind in kinds && r.kindType.Some? && r.kindType.value in types {
          download := true;
        } else if kind == "" {
          download := true;
        }
      }
      if download {
        if d != [] {
          download := AnyRequestedHit(r.tags, d, tags);
        }
      }
      assert download == CacheWanted(r, d, kinds, types, tags);
      ghost var qs := FilesRequests(db.files[..i], d, kinds, types, tags, filesPath, force);
      assert db.files[..i + 1][..i] == db.files[..i];
      if download {
        var filePath := filesPath + r.path;
        var ok := m.ChkOrDownload(filePath, name, r.hash, r.size, r.url, force, net);
        DownloadAllSnoc(w0, qs, FileRequest(filesPath, key, r, force), net, m.digest);
      } else {
        assert qs + [] == qs;
      }
      i := i + 1;
    }
    assert db.files[..i] == db.files;
  }

  // ---------------------------------------------------------------------------
  // build_sd_files

  /** One `shutil.copyfile(src, dst)`. */
  datatype Copy = Copy(src: Path, dst: Path)

  /** The file tree after a sequence of copies, and whether none of them raised. */
  datatype CopyRun = CopyRun(files: map<Path, Bytes>, ok: bool)

  function ApplyCopies(files: map<Path, Bytes>, cs: seq<Copy>): CopyRun
  {
    if cs == [] then CopyRun(files, true)
    else
      var run := ApplyCopies(files, cs[..|cs| - 1]);
      var c := cs[|cs| - 1];
      CopyRun(Copied(run.files, c.src, c.dst), run.ok && c.src in run.files)
  }

  /** Copying in two batches is copying the concatenation. */
  lemma {:induction false} ApplyCopiesAppend(files: map<Path, Bytes>, cs: seq<Copy>, more: seq<Copy>)
    ensures var first := ApplyCopies(files, cs);
            var second := ApplyCopies(first.files, more);
            ApplyCopies(files, cs + more) == CopyRun(second.files, first.ok && second.ok)
  {
    if more != [] {
      assert (cs + more)[..|cs + more| - 1] == cs + more[..|more| - 1];
      ApplyCopiesAppend(files, cs, more[..|more| - 1]);
    } else {
      assert cs + more == cs;
    }
  }

  /**
   * Copies keep every existing file, add only their destinations, and change
   * nothing else; when none raised, every destination exists.
   */
  lemma {:induction false} ApplyCopiesKeys(files: map<Path, Bytes>, cs: seq<Copy>, p: Path)
    ensures var run := ApplyCopies(files, cs);
            && (p in files ==> p in run.files)
            && (p in run.files ==> p in files || exists k :: 0 <= k < |cs| && cs[k].dst == p)
            && ((forall k :: 0 <= k < |cs| ==> cs[k].dst != p) && p in files ==> run.files[p] == files[p])
            && (run.ok ==> forall k :: 0 <= k < |cs| ==> cs[k].dst in run.files)
  {
    if cs != [] {
      var prefix := cs[..|cs| - 1];
      ApplyCopiesKeys(files, prefix, p);
      var run := ApplyCopies(files, cs);
      if run.ok {
        forall k | 0 <= k < |cs|
          ensures cs[k].dst in run.files
        {
          if k < |prefix| {
            ApplyCopiesKeys(files, prefix, cs[k].dst);
            assert prefix[k] == cs[k];
          }
        }
      }
      if p in run.files && p !in files && p != cs[|cs| - 1].dst {
        var k :| 0 <= k < |prefix| && prefix[k].dst == p;
        assert cs[k] == prefix[k];
      }
    }
  }

  /** The path segments `path` repeated `n` times. */
  function Repeat(path: seq<string>, n: nat): seq<string>
  {
    if n == 0 then [] else Repeat(path, n - 1) + path
  }

  /**
   * The copies of a fully tagged record, one per matching tag name: all from
   * `src`; with tag grouping each matching name is appended to the running
   * destination directory, so a later match nests under the earlier ones.
   */
  function FullCopies(base: Path, names: seq<string>, groupTags: bool, src: Path, name: string): seq<Copy>
  {
    if names == [] then []
    else FullCopies(base, names[..|names| - 1], groupTags, src, name)
         + [Copy(src, base + (if groupTags then names else []) + [name])]
  }

  /**
   * The copies of a partially tagged record, one per matching tag name: all
   * from `src`; each match appends the declared path again to the running
   * destination directory.
   */
  function PartialCopies(base: Path, path: seq<string>, names: seq<string>, src: Path, name: string): seq<Copy>
  {
    if names == [] then []
    else PartialCopies(base, path, names[..|names| - 1], src, name) + [Copy(src, base + Repeat(path, |names|) + [name])]
  }

  lemma {:induction false} FullCopiesLength(base: Path, names: seq<string>, groupTags: bool, src: Path, name: string)
    ensures |FullCopies(base, names, groupTags, src, name)| == |names|
  {
    if names != [] {
      FullCopiesLength(base, names[..|names| - 1], groupTags, src, name);
    }
  }

  lemma {:induction false} PartialCopiesLength(base: Path, path: seq<string>, names: seq<string>, src: Path,
                                               name: string)
    ensures |PartialCopies(base, path, names, src, name)| == |names|
  {
    if names != [] {
      PartialCopiesLength(base, path, names[..|names| - 1], src, name);
    }
  }

  /** One more matching tag name: one more copy. */
  lemma FullCopiesSnoc(base: Path, names: seq<string>, n: string, groupTags: bool, src: Path, name: string)
    ensures FullCopies(base, names + [n], groupTags, src, name)
            == FullCopies(base, names, groupTags, src, name)
               + [Copy(src, base + (if groupTags then names + [n] else []) + [name])]
  {
    assert (names + [n])[..|names|] == names;
  }

  lemma PartialCopiesSnoc(base: Path, path: seq<string>, names: seq<string>, n: string, src: Path, name: string)
    ensures PartialCopies(base, path, names + [n], src, name)
            == PartialCopies(base, path, names, src, name) + [Copy(src, base + Repeat(path, |names|) + path + [name])]
  {
    assert (names + [n])[..|names|] == names;
    assert Repeat(path, |names + [n]|) == Repeat(path, |names|) + path;
    assert base + Repeat(path, |names + [n]|) + [name] == base + Repeat(path, |names|) + path + [name];
  }

  lemma CopyStep(f0: map<Path, Bytes>, done: seq<Copy>, c: Copy, before: map<Path, Bytes>, ok: bool,
                 after: map<Path, Bytes>, copied: bool)
    requires CopyRun(before, ok) == ApplyCopies(f0, done)
    requires after == Copied(before, c.src, c.dst) && copied == (c.src in before)
    ensures CopyRun(after, ok && copied) == ApplyCopies(f0, done + [c])
  {
    assert (done + [c])[..|done|] == done;
  }

  /** `files` and `ok` are what the copies `cs` leave when made, in order, from `f0`. */
  predicate Replays(f0: map<Path, Bytes>, cs: seq<Copy>, files: map<Path, Bytes>, ok: bool)
  {
    CopyRun(files, ok) == ApplyCopies(f0, cs)
  }

  /** One more copy. */
  lemma ApplyCopiesSnoc(files: map<Path, Bytes>, cs: seq<Copy>, c: Copy)
    ensures var run := ApplyCopies(files, cs);
            ApplyCopies(files, cs + [c]) == CopyRun(Copied(run.files, c.src, c.dst), run.ok && c.src in run.files)
  {
    assert (cs + [c])[..|cs|] == cs;
  }

  /** The k-th copy of a fully tagged record goes to `base[/n1/.../nk+1]/name`. */
  lemma {:induction false} FullCopiesAt(base: Path, names: seq<string>, groupTags: bool, src: Path, name: string,
                                        k: nat)
    requires k < |names|
    ensures k < |FullCopies(base, names, groupTags, src, name)|
    ensures FullCopies(base, names, groupTags, src, name)[k]
            == Copy(src, base + (if groupTags then names[..k + 1] else []) + [name])
  {
    var prefix := names[..|names| - 1];
    FullCopiesLength(base, prefix, groupTags, src, name);
    if k < |prefix| {
      FullCopiesAt(base, prefix, groupTags, src, name, k);
      assert prefix[..k + 1] == names[..k + 1];
    } else {
      assert names[..k + 1] == names;
    }
  }

  /** The k-th copy of a partially tagged record goes to `base/<path>^(k+1)/name`. */
  lemma {:induction false} PartialCopiesAt(base: Path, path: seq<string>, names: seq<string>, src: Path,
                                           name: string, k: nat)
    requires k < |names|
    ensures k < |PartialCopies(base, path, names, src, name)|
    ensures PartialCopies(base, path, names, src, name)[k] == Copy(src, base + Repeat(path, k + 1) + [name])
  {
    var prefix := names[..|names| - 1];
    PartialCopiesLength(base, path, prefix, src, name);
    if k < |prefix| {
      PartialCopiesAt(base, path, prefix, src, name, k);
    }
  }

  /** A fully tagged record: its kind and type are both requested. */
  predicate FullyTagged(r: Record, kinds: set<string>, types: set<string>)
  {
    r.kind in kinds && r.kindType.Some? && r.kindType.value in types
  }

  /**
   * The copies `build_sd_files` makes for one record; None when reading its
   * `type` raises `KeyError` (a requested kind without a type).
   */
  function RecordCopies(key: string, r: Record, d: TagDict, kinds: set<string>, types: set<string>,
                        tags: set<string>, filesPath: Path, outSub: Path, groupTags: bool, groupTypes: bool)
    : Option<seq<Copy>>
  {
    var name := BaseName(key);
    if d == [] then Some([Copy(filesPath + r.path + [name], outSub + r.path + [name])])
    else if r.kind in kinds && r.kindType.None? then None
    else
      var names := Hits(r.tags, d, Requested(tags));
      if FullyTagged(r, kinds, types) then
        Some(FullCopies(outSub + (if groupTypes then [r.kindType.value] else []), names, groupTags,
                        filesPath + [name], name))
      else if r.kind == "" then Some(PartialCopies(outSub, r.path, names, filesPath + r.path + [name], name))
      else Some([])
  }

  datatype Plan = Plan(copies: seq<Copy>, crashed: bool)

  /** The copies of a table, in order, up to the record whose `type` lookup raises. */
  function TablePlan(table: Table, d: TagDict, kinds: set<string>, types: set<string>, tags: set<string>,
                     filesPath: Path, outSub: Path, groupTags: bool, groupTypes: bool): Plan
  {
    if table == [] then Plan([], false)
    else
      var plan := TablePlan(table[..|table| - 1], d, kinds, types, tags, filesPath, outSub, groupTags, groupTypes);
      if plan.crashed then plan
      else
        var (key, r) := table[|table| - 1];
        match RecordCopies(key, r, d, kinds, types, tags, filesPath, outSub, groupTags, groupTypes)
        case None => Plan(plan.copies, true)
        case Some(cs) => Plan(plan.copies + cs, false)
  }

  /**
   * `build_sd_files(db, kinds, types, tags, files_path, out, sub, group_tags,
   * group_types, keep)`: unless `keep`, `out/sub` is removed first; then the
   * plan's copies are made; the result is false when a copy raised.
   */
  function Deploy(w: World, db: Db, kinds: set<string>, types: set<string>, tags: set<string>, filesPath: Path,
                  out: Path, sub: Path, groupTags: bool, groupTypes: bool, keep: bool): Attempt
  {
    var f0 := if keep then w.files else Pruned(w.files, out + sub);
    var plan := TablePlan(db.files, db.tags, kinds, types, tags, filesPath, out + sub, groupTags, groupTypes);
    var run := ApplyCopies(f0, plan.copies);
    Attempt(w.(files := run.files), if plan.crashed then Crashed(NoKey("type")) else Finished(run.ok))
  }

  /**
   * With a tag dictionary, a record is copied at least once exactly when the
   * cache filter admits it; without one, every record is copied once and
   * admitted.
   */
  lemma DeployMatchesCache(key: string, r: Record, d: TagDict, kinds: set<string>, types: set<string>,
                           tags: set<string>, filesPath: Path, outSub: Path, groupTags: bool, groupTypes: bool)
    requires RecordCopies(key, r, d, kinds, types, tags, filesPath, outSub, groupTags, groupTypes).Some?
    ensures var cs := RecordCopies(key, r, d, kinds, types, tags, filesPath, outSub, groupTags, groupTypes).value;
            (cs != [] <==> CacheWanted(r, d, kinds, types, tags))
  {
    var names := Hits(r.tags, d, Requested(tags));
    var name := BaseName(key);
    if d != [] {
      if FullyTagged(r, kinds, types) {
        FullCopiesLength(outSub + (if groupTypes then [r.kindType.value] else []), names, groupTags,
                         filesPath + [name], name);
      } else if r.kind == "" {
        PartialCopiesLength(outSub, r.path, names, filesPath + r.path + [name], name);
      }
    }
  }

  /**
   * Copy sources: without a dictionary, and for partially tagged records,
   * every copy reads the record's cache location; for fully tagged records
   * every copy reads `files_path/name`, which is the cache location only when
   * the record declares no path.
   */
  lemma DeploySources(key: string, r: Record, d: TagDict, kinds: set<string>, types: set<string>,
                      tags: set<string>, filesPath: Path, outSub: Path, groupTags: bool, groupTypes: bool, k: nat)
    requires RecordCopies(key, r, d, kinds, types, tags, filesPath, outSub, groupTags, groupTypes).Some?
    requires k < |RecordCopies(key, r, d, kinds, types, tags, filesPath, outSub, groupTags, groupTypes).value|
    ensures var c := RecordCopies(key, r, d, kinds, types, tags, filesPath, outSub, groupTags, groupTypes).value[k];
            && (d == [] || !FullyTagged(r, kinds, types) ==> c.src == CacheTarget(filesPath, key, r))
            && (d != [] && FullyTagged(r, kinds, types) ==> c.src == filesPath + [BaseName(key)]
                                                            && (c.src == CacheTarget(filesPath, key, r) <==> r.path == []))
  {
    var names := Hits(r.tags, d, Requested(tags));
    var name := BaseName(key);
    if d != [] {
      if FullyTagged(r, kinds, types) {
        FullCopiesLength(outSub + (if groupTypes then [r.kindType.value] else []), names, groupTags,
                         filesPath + [name], name);
        FullCopiesAt(outSub + (if groupTypes then [r.kindType.value] else []), names, groupTags,
                     filesPath + [name], name, k);
        if filesPath + [name] == filesPath + r.path + [name] {
          assert |r.path| == 0;
        }
      } else if r.kind == "" {
        PartialCopiesLength(outSub, r.path, names, filesPath + r.path + [name], name);
        PartialCopiesAt(outSub, r.path, names, filesPath + r.path + [name], name, k);
      }
    }
  }

  lemma {:induction false} TablePlanCrashSticks(table: Table, i: nat, d: TagDict, kinds: set<string>,
                                                types: set<string>, tags: set<string>, filesPath: Path,
                                                outSub: Path, groupTags: bool, groupTypes: bool)
    requires i <= |table|
    requires TablePlan(table[..i], d, kinds, types, tags, filesPath, outSub, groupTags, groupTypes).crashed
    ensures TablePlan(table, d, kinds, types, tags, filesPath, outSub, groupTags, groupTypes)
            == TablePlan(table[..i], d, kinds, types, tags, filesPath, outSub, groupTags, groupTypes)
    decreases |table| - i
  {
    if i < |table| {
      assert table[..i + 1][..i] == table[..i];
      TablePlanCrashSticks(table, i + 1, d, kinds, types, tags, filesPath, outSub, groupTags, groupTypes);
    } else {
      assert table[..i] == table;
    }
  }

  /** Copy `k` of `cs` writes `p`. */
  predicate IsCopyTo(cs: seq<Copy>, k: int, p: Path)
  {
    0 <= k < |cs| && cs[k].dst == p
  }

  /**
   * Unless `keep` is set, everything under `out/sub` after deployment was
   * copied there by this run: the previous contents are gone.
   */
  lemma DeployReplacesSubtree(w: World, db: Db, kinds: set<string>, types: set<string>, tags: set<string>,
                              filesPath: Path, out: Path, sub: Path, groupTags: bool, groupTypes: bool, p: Path)
    requires out + sub < p
    requires p in Deploy(w, db, kinds, types, tags, filesPath, out, sub, groupTags, groupTypes, false).world.files
    ensures exists k :: IsCopyTo(TablePlan(db.files, db.tags, kinds, types, tags, filesPath, out + sub, groupTags,
                                           groupTypes).copies, k, p)
  {
    var plan := TablePlan(db.files, db.tags, kinds, types, tags, filesPath, out + sub, groupTags, groupTypes);
    var f0 := Pruned(w.files, out + sub);
    assert Deploy(w, db, kinds, types, tags, filesPath, out, sub, groupTags, groupTypes, false).world.files
           == ApplyCopies(f0, plan.copies).files;
    assert p !in f0;
    ApplyCopiesKeys(f0, plan.copies, p);
    var k :| 0 <= k < |plan.copies| && plan.copies[k].dst == p;
    assert IsCopyTo(plan.copies, k, p);
  }

  /** The copies of a fully tagged record, made by the nested tag loops of `build_sd_files`. */
  method CopyFullyTagged(m: Machine, ids: seq<TagId>, d: TagDict, tags: set<string>, src: Path, base: Path,
                         name: string, groupTags: bool)
    returns (ok: bool)
    modifies m
    ensures Replays(old(m.files), FullCopies(base, Hits(ids, d, Requested(tags)), groupTags, src, name),
                    m.files, ok)
    ensures m.acquired == old(m.acquired) && m.commands == old(m.commands)
  {
    ok := true;
    ghost var f0 := m.files;
    ghost var names: seq<string> := [];
    var sdpath := base;
    var a := 0;
    while a < |ids|
      invariant 0 <= a <= |ids|
      invariant names == Hits(ids[..a], d, Requested(tags))
      invariant FullSoFar(f0, base, groupTags, src, name, names, sdpath, m.files, ok)
      invariant m.acquired == old(m.acquired) && m.commands == old(m.commands)
    {
      sdpath, ok := CopyFullyTaggedId(m, ids[a], d, tags, src, base, name, groupTags, sdpath, names, f0, ok);
      HitsStep(ids, d, Requested(tags), a);
      names := names + HitsOne(ids[a], d, Requested(tags));
      a := a + 1;
    }
    assert ids[..a] == ids;
  }

  /** One `copyfile` of a plan, after the copies `done` were made from `f0`. */
  method CopyNext(m: Machine, ghost f0: map<Path, Bytes>, ghost done: seq<Copy>, src: Path, dst: Path, ok0: bool)
    returns (ok: bool)
    requires Replays(f0, done, m.files, ok0)
    modifies m
    ensures Replays(f0, done + [Copy(src, dst)], m.files, ok)
    ensures m.acquired == old(m.acquired) && m.commands == old(m.commands)
  {
    ghost var before := m.files;
    var copied := m.CopyFile(src, dst);
    CopyStep(f0, done, Copy(src, dst), before, ok0, m.files, copied);
    ok := ok0 && copied;
  }

  /** One more matching name of a fully tagged record: where the running directory goes, and the copy it adds. */
  lemma FullNext(base: Path, names: seq<string>, n: string, groupTags: bool, src: Path, name: string, sdpath: Path)
    requires sdpath == base + (if groupTags then names else [])
    ensures var sd := if groupTags then sdpath + [n] else sdpath;
            && sd == base + (if groupTags then names + [n] else [])
            && FullCopies(base, names + [n], groupTags, src, name)
               == FullCopies(base, names, groupTags, src, name) + [Copy(src, sd + [name])]
  {
    FullCopiesSnoc(base, names, n, groupTags, src, name);
    if groupTags {
      Assoc(base, names, [n]);
    }
  }

  /** After the matching names `names`: the running directory and the copies made so far. */
  predicate FullSoFar(f0: map<Path, Bytes>, base: Path, groupTags: bool, src: Path, name: string,
                      names: seq<string>, sdpath: Path, files: map<Path, Bytes>, ok: bool)
  {
    sdpath == base + (if groupTags then names else [])
    && Replays(f0, FullCopies(base, names, groupTags, src, name), files, ok)
  }

  /**
   * One matching tag name `n` of a fully tagged record: with tag grouping the
   * running directory takes `n`, then one copy is made into it.
   */
  method FullHit(m: Machine, ghost f0: map<Path, Bytes>, base: Path, ghost names: seq<string>, n: string,
                 groupTags: bool, src: Path, name: string, sdpath0: Path, ok0: bool)
    returns (sdpath: Path, ok: bool)
    requires FullSoFar(f0, base, groupTags, src, name, names, sdpath0, m.files, ok0)
    modifies m
    ensures FullSoFar(f0, base, groupTags, src, name, names + [n], sdpath, m.files, ok)
    ensures m.acquired == old(m.acquired) && m.commands == old(m.commands)
  {
    FullNext(base, names, n, groupTags, src, name, sdpath0);
    sdpath := sdpath0;
    if groupTags {
      sdpath := sdpath + [n];
    }
    ok := CopyNext(m, f0, FullCopies(base, names, groupTags, src, name), src, sdpath + [name], ok0);
  }

  /** The inner loop of a fully tagged record: the dictionary entries naming `id`. */
  method CopyFullyTaggedId(m: Machine, id: TagId, d: TagDict, tags: set<string>, src: Path, base: Path,
                           name: string, groupTags: bool, sdpath0: Path, ghost names0: seq<string>,
                           ghost f0: map<Path, Bytes>, ok0: bool)
    returns (sdpath: Path, ok: bool)
    requires FullSoFar(f0, base, groupTags, src, name, names0, sdpath0, m.files, ok0)
    modifies m
    ensures FullSoFar(f0, base, groupTags, src, name, names0 + HitsOne(id, d, Requested(tags)), sdpath,
                      m.files, ok)
    ensures m.acquired == old(m.acquired) && m.commands == old(m.commands)
  {
    ok := ok0;
    sdpath := sdpath0;
    ghost var names := names0;
    var b := 0;
    assert names0 + HitsOne(id, d[..0], Requested(tags)) == names0;
    while b < |d|
      invariant 0 <= b <= |d|
      invariant names == names0 + HitsOne(id, d[..b], Requested(tags))
      invariant FullSoFar(f0, base, groupTags, src, name, names, sdpath, m.files, ok)
      invariant m.acquired == old(m.acquired) && m.commands == old(m.commands)
    {
      HitsOneNext(names0, id, d, Requested(tags), b);
      if d[b].1 == id && d[b].0 in tags {
        sdpath, ok := FullHit(m, f0, base, names, d[b].0, groupTags, src, name, sdpath, ok);
        names := names + [d[b].0];
      }
      b := b + 1;
    }
    assert d[..b] == d;
  }

  /** The copies of a partially tagged record, made by the nested tag loops of `build_sd_files`. */
  method CopyPartiallyTagged(m: Machine, ids: seq<TagId>, d: TagDict, tags: set<string>, src: Path, base: Path,
                         path: seq<string>, name: string)
    returns (ok: bool)
    modifies m
    ensures Replays(old(m.files), PartialCopies(base, path, Hits(ids, d, Requested(tags)), src, name),
                    m.files, ok)
    ensures m.acquired == old(m.acquired) && m.commands == old(m.commands)
  {
    ok := true;
    ghost var f0 := m.files;
    ghost var names: seq<string> := [];
    var sdpath := base;
    var a := 0;
    while a < |ids|
      invariant 0 <= a <= |ids|
      invariant names == Hits(ids[..a], d, Requested(tags))
      invariant PartialSoFar(f0, base, path, src, name, names, sdpath, m.files, ok)
      invariant m.acquired == old(m.acquired) && m.commands == old(m.commands)
    {
      sdpath, ok := CopyPartiallyTaggedId(m, ids[a], d, tags, src, base, path, name, sdpath, names, f0, ok);
      HitsStep(ids, d, Requested(tags), a);
      names := names + HitsOne(ids[a], d, Requested(tags));
      a := a + 1;
    }
    assert ids[..a] == ids;
  }

  /** After the matching names `names`: the running directory and the copies made so far. */
  predicate PartialSoFar(f0: map<Path, Bytes>, base: Path, path: seq<string>, src: Path, name: string,
                         names: seq<string>, sdpath: Path, files: map<Path, Bytes>, ok: bool)
  {
    sdpath == base + Repeat(path, |names|) && Replays(f0, PartialCopies(base, path, names, src, name), files, ok)
  }

  /**
   * One matching tag name `n` of a partially tagged record: the running
   * directory takes the declared path once more, then one copy is made into it.
   */
  method PartialHit(m: Machine, ghost f0: map<Path, Bytes>, base: Path, path: seq<string>, ghost names: seq<string>,
                    n: string, src: Path, name: string, sdpath0: Path, ok0: bool)
    returns (sdpath: Path, ok: bool)
    requires PartialSoFar(f0, base, path, src, name, names, sdpath0, m.files, ok0)
    modifies m
    ensures PartialSoFar(f0, base, path, src, name, names + [n], sdpath, m.files, ok)
    ensures m.acquired == old(m.acquired) && m.commands == old(m.commands)
  {
    PartialCopiesSnoc(base, path, names, n, src, name);
    Assoc(base, Repeat(path, |names|), path);
    sdpath := sdpath0;
    if path != [] {
      sdpath := sdpath + path;
    }
    ok := CopyNext(m, f0, PartialCopies(base, path, names, src, name), src, sdpath + [name], ok0);
  }

  /** The inner loop of a partially tagged record: the dictionary entries naming `id`. */
  method CopyPartiallyTaggedId(m: Machine, id: TagId, d: TagDict, tags: set<string>, src: Path, base: Path,
                               path: seq<string>, name: string, sdpath0: Path, ghost names0: seq<string>,
                               ghost f0: map<Path, Bytes>, ok0: bool)
    returns (sdpath: Path, ok: bool)
    requires PartialSoFar(f0, base, path, src, name, names0, sdpath0, m.files, ok0)
    modifies m
    ensures PartialSoFar(f0, base, path, src, name, names0 + HitsOne(id, d, Requested(tags)), sdpath,
                         m.files, ok)
    ensures m.acquired == old(m.acquired) && m.commands == old(m.commands)
  {
    ok := ok0;
    sdpath := sdpath0;
    ghost var names := names0;
    var b := 0;
    assert names0 + HitsOne(id, d[..0], Requested(tags)) == names0;
    while b < |d|
      invariant 0 <= b <= |d|
      invariant names == names0 + HitsOne(id, d[..b], Requested(tags))
      invariant PartialSoFar(f0, base, path, src, name, names, sdpath, m.files, ok)
      invariant m.acquired == old(m.acquired) && m.commands == old(m.commands)
    {
      HitsOneNext(names0, id, d, Requested(tags), b);
      if d[b].1 == id && d[b].0 in tags {
        sdpath, ok := PartialHit(m, f0, base, path, names, d[b].0, src, name, sdpath, ok);
        names := names + [d[b].0];
      }
      b := b + 1;
    }
    assert d[..b] == d;
  }

  /** One more record of the table. */
  lemma TablePlanStep(table: Table, i: nat, d: TagDict, kinds: set<string>, types: set<string>, tags: set<string>,
                      filesPath: Path, outSub: Path, groupTags: bool, groupTypes: bool)
    requires i < |table|
    requires !TablePlan(table[..i], d, kinds, types, tags, filesPath, outSub, groupTags, groupTypes).crashed
    ensures var plan := TablePlan(table[..i], d, kinds, types, tags, filesPath, outSub, groupTags, groupTypes);
            TablePlan(table[..i + 1], d, kinds, types, tags, filesPath, outSub, groupTags, groupTypes)
            == match RecordCopies(table[i].0, table[i].1, d, kinds, types, tags, filesPath, outSub, groupTags, groupTypes)
               case None => Plan(plan.copies, true)
               case Some(cs) => Plan(plan.copies + cs, false)
  {
    assert table[..i + 1][..i] == table[..i];
  }

  /** The copies `build_sd_files` makes for one record whose `type` lookup does not raise. */
  method DeployRecord(m: Machine, key: string, r: Record, d: TagDict, kinds: set<string>, types: set<string>,
                      tags: set<string>, filesPath: Path, outSub: Path, groupTags: bool, groupTypes: bool)
    returns (ok: bool)
    requires RecordCopies(key, r, d, kinds, types, tags, filesPath, outSub, groupTags, groupTypes).Some?
    modifies m
    ensures Replays(old(m.files),
                    RecordCopies(key, r, d, kinds, types, tags, filesPath, outSub, groupTags, groupTypes).value,
                    m.files, ok)
    ensures m.acquired == old(m.acquired) && m.commands == old(m.commands)
  {
    var name := BaseName(key);
    var sdpath := outSub;
    if d != [] {
      var kind := r.kind;
      if kind in kinds && r.kindType.value in types {
        if groupTypes {
          sdpath := sdpath + [r.kindType.value];
        } else {
          assert sdpath == outSub + [];
        }
        ok := CopyFullyTagged(m, r.tags, d, tags, filesPath + [name], sdpath, name, groupTags);
      } else if kind == "" {
        ok := CopyPartiallyTagged(m, r.tags, d, tags, filesPath + r.path + [name], sdpath, r.path, name);
      } else {
        ok := true;
      }
    } else {
      var origSubpath := filesPath + r.path;
      sdpath := sdpath + r.path;
      ghost var before := m.files;
      ok := m.CopyFile(origSubpath + [name], sdpath + [name]);
      CopyStep(before, [], Copy(origSubpath + [name], sdpath + [name]), before, true, m.files, ok);
      assert [] + [Copy(origSubpath + [name], sdpath + [name])] == [Copy(origSubpath + [name], sdpath + [name])];
    }
  }

  /** `build_sd_files`. */
  method BuildSdFiles(m: Machine, db: Db, kinds: set<string>, types: set<string>, tags: set<string>,
                      filesPath: Path, out: Path, sub: Path, groupTags: bool, groupTypes: bool, keep: bool)
    returns (status: Status)
    modifies m
    ensures Attempt(m.State(), status)
            == Deploy(old(m.State()), db, kinds, types, tags, filesPath, out, sub, groupTags, groupTypes, keep)
  {
    var ok := true;
    if !keep {
      m.RemoveTree(out + sub);
    }
    ghost var w1 := m.State();
    var d := db.tags;
    var i := 0;
    while i < |db.files|
      invariant 0 <= i <= |db.files|
      invariant !TablePlan(db.files[..i], d, kinds, types, tags, filesPath, out + sub, groupTags, groupTypes).crashed
      invariant Replays(w1.files, TablePlan(db.files[..i], d, kinds, types, tags, filesPath, out + sub,
                                            groupTags, groupTypes).copies, m.files, ok)
      invariant m.acquired == w1.acquired && m.commands == w1.commands
    {
      var (key, r) := db.files[i];
      ghost var done := TablePlan(db.files[..i], d, kinds, types, tags, filesPath, out + sub, groupTags,
                                  groupTypes).copies;
      TablePlanStep(db.files, i, d, kinds, types, tags, filesPath, out + sub, groupTags, groupTypes);
      if d != [] {
        // d_files[s_file]['type'] raises KeyError for a requested kind without a type
        if r.kind in kinds && r.kindType.None? {
          TablePlanCrashSticks(db.files, i + 1, d, kinds, types, tags, filesPath, out + sub, groupTags, groupTypes);
          return Crashed(NoKey("type"));
        }
      }
      ghost var mid := m.files;
      var copied := DeployRecord(m, key, r, d, kinds, types, tags, filesPath, out + sub, groupTags, groupTypes);
      ApplyCopiesAppend(w1.files, done,
                        RecordCopies(key, r, d, kinds, types, tags, filesPath, out + sub, groupTags, groupTypes).value);
      ok := ok && copied;
      i := i + 1;
    }
    assert db.files[..i] == db.files;
    status := Finished(ok);
  }
}
