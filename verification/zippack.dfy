/**
 * `build_sd_fromzip`: every entry of an archive table is checked or
 * extracted (`chk_or_extract`) to `<out>/<path...>/<file>`.
 */
module ZipPack {
  import opened Wrappers
  import opened Text
  import opened Manifest
  import opened Cache

  /** The world after a run over a table, each entry's result, and the exception that ended it, if any. */
  datatype ZipRun = ZipRun(world: World, oks: seq<bool>, fault: Option<Fault>)

  /** Where an archive-table entry is extracted to. */
  function EntryTarget(outDir: Path, r: Record): Path
  {
    outDir + r.path + [r.file]
  }

  /** The `chk_or_extract` call for the entry `key`. */
  function ExtractEntry(w: World, zip: Path, key: string, r: Record, outDir: Path, digest: Digest, unzip: Unzip)
    : Attempt
  {
    Extract(w, key, EntryTarget(outDir, r), r.hash, r.size, zip, digest, unzip)
  }

  /** The loop of `build_sd_fromzip` over a table, in order; an exception ends it. */
  function ExtractTable(w: World, zip: Path, table: Table, outDir: Path, digest: Digest, unzip: Unzip): ZipRun
  {
    if table == [] then ZipRun(w, [], None)
    else
      var run := ExtractTable(w, zip, table[..|table| - 1], outDir, digest, unzip);
      if run.fault.Some? then run
      else
        var (key, r) := table[|table| - 1];
        var a := ExtractEntry(run.world, zip, key, r, outDir, digest, unzip);
        match a.status
        case Finished(ok) => ZipRun(a.world, run.oks + [ok], None)
        case Crashed(e) => ZipRun(a.world, run.oks, Some(e))
  }

  /** What `build_sd_fromzip` returns: the result of the last entry only (false for an empty table). */
  function LastStatus(run: ZipRun): Status
  {
    if run.fault.Some? then Crashed(run.fault.value)
    else Finished(|run.oks| > 0 && run.oks[|run.oks| - 1])
  }

  /** What its docstring promises: true when every entry was extracted and checked without problems. */
  function AllStatus(run: ZipRun): Status
  {
    if run.fault.Some? then Crashed(run.fault.value)
    else Finished(false !in run.oks)
  }

  /** Once an exception is raised, the rest of the table is not processed. */
  lemma {:induction false} FaultSticks(w: World, zip: Path, table: Table, i: nat, outDir: Path,
                                       digest: Digest, unzip: Unzip)
    requires i <= |table|
    requires ExtractTable(w, zip, table[..i], outDir, digest, unzip).fault.Some?
    ensures ExtractTable(w, zip, table, outDir, digest, unzip)
            == ExtractTable(w, zip, table[..i], outDir, digest, unzip)
    decreases |table| - i
  {
    if i < |table| {
      assert table[..i + 1][..i] == table[..i];
      FaultSticks(w, zip, table, i + 1, outDir, digest, unzip);
    } else {
      assert table[..i] == table;
    }
  }

  /**
   * Without an exception there is one result per entry, and the k-th is what
   * checking the k-th entry returned after the entries before it.
   */
  lemma {:induction false} ExtractTableEntry(w: World, zip: Path, table: Table, outDir: Path,
                                             digest: Digest, unzip: Unzip, k: nat)
    requires ExtractTable(w, zip, table, outDir, digest, unzip).fault.None?
    requires k < |table|
    ensures var run := ExtractTable(w, zip, table, outDir, digest, unzip);
            var before := ExtractTable(w, zip, table[..k], outDir, digest, unzip);
            && |run.oks| == |table|
            && before.fault.None?
            && ExtractEntry(before.world, zip, table[k].0, table[k].1, outDir, digest, unzip).status
               == Finished(run.oks[k])
  {
    var prefix := table[..|table| - 1];
    var run' := ExtractTable(w, zip, prefix, outDir, digest, unzip);
    if k < |table| - 1 {
      assert prefix[..k] == table[..k];
      ExtractTableEntry(w, zip, prefix, outDir, digest, unzip, k);
    } else {
      assert prefix == table[..k];
    }
    if prefix != [] {
      ExtractTableLength(w, zip, prefix, outDir, digest, unzip);
    }
  }

  lemma {:induction false} ExtractTableLength(w: World, zip: Path, table: Table, outDir: Path,
                                              digest: Digest, unzip: Unzip)
    requires ExtractTable(w, zip, table, outDir, digest, unzip).fault.None?
    ensures |ExtractTable(w, zip, table, outDir, digest, unzip).oks| == |table|
  {
    if table != [] {
      ExtractTableLength(w, zip, table[..|table| - 1], outDir, digest, unzip);
    }
  }

  /** The loop of `build_sd_fromzip`, as written: `b_ok` is overwritten by each entry's result. */
  method BuildSdFromZip(m: Machine, zip: Path, table: Table, outDir: Path) returns (status: Status)
    modifies m
    ensures var run := ExtractTable(old(m.State()), zip, table, outDir, m.digest, m.unzip);
            m.State() == run.world && status == LastStatus(run)
  {
    ghost var w0 := m.State();
    ghost var oks: seq<bool> := [];
    var ok := false;
    var i := 0;
    while i < |table|
      invariant 0 <= i <= |table|
      invariant ExtractTable(w0, zip, table[..i], outDir, m.digest, m.unzip) == ZipRun(m.State(), oks, None)
      invariant ok == (|oks| > 0 && oks[|oks| - 1])
    {
      var (key, r) := table[i];
      assert table[..i + 1][..i] == table[..i];
      var s := m.ChkOrExtract(key, outDir + r.path + [r.file], r.hash, r.size, zip);
      if s.Crashed? {
        FaultSticks(w0, zip, table, i + 1, outDir, m.digest, m.unzip);
        return s;
      }
      ok := s.ok;
      oks := oks + [s.ok];
      i := i + 1;
    }
    assert table[..i] == table;
    status := Finished(ok);
  }

  /** The loop with the result its docstring promises: false as soon as one entry fails. */
  method BuildSdFromZipAll(m: Machine, zip: Path, table: Table, outDir: Path) returns (status: Status)
    modifies m
    ensures var run := ExtractTable(old(m.State()), zip, table, outDir, m.digest, m.unzip);
            m.State() == run.world && status == AllStatus(run)
  {
    ghost var w0 := m.State();
    ghost var oks: seq<bool> := [];
    var ok := true;
    var i := 0;
    while i < |table|
      invariant 0 <= i <= |table|
      invariant ExtractTable(w0, zip, table[..i], outDir, m.digest, m.unzip) == ZipRun(m.State(), oks, None)
      invariant ok == (false !in oks)
    {
      var (key, r) := table[i];
      assert table[..i + 1][..i] == table[..i];
      var s := m.ChkOrExtract(key, outDir + r.path + [r.file], r.hash, r.size, zip);
      if s.Crashed? {
        FaultSticks(w0, zip, table, i + 1, outDir, m.digest, m.unzip);
        return s;
      }
      ok := ok && s.ok;
      oks := oks + [s.ok];
      i := i + 1;
    }
    assert table[..i] == table;
    status := Finished(ok);
  }

  /** What checking the k-th entry returns, after the entries before it. */
  function EntryOutcome(w: World, zip: Path, table: Table, outDir: Path, digest: Digest, unzip: Unzip, k: nat)
    : Status
    requires k < |table|
  {
    ExtractEntry(ExtractTable(w, zip, table[..k], outDir, digest, unzip).world,
                 zip, table[k].0, table[k].1, outDir, digest, unzip).status
  }

  /** The corrected result is true exactly when every entry's check returned true. */
  lemma AllStatusMeansEveryEntry(w: World, zip: Path, table: Table, outDir: Path, digest: Digest, unzip: Unzip)
    requires ExtractTable(w, zip, table, outDir, digest, unzip).fault.None?
    ensures AllStatus(ExtractTable(w, zip, table, outDir, digest, unzip)) == Finished(true)
            <==> forall k: nat :: k < |table| ==> EntryOutcome(w, zip, table, outDir, digest, unzip, k) == Finished(true)
  {
    var run := ExtractTable(w, zip, table, outDir, digest, unzip);
    ExtractTableLength(w, zip, table, outDir, digest, unzip);
    forall k: nat | k < |table|
      ensures EntryOutcome(w, zip, table, outDir, digest, unzip, k) == Finished(run.oks[k])
    {
      ExtractTableEntry(w, zip, table, outDir, digest, unzip, k);
    }
  }

  /**
   * The returned flag hides a failed entry: in a two-entry table whose first
   * entry fails its post-check (wrong hash) and whose second entry passes,
   * `build_sd_fromzip` returns true.
   */
  lemma LastStatusHidesFailure()
    ensures var zip: Path := ["cache", "content.zip"];
            var data: Bytes := [1];
            var w := World(map[zip := data], [], []);
            var digest: Digest := _ => "h";
            var unzip: Unzip := _ => Some(map["a" := data, "b" := data]);
            var table: Table := [("a", Record("a", "", None, [], [], "other", 1, "")),
                                 ("b", Record("b", "", None, [], [], "", 0, ""))];
            var run := ExtractTable(w, zip, table, ["sd"], digest, unzip);
            && run.oks == [false, true]
            && LastStatus(run) == Finished(true)
            && AllStatus(run) == Finished(false)
  {
    var zip: Path := ["cache", "content.zip"];
    var data: Bytes := [1];
    var w := World(map[zip := data], [], []);
    var digest: Digest := _ => "h";
    var unzip: Unzip := _ => Some(map["a" := data, "b" := data]);
    var table: Table := [("a", Record("a", "", None, [], [], "other", 1, "")),
                         ("b", Record("b", "", None, [], [], "", 0, ""))];
    assert table[..1][..0] == [];
    assert table[..1] == [table[0]];
    assert table[..|table| - 1] == table[..1];
    var a := ExtractEntry(w, zip, "a", table[0].1, ["sd"], digest, unzip);
    assert EntryTarget(["sd"], table[0].1) == ["sd", "a"];
    assert a.world.files == map[zip := data, ["sd", "a"] := data];
    assert a.status == Finished(false);
    assert ExtractTable(w, zip, [], ["sd"], digest, unzip) == ZipRun(w, [], None);
    var first := ExtractTable(w, zip, table[..1], ["sd"], digest, unzip);
    assert first == ZipRun(a.world, [false], None);
    var b := ExtractEntry(a.world, zip, "b", table[1].1, ["sd"], digest, unzip);
    assert EntryTarget(["sd"], table[1].1) == ["sd", "b"];
    assert b.status == Finished(true);
  }
}
