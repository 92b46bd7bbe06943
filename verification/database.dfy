/**
 * `load_db`: a database lives as `<cache>/db/<name>.zip`, fetched from
 * `urljoin(urlbase, <name>.zip)`. A plain `<cache>/db/<name>` is preferred;
 * otherwise the archive's entry named exactly `<name>` is used; otherwise
 * the result is the empty database. JSON decoding is not modelled: the
 * result is the text the source would decode.
 */
module Database {
  import opened Text
  import opened Cache

  datatype DbText = PlainCopy(data: Bytes) | ArchiveCopy(data: Bytes) | NoDb

  datatype Loaded = Loaded(world: World, text: DbText)

  function ArchiveName(name: string): string
  {
    name + ".zip"
  }

  /** The world after `load_db(dir, name, urlbase, hash, size, force)` and the text it decodes. */
  function Load(w: World, dir: Path, name: string, urlbase: string, hash: string, size: int, force: bool,
                net: Network, digest: Digest, unzip: Unzip): Loaded
  {
    var dbDir := dir + ["db"];
    var plain := dbDir + [name];
    var archive := dbDir + [ArchiveName(name)];
    var w1 := if force && archive in w.files then w.(files := w.files - {archive}) else w;
    var s := Download(w1, dbDir, ArchiveName(name), hash, size, UrlJoin(urlbase, ArchiveName(name)), false,
                      net, digest);
    var f := s.world.files;
    Loaded(s.world,
           if plain in f then PlainCopy(f[plain])
           else if archive in f && unzip(f[archive]).Some? then
             (if name in unzip(f[archive]).value then ArchiveCopy(unzip(f[archive]).value[name]) else NoDb)
           else NoDb)
  }

  method LoadDb(m: Machine, dir: Path, name: string, urlbase: string, hash: string, size: int, force: bool,
                net: Network)
    returns (text: DbText)
    modifies m
    ensures Loaded(m.State(), text)
            == Load(old(m.State()), dir, name, urlbase, hash, size, force, net, m.digest, m.unzip)
  {
    var zipName := name + ".zip";
    var dbDir := dir + ["db"];
    var plain := dbDir + [name];
    var archive := dbDir + [zipName];
    if force && archive in m.files {
      m.RemoveFile(archive);
    }
    var ok := m.ChkOrDownload(dbDir, zipName, hash, size, UrlJoin(urlbase, zipName), false, net);
    if plain in m.files {
      text := PlainCopy(m.files[plain]);
    } else if archive in m.files && m.unzip(m.files[archive]).Some? {
      var entries := m.unzip(m.files[archive]).value;
      text := NoDb;
      if name in entries {
        text := ArchiveCopy(entries[name]);
      }
    } else {
      text := NoDb;
    }
  }

  /**
   * A plain copy wins: it is returned as it was, although the archive is
   * still checked (and fetched when missing).
   */
  lemma LoadPrefersPlain(w: World, dir: Path, name: string, urlbase: string, hash: string, size: int,
                         force: bool, net: Network, digest: Digest, unzip: Unzip)
    requires dir + ["db"] + [name] in w.files
    ensures Load(w, dir, name, urlbase, hash, size, force, net, digest, unzip).text
            == PlainCopy(w.files[dir + ["db"] + [name]])
    ensures var l := Load(w, dir, name, urlbase, hash, size, force, net, digest, unzip);
            var plain := dir + ["db"] + [name];
            plain in l.world.files && l.world.files[plain] == w.files[plain]
    ensures var l := Load(w, dir, name, urlbase, hash, size, force, net, digest, unzip);
            force || dir + ["db"] + [ArchiveName(name)] !in w.files
            ==> l.world.acquired == w.acquired + [FromUrl(UrlJoin(urlbase, ArchiveName(name)))]
  {
    assert UrlJoin(urlbase, ArchiveName(name)) != "" by {
      assert EndsWith(UrlJoin(urlbase, ArchiveName(name)), ArchiveName(name));
    }
    var dbDir := dir + ["db"];
    var archive := dbDir + [ArchiveName(name)];
    assert |ArchiveName(name)| == |name| + 4;
    assert dbDir + [name] != archive by {
      assert (dbDir + [name])[|dbDir|] == name;
      assert archive[|dbDir|] == ArchiveName(name);
    }
    var w1 := if force && archive in w.files then w.(files := w.files - {archive}) else w;
    DownloadFrame(w1, dbDir, ArchiveName(name), hash, size, UrlJoin(urlbase, ArchiveName(name)), false,
                  net, digest, dbDir + [name]);
  }

  /**
   * Without a plain copy, the database is the archive entry named exactly
   * `name` after the archive check, and empty when the archive is absent,
   * unreadable or lacks that entry.
   */
  lemma LoadFromArchive(w: World, dir: Path, name: string, urlbase: string, hash: string, size: int,
                        force: bool, net: Network, digest: Digest, unzip: Unzip)
    requires dir + ["db"] + [name] !in w.files
    ensures var l := Load(w, dir, name, urlbase, hash, size, force, net, digest, unzip);
            var archive := dir + ["db"] + [ArchiveName(name)];
            var f := l.world.files;
            && (l.text.ArchiveCopy? <==> archive in f && unzip(f[archive]).Some? && name in unzip(f[archive]).value)
            && (l.text.ArchiveCopy? ==> l.text.data == unzip(f[archive]).value[name])
            && (l.text == NoDb <==> !l.text.ArchiveCopy?)
  {
    var dbDir := dir + ["db"];
    var archive := dbDir + [ArchiveName(name)];
    assert |ArchiveName(name)| == |name| + 4;
    assert dbDir + [name] != archive by {
      assert (dbDir + [name])[|dbDir|] == name;
      assert archive[|dbDir|] == ArchiveName(name);
    }
    var w1 := if force && archive in w.files then w.(files := w.files - {archive}) else w;
    DownloadFrame(w1, dbDir, ArchiveName(name), hash, size, UrlJoin(urlbase, ArchiveName(name)), false,
                  net, digest, dbDir + [name]);
  }

  /** With `force`, the archive is always fetched again from `urljoin(urlbase, name + '.zip')`. */
  lemma LoadForcedRefetches(w: World, dir: Path, name: string, urlbase: string, hash: string, size: int,
                            net: Network, digest: Digest, unzip: Unzip)
    ensures Load(w, dir, name, urlbase, hash, size, true, net, digest, unzip).world.acquired
            == w.acquired + [FromUrl(UrlJoin(urlbase, ArchiveName(name)))]
  {
    assert UrlJoin(urlbase, ArchiveName(name)) != "" by {
      assert EndsWith(UrlJoin(urlbase, ArchiveName(name)), ArchiveName(name));
    }
  }
}
