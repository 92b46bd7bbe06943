/**
 * The verify-or-acquire cache (`chk_or_download`, `chk_or_extract`) over an
 * abstract machine: a map from path to file bytes, a log of acquisitions
 * (URL fetches and archive extractions) and a log of launched commands.
 * The digest (MD5 in the source) and the archive reader are uninterpreted
 * functions fixed when the machine is built; the network is an oracle that
 * says what fetching a URL yields.
 */
module Cache {
  import opened Wrappers
  import opened Text

  type Bytes = seq<bv8>

  /** `get_file_hash`: a digest of a file's bytes. */
  type Digest = Bytes -> string

  /** An archive's table of contents: entry name -> bytes; None when the bytes are not a zip archive. */
  type Unzip = Bytes -> Option<map<string, Bytes>>

  /**
   * What `urlretrieve` does for one URL: the file is saved; the transfer ends
   * short (a connection-level error that leaves the partial file); the server
   * answers with an HTTP error; or the connection fails.
   */
  datatype Fetch = Saved(data: Bytes) | Truncated(data: Bytes) | HttpError | ConnectionError

  type Network = string -> Fetch

  /** The connection-level failures (`URLError` other than `HTTPError`). */
  predicate ConnectionFailed(f: Fetch)
  {
    f.Truncated? || f.ConnectionError?
  }

  datatype Source = FromUrl(url: string) | FromArchive(archive: Path, entry: string)

  /** Everything the downloader changes: the file tree, the acquisitions made, the commands launched. */
  datatype World = World(files: map<Path, Bytes>, acquired: seq<Source>, commands: seq<seq<string>>)

  /** The exceptions the source lets escape, ending the run. */
  datatype Fault = NoArchive(archive: Path) | NotAnArchive(archive: Path) | NoEntry(entry: string) | NoKey(key: string)

  datatype Status = Finished(ok: bool) | Crashed(fault: Fault)

  datatype Step = Step(world: World, ok: bool)

  datatype Attempt = Attempt(world: World, status: Status)

  /** The file matches the expected hash and size. */
  predicate Verified(digest: Digest, data: Bytes, hash: string, size: int)
  {
    hash == digest(data) && |data| == size
  }

  /**
   * The checks made before acquiring: a forced refresh removes the file; when
   * a hash is expected, a file whose hash or size differs is removed. The size
   * is compared even when the expected size is 0.
   */
  function Prechecked(files: map<Path, Bytes>, p: Path, hash: string, size: int, force: bool, digest: Digest)
    : map<Path, Bytes>
  {
    var f := if force && p in files then files - {p} else files;
    if p in f && hash != "" && !Verified(digest, f[p], hash, size) then f - {p} else f
  }

  /** The check made after acquiring: the file exists and, when hash and size are both given, matches them. */
  predicate PostcheckOk(files: map<Path, Bytes>, p: Path, hash: string, size: int, digest: Digest)
  {
    p in files && (hash != "" && size != 0 ==> Verified(digest, files[p], hash, size))
  }

  /** Acquisition of an absent file from `url`, with the flag the source keeps so far. */
  function Fetched(w: World, p: Path, url: string, net: Network): Step
  {
    if url == "" then Step(w, false)
    else
      var w1 := w.(acquired := w.acquired + [FromUrl(url)]);
      match net(url)
      case Saved(data) => Step(w1.(files := w.files[p := data]), true)
      case Truncated(data) => Step(w1.(files := w.files[p := data]), false)
      case HttpError => Step(w1, true)
      case ConnectionError => Step(w1, false)
  }

  /** `chk_or_download(dir, name, hash, size, url, force)`: the new world and the returned flag. */
  function Download(w: World, dir: Path, name: string, hash: string, size: int, url: string, force: bool,
                    net: Network, digest: Digest): Step
  {
    var p := dir + [name];
    var w1 := w.(files := Prechecked(w.files, p, hash, size, force, digest));
    var s := if p in w1.files then Step(w1, true) else Fetched(w1, p, url, net);
    Step(s.world, s.ok && PostcheckOk(s.world.files, p, hash, size, digest))
  }

  /**
   * `chk_or_extract(entry, p, hash, size, zip)`: the same checks around an
   * extraction of `entry` from the archive at `zip`. A missing archive, bytes
   * that are not an archive and a missing entry raise in the source.
   */
  function Extract(w: World, entry: string, p: Path, hash: string, size: int, zip: Path,
                   digest: Digest, unzip: Unzip): Attempt
  {
    var f := Prechecked(w.files, p, hash, size, false, digest);
    var w1 := w.(files := f);
    if p !in f && zip != [] then
      if zip !in f then Attempt(w1, Crashed(NoArchive(zip)))
      else match unzip(f[zip])
        case None => Attempt(w1, Crashed(NotAnArchive(zip)))
        case Some(entries) =>
          if entry !in entries then Attempt(w1, Crashed(NoEntry(entry)))
          else
            var f' := f[p := entries[entry]];
            Attempt(w1.(files := f', acquired := w.acquired + [FromArchive(zip, entry)]),
                    Finished(PostcheckOk(f', p, hash, size, digest)))
    else Attempt(w1, Finished(PostcheckOk(f, p, hash, size, digest)))
  }

  /** Verify first: an existing file that needs no check, or that matches, is kept and nothing is fetched. */
  lemma DownloadShortCircuit(w: World, dir: Path, name: string, hash: string, size: int, url: string,
                             net: Network, digest: Digest)
    requires dir + [name] in w.files
    requires hash == "" || Verified(digest, w.files[dir + [name]], hash, size)
    ensures Download(w, dir, name, hash, size, url, false, net, digest) == Step(w, true)
  {
  }

  /** A forced refresh always fetches again, even over a valid file, and keeps what the fetch wrote. */
  lemma DownloadForced(w: World, dir: Path, name: string, hash: string, size: int, url: string,
                       net: Network, digest: Digest)
    requires url != ""
    ensures var s := Download(w, dir, name, hash, size, url, true, net, digest);
            && s.world.acquired == w.acquired + [FromUrl(url)]
            && (net(url).Saved? || net(url).Truncated? ==> s.world.files[dir + [name]] == net(url).data)
            && (net(url).HttpError? || net(url).ConnectionError? ==> dir + [name] !in s.world.files && !s.ok)
  {
  }

  /** A file whose hash or size is wrong is deleted before acquisition; without a URL it stays deleted. */
  lemma DownloadReplacesMismatch(w: World, dir: Path, name: string, hash: string, size: int, url: string,
                                 net: Network, digest: Digest)
    requires dir + [name] in w.files && hash != ""
    requires !Verified(digest, w.files[dir + [name]], hash, size)
    ensures var s := Download(w, dir, name, hash, size, url, false, net, digest);
            && (url == "" ==> dir + [name] !in s.world.files && !s.ok && s.world.acquired == w.acquired)
            && (url != "" ==> s.world.acquired == w.acquired + [FromUrl(url)])
  {
  }

  /**
   * The flag is false exactly when: the file is absent and there is no URL;
   * the fetch failed at connection level; the file is absent afterwards; or
   * hash and size are both given and the final file does not match. An HTTP
   * error on its own only leaves the file absent.
   */
  lemma DownloadFailsIff(w: World, dir: Path, name: string, hash: string, size: int, url: string, force: bool,
                         net: Network, digest: Digest)
    ensures var p := dir + [name];
            var f := Prechecked(w.files, p, hash, size, force, digest);
            var s := Download(w, dir, name, hash, size, url, force, net, digest);
            !s.ok <==> || (p !in f && url == "")
                       || (p !in f && url != "" && ConnectionFailed(net(url)))
                       || p !in s.world.files
                       || (hash != "" && size != 0 && !Verified(digest, s.world.files[p], hash, size))
  {
  }

  /**
   * Corruption heals: a missing, mismatching or forcibly refreshed file is
   * replaced by the fetched bytes, and the result is true when those bytes
   * pass the post-check (which only looks at them with a hash and a non-zero size).
   */
  lemma DownloadHeals(w: World, dir: Path, name: string, hash: string, size: int, url: string, force: bool,
                      net: Network, digest: Digest)
    requires url != "" && net(url).Saved?
    requires hash != "" && size != 0 ==> Verified(digest, net(url).data, hash, size)
    requires var p := dir + [name];
             p !in w.files || force || (hash != "" && !Verified(digest, w.files[p], hash, size))
    ensures var s := Download(w, dir, name, hash, size, url, force, net, digest);
            s.ok && s.world.files[dir + [name]] == net(url).data
  {
  }

  /**
   * A successful check is not repeated: calling again without force, when the
   * hash is not checked or the size is given, keeps everything and fetches nothing.
   */
  lemma DownloadIdempotent(w: World, dir: Path, name: string, hash: string, size: int, url: string, force: bool,
                           net: Network, digest: Digest)
    requires hash == "" || size != 0
    requires Download(w, dir, name, hash, size, url, force, net, digest).ok
    ensures var w' := Download(w, dir, name, hash, size, url, force, net, digest).world;
            Download(w', dir, name, hash, size, url, false, net, digest) == Step(w', true)
  {
    var w' := Download(w, dir, name, hash, size, url, force, net, digest).world;
    assert PostcheckOk(w'.files, dir + [name], hash, size, digest);
    DownloadShortCircuit(w', dir, name, hash, size, url, net, digest);
  }

  /**
   * With a hash but an expected size of 0, the post-check accepts any
   * non-empty file with the right hash, while the next pre-check deletes it:
   * every later call fetches the file again.
   */
  lemma DownloadRefetchesAtSizeZero(w: World, dir: Path, name: string, hash: string, url: string,
                                    net: Network, digest: Digest)
    requires dir + [name] !in w.files && url != "" && hash != ""
    requires net(url).Saved? && |net(url).data| > 0 && digest(net(url).data) == hash
    ensures var s := Download(w, dir, name, hash, 0, url, false, net, digest);
            && s.ok
            && Download(s.world, dir, name, hash, 0, url, false, net, digest).world.acquired
               == s.world.acquired + [FromUrl(url)]
  {
  }

  /** Only the target path changes, the command log is untouched and at most the URL is logged. */
  lemma DownloadFrame(w: World, dir: Path, name: string, hash: string, size: int, url: string, force: bool,
                      net: Network, digest: Digest, q: Path)
    requires q != dir + [name]
    ensures var s := Download(w, dir, name, hash, size, url, force, net, digest);
            && (q in s.world.files <==> q in w.files)
            && (q in w.files ==> s.world.files[q] == w.files[q])
            && s.world.commands == w.commands
            && (s.world.acquired == w.acquired || s.world.acquired == w.acquired + [FromUrl(url)])
  {
  }

  /** Verify first, for extraction: an existing file that needs no check, or matches, is kept and not extracted. */
  lemma ExtractShortCircuit(w: World, entry: string, p: Path, hash: string, size: int, zip: Path,
                            digest: Digest, unzip: Unzip)
    requires p in w.files
    requires hash == "" || Verified(digest, w.files[p], hash, size)
    ensures Extract(w, entry, p, hash, size, zip, digest, unzip) == Attempt(w, Finished(true))
  {
  }

  /**
   * A mismatching file is deleted and, when the archive holds the entry,
   * replaced by the entry's bytes; the result is true exactly when those
   * bytes pass the post-check.
   */
  lemma ExtractReplacesMismatch(w: World, entry: string, p: Path, hash: string, size: int, zip: Path,
                                digest: Digest, unzip: Unzip)
    requires p in w.files && hash != "" && !Verified(digest, w.files[p], hash, size)
    requires zip != [] && zip != p && zip in w.files
    requires unzip(w.files[zip]).Some? && entry in unzip(w.files[zip]).value
    ensures var a := Extract(w, entry, p, hash, size, zip, digest, unzip);
            var data := unzip(w.files[zip]).value[entry];
            && a.world.files == w.files[p := data]
            && a.world.acquired == w.acquired + [FromArchive(zip, entry)]
            && a.status == Finished(size != 0 ==> Verified(digest, data, hash, size))
  {
  }

  /** An extraction that succeeded is not repeated when the hash is not checked or the size is given. */
  lemma ExtractIdempotent(w: World, entry: string, p: Path, hash: string, size: int, zip: Path,
                          digest: Digest, unzip: Unzip)
    requires hash == "" || size != 0
    requires Extract(w, entry, p, hash, size, zip, digest, unzip).status == Finished(true)
    ensures var w' := Extract(w, entry, p, hash, size, zip, digest, unzip).world;
            Extract(w', entry, p, hash, size, zip, digest, unzip) == Attempt(w', Finished(true))
  {
    var w' := Extract(w, entry, p, hash, size, zip, digest, unzip).world;
    assert PostcheckOk(w'.files, p, hash, size, digest);
    ExtractShortCircuit(w', entry, p, hash, size, zip, digest, unzip);
  }

  /**
   * Extraction ends the run exactly when the file is (or has just been made)
   * absent, an archive path is given, and the archive is missing, unreadable,
   * or lacks the entry.
   */
  lemma ExtractCrashesIff(w: World, entry: string, p: Path, hash: string, size: int, zip: Path,
                          digest: Digest, unzip: Unzip)
    ensures var f := Prechecked(w.files, p, hash, size, false, digest);
            Extract(w, entry, p, hash, size, zip, digest, unzip).status.Crashed?
            <==> p !in f && zip != []
                 && (zip !in f || unzip(f[zip]).None? || entry !in unzip(f[zip]).value)
  {
  }

  /** One call of `chk_or_download`, as a value. */
  datatype Request = Request(dir: Path, name: string, hash: string, size: int, url: string, force: bool)

  function Target(q: Request): Path
  {
    q.dir + [q.name]
  }

  function Perform(w: World, q: Request, net: Network, digest: Digest): Step
  {
    Download(w, q.dir, q.name, q.hash, q.size, q.url, q.force, net, digest)
  }

  /** The world after a sequence of `chk_or_download` calls, made in order. */
  function DownloadAll(w: World, qs: seq<Request>, net: Network, digest: Digest): World
  {
    if qs == [] then w
    else Perform(DownloadAll(w, qs[..|qs| - 1], net, digest), qs[|qs| - 1], net, digest).world
  }

  /** One more download in the sequence. */
  lemma DownloadAllSnoc(w: World, qs: seq<Request>, q: Request, net: Network, digest: Digest)
    ensures DownloadAll(w, qs + [q], net, digest) == Perform(DownloadAll(w, qs, net, digest), q, net, digest).world
  {
    assert (qs + [q])[..|qs|] == qs;
  }

  /**
   * A sequence of downloads changes no file that none of them targets,
   * launches no command, and only logs fetches of the requests' URLs.
   */
  lemma {:induction false} DownloadAllFrame(w: World, qs: seq<Request>, net: Network, digest: Digest, p: Path)
    requires forall k :: 0 <= k < |qs| ==> Target(qs[k]) != p
    ensures var w' := DownloadAll(w, qs, net, digest);
            && (p in w'.files <==> p in w.files)
            && (p in w.files ==> w'.files[p] == w.files[p])
            && w'.commands == w.commands
            && w.acquired <= w'.acquired
            && forall s :: s in w'.acquired[|w.acquired|..] ==> exists k :: 0 <= k < |qs| && s == FromUrl(qs[k].url)
  {
    if qs != [] {
      var qs' := qs[..|qs| - 1];
      var q := qs[|qs| - 1];
      DownloadAllFrame(w, qs', net, digest, p);
      var mid := DownloadAll(w, qs', net, digest);
      DownloadFrame(mid, q.dir, q.name, q.hash, q.size, q.url, q.force, net, digest, p);
      var w' := DownloadAll(w, qs, net, digest);
      forall s | s in w'.acquired[|w.acquired|..]
        ensures exists k :: 0 <= k < |qs| && s == FromUrl(qs[k].url)
      {
        if s in mid.acquired[|w.acquired|..] {
          var k :| 0 <= k < |qs'| && s == FromUrl(qs'[k].url);
          assert qs[k] == qs'[k];
        } else {
          assert w'.acquired == mid.acquired + [FromUrl(q.url)];
          assert w'.acquired[|w.acquired|..] == mid.acquired[|w.acquired|..] + [FromUrl(q.url)];
          assert s == FromUrl(qs[|qs| - 1].url);
        }
      }
    }
  }

  /** `shutil.copyfile(src, dst)`: copies when the source exists; otherwise the source raises `OSError`. */
  function Copied(files: map<Path, Bytes>, src: Path, dst: Path): map<Path, Bytes>
  {
    if src in files then files[dst := files[src]] else files
  }

  /** `shutil.rmtree(dir)`: every file strictly below `dir` is gone. */
  function Pruned(files: map<Path, Bytes>, dir: Path): (r: map<Path, Bytes>)
    ensures forall p :: p in r <==> p in files && !(dir < p)
  {
    map p | p in files && !(dir < p) :: files[p]
  }

  /** The machine the downloader runs on. */
  class Machine {
    var files: map<Path, Bytes>
    var acquired: seq<Source>
    var commands: seq<seq<string>>
    const digest: Digest
    const unzip: Unzip

    constructor (files: map<Path, Bytes>, digest: Digest, unzip: Unzip)
      ensures State() == World(files, [], [])
      ensures this.digest == digest && this.unzip == unzip
    {
      this.files := files;
      this.acquired := [];
      this.commands := [];
      this.digest := digest;
      this.unzip := unzip;
    }

    function State(): World
      reads this
    {
      World(files, acquired, commands)
    }

    /** `chk_or_download`: `dir` is `s_path`, `name` is `s_name`. */
    method ChkOrDownload(dir: Path, name: string, hash: string, size: int, url: string, force: bool, net: Network)
      returns (ok: bool)
      modifies this
      ensures Step(State(), ok) == Download(old(State()), dir, name, hash, size, url, force, net, digest)
    {
      ok := true;
      var p := dir + [name];
      if force && p in files {
        files := files - {p};
      }
      if p in files {
        if hash != "" {
          if hash == digest(files[p]) && |files[p]| == size {
          } else {
            files := files - {p};
          }
        }
      }
      if p !in files {
        if url != "" {
          acquired := acquired + [FromUrl(url)];
          match net(url)
          case Saved(data) =>
            files := files[p := data];
          case Truncated(data) =>
            files := files[p := data];
            ok := false;
          case HttpError =>
          case ConnectionError =>
            ok := false;
        } else {
          ok := false;
        }
      }
      if p in files {
        if hash != "" && size != 0 {
          if hash == digest(files[p]) && |files[p]| == size {
          } else {
            ok := false;
          }
        }
      } else {
        ok := false;
      }
    }

    /** `chk_or_extract`: `entry` is `s_orig`, `p` is `s_fpath`, `zip` is `s_zip_path` ([] for ''). */
    method ChkOrExtract(entry: string, p: Path, hash: string, size: int, zip: Path) returns (status: Status)
      modifies this
      ensures Attempt(State(), status) == Extract(old(State()), entry, p, hash, size, zip, digest, unzip)
    {
      var ok := true;
      if p in files {
        if hash != "" {
          if hash == digest(files[p]) && |files[p]| == size {
          } else {
            files := files - {p};
          }
        }
      }
      if p !in files {
        if zip != [] {
          if zip !in files {
            return Crashed(NoArchive(zip));
          }
          var entries := unzip(files[zip]);
          if entries.None? {
            return Crashed(NotAnArchive(zip));
          }
          if entry !in entries.value {
            return Crashed(NoEntry(entry));
          }
          files := files[p := entries.value[entry]];
          acquired := acquired + [FromArchive(zip, entry)];
          ok := true;
        }
      }
      if p in files {
        if hash != "" && size != 0 {
          if hash == digest(files[p]) && |files[p]| == size {
          } else {
            ok := false;
          }
        }
      } else {
        ok := false;
      }
      status := Finished(ok);
    }

    /** `shutil.copyfile(src, dst)` inside `try`: false when it raises. */
    method CopyFile(src: Path, dst: Path) returns (ok: bool)
      modifies this
      ensures ok == (src in old(files))
      ensures files == Copied(old(files), src, dst)
      ensures acquired == old(acquired) && commands == old(commands)
    {
      ok := src in files;
      if ok {
        files := files[dst := files[src]];
      }
    }

    /** `os.remove(p)`. */
    method RemoveFile(p: Path)
      modifies this
      ensures State() == old(State()).(files := old(files) - {p})
    {
      files := files - {p};
    }

    /** `shutil.rmtree(dir)` (when `dir` is a directory). */
    method RemoveTree(dir: Path)
      modifies this
      ensures State() == old(State()).(files := Pruned(old(files), dir))
    {
      files := Pruned(files, dir);
    }

    /** `run_process(args, item)`: the argument list is recorded in the command log. */
    method RunProcess(args: seq<string>)
      modifies this
      ensures State() == old(State()).(commands := old(commands) + [args])
    {
      commands := commands + [args];
    }
  }
}
