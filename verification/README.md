# ZX3_Downloader: a Dafny model of the cache and deployment core

ZX3_Downloader builds the SD card of a ZX-Uno family FPGA board. It keeps a
local cache of files described by JSON databases, and fills an output tree
from that cache. This project models that core and proves properties of it:

- **Cache** (`cache.dfy`, `database.dfy`, `zippack.dfy`):
  - `chk_or_download` verifies first, deletes before re-acquiring, fetches from
    the network and checks the result;
  - `chk_or_extract` does the same against a zip archive;
  - `load_db` fetches a database archive and picks the JSON text it decodes;
  - `build_sd_fromzip` extracts every entry of an archive table.
- **Selection** (`selection.dfy`, `manifest.dfy`):
  - pack inclusion in `main`;
  - the kind/type/tag filter of `chk_files_cache`;
  - the nested tag loops shared by every pack.
- **Deployment** (`deploy.dfy`):
  - `chk_files_cache` populates the cache;
  - `build_sd_files` copies records into the output tree, deriving each
    destination from kind, type, tags and declared path.
- **Arcade** (`arcade.dfy`):
  - `chk_zip_cache` fetches ROM archives;
  - `chk_mra_cache` fetches MRA files and builds the tag-to-MRA index;
  - `chk_or_download_mrabin` fetches the converter;
  - `build_arc_files` issues one converter run per MRA, plus a named run for
    some.

The machine is the class `Cache.Machine`. It has three fields:

- `files`, a map from path to bytes;
- `acquired`, the log of network fetches and archive extractions, in order;
- `commands`, the log of external commands, in order.

The MD5 digest and the zip reader are injected functions fixed per machine.
The network is a parameter of type `Network`: a URL maps to saved bytes, a
truncated transfer, an HTTP error or a connection error.

Paths are sequences of components, so `os.path.join` is concatenation.
Python dicts, which are iterated in insertion order, are sequences of pairs.

Each method that changes the machine is tied to a pure function of the old
state (`Download`, `Extract`, `Load`, `ExtractTable`, `DownloadAll`, `Deploy`,
`ConverterFetch`, `ArcBuild`). The properties are lemmas about those functions.

Behaviours of the code worth noting:

- `chk_or_download` catches a connection error (`URLError`) and returns false;
  it is not fatal.
- With a hash but an expected size of 0, the pre-check deletes any non-empty
  file (the hash and size test fails on the size). The post-check skips the
  test, so such a file is fetched again on every run
  (`Cache.DownloadRefetchesAtSizeZero`).
- In `build_sd_files`, a fully tagged record is copied from
  `files_path/<name>`, ignoring its declared path. Its destination does not
  contain that path either. Only partially tagged records and records of a
  database without a tag dictionary use the path, on both sides.
- The code has no redirection of the output tree by device mode.
- `load_db` always runs `chk_or_download` on the archive, even when a plain
  JSON copy is present.
- `chk_or_download_mrabin` runs `chmod` on the converter even when its download
  failed.
- For a core with several MRAs, `build_arc_files` uses the sub-directory
  `upper(core without "jt")`. That name is empty when the core's name consists
  of `jt` only, and then every MRA gets the named run.

## Model

| member | source | states |
|---|---|---|
| Cache.Machine.ChkOrDownload | ZX3_Downloader.py:798-872 | The new state and the returned flag are those of `Download`: force-delete, verify-first pre-check, fetch only when absent and a URL is given, then the post-check |
| Cache.DownloadShortCircuit | ZX3_Downloader.py:825-835 | An existing file that needs no check, or that matches, is kept; nothing is fetched and the result is true |
| Cache.DownloadForced | ZX3_Downloader.py:822-823 | With force the file is always fetched again; a saved or truncated transfer leaves its bytes; an HTTP or connection error leaves no file and false |
| Cache.DownloadReplacesMismatch | ZX3_Downloader.py:825-856 | A file whose hash or size is wrong is deleted before re-acquisition; with no URL it stays deleted and the result is false |
| Cache.DownloadFailsIff | ZX3_Downloader.py:815-872 | False exactly when: absent with no URL; a connection error; absent afterwards; or hash and size given and the final file does not match |
| Cache.DownloadHeals | ZX3_Downloader.py:822-864 | A missing, mismatching or forcibly refreshed file is replaced by the fetched bytes, and the result is true when those bytes pass the post-check, which only applies with a hash and a non-zero size |
| Cache.DownloadIdempotent | ZX3_Downloader.py:825-864 | After success, a second call without force (no hash, or a non-zero size) changes nothing and fetches nothing |
| Cache.DownloadRefetchesAtSizeZero | ZX3_Downloader.py:825-864 | With a hash and size 0, a successful download is fetched again by the next call |
| Cache.DownloadFrame | ZX3_Downloader.py:820-872 | Only the target path can change, no command runs, and at most the request's URL is logged |
| Cache.DownloadAllFrame | ZX3_Downloader.py:820-872 | A sequence of downloads leaves every untargeted path as it was, runs nothing, and logs only the requests' URLs |
| Cache.Machine.ChkOrExtract | ZX3_Downloader.py:875-928 | The new state and the status are those of `Extract`: pre-check, extraction when absent, post-check; a missing archive, non-archive or missing entry raises |
| Cache.ExtractShortCircuit | ZX3_Downloader.py:894-903 | An existing file that needs no check, or that matches, is kept and not extracted; the result is true |
| Cache.ExtractReplacesMismatch | ZX3_Downloader.py:894-923 | A mismatching file is replaced by the archive entry; the result is true exactly when the entry passes the post-check |
| Cache.ExtractIdempotent | ZX3_Downloader.py:894-923 | A successful extraction is not repeated (no hash, or a non-zero size) |
| Cache.ExtractCrashesIff | ZX3_Downloader.py:905-912 | Extraction raises exactly when the file is absent after the pre-check, an archive is named, and it is missing, unreadable or lacks the entry |
| Cache.Pruned | ZX3_Downloader.py:583-584 | `rmtree` removes exactly the files strictly below the directory |
| Cache.Machine.CopyFile | ZX3_Downloader.py:609-613 | `copyfile` writes the destination when the source exists and reports whether it did; nothing else changes |
| Cache.Machine.RemoveFile | ZX3_Downloader.py:298-299 | `os.remove` removes exactly that path |
| Cache.Machine.RemoveTree | ZX3_Downloader.py:581-584 | `rmtree` leaves exactly the files not strictly below the directory |
| Cache.Machine.RunProcess | ZX3_Downloader.py:946 | An external command is appended to the command log |
| Database.LoadDb | ZX3_Downloader.py:276-325 | The new state and the returned text are those of `Load` |
| Database.LoadPrefersPlain | ZX3_Downloader.py:294-311 | A plain JSON copy is returned as it was and stays in place, though the archive is still checked: when it is missing or `force` is set it is fetched from `urljoin(urlbase, name + '.zip')` |
| Database.LoadFromArchive | ZX3_Downloader.py:312-325 | Without a plain copy, the text is the archive entry named exactly like the database, else the empty database |
| Database.LoadForcedRefetches | ZX3_Downloader.py:298-302 | With force, the archive is always fetched again from `urljoin(urlbase, name + '.zip')` |
| ZipPack.BuildSdFromZip | ZX3_Downloader.py:411-433 | As written: every entry is extracted in order, an exception ends the run, and the result is the last entry's flag |
| ZipPack.BuildSdFromZipAll | ZX3_Downloader.py:411-433 | Corrected: the same run, but the result is true only when every entry's flag is true |
| ZipPack.FaultSticks | ZX3_Downloader.py:423-431 | After an exception the rest of the table is not processed |
| ZipPack.ExtractTableEntry | ZX3_Downloader.py:423-431 | The k-th recorded flag is the outcome of the k-th entry's check, made after the entries before it |
| ZipPack.ExtractTableLength | ZX3_Downloader.py:423-431 | A run without an exception records one flag per entry |
| ZipPack.AllStatusMeansEveryEntry | ZX3_Downloader.py:418 | The corrected result is true exactly when every entry's check returned true |
| ZipPack.LastStatusHidesFailure | ZX3_Downloader.py:421-433 | A two-entry table whose first entry fails gets true from the as-written loop and false from the corrected one |
| Selection.PackFlag | ZX3_Downloader.py:80-86 | A pack runs when it has no tags, or when a requested dictionary name maps to one of its tags |
| Selection.PackIncludedMonotone | ZX3_Downloader.py:81-86 | Requesting more tags never drops a pack |
| Selection.CacheWantedIff | ZX3_Downloader.py:528-545 | Cache filter: always without a dictionary; otherwise (fully tagged or empty kind) and some record id named by a requested tag |
| Selection.PartialTagBypass | ZX3_Downloader.py:535-536 | A record with an empty kind is admitted on its tags alone, whatever kinds and types are requested |
| Selection.AnyRequestedHit | ZX3_Downloader.py:539-544 | The nested tag loops end true exactly when some record id is named by a requested tag |
| Manifest.HitsOneMember | ZX3_Downloader.py:542-543 | A name matches an id exactly when it is accepted and the dictionary maps it to that id |
| Manifest.HitsMember | ZX3_Downloader.py:541-543 | A name matches a record exactly when it is accepted and maps to one of the record's ids |
| Manifest.HitsNonEmpty | ZX3_Downloader.py:541-544 | Some match exists exactly when an accepted dictionary entry maps to one of the record's ids |
| Text.BaseName | ZX3_Downloader.py:526 | `split('/')[-1]` contains no slash and is no longer than the key |
| Text.BaseNameSuffix | ZX3_Downloader.py:526 | The base name is the suffix after the key's last slash |
| Text.BaseNameOfPlain | ZX3_Downloader.py:526 | A key without a slash is its own base name |
| Text.Strip | ZX3_Downloader.py:680-681 | `''.join(s.split(sep))` never lengthens the text |
| Text.StripUnchanged | ZX3_Downloader.py:680-681 | Stripping changes nothing exactly when the separator does not occur |
| Text.Upper | ZX3_Downloader.py:716 | `upper()` keeps the length and leaves no lower-case ASCII letter |
| Text.UrlJoin | ZX3_Downloader.py:302 | `urljoin` of a relative name ends with the name and keeps the base up to its last slash |
| Deploy.FileRequest | ZX3_Downloader.py:547-555 | A record is cached at `files_path/<path...>/<base name of key>` |
| Deploy.FilesRequestsMember | ZX3_Downloader.py:525-557 | A download is made exactly for each record the cache filter admits |
| Deploy.FilesCacheFrame | ZX3_Downloader.py:546-555 | Populating the cache leaves every path that is not an admitted record's cache location as it was, and runs nothing |
| Deploy.ChkFilesCache | ZX3_Downloader.py:507-557 | The new state is the admitted records' downloads, made in table order |
| Deploy.ApplyCopiesAppend | ZX3_Downloader.py:609-613 | Copying in two batches is copying the concatenation; the flag is the conjunction |
| Deploy.ApplyCopiesKeys | ZX3_Downloader.py:609-654 | Copies keep existing files, add only destinations, change nothing else; without an error every destination exists |
| Deploy.FullCopiesLength | ZX3_Downloader.py:597-613 | A fully tagged record is copied once per matching tag name |
| Deploy.PartialCopiesLength | ZX3_Downloader.py:615-635 | A partially tagged record is copied once per matching tag name |
| Deploy.FullCopiesAt | ZX3_Downloader.py:595-604 | The k-th copy of a fully tagged record goes to `out/sub[/type][/n1/.../nk+1]/name`: tag directories nest |
| Deploy.PartialCopiesAt | ZX3_Downloader.py:618-626 | The k-th copy of a partially tagged record goes to `out/sub/<path> repeated k+1 times/name` |
| Deploy.DeployMatchesCache | ZX3_Downloader.py:588-654 | A record is copied at least once exactly when the cache filter admits it |
| Deploy.DeploySources | ZX3_Downloader.py:603-645 | Copy sources: the cache location for partial and no-dictionary records; `files_path/name` for fully tagged ones, equal to the cache location only when the path is empty |
| Deploy.TablePlanCrashSticks | ZX3_Downloader.py:593-594 | After a missing `type` raises, later records are not processed |
| Deploy.DeployReplacesSubtree | ZX3_Downloader.py:581-584 | Unless keep is set, every file under `out/sub` afterwards was copied there by this run |
| Deploy.CopyFullyTagged | ZX3_Downloader.py:597-613 | The loops over a fully tagged record make exactly its planned copies, in order, and report whether none raised |
| Deploy.CopyFullyTaggedId | ZX3_Downloader.py:598-613 | The inner loop for one id makes the copies for the names matching it |
| Deploy.FullHit | ZX3_Downloader.py:599-613 | One matching name: with tag grouping the running directory takes the name, then exactly one copy from the cache file into that directory is added to the copies made so far |
| Deploy.CopyPartiallyTagged | ZX3_Downloader.py:615-635 | The loops over a partially tagged record make exactly its planned copies, in order |
| Deploy.CopyPartiallyTaggedId | ZX3_Downloader.py:616-635 | The inner loop for one id makes the copies for the names matching it |
| Deploy.PartialHit | ZX3_Downloader.py:617-635 | One matching name: the running directory takes the declared path once more, then exactly one copy from the cache sub-path into that directory is added to the copies made so far |
| Deploy.DeployRecord | ZX3_Downloader.py:589-654 | One record's copies are exactly `RecordCopies`, and only files change |
| Deploy.BuildSdFiles | ZX3_Downloader.py:560-656 | The new state and result are those of `Deploy`: rmtree unless keep, the table's copies, false if a copy raised, `KeyError` on a missing type |
| Arcade.ZipRequestsMember | ZX3_Downloader.py:494-502 | A ROM archive is fetched exactly for a record with a tag that names a core |
| Arcade.ZipCacheFrame | ZX3_Downloader.py:499-502 | The ROM cache is flat: nothing outside the ROM directory changes and nothing runs |
| Arcade.ChkZipCache | ZX3_Downloader.py:480-504 | The new state is the ROM downloads, one per matching (record, tag) pair, in loop order |
| Arcade.ZipFetchRecord | ZX3_Downloader.py:496-502 | The loops over one record's ids make its downloads |
| Arcade.ZipFetchId | ZX3_Downloader.py:497-502 | The inner loop for one id makes one download per dictionary name matching it |
| Arcade.IndexLookup | ZX3_Downloader.py:682-684 | The index holds a key exactly when some hit carries it; its list is those hits' names in order |
| Arcade.IndexOrderDistinct | ZX3_Downloader.py:682-683 | Each key appears once in the index order |
| Arcade.MraHitsShape | ZX3_Downloader.py:675-688 | Every hit has a core-naming tag and a `.mra` name, fetched into the MRA cache from `baseurl + name` |
| Arcade.EntryHitsMember | ZX3_Downloader.py:676-688 | Both directions: one record yields a (tag, MRA) pair exactly when it is an `.mra` file outside `_alternatives`, the tag name without `arcade` is a core, and the pair holds the record's download |
| Arcade.MraHitsMember | ZX3_Downloader.py:675-688 | Both directions: a (tag, MRA) pair is met exactly when some `.mra` record whose key lies outside `_alternatives` carries a tag whose name, without `arcade`, is a core, and the pair holds that tag name and the record's download |
| Arcade.IndexReady | ZX3_Downloader.py:672-692 | Every index key names a core and lists at least one MRA |
| Arcade.ChkMraCache | ZX3_Downloader.py:659-692 | The returned index and the new state are those built from the MRA hits, downloaded in loop order |
| Arcade.AddMra | ZX3_Downloader.py:682-684 | The index update adds the key to the order when new and appends the name to its list |
| Arcade.MraFetchRecord | ZX3_Downloader.py:678-690 | The loops over one record's ids extend the index and make the downloads |
| Arcade.MraFetchId | ZX3_Downloader.py:679-690 | The inner loop for one id extends the index and downloads once per matching name |
| Arcade.FetchMra | ZX3_Downloader.py:682-690 | One hit lists the MRA under its tag and checks or downloads it; index and world stay those of the hits met so far |
| Arcade.ConverterReady | ZX3_Downloader.py:784-795 | A converter path is returned only when the binary is in place at `dir/name`; an existing binary is not touched |
| Arcade.ConverterCommands | ZX3_Downloader.py:784-791 | A missing binary gets `chmod a+x` whether or not its download succeeded; a present one gets no command |
| Arcade.FetchConverter | ZX3_Downloader.py:755-795 | The new state and returned path are those of `ConverterFetch` |
| Arcade.ListRunsAppend | ZX3_Downloader.py:715-751 | The runs for a concatenated MRA list are the runs for each part, in order |
| Arcade.ListRunsAt | ZX3_Downloader.py:715-751 | Each MRA's runs are contiguous and in list order; they end with its plain run, and begin with its named run exactly when the rule selects it |
| Arcade.PlainRunsPerMra | ZX3_Downloader.py:742-751 | Every MRA gets exactly one run without `-a`, in list order, into the sub-directory when there is one |
| Arcade.NamedRunsPerMra | ZX3_Downloader.py:724-740 | The runs with `-a` are exactly one per MRA the naming rule selects, in order, into the output root under the upper-cased ARC name |
| Arcade.NamedMrasMember | ZX3_Downloader.py:724-725 | An MRA is named exactly when it is listed and the rule holds for it |
| Arcade.SingleMraRuns | ZX3_Downloader.py:715-751 | A core with one MRA gets a named run and then a plain run, both into the output root |
| Arcade.SharedCoreNaming | ZX3_Downloader.py:715-725 | A core with several MRAs (and a name left after removing `jt`) gets a sub-directory; an MRA is named exactly when it starts with a non-empty default MRA |
| Arcade.ArcCommandsStep | ZX3_Downloader.py:713-751 | Each index key, in index order, adds the runs of its MRA list |
| Arcade.RunMra | ZX3_Downloader.py:720-751 | One MRA issues its named run into the output root first when the naming rule selects it, then its plain run into the output root or the key's sub-directory, and nothing else changes |
| Arcade.RunCore | ZX3_Downloader.py:714-751 | The loop over one key's MRAs appends exactly `ListRuns` to the command log |
| Arcade.BuildArcFiles | ZX3_Downloader.py:695-752 | The new state is `ArcBuild`: fetch the converter into `cache/bin`; when it is available, run the index's commands in order |

## Left out

- The drivers (`main` beyond its loop deciding which packs run, `build_sd_fromdb`,
  `build_sd_files_fromdb`, `build_arcade_sd_fromdb`) and `parse_args`: they
  only wire arguments and database fields into the modelled operations.
- The uncaught exceptions of `chk_or_extract` (missing or unreadable archive,
  missing entry) and of `build_sd_files` (a requested kind without `type`) are
  modelled as a `Crashed` status that ends the operation. `sys.exit` occurs
  only in the drivers.
- `Cache.Download`: errors raised while the body of a response is read
  (`ConnectionResetError` and other `OSError`s, `http.client.IncompleteRead`,
  a read timeout under the 900-second socket timeout) escape `urlretrieve`,
  end the run and can leave a partial file; `Fetch` has no such outcome, so
  the model never crashes in `chk_or_download`.
- `Cache.Download`: the network is one fixed function of the URL for a whole
  run, so a URL that failed once fails again when retried later in that run.
- Logging and console output are not modelled. Neither are the SSL context and
  the socket timeout.
- The quote/unquote rewrite of URLs in `chk_or_download` is left out: the
  network oracle is indexed by the URL as given.
- The HTTP transfer is the `Network` oracle. MD5 is the injected `digest`
  function. Zip reading is the injected `unzip` function. JSON parsing is left
  out: `load_db` returns the text it would decode, and the databases are
  already-parsed records.
- `Database.LoadDb`: JSON decoding errors are not modelled.
- Platform detection in `chk_or_download_mrabin` is left out. The converter's
  file name and URL, and whether `chmod` runs (all platforms except Windows),
  are parameters. The 15-second sleep is left out.
- `Arcade.FetchConverter`: the file mode change itself is not modelled, only
  the `chmod` command.
- `run_process` is modelled as appending its argument list to the command log.
  Its output and the converter's effect on the file system are not modelled.
- Directory creation (`mkdir(parents=True)`) is implicit: the file map has no
  directories.
- `Text.Upper` upper-cases ASCII letters only.
- `Text.UrlJoin` covers only a relative file name joined to a base URL.
- `os.path.join` resetting at an absolute component is not modelled. Neither
  are `os.path.join` with an empty sub-path and the `'/'` separator inside
  keys or names.
- `Cache.Machine.CopyFile` models `shutil.copyfile` only by the existence of
  the source. Other `OSError` causes, such as permissions, are not modelled.
- The clean-SD option and the `TMP` bootstrap in `main` are left out.
- Tag identifiers are integers compared for equality; the JSON values may be
  any type.

## Findings

| source | as written | input that shows it | evidently intended | confidence | as-written member | corrected member |
|---|---|---|---|---|---|---|
| ZX3_Downloader.py:421-433 | `b_ok` is overwritten by each entry's `chk_or_extract`, so the result is the last entry's flag (false for an empty table) | a table whose first entry fails its hash check and whose second entry passes returns true | true exactly when every entry was extracted and checked without problems (its docstring) | not executed | ZipPack.LastStatusHidesFailure | ZipPack.AllStatusMeansEveryEntry |
