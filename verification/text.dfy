/**
 * The string and path operations the downloader relies on: `split('/')[-1]`,
 * `''.join(s.split(sep))`, `startswith`, `endswith`, substring tests,
 * `upper()`, `os.path.join` and `urljoin` for a relative file name.
 */
module Text {

  /** A filesystem path as the list of its components; `os.path.join` is concatenation. */
  type Path = seq<string>

  /** Concatenation regroups freely. */
  lemma Assoc<T>(x: seq<T>, y: seq<T>, z: seq<T>)
    ensures x + y + z == x + (y + z)
  {
  }

  /** `s.split('/')[-1]`: the text after the last slash (all of `s` when it has none). */
  function BaseName(s: string): (r: string)
    ensures '/' !in r && |r| <= |s|
  {
    if s == [] then []
    else if s[|s| - 1] == '/' then []
    else BaseName(s[..|s| - 1]) + [s[|s| - 1]]
  }

  /** The base name is the suffix of `s` that follows its last slash. */
  lemma {:induction false} BaseNameSuffix(s: string)
    ensures var r := BaseName(s);
            && r == s[|s| - |r|..]
            && (|r| < |s| ==> s[|s| - |r| - 1] == '/')
  {
    if s != [] && s[|s| - 1] != '/' {
      var s' := s[..|s| - 1];
      BaseNameSuffix(s');
      var r' := BaseName(s');
      assert s[|s| - |r'| - 1..] == s'[|s'| - |r'|..] + [s[|s| - 1]];
    }
  }

  /** A key without any slash is its own base name. */
  lemma {:induction false} BaseNameOfPlain(s: string)
    requires '/' !in s
    ensures BaseName(s) == s
  {
    if s != [] {
      assert s[|s| - 1] in s;
      BaseNameOfPlain(s[..|s| - 1]);
      assert s[..|s| - 1] + [s[|s| - 1]] == s;
    }
  }

  predicate OccursAt(s: string, part: string, i: nat)
  {
    i + |part| <= |s| && s[i..i + |part|] == part
  }

  /** Python's `part in s` for strings. */
  predicate Contains(s: string, part: string)
  {
    exists i: nat :: i <= |s| && OccursAt(s, part, i)
  }

  /** `s.startswith(prefix)`. */
  predicate StartsWith(s: string, prefix: string)
  {
    prefix <= s
  }

  /** `s.endswith(suffix)`. */
  predicate EndsWith(s: string, suffix: string)
  {
    |suffix| <= |s| && s[|s| - |suffix|..] == suffix
  }

  /**
   * `''.join(s.split(sep))`: `s` with the occurrences of `sep` found by a
   * left-to-right scan (non-overlapping) removed. `split` rejects an empty separator.
   */
  function Strip(s: string, sep: string): (r: string)
    requires sep != []
    ensures |r| <= |s|
    decreases |s|
  {
    if |s| < |sep| then s
    else if s[..|sep|] == sep then Strip(s[|sep|..], sep)
    else [s[0]] + Strip(s[1..], sep)
  }

  /** Stripping changes nothing exactly when the separator does not occur. */
  lemma {:induction false} StripUnchanged(s: string, sep: string)
    requires sep != []
    ensures Strip(s, sep) == s <==> !Contains(s, sep)
    decreases |s|
  {
    if |s| < |sep| {
      assert !Contains(s, sep);
    } else if s[..|sep|] == sep {
      assert OccursAt(s, sep, 0);
      assert |Strip(s, sep)| <= |s| - |sep| < |s|;
    } else {
      StripUnchanged(s[1..], sep);
      ContainsShift(s, sep);
      assert [s[0]] + s[1..] == s;
    }
  }

  /** Without a match at position 0, `sep` occurs in `s` exactly when it occurs in `s[1..]`. */
  lemma ContainsShift(s: string, sep: string)
    requires s != [] && !OccursAt(s, sep, 0)
    ensures Contains(s, sep) <==> Contains(s[1..], sep)
  {
    if Contains(s, sep) {
      var i: nat :| i <= |s| && OccursAt(s, sep, i);
      assert s[1..][i - 1..i - 1 + |sep|] == s[i..i + |sep|];
      assert OccursAt(s[1..], sep, i - 1);
    }
    if Contains(s[1..], sep) {
      var i: nat :| i <= |s[1..]| && OccursAt(s[1..], sep, i);
      assert s[i + 1..i + 1 + |sep|] == s[1..][i..i + |sep|];
      assert OccursAt(s, sep, i + 1);
    }
  }

  function UpperChar(c: char): char
  {
    if 'a' <= c <= 'z' then (c as int - 32) as char else c
  }

  /** `s.upper()` on ASCII letters: same length, no lower-case ASCII letter left. */
  function Upper(s: string): (r: string)
    ensures |r| == |s|
    ensures forall i :: 0 <= i < |r| ==> !('a' <= r[i] <= 'z')
  {
    seq(|s|, i requires 0 <= i < |s| => UpperChar(s[i]))
  }

  /** `os.path.join(*p)` as the text handed to an external command. */
  function Render(p: Path): string
  {
    if p == [] then ""
    else if |p| == 1 then p[0]
    else Render(p[..|p| - 1]) + "/" + p[|p| - 1]
  }

  /**
   * `urljoin(base, rel)` for a relative file name `rel`: `rel` replaces what
   * follows the last slash of `base`; an empty base yields `rel`.
   */
  function UrlJoin(base: string, rel: string): (r: string)
    ensures EndsWith(r, rel)
    ensures StartsWith(r, base[..|base| - |BaseName(base)|])
  {
    base[..|base| - |BaseName(base)|] + rel
  }
}
