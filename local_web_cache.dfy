/** `LocalWebCache`: a store of WhatsApp Web index pages keyed by version. The
    directory is a map from file path to file content; `persist` takes the
    version out of the page with the expression `manifest-([\d\\.]+)\.json`
    and writes one file, `resolve` reads one back. */
module WebVersionCache {
  import opened Common

  const DefaultPath := "./.mywajs_cache/"
  const ManifestPrefix := "manifest-"
  const ManifestSuffix := ".json"

  datatype CacheError =
    | VersionResolveError(message: string)
    | TypeError(message: string)

  const NoMatchMessage := "Cannot read properties of null (reading '1')"

  function ResolveErrorMessage(version: string): string {
    "Couldn't load version " + version + " from the cache"
  }

  // ---- the version expression ----

  /** The class `[\d\\.]`: a digit, a backslash or a dot. */
  predicate IsVersionChar(c: char) {
    ('0' <= c <= '9') || c == '\\' || c == '.'
  }

  predicate AllVersionChars(s: string) {
    forall k :: 0 <= k < |s| ==> IsVersionChar(s[k])
  }

  /** The length of the run of class characters starting at `q`: how far the
      greedy `+` first reaches. */
  function RunLength(s: string, q: nat): (n: nat)
    requires q <= |s|
    ensures q + n <= |s|
    ensures forall k :: q <= k < q + n ==> IsVersionChar(s[k])
    ensures q + n == |s| || !IsVersionChar(s[q + n])
    decreases |s| - q
  {
    if q < |s| && IsVersionChar(s[q]) then 1 + RunLength(s, q + 1) else 0
  }

  /** Backtracking: give back one character at a time until `.json` follows. */
  function TryLengths(s: string, q: nat, len: nat): (r: Option<string>)
    requires q + len <= |s|
    ensures r.Some? ==> 1 <= |r.value| <= len && r.value == s[q..q + |r.value|] &&
                        OccursAt(s, ManifestSuffix, q + |r.value|)
    decreases len
  {
    if len == 0 then None
    else if OccursAt(s, ManifestSuffix, q + len) then Some(s[q..q + len])
    else TryLengths(s, q, len - 1)
  }

  /** Three pieces occurring one after another form one occurrence. */
  lemma OccursConcat(s: string, x: string, y: string, z: string, i: nat)
    requires OccursAt(s, x, i) && OccursAt(s, y, i + |x|) && OccursAt(s, z, i + |x| + |y|)
    ensures OccursAt(s, x + y + z, i)
  {
    var w := x + y + z;
    forall k | 0 <= k < |w| ensures s[i..i + |w|][k] == w[k] {
      if k < |x| {
        assert s[i + k] == s[i..i + |x|][k];
      } else if k < |x| + |y| {
        assert s[i + k] == s[i + |x|..i + |x| + |y|][k - |x|];
      } else {
        assert s[i + k] == s[i + |x| + |y|..i + |x| + |y| + |z|][k - |x| - |y|];
      }
    }
  }

  /** The capture of a match starting at `p`, if the expression matches there. */
  function MatchAt(s: string, p: nat): (r: Option<string>)
    requires p <= |s|
    ensures r.Some? ==> |r.value| >= 1 && AllVersionChars(r.value) &&
                        OccursAt(s, ManifestPrefix + r.value + ManifestSuffix, p)
  {
    if !OccursAt(s, ManifestPrefix, p) then None
    else
      var q := p + |ManifestPrefix|;
      var r := TryLengths(s, q, RunLength(s, q));
      if r.Some? then
        var v := r.value;
        OccursConcat(s, ManifestPrefix, v, ManifestSuffix, p);
        r
      else r
  }

  /** The leftmost match at or after `p`. */
  function ExtractFrom(s: string, p: nat): (r: Option<string>)
    requires p <= |s|
    decreases |s| - p
  {
    match MatchAt(s, p)
    case Some(v) => Some(v)
    case None => if p == |s| then None else ExtractFrom(s, p + 1)
  }

  /** `indexHtml.match(/manifest-([\d\\.]+)\.json/)[1]`, absent when nothing
      matches. */
  function ExtractVersion(html: string): (r: Option<string>) {
    ExtractFrom(html, 0)
  }

  /** The capture is a non-empty run of digits, dots and backslashes, found in
      the page as `manifest-<capture>.json` (so the guard `if (!version)` never
      fires). */
  lemma {:induction false} ExtractFromIsMatch(s: string, p: nat)
    requires p <= |s|
    ensures ExtractFrom(s, p).Some? ==>
              var v := ExtractFrom(s, p).value;
              |v| >= 1 && AllVersionChars(v) &&
              exists i: nat :: p <= i <= |s| && OccursAt(s, ManifestPrefix + v + ManifestSuffix, i)
    decreases |s| - p
  {
    if MatchAt(s, p).None? && p < |s| {
      ExtractFromIsMatch(s, p + 1);
    }
  }

  lemma ExtractedVersionIsNonEmptyRun(html: string)
    ensures ExtractVersion(html).Some? ==>
              |ExtractVersion(html).value| >= 1 && AllVersionChars(ExtractVersion(html).value) &&
              Contains(html, ManifestPrefix + ExtractVersion(html).value + ManifestSuffix)
  {
    ExtractFromIsMatch(html, 0);
  }

  /** The run from `q` has length exactly `n` when the `n` characters there
      are class characters and the next one is not. */
  lemma {:induction false} RunLengthIs(s: string, q: nat, n: nat)
    requires q + n <= |s|
    requires forall k :: q <= k < q + n ==> IsVersionChar(s[k])
    requires q + n == |s| || !IsVersionChar(s[q + n])
    ensures RunLength(s, q) == n
    decreases n
  {
    if n > 0 {
      RunLengthIs(s, q + 1, n - 1);
    }
  }

  /** `m` occurs in `manifest-` only at its start, so an occurrence starting
      before `a` in a string with `m` at `a` lies wholly before `a`. */
  lemma NoPrefixBefore(s: string, a: nat, p: nat)
    requires p < a < |s| && s[a] == 'm'
    requires !Contains(s[..a], ManifestPrefix)
    ensures !OccursAt(s, ManifestPrefix, p)
  {
    var n := |ManifestPrefix|;
    if p + n <= a {
      assert s[..a][p..p + n] == s[p..p + n];
      assert !OccursAt(s[..a], ManifestPrefix, p);
    } else if p + n <= |s| {
      assert s[p..p + n][a - p] == s[a];
      assert ManifestPrefix[a - p] != 'm';
    }
  }

  /** Positions before `a` cannot start a match when `s[..a]` holds no
      `manifest-` and the character at `a` is its `m`. */
  lemma {:induction false} SkipNoMatchBefore(s: string, a: nat, p: nat)
    requires p <= a < |s| && s[a] == 'm'
    requires !Contains(s[..a], ManifestPrefix)
    ensures ExtractFrom(s, p) == ExtractFrom(s, a)
    decreases a - p
  {
    if p < a {
      NoPrefixBefore(s, a, p);
      SkipNoMatchBefore(s, a, p + 1);
    }
  }

  /** The characters of an occurrence of `manifest-<v>.json` at `p`. */
  lemma ManifestLayout(s: string, p: nat, v: string)
    requires OccursAt(s, ManifestPrefix + v + ManifestSuffix, p)
    ensures var q := p + |ManifestPrefix|;
      q + |v| + |ManifestSuffix| <= |s| &&
      s[p..q] == ManifestPrefix && s[q..q + |v|] == v &&
      s[q + |v|..q + |v| + |ManifestSuffix|] == ManifestSuffix
  {
    var w := ManifestPrefix + v + ManifestSuffix;
    var m := |ManifestPrefix|;
    var q := p + m;
    forall k | 0 <= k < |w| ensures s[p + k] == w[k] {
      assert s[p + k] == s[p..p + |w|][k];
    }
    assert s[p..q] == ManifestPrefix by {
      forall k | 0 <= k < m ensures s[p..q][k] == ManifestPrefix[k] {
        assert s[p + k] == w[k];
      }
    }
    assert s[q..q + |v|] == v by {
      forall k | 0 <= k < |v| ensures s[q..q + |v|][k] == v[k] {
        assert s[q + k] == w[m + k];
      }
    }
    assert s[q + |v|..q + |v| + |ManifestSuffix|] == ManifestSuffix by {
      forall k | 0 <= k < |ManifestSuffix| ensures s[q + |v|..q + |v| + |ManifestSuffix|][k] == ManifestSuffix[k] {
        assert s[q + |v| + k] == w[m + |v| + k];
      }
    }
  }

  /** The greedy run from `q` over `v` followed by `.json` takes `v` and the dot. */
  lemma RunOverVersion(s: string, q: nat, v: string)
    requires AllVersionChars(v)
    requires q + |v| + |ManifestSuffix| <= |s|
    requires s[q..q + |v|] == v && s[q + |v|..q + |v| + |ManifestSuffix|] == ManifestSuffix
    ensures RunLength(s, q) == |v| + 1
    ensures !OccursAt(s, ManifestSuffix, q + |v| + 1)
  {
    forall k | q <= k < q + |v| + 1 ensures IsVersionChar(s[k]) {
      if k < q + |v| {
        assert s[k] == s[q..q + |v|][k - q];
      } else {
        assert s[k] == s[q + |v|..q + |v| + |ManifestSuffix|][0];
      }
    }
    assert s[q + |v| + 1] == s[q + |v|..q + |v| + |ManifestSuffix|][1];
    RunLengthIs(s, q, |v| + 1);
    if q + |v| + 1 + |ManifestSuffix| <= |s| {
      assert s[q + |v| + 1..q + |v| + 1 + |ManifestSuffix|][0] == s[q + |v| + 1];
    }
  }

  /** Where `manifest-<v>.json` occurs with a non-empty class run `v`, the
      expression matches there and captures exactly `v`: the greedy run takes
      `v` and the dot, and backtracking gives the dot back. */
  lemma MatchAtManifest(s: string, p: nat, v: string)
    requires |v| >= 1 && AllVersionChars(v)
    requires OccursAt(s, ManifestPrefix + v + ManifestSuffix, p)
    ensures MatchAt(s, p) == Some(v)
  {
    var q := p + |ManifestPrefix|;
    ManifestLayout(s, p, v);
    assert OccursAt(s, ManifestPrefix, p);
    RunOverVersion(s, q, v);
    assert OccursAt(s, ManifestSuffix, q + |v|);
    assert TryLengths(s, q, |v| + 1) == TryLengths(s, q, |v|) == Some(v);
  }

  /** The round trip of `persist`'s parse: a page holding
      `manifest-<v>.json`, with no `manifest-` before it, yields exactly `v`. */
  lemma ExtractVersionRoundTrip(a: string, v: string, b: string)
    requires !Contains(a, ManifestPrefix)
    requires |v| >= 1 && AllVersionChars(v)
    ensures ExtractVersion(a + ManifestPrefix + v + ManifestSuffix + b) == Some(v)
  {
    var w := ManifestPrefix + v + ManifestSuffix;
    var s := a + w + b;
    assert s == a + ManifestPrefix + v + ManifestSuffix + b;
    assert s[|a|..|a| + |w|] == w;
    assert s[..|a|] == a;
    assert s[|a|] == w[0] == 'm';
    SkipNoMatchBefore(s, |a|, 0);
    MatchAtManifest(s, |a|, v);
  }

  /** A string in which no `m` is followed by `a` holds no `manifest-`. */
  lemma NoManifestWithoutMA(a: string)
    requires forall k :: 0 <= k < |a| - 1 ==> a[k] != 'm' || a[k + 1] != 'a'
    ensures !Contains(a, ManifestPrefix)
  {
    forall i: nat | i + |ManifestPrefix| <= |a| ensures !OccursAt(a, ManifestPrefix, i) {
      assert a[i..i + |ManifestPrefix|][0] == a[i] && a[i..i + |ManifestPrefix|][1] == a[i + 1];
    }
  }

  /** A concrete page with `<html>` and `<meta>` before the manifest link. */
  const ExampleHead := "<html><meta charset=\"utf-8\"><link href=\"/"
  const ExampleTail := "\"></html>"
  const ExamplePage := ExampleHead + "manifest-2.2206.9.json" + ExampleTail

  lemma ExampleHeadHoldsNoManifest()
    ensures !Contains(ExampleHead, ManifestPrefix)
  {
    assert forall k :: 0 <= k < |ExampleHead| - 1 ==> ExampleHead[k] != 'm' || ExampleHead[k + 1] != 'a';
    NoManifestWithoutMA(ExampleHead);
  }

  lemma ExamplePageLayout()
    ensures ExamplePage == ExampleHead + ManifestPrefix + "2.2206.9" + ManifestSuffix + ExampleTail
  {
    assert ManifestPrefix + "2.2206.9" + ManifestSuffix == "manifest-2.2206.9.json";
  }

  /** On the example page the capture is `2.2206.9`, although the `m` of
      `<html>` and of `<meta>` come first. */
  lemma ExtractVersionExample()
    ensures ExtractVersion(ExamplePage) == Some("2.2206.9")
  {
    ExampleHeadHoldsNoManifest();
    assert AllVersionChars("2.2206.9");
    ExtractVersionRoundTrip(ExampleHead, "2.2206.9", ExampleTail);
    ExamplePageLayout();
  }

  // ---- the directory ----

  /** The file of a version: `<dir>/<version>.html`, by plain concatenation. */
  function FilePath(dir: string, version: string): string {
    dir + "/" + version + ".html"
  }

  /** Different versions live in different files. */
  lemma FilePathInjective(dir: string, v: string, w: string)
    requires FilePath(dir, v) == FilePath(dir, w)
    ensures v == w
  {
    var pv := FilePath(dir, v);
    assert pv[|dir| + 1..|pv| - 5] == v;
    assert FilePath(dir, w)[|dir| + 1..|FilePath(dir, w)| - 5] == w;
  }

  /** What `resolve` returns for a directory state. */
  function ResolveIn(files: map<string, string>, dir: string, strict: bool, version: string): (r: Result<Option<string>, CacheError>)
    ensures FilePath(dir, version) in files ==> r == Ok(Some(files[FilePath(dir, version)]))
    ensures FilePath(dir, version) !in files ==>
              (strict ==> r == Err(VersionResolveError(ResolveErrorMessage(version)))) &&
              (!strict ==> r == Ok(None))
  {
    var f := FilePath(dir, version);
    if f in files then Ok(Some(files[f]))
    else if strict then Err(VersionResolveError(ResolveErrorMessage(version)))
    else Ok(None)
  }

  /** The directory after `persist(html)`: unchanged when no version is found,
      else one file written. */
  function StoreAfterPersist(files: map<string, string>, dir: string, html: string): (m: map<string, string>)
    ensures ExtractVersion(html).None? ==> m == files
    ensures ExtractVersion(html).Some? ==> m == files[FilePath(dir, ExtractVersion(html).value) := html]
  {
    match ExtractVersion(html)
    case None => files
    case Some(v) => files[FilePath(dir, v) := html]
  }

  /** After `persist(html)` with extracted version `v`, `resolve(v)` returns
      exactly `html`, and every other version resolves as before. */
  lemma PersistThenResolve(files: map<string, string>, dir: string, strict: bool, html: string, w: string)
    requires ExtractVersion(html).Some?
    ensures ResolveIn(StoreAfterPersist(files, dir, html), dir, strict, ExtractVersion(html).value) == Ok(Some(html))
    ensures w != ExtractVersion(html).value ==>
              ResolveIn(StoreAfterPersist(files, dir, html), dir, strict, w) == ResolveIn(files, dir, strict, w)
  {
    var v := ExtractVersion(html).value;
    if w != v && FilePath(dir, w) == FilePath(dir, v) {
      FilePathInjective(dir, w, v);
    }
  }

  /** A page without `manifest-` leaves the directory unchanged. */
  lemma FailedPersistChangesNothing(files: map<string, string>, dir: string, html: string)
    requires !Contains(html, ManifestPrefix)
    ensures StoreAfterPersist(files, dir, html) == files
  {
    if ExtractVersion(html).Some? {
      ExtractedVersionIsNonEmptyRun(html);
      var v := ExtractVersion(html).value;
      var i: nat :| i <= |html| && OccursAt(html, ManifestPrefix + v + ManifestSuffix, i);
      assert html[i..i + |ManifestPrefix|] == (ManifestPrefix + v + ManifestSuffix)[..|ManifestPrefix|];
      assert OccursAt(html, ManifestPrefix, i);
    }
  }

  class LocalWebCache {
    var path: string
    var strict: bool
    /** The files of the cache directory, by path. */
    var files: map<string, string>

    /** `options.path || './.mywajs_cache/'` and `options.strict || false`;
        `files` is what the directory already holds. */
    constructor (pathOption: Option<string>, strictOption: Option<bool>, existing: map<string, string>)
      ensures path == (if Truthy(pathOption) then pathOption.value else DefaultPath)
      ensures strict == (strictOption == Some(true))
      ensures files == existing
    {
      path := if Truthy(pathOption) then pathOption.value else DefaultPath;
      strict := strictOption == Some(true);
      files := existing;
    }

    /** `resolve(version)`: the stored page; on a miss an error when strict,
        else null. */
    method Resolve(version: string) returns (r: Result<Option<string>, CacheError>)
      ensures r == ResolveIn(files, path, strict, version)
      ensures r.Ok? && r.value.Some? <==> FilePath(path, version) in files
    {
      var f := FilePath(path, version);
      if f in files {
        r := Ok(Some(files[f]));
      } else if strict {
        r := Err(VersionResolveError(ResolveErrorMessage(version)));
      } else {
        r := Ok(None);
      }
    }

    /** `persist(indexHtml)`: the version is parsed first; without a match the
        indexing throws before anything is written. */
    method Persist(indexHtml: string) returns (r: Result<(), CacheError>)
      modifies this`files
      ensures files == StoreAfterPersist(old(files), path, indexHtml)
      ensures r.Err? <==> ExtractVersion(indexHtml).None?
      ensures r.Err? ==> r.error == TypeError(NoMatchMessage) && files == old(files)
    {
      var version := ExtractVersion(indexHtml);
      if version.None? {
        return Err(TypeError(NoMatchMessage));
      }
      files := files[FilePath(path, version.value) := indexHtml];
      r := Ok(());
    }
  }
}
