/** The self-updater's decision logic: where bundled resources are looked up,
    how release versions compare, what the remote release feed is turned
    into, which release asset is downloaded and how the changelog is shown. */
module ModernUpdater {
  import opened Common
  import opened Strings
  import UpdateConfig

  // ----- resource lookup -----

  /** A filesystem path, as its sequence of segments. */
  type Path = seq<string>

  /** The directory resources are looked up in: the unpacked bundle for a
      frozen (packaged) build, the script's own directory otherwise. */
  function ResourceBase(frozen: bool, bundleDir: Path, scriptDir: Path): Path {
    if frozen then bundleDir else scriptDir
  }

  /** `base/filename` when that exists, else `base/assets/filename` when that
      exists, else `base/filename` regardless, where `base` is the bundle
      directory of a frozen build and the script's directory otherwise;
      `present` says which paths exist on disk. */
  function ResourcePath(frozen: bool, bundleDir: Path, scriptDir: Path, filename: string,
                        present: Path -> bool): (r: Path)
    ensures frozen ==> r == bundleDir + [filename] || r == bundleDir + ["assets", filename]
    ensures !frozen ==> r == scriptDir + [filename] || r == scriptDir + ["assets", filename]
    ensures var base := ResourceBase(frozen, bundleDir, scriptDir);
      (present(base + [filename]) ==> r == base + [filename]) &&
      (!present(base + ["assets", filename]) ==> r == base + [filename]) &&
      (present(r) <==> present(base + [filename]) || present(base + ["assets", filename]))
  {
    var base := ResourceBase(frozen, bundleDir, scriptDir);
    var direct := base + [filename];
    var inAssets := base + ["assets", filename];
    if present(direct) then direct
    else if present(inAssets) then inAssets
    else direct
  }

  // ----- version comparison -----

  /** One dotted component read as an integer: a non-empty run of ASCII
      digits, anything else a parse failure. */
  function ParseComponent(s: string): (n: Option<nat>)
    ensures n.Some? <==> IsDigits(s)
  {
    if IsDigits(s) then Some(DigitsValue(s)) else None
  }

  function ParseParts(parts: seq<string>): (r: Option<seq<nat>>)
    ensures r.Some? <==> forall k :: 0 <= k < |parts| ==> IsDigits(parts[k])
    ensures r.Some? ==> |r.value| == |parts|
    ensures r.Some? ==> forall k :: 0 <= k < |parts| ==> r.value[k] == DigitsValue(parts[k])
  {
    if |parts| == 0 then Some([])
    else match (ParseComponent(parts[0]), ParseParts(parts[1..]))
      case (Some(n), Some(ns)) => Some([n] + ns)
      case _ => None
  }

  /** The components of a dotted version, or `None` when one of them is not a
      number (which includes the empty version `""`). */
  function ParseVersion(v: string): Option<seq<nat>> {
    ParseParts(Split(v, '.'))
  }

  function Zeros(n: nat): (z: seq<nat>)
    ensures |z| == n && forall k :: 0 <= k < n ==> z[k] == 0
  {
    if n == 0 then [] else [0] + Zeros(n - 1)
  }

  /** `xs` extended with zeros to length `n` (unchanged when already at
      least that long). */
  function Padded(xs: seq<nat>, n: nat): (ys: seq<nat>)
    ensures |ys| == if |xs| < n then n else |xs|
    ensures ys[..|xs|] == xs
    ensures forall k :: |xs| <= k < |ys| ==> ys[k] == 0
  {
    if |xs| < n then xs + Zeros(n - |xs|) else xs
  }

  function Max(a: nat, b: nat): nat {
    if a < b then b else a
  }

  /** Python's `a > b` on two lists of the same length. */
  predicate LexGreater(a: seq<nat>, b: seq<nat>)
    requires |a| == |b|
  {
    |a| > 0 && (a[0] > b[0] || (a[0] == b[0] && LexGreater(a[1..], b[1..])))
  }

  /** `latest` is newer than `current`: both parse, and after padding the
      shorter with zeros the latest components are lexicographically
      greater. A version that does not parse is never newer, nor is anything
      newer than it. */
  predicate VersionNewer(latest: string, current: string) {
    match (ParseVersion(latest), ParseVersion(current))
    case (Some(a), Some(b)) =>
      var n := Max(|a|, |b|);
      LexGreater(Padded(a, n), Padded(b, n))
    case _ => false
  }

  /** Equal prefixes decide nothing: the comparison goes on after them. */
  lemma {:induction false} LexDrop(a: seq<nat>, b: seq<nat>, i: nat)
    requires |a| == |b| && i <= |a| && a[..i] == b[..i]
    ensures LexGreater(a, b) == LexGreater(a[i..], b[i..])
  {
    if i > 0 {
      assert a[0] == b[0] by {
        assert a[..i][0] == b[..i][0];
      }
      assert a[1..][..i - 1] == b[1..][..i - 1] by {
        assert a[1..][..i - 1] == a[..i][1..];
        assert b[1..][..i - 1] == b[..i][1..];
      }
      LexDrop(a[1..], b[1..], i - 1);
      assert a[1..][i - 1..] == a[i..];
      assert b[1..][i - 1..] == b[i..];
    }
  }

  lemma {:induction false} LexIrreflexive(a: seq<nat>)
    ensures !LexGreater(a, a)
  {
    if |a| > 0 {
      LexIrreflexive(a[1..]);
    }
  }

  lemma {:induction false} LexAsymmetric(a: seq<nat>, b: seq<nat>)
    requires |a| == |b|
    ensures LexGreater(a, b) ==> !LexGreater(b, a)
  {
    if |a| > 0 {
      LexAsymmetric(a[1..], b[1..]);
    }
  }

  lemma {:induction false} LexTransitive(a: seq<nat>, b: seq<nat>, c: seq<nat>)
    requires |a| == |b| == |c|
    ensures LexGreater(a, b) && LexGreater(b, c) ==> LexGreater(a, c)
  {
    if |a| > 0 {
      LexTransitive(a[1..], b[1..], c[1..]);
    }
  }

  /** A common tail appended to both sides changes no comparison. */
  lemma {:induction false} LexCommonTail(a: seq<nat>, b: seq<nat>, t: seq<nat>)
    requires |a| == |b|
    ensures LexGreater(a + t, b + t) == LexGreater(a, b)
  {
    if |a| == 0 {
      assert a + t == t && b + t == t;
      LexIrreflexive(t);
    } else {
      assert (a + t)[1..] == a[1..] + t;
      assert (b + t)[1..] == b[1..] + t;
      LexCommonTail(a[1..], b[1..], t);
    }
  }

  /** Padding both sides further with zeros changes no comparison. */
  lemma PaddingIrrelevant(a: seq<nat>, b: seq<nat>, n: nat, m: nat)
    requires Max(|a|, |b|) <= n <= m
    ensures LexGreater(Padded(a, m), Padded(b, m)) == LexGreater(Padded(a, n), Padded(b, n))
  {
    assert Padded(a, m) == Padded(a, n) + Zeros(m - n);
    assert Padded(b, m) == Padded(b, n) + Zeros(m - n);
    LexCommonTail(Padded(a, n), Padded(b, n), Zeros(m - n));
  }

  /** No version is newer than itself. */
  lemma VersionIrreflexive(v: string)
    ensures !VersionNewer(v, v)
  {
    if ParseVersion(v).Some? {
      var a := ParseVersion(v).value;
      LexIrreflexive(Padded(a, |a|));
    }
  }

  /** Of two versions at most one is newer than the other. */
  lemma VersionAsymmetric(x: string, y: string)
    ensures VersionNewer(x, y) ==> !VersionNewer(y, x)
  {
    if ParseVersion(x).Some? && ParseVersion(y).Some? {
      var a, b := ParseVersion(x).value, ParseVersion(y).value;
      var n := Max(|a|, |b|);
      assert Max(|b|, |a|) == n;
      LexAsymmetric(Padded(a, n), Padded(b, n));
    }
  }

  lemma VersionTransitive(x: string, y: string, z: string)
    ensures VersionNewer(x, y) && VersionNewer(y, z) ==> VersionNewer(x, z)
  {
    if ParseVersion(x).Some? && ParseVersion(y).Some? && ParseVersion(z).Some? {
      var a, b, c := ParseVersion(x).value, ParseVersion(y).value, ParseVersion(z).value;
      var m := Max(Max(|a|, |b|), |c|);
      PaddingIrrelevant(a, b, Max(|a|, |b|), m);
      PaddingIrrelevant(b, c, Max(|b|, |c|), m);
      PaddingIrrelevant(a, c, Max(|a|, |c|), m);
      LexTransitive(Padded(a, m), Padded(b, m), Padded(c, m));
    }
  }

  lemma {:induction false} SplitAppendZero(v: string)
    ensures Split(v + ".0", '.') == Split(v, '.') + ["0"]
    decreases |v|
  {
    var w := v + ".0";
    if '.' in v {
      var k := IndexOf(v, '.');
      assert w[..k] == v[..k];
      assert IndexOf(w, '.') == k by {
        assert w[k] == '.';
        assert w[..k] == v[..k];
      }
      assert w[k + 1..] == v[k + 1..] + ".0";
      SplitAppendZero(v[k + 1..]);
    } else {
      var k := |v|;
      assert w[k] == '.' && w[..k] == v;
      assert IndexOf(w, '.') == k;
      assert w[k + 1..] == "0";
      assert Split("0", '.') == ["0"];
    }
  }

  lemma {:induction false} ParsePartsAppend(parts: seq<string>, last: string)
    requires IsDigits(last)
    ensures ParseParts(parts + [last]).Some? == ParseParts(parts).Some?
    ensures ParseParts(parts).Some? ==>
      ParseParts(parts + [last]).value == ParseParts(parts).value + [DigitsValue(last)]
  {
    if |parts| > 0 {
      assert (parts + [last])[1..] == parts[1..] + [last];
      ParsePartsAppend(parts[1..], last);
    } else {
      assert parts + [last] == [last];
    }
  }

  /** Appending `.0` appends a zero component. */
  lemma ParseAppendZero(v: string)
    ensures ParseVersion(v + ".0").Some? == ParseVersion(v).Some?
    ensures ParseVersion(v).Some? ==> ParseVersion(v + ".0").value == ParseVersion(v).value + [0]
  {
    SplitAppendZero(v);
    assert IsDigits("0") && DigitsValue("0") == 0 by {
      assert DigitsValue("0") == DigitsValue("0"[..0]) * 10 + DigitValue('0');
    }
    ParsePartsAppend(Split(v, '.'), "0");
  }

  /** A trailing `.0` on the latest version makes no difference, so `1.0.0`
      is no update over `1.0`. */
  lemma TrailingZeroLatest(v: string, w: string)
    ensures VersionNewer(v + ".0", w) == VersionNewer(v, w)
  {
    ParseAppendZero(v);
    if ParseVersion(v).Some? && ParseVersion(w).Some? {
      var a, b := ParseVersion(v).value, ParseVersion(w).value;
      var a0 := a + [0];
      var n0, n1 := Max(|a|, |b|), Max(|a0|, |b|);
      NewerOfParsed(v + ".0", w, a0, b);
      NewerOfParsed(v, w, a, b);
      assert Padded(a0, n1) == Padded(a, n1);
      PaddingIrrelevant(a, b, n0, n1);
    }
  }

  /** A trailing `.0` on the running version makes no difference, so `1.0`
      is no update over `1.0.0`. */
  lemma TrailingZeroCurrent(v: string, w: string)
    ensures VersionNewer(w, v + ".0") == VersionNewer(w, v)
  {
    ParseAppendZero(v);
    if ParseVersion(v).Some? && ParseVersion(w).Some? {
      var a, b := ParseVersion(v).value, ParseVersion(w).value;
      var a0 := a + [0];
      var n0, n1 := Max(|b|, |a|), Max(|b|, |a0|);
      NewerOfParsed(w, v + ".0", b, a0);
      NewerOfParsed(w, v, b, a);
      assert Padded(a0, n1) == Padded(a, n1);
      PaddingIrrelevant(b, a, n0, n1);
    }
  }

  /** A version that does not parse (a missing tag gives `""`) is never
      newer, and nothing is newer than it. */
  lemma UnparsableNeverNewer(v: string, w: string)
    requires ParseVersion(v).None?
    ensures !VersionNewer(v, w) && !VersionNewer(w, v)
  {
  }

  lemma EmptyVersionUnparsable()
    ensures ParseVersion("") == None
  {
    assert Split("", '.') == [""];
  }

  lemma ParsePartsCons(p: string, rest: seq<string>)
    requires IsDigits(p) && ParseParts(rest).Some?
    ensures ParseParts([p] + rest) == Some([DigitsValue(p)] + ParseParts(rest).value)
  {
    assert ([p] + rest)[1..] == rest;
  }

  /** The comparison of two versions that parse is that of their padded
      components. */
  lemma NewerOfParsed(latest: string, current: string, a: seq<nat>, b: seq<nat>)
    requires ParseVersion(latest) == Some(a) && ParseVersion(current) == Some(b)
    ensures VersionNewer(latest, current) == LexGreater(Padded(a, Max(|a|, |b|)), Padded(b, Max(|a|, |b|)))
  {
  }

  /** The comparison as the updater runs it: parse both versions (a failed
      parse answers `false`), extend the shorter list with zeros, then
      compare element by element. */
  method IsNewerVersion(latest: string, current: string) returns (newer: bool)
    ensures newer == VersionNewer(latest, current)
  {
    var lp := ParseList(Split(latest, '.'));
    var cp := ParseList(Split(current, '.'));
    if lp.None? || cp.None? {
      return false;
    }
    var n := Max(|lp.value|, |cp.value|);
    var a := ExtendWithZeros(lp.value, n);
    var b := ExtendWithZeros(cp.value, n);
    newer := CompareLists(a, b);
  }

  /** `xs += [0] * (n - len(xs))`. */
  method ExtendWithZeros(xs: seq<nat>, n: nat) returns (ys: seq<nat>)
    ensures ys == Padded(xs, n)
  {
    ys := xs;
    while |ys| < n
      invariant |xs| <= |ys| && (|xs| < n ==> |ys| <= n) && (|xs| >= n ==> ys == xs)
      invariant ys == Padded(xs, |ys|)
      decreases n - |ys|
    {
      ys := ys + [0];
    }
  }

  /** `a > b` on lists of equal length, scanning for the first difference. */
  method CompareLists(a: seq<nat>, b: seq<nat>) returns (greater: bool)
    requires |a| == |b|
    ensures greater == LexGreater(a, b)
  {
    var i := 0;
    while i < |a| && a[i] == b[i]
      invariant 0 <= i <= |a|
      invariant a[..i] == b[..i]
    {
      assert a[..i + 1] == a[..i] + [a[i]];
      assert b[..i + 1] == b[..i] + [b[i]];
      i := i + 1;
    }
    LexDrop(a, b, i);
    greater := i < |a| && a[i] > b[i];
  }

  /** `[int(x) for x in parts]`, with a failed conversion ending the loop. */
  method ParseList(parts: seq<string>) returns (r: Option<seq<nat>>)
    ensures r == ParseParts(parts)
  {
    var acc: seq<nat> := [];
    var i := 0;
    while i < |parts|
      invariant 0 <= i <= |parts|
      invariant ParseParts(parts[..i]) == Some(acc)
    {
      if !IsDigits(parts[i]) {
        PartsPrefixFails(parts, i);
        return None;
      }
      acc := acc + [DigitsValue(parts[i])];
      PartsPrefixExtends(parts, i);
      i := i + 1;
    }
    assert parts[..i] == parts;
    r := Some(acc);
  }

  lemma PartsPrefixExtends(parts: seq<string>, i: nat)
    requires i < |parts| && IsDigits(parts[i]) && ParseParts(parts[..i]).Some?
    ensures ParseParts(parts[..i + 1]) ==
      Some(ParseParts(parts[..i]).value + [DigitsValue(parts[i])])
  {
    assert parts[..i + 1] == parts[..i] + [parts[i]];
    ParsePartsAppend(parts[..i], parts[i]);
  }

  lemma PartsPrefixFails(parts: seq<string>, i: nat)
    requires i < |parts| && !IsDigits(parts[i])
    ensures ParseParts(parts) == None
  {
  }

  // ----- the release feed -----

  /** A JSON field that should hold a string: missing, a string, or some
      other JSON value (null, a number, ...). */
  datatype JsonText = Absent | Str(s: string) | NonString

  datatype Asset = Asset(name: string, downloadUrl: string)

  /** The parts of the latest-release JSON the updater reads; a missing
      `assets` list reads as empty, a missing or null `body` as `None`. */
  datatype Release = Release(tagName: JsonText, body: Option<string>, assets: seq<Asset>)

  datatype CheckOutcome = UpdateAvailable(release: Release) | NoUpdates | CheckError

  /** The remote version: `tag_name` (default `""`) with every `v` removed;
      a non-string tag makes `.replace` raise, which is `None` here. */
  function RemoteVersion(tag: JsonText): (v: Option<string>)
    ensures v.Some? ==> 'v' !in v.value
    ensures tag.Absent? ==> v == Some("")
    ensures tag.Str? ==> v.Some? && |v.value| <= |tag.s|
    ensures tag.NonString? ==> v.None?
  {
    match tag
    case Absent => Some("")
    case Str(s) => Some(RemoveChar(s, 'v'))
    case NonString => None
  }

  /** The update check on the reply of the release feed (`None` when the
      request or the JSON decoding failed). */
  function CheckForUpdates(reply: Option<Release>, current: string): (outcome: CheckOutcome)
    ensures outcome.UpdateAvailable? <==>
      reply.Some? && RemoteVersion(reply.value.tagName).Some? &&
      VersionNewer(RemoteVersion(reply.value.tagName).value, current)
    ensures outcome.UpdateAvailable? ==> outcome.release == reply.value
    ensures outcome.CheckError? <==> reply.None? || reply.value.tagName.NonString?
  {
    if reply.None? then CheckError
    else match RemoteVersion(reply.value.tagName)
      case None => CheckError
      case Some(v) => if VersionNewer(v, current) then UpdateAvailable(reply.value) else NoUpdates
  }

  /** A release without a tag never reports an update. */
  lemma MissingTagNoUpdate(r: Release, current: string)
    requires r.tagName.Absent?
    ensures CheckForUpdates(Some(r), current) == NoUpdates
  {
    EmptyVersionUnparsable();
  }

  /** Only the tag with its `v`s removed matters: `v1.2`, `1.2` and `1.v2`
      are the same release version. */
  lemma OnlyTagWithoutVMatters(r1: Release, r2: Release, current: string)
    requires r1.tagName.Str? && r2.tagName.Str?
    requires RemoveChar(r1.tagName.s, 'v') == RemoveChar(r2.tagName.s, 'v')
    ensures CheckForUpdates(Some(r1), current).UpdateAvailable? ==
            CheckForUpdates(Some(r2), current).UpdateAvailable?
  {
  }

  /** The running build is never offered itself, whatever `v`s its tag has. */
  lemma SameVersionNoUpdate(r: Release)
    requires r.tagName.Str? && RemoveChar(r.tagName.s, 'v') == UpdateConfig.CURRENT_VERSION
    ensures CheckForUpdates(Some(r), UpdateConfig.CURRENT_VERSION) == NoUpdates
  {
    VersionIrreflexive(UpdateConfig.CURRENT_VERSION);
  }

  // ----- choosing the download -----

  predicate IsZip(a: Asset) {
    EndsWith(a.name, ".zip")
  }

  /** The index of the first asset whose name ends in `.zip`. */
  function FirstZip(assets: seq<Asset>): (k: Option<nat>)
    ensures k.None? <==> forall j :: 0 <= j < |assets| ==> !IsZip(assets[j])
    ensures k.Some? ==>
      k.value < |assets| && IsZip(assets[k.value]) && forall j :: 0 <= j < k.value ==> !IsZip(assets[j])
    decreases |assets|
  {
    if |assets| == 0 then None
    else if IsZip(assets[0]) then Some(0)
    else match FirstZip(assets[1..])
      case None => None
      case Some(k) => Some(k + 1)
  }

  /** The download URL of the first asset whose name ends in `.zip`. */
  method FindDownloadUrl(assets: seq<Asset>) returns (url: Option<string>)
    ensures url.None? <==> FirstZip(assets).None?
    ensures url.Some? ==> url.value == assets[FirstZip(assets).value].downloadUrl
  {
    url := None;
    var i := 0;
    while i < |assets|
      invariant 0 <= i <= |assets|
      invariant forall j :: 0 <= j < i ==> !IsZip(assets[j])
    {
      if IsZip(assets[i]) {
        url := Some(assets[i].downloadUrl);
        break;
      }
      i := i + 1;
    }
  }

  datatype UpdateStart =
    | MissingUpdateFile
    | StartWorker(url: string, tag: JsonText)

  /** Whether the first `.zip` asset exists and has a non-empty URL, the
      condition for starting a download. */
  predicate HasDownload(release: Release) {
    FirstZip(release.assets).Some? && release.assets[FirstZip(release.assets).value].downloadUrl != ""
  }

  /** Starting an update: without a `.zip` asset (or with an empty URL on the
      first one) the error dialog is shown and no worker is started;
      otherwise the worker downloads the first `.zip` asset's URL, with the
      release tag (`""` when absent). */
  method StartUpdateProcess(release: Release) returns (start: UpdateStart)
    ensures start.StartWorker? <==> HasDownload(release)
    ensures HasDownload(release) ==>
      start == StartWorker(release.assets[FirstZip(release.assets).value].downloadUrl,
                           if release.tagName.Absent? then Str("") else release.tagName)
  {
    var url := FindDownloadUrl(release.assets);
    if url.None? || url.value == "" {
      return MissingUpdateFile;
    }
    var tag := if release.tagName.Absent? then Str("") else release.tagName;
    start := StartWorker(url.value, tag);
  }

  /** Without any `.zip` asset no worker is started. */
  lemma NoZipNoWorker(release: Release)
    requires forall k :: 0 <= k < |release.assets| ==> !IsZip(release.assets[k])
    ensures !HasDownload(release)
  {
  }

  // ----- the changelog shown in the update dialog -----

  const CHANGELOG_LIMIT: nat := 300
  const NO_CHANGES_TEXT: string := "Информация об изменениях недоступна."

  /** Bodies over the limit keep their first 300 characters and gain `...`. */
  function Shortened(s: string): (t: string)
    ensures |s| <= CHANGELOG_LIMIT ==> t == s
    ensures |s| > CHANGELOG_LIMIT ==> |t| == CHANGELOG_LIMIT + 3 && t[..CHANGELOG_LIMIT] == s[..CHANGELOG_LIMIT]
  {
    if |s| > CHANGELOG_LIMIT then s[..CHANGELOG_LIMIT] + "..." else s
  }

  /** The changelog as rich text: an empty or missing body gives the fixed
      placeholder; otherwise the shortened body with every newline turned
      into `<br>`. */
  function FormatChanges(body: Option<string>): (html: string)
    ensures body.None? || body.value == "" ==> html == NO_CHANGES_TEXT
    ensures body.Some? && body.value != "" ==> html == ReplaceAll(Shortened(body.value), "\n", "<br>")
  {
    if body.Some? && body.value != "" then ReplaceAll(Shortened(body.value), "\n", "<br>")
    else NO_CHANGES_TEXT
  }

  /** No raw newline survives the formatting. */
  lemma FormattedHasNoNewline(body: Option<string>)
    ensures '\n' !in FormatChanges(body)
  {
    if body.Some? && body.value != "" {
      ReplaceAllLeavesNoOccurrence(Shortened(body.value), "\n", "<br>", "\n");
      ContainsChar(FormatChanges(body), '\n');
    } else {
      assert '\n' !in NO_CHANGES_TEXT;
    }
  }

  /** A short body without newlines is shown exactly as written. */
  lemma ShortPlainBodyUnchanged(s: string)
    requires s != "" && |s| <= CHANGELOG_LIMIT && '\n' !in s
    ensures FormatChanges(Some(s)) == s
  {
    ContainsChar(s, '\n');
    ReplaceAllAbsent(s, "\n", "<br>");
  }

  /** A long body without newlines is cut to 300 characters plus `...`. */
  lemma LongPlainBodyShortened(s: string)
    requires |s| > CHANGELOG_LIMIT && '\n' !in s
    ensures FormatChanges(Some(s)) == s[..CHANGELOG_LIMIT] + "..."
  {
    var t := s[..CHANGELOG_LIMIT] + "...";
    assert '\n' !in t by {
      assert forall k :: 0 <= k < |t| ==> t[k] != '\n' by {
        forall k | 0 <= k < |t| ensures t[k] != '\n' {
          if k < CHANGELOG_LIMIT {
            assert t[k] == s[k];
          }
        }
      }
    }
    ContainsChar(t, '\n');
    ReplaceAllAbsent(t, "\n", "<br>");
  }
}
