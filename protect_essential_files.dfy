/** The guard against deleting the project's own files: the list of files
    that must stay, the three-way verdict on a file name, the scan that
    sorts the project's scripts and notes by that verdict, the presence
    check of the essential files and the confirmed deletion of the files
    found safe. */
module ProtectEssentialFiles {
  import opened Common
  import opened Strings

  /** A named group of essential files. */
  datatype Category = Category(name: string, files: seq<string>)

  /** The essential files, by category, in the order they are declared. */
  const ESSENTIAL_FILES: seq<Category> := [
    Category("core", ["l4d2_pyqt_main.py", "requirements.txt", "LICENSE", ".gitignore"]),
    Category("updater", ["modern_updater.py", "update_config.py"]),
    Category("localization", ["localization.py", "language_dialog.py"]),
    Category("resources", ["icon.ico", "logo.png", "sans.ttf"]),
    Category("utilities", ["fetch_real_names.py", "customize_addon_names.py",
                           "precache_images.py", "create_cache_for_unprocessed.py"]),
    Category("build", ["L4D2_Addon_Manager.spec", "install_and_run.bat"]),
    Category("docs", ["README.md", "CHANGELOG.md", "INSTALL.md",
                      "PROJECT_STRUCTURE.md", "ESSENTIAL_FILES.md"]),
    Category("icons", ["add.png", "addon.png", "alloff.png", "allon.png",
                       "settings.png", "info.png", "tg.png", "heart.png",
                       "upd.png", "ref.png", "folder.png", "con.png",
                       "git.png", "link.png", "sort.png", "trash.png",
                       "x.png", "ques.png", "lang.png", "noadd.png",
                       "spravka.png", "sup.png"])
  ]

  // ----- the flattened list -----

  /** The files of all categories, one category after the other. */
  function Flatten(cats: seq<Category>): seq<string>
    decreases |cats|
  {
    if cats == [] then [] else Flatten(cats[..|cats| - 1]) + cats[|cats| - 1].files
  }

  /** The number of files over all categories. */
  function TotalSize(cats: seq<Category>): nat
    decreases |cats|
  {
    if cats == [] then 0 else TotalSize(cats[..|cats| - 1]) + |cats[|cats| - 1].files|
  }

  function AllEssential(): seq<string> {
    Flatten(ESSENTIAL_FILES)
  }

  /** The flattened list is as long as the categories together. */
  lemma {:induction false} FlattenSize(cats: seq<Category>)
    ensures |Flatten(cats)| == TotalSize(cats)
    decreases |cats|
  {
    if cats != [] {
      FlattenSize(cats[..|cats| - 1]);
    }
  }

  /** A name is in the flattened list exactly when some category lists it. */
  lemma {:induction false} FlattenMembers(cats: seq<Category>, f: string)
    ensures f in Flatten(cats) <==> exists i :: 0 <= i < |cats| && f in cats[i].files
    decreases |cats|
  {
    if cats != [] {
      var init := cats[..|cats| - 1];
      FlattenMembers(init, f);
      if exists i :: 0 <= i < |init| && f in init[i].files {
        var i :| 0 <= i < |init| && f in init[i].files;
        assert cats[i] == init[i];
      }
      if exists i :: 0 <= i < |cats| && f in cats[i].files {
        var i :| 0 <= i < |cats| && f in cats[i].files;
        if i < |init| {
          assert init[i] == cats[i];
        }
      }
    }
  }

  /** `get_all_essential_files`: the category lists extended one by one. */
  method GetAllEssentialFiles() returns (all: seq<string>)
    ensures all == AllEssential()
  {
    all := CollectFiles(ESSENTIAL_FILES);
  }

  /** The extending loop itself, over any categories. */
  method CollectFiles(cats: seq<Category>) returns (all: seq<string>)
    ensures all == Flatten(cats)
    ensures |all| == TotalSize(cats)
  {
    all := [];
    for i := 0 to |cats|
      invariant all == Flatten(cats[..i])
    {
      assert cats[..i + 1][..i] == cats[..i];
      all := all + cats[i].files;
    }
    assert cats[..|cats|] == cats;
    FlattenSize(cats);
  }

  /** As declared: 44 files in eight categories. */
  lemma EssentialCount()
    ensures |AllEssential()| == 44
  {
    FlattenSize(ESSENTIAL_FILES);
    var c := ESSENTIAL_FILES;
    assert TotalSize(c[..1]) == 4 by { assert c[..1][..0] == []; }
    assert TotalSize(c[..2]) == 6 by { assert c[..2][..1] == c[..1]; }
    assert TotalSize(c[..3]) == 8 by { assert c[..3][..2] == c[..2]; }
    assert TotalSize(c[..4]) == 11 by { assert c[..4][..3] == c[..3]; }
    assert TotalSize(c[..5]) == 15 by { assert c[..5][..4] == c[..4]; }
    assert TotalSize(c[..6]) == 17 by { assert c[..6][..5] == c[..5]; }
    assert TotalSize(c[..7]) == 22 by { assert c[..7][..6] == c[..6]; }
    assert TotalSize(c) == 44 by { assert c[..7] == c[..|c| - 1]; }
  }

  // ----- the base name of a path -----

  /** The parts of a `/`-separated path that `pathlib` keeps: empty parts
      (repeated or trailing separators) and `.` parts are dropped. */
  function Parts(p: string): (parts: seq<string>)
    ensures forall k :: 0 <= k < |parts| ==> parts[k] != "" && parts[k] != "." && '/' !in parts[k]
  {
    KeptParts(Split(p, '/'))
  }

  function KeptParts(raw: seq<string>): (parts: seq<string>)
    requires forall k :: 0 <= k < |raw| ==> '/' !in raw[k]
    ensures forall k :: 0 <= k < |parts| ==> parts[k] != "" && parts[k] != "." && '/' !in parts[k]
    ensures forall x :: x in parts <==> x in raw && x != "" && x != "."
    decreases |raw|
  {
    if raw == [] then []
    else
      var rest := KeptParts(raw[1..]);
      if raw[0] == "" || raw[0] == "." then rest else [raw[0]] + rest
  }

  /** `Path(p).name`: the last kept part, or the empty text. */
  function Basename(p: string): (name: string)
    ensures '/' !in name && name != "."
  {
    var parts := Parts(p);
    if parts == [] then "" else parts[|parts| - 1]
  }

  /** A name without separators is its own base name. */
  lemma PlainNameIsBasename(n: string)
    requires '/' !in n && n != "."
    ensures Basename(n) == n
  {
    assert Split(n, '/') == [n];
    assert Parts(n) == KeptParts([n]);
    assert [n][1..] == [];
    if n != "" {
      assert KeptParts([n]) == [n] + KeptParts([n][1..]);
    } else {
      assert KeptParts([n]) == KeptParts([n][1..]);
    }
  }

  lemma BasenameIdempotent(p: string)
    ensures Basename(Basename(p)) == Basename(p)
  {
    PlainNameIsBasename(Basename(p));
  }

  // ----- the verdict -----

  /** The name fragments that mark a file as safe to delete, in the order
      they are tried. */
  const SAFE_PATTERNS: seq<string> := [
    "debug_", "test_", "temp_", "tmp_",
    "_GUIDE.md", "_FIX.md", "_SOLUTION.md",
    "QUICK_", "GAMEBANANA_", "STEAM_POST_"
  ]

  /** `False`, `True` with the pattern that matched, and `None`. */
  datatype Verdict = Protected | Safe(pattern: string) | Unknown

  /** The first of `patterns` that occurs in `name`. */
  function FirstPattern(name: string, patterns: seq<string>): (r: Option<nat>)
    ensures r.None? <==> forall k :: 0 <= k < |patterns| ==> !Contains(name, patterns[k])
    ensures r.Some? ==> (r.value < |patterns| && Contains(name, patterns[r.value]) &&
      forall k :: 0 <= k < r.value ==> !Contains(name, patterns[k]))
    decreases |patterns|
  {
    if patterns == [] then None
    else if Contains(name, patterns[0]) then Some(0)
    else match FirstPattern(name, patterns[1..])
      case None => None
      case Some(k) => Some(k + 1)
  }

  /** `is_safe_to_delete`, its first half: the verdict on the base name. */
  function IsSafeToDelete(path: string): Verdict {
    var name := Basename(path);
    if name in AllEssential() then Protected
    else match FirstPattern(name, SAFE_PATTERNS)
      case Some(k) => Safe(SAFE_PATTERNS[k])
      case None => Unknown
  }

  /** What the verdict means: an essential name is protected before any
      pattern is looked at; any other name is safe by the first pattern it
      contains, or unknown. */
  lemma VerdictMeaning(path: string)
    ensures Basename(path) in AllEssential() ==> IsSafeToDelete(path) == Protected
    ensures Basename(path) !in AllEssential() ==>
      (IsSafeToDelete(path).Safe? <==> exists k :: 0 <= k < |SAFE_PATTERNS| && Contains(Basename(path), SAFE_PATTERNS[k]))
    ensures IsSafeToDelete(path).Safe? ==> exists k :: (0 <= k < |SAFE_PATTERNS| &&
      IsSafeToDelete(path).pattern == SAFE_PATTERNS[k] && Contains(Basename(path), SAFE_PATTERNS[k]) &&
      forall j :: 0 <= j < k ==> !Contains(Basename(path), SAFE_PATTERNS[j]))
    ensures IsSafeToDelete(path) != Protected ==> Basename(path) !in AllEssential()
  {
    var name := Basename(path);
    if name !in AllEssential() {
      match FirstPattern(name, SAFE_PATTERNS)
      case Some(k) =>
      case None =>
    }
  }

  /** The verdict is a function of the base name alone. */
  lemma VerdictOfBasename(path: string)
    ensures IsSafeToDelete(Basename(path)) == IsSafeToDelete(path)
  {
    BasenameIdempotent(path);
  }

  /** `is_safe_to_delete`, its second half: the message that goes with the
      verdict. */
  function Reason(name: string, v: Verdict): (msg: string)
    ensures Contains(msg, name)
  {
    var msg := match v
      case Protected => "❌ КРИТИЧЕСКИЙ " + "ФАЙЛ! " + name + " нельзя " + "удалять!"
      case Safe(pattern) => "✅ Безопасно " + "удалить: " + name + " (паттерн: " + pattern + ")"
      case Unknown => "⚠️ Неизвестный " + "файл: " + name + " - проверьте " + "вручную!";
    NamedInMessage(msg, name, v);
    msg
  }

  lemma NamedInMessage(msg: string, name: string, v: Verdict)
    requires msg == match v
      case Protected => "❌ КРИТИЧЕСКИЙ " + "ФАЙЛ! " + name + " нельзя " + "удалять!"
      case Safe(pattern) => "✅ Безопасно " + "удалить: " + name + " (паттерн: " + pattern + ")"
      case Unknown => "⚠️ Неизвестный " + "файл: " + name + " - проверьте " + "вручную!"
    ensures Contains(msg, name)
  {
    var head := match v
      case Protected => "❌ КРИТИЧЕСКИЙ " + "ФАЙЛ! "
      case Safe(_) => "✅ Безопасно " + "удалить: "
      case Unknown => "⚠️ Неизвестный " + "файл: ";
    assert msg[|head|..|head| + |name|] == name;
    assert OccursAt(msg, name, |head|);
  }

  /** A script of the program itself is protected, wherever it lies. */
  lemma UpdaterIsProtected()
    ensures IsSafeToDelete("backup/" + "modern_updater.py") == Protected
  {
    UpdaterBasename();
    UpdaterIsEssential();
  }

  /** First step of `UpdaterIsProtected`: the base name of the script's
      path inside a `backup` folder is the bare script name, so the
      verdict looks only at `modern_updater.py`. */
  lemma UpdaterBasename()
    ensures Basename("backup/" + "modern_updater.py") == "modern_updater.py"
  {
    var dir, name := "backup", "modern_updater.py";
    assert '/' !in dir && '/' !in name && |name| == 17;
    BasenameAfterDirectory(dir, name);
    assert dir + "/" == "backup/";
  }

  /** The base name of `dir/name` is `name`. */
  lemma BasenameAfterDirectory(dir: string, name: string)
    requires '/' !in dir && '/' !in name && name != "" && name != "."
    ensures Basename(dir + "/" + name) == name
  {
    var raw := [dir, name];
    assert Join(raw, '/') == dir + "/" + name by {
      assert Join(raw[1..], '/') == name;
    }
    SplitJoin(raw, '/');
    assert raw[1..][1..] == [];
    assert KeptParts(raw[1..]) == [name] + KeptParts(raw[1..][1..]);
    var kept := KeptParts(raw);
    assert kept == KeptParts(raw[1..]) || kept == [dir] + KeptParts(raw[1..]);
  }

  /** Second step of `UpdaterIsProtected`: the bare script name is one of
      the essential files, in the `updater` group of the table. */
  lemma UpdaterIsEssential()
    ensures "modern_updater.py" in AllEssential()
  {
    assert "modern_updater.py" in ESSENTIAL_FILES[1].files;
    FlattenMembers(ESSENTIAL_FILES, "modern_updater.py");
  }

  // ----- the scan -----

  /** A scanned file with the message of its verdict. */
  datatype Finding = Finding(path: string, reason: string)

  /** The three lists a scanned file can go to. */
  datatype Bucket = SafeList | ManualList | ProtectedList

  function BucketOf(v: Verdict): Bucket {
    match v
    case Protected => ProtectedList
    case Safe(_) => SafeList
    case Unknown => ManualList
  }

  function FindingFor(path: string): Finding {
    Finding(path, Reason(Basename(path), IsSafeToDelete(path)))
  }

  /** The entries of those `paths` that `goes` admits, in order. */
  function Select(paths: seq<string>, goes: string -> bool, entry: string -> Finding): seq<Finding>
    decreases |paths|
  {
    if paths == [] then []
    else
      var init := Select(paths[..|paths| - 1], goes, entry);
      var p := paths[|paths| - 1];
      if goes(p) then init + [entry(p)] else init
  }

  /** An entry is in the selection exactly when its path was selected. */
  lemma {:induction false} SelectMembership(paths: seq<string>, goes: string -> bool, entry: string -> Finding, p: string)
    requires forall q :: entry(q).path == q
    ensures entry(p) in Select(paths, goes, entry) <==> p in paths && goes(p)
    decreases |paths|
  {
    if paths != [] {
      var init := paths[..|paths| - 1];
      SelectMembership(init, goes, entry, p);
      assert paths == init + [paths[|paths| - 1]];
    }
  }

  /** Every entry of the selection is the entry of a selected path. */
  lemma {:induction false} SelectEntries(paths: seq<string>, goes: string -> bool, entry: string -> Finding)
    requires forall q :: entry(q).path == q
    ensures forall f :: f in Select(paths, goes, entry) ==> f == entry(f.path) && f.path in paths && goes(f.path)
    decreases |paths|
  {
    if paths != [] {
      var init := paths[..|paths| - 1];
      SelectEntries(init, goes, entry);
      assert paths == init + [paths[|paths| - 1]];
    }
  }

  /** Three selections that admit each path exactly once share out all
      the paths. */
  lemma {:induction false} SelectShares(paths: seq<string>, g1: string -> bool, g2: string -> bool,
                                        g3: string -> bool, entry: string -> Finding)
    requires forall q :: (if g1(q) then 1 else 0) + (if g2(q) then 1 else 0) + (if g3(q) then 1 else 0) == 1
    ensures |Select(paths, g1, entry)| + |Select(paths, g2, entry)| + |Select(paths, g3, entry)| == |paths|
    decreases |paths|
  {
    if paths != [] {
      SelectShares(paths[..|paths| - 1], g1, g2, g3, entry);
    }
  }

  /** Whether a file's verdict sends it to bucket `b`. */
  function Goes(b: Bucket): string -> bool {
    p => BucketOf(IsSafeToDelete(p)) == b
  }

  /** The findings of those `paths` whose verdict goes to bucket `b`, in
      order. */
  function InBucket(paths: seq<string>, b: Bucket): (r: seq<Finding>)
    ensures |r| <= |paths|
    decreases |paths|
  {
    if paths == [] then []
    else
      var init := InBucket(paths[..|paths| - 1], b);
      var p := paths[|paths| - 1];
      if BucketOf(IsSafeToDelete(p)) == b then init + [FindingFor(p)] else init
  }

  /** A bucket is the selection by its own verdict. */
  lemma {:induction false} BucketIsSelection(paths: seq<string>, b: Bucket)
    ensures InBucket(paths, b) == Select(paths, Goes(b), FindingFor)
    decreases |paths|
  {
    if paths != [] {
      BucketIsSelection(paths[..|paths| - 1], b);
    }
  }

  /** The `.py` files other than the scanner itself, in listing order. */
  function WithoutSelf(py: seq<string>, selfName: string): seq<string>
    decreases |py|
  {
    if py == [] then []
    else
      var init := WithoutSelf(py[..|py| - 1], selfName);
      var p := py[|py| - 1];
      if Basename(p) != selfName then init + [p] else init
  }

  lemma {:induction false} WithoutSelfMembers(py: seq<string>, selfName: string)
    ensures forall p :: p in WithoutSelf(py, selfName) <==> p in py && Basename(p) != selfName
    decreases |py|
  {
    if py != [] {
      WithoutSelfMembers(py[..|py| - 1], selfName);
      assert py == py[..|py| - 1] + [py[|py| - 1]];
    }
  }

  /** The files the scan looks at: the `.py` listing without the scanner,
      then the whole `.md` listing. */
  function ScannedPaths(py: seq<string>, md: seq<string>, selfName: string): seq<string> {
    WithoutSelf(py, selfName) + md
  }

  /** The scanner itself is skipped among the `.py` files only. */
  lemma ScannedMembers(py: seq<string>, md: seq<string>, selfName: string)
    ensures forall p :: p in ScannedPaths(py, md, selfName) <==> (p in py && Basename(p) != selfName) || p in md
  {
    WithoutSelfMembers(py, selfName);
  }

  /** `scan_for_deletable_files`, given the two directory listings in the
      order `glob` yields them and the scanner's own file name. */
  method ScanForDeletableFiles(py: seq<string>, md: seq<string>, selfName: string)
    returns (safe: seq<Finding>, manual: seq<Finding>, protected: seq<Finding>)
    ensures safe == InBucket(ScannedPaths(py, md, selfName), SafeList)
    ensures manual == InBucket(ScannedPaths(py, md, selfName), ManualList)
    ensures protected == InBucket(ScannedPaths(py, md, selfName), ProtectedList)
  {
    safe, manual, protected := ScanScripts(py, selfName);
    safe, manual, protected := ScanNotes(WithoutSelf(py, selfName), md, safe, manual, protected);
  }

  /** The loop over the `.py` listing, which skips the scanner itself. */
  method ScanScripts(py: seq<string>, selfName: string)
    returns (safe: seq<Finding>, manual: seq<Finding>, protected: seq<Finding>)
    ensures safe == InBucket(WithoutSelf(py, selfName), SafeList)
    ensures manual == InBucket(WithoutSelf(py, selfName), ManualList)
    ensures protected == InBucket(WithoutSelf(py, selfName), ProtectedList)
  {
    safe, manual, protected := [], [], [];
    ghost var seen: seq<string> := [];
    for i := 0 to |py|
      invariant seen == WithoutSelf(py[..i], selfName)
      invariant safe == InBucket(seen, SafeList)
      invariant manual == InBucket(seen, ManualList)
      invariant protected == InBucket(seen, ProtectedList)
    {
      var p := py[i];
      assert py[..i + 1][..i] == py[..i];
      if Basename(p) == selfName {
        continue;
      }
      safe, manual, protected := Sort(p, seen, safe, manual, protected);
      seen := seen + [p];
    }
    assert py[..|py|] == py;
  }

  /** The loop over the `.md` listing, after the files `kept` so far. */
  method ScanNotes(ghost kept: seq<string>, md: seq<string>,
                   safe0: seq<Finding>, manual0: seq<Finding>, protected0: seq<Finding>)
    returns (safe: seq<Finding>, manual: seq<Finding>, protected: seq<Finding>)
    requires safe0 == InBucket(kept, SafeList)
    requires manual0 == InBucket(kept, ManualList)
    requires protected0 == InBucket(kept, ProtectedList)
    ensures safe == InBucket(kept + md, SafeList)
    ensures manual == InBucket(kept + md, ManualList)
    ensures protected == InBucket(kept + md, ProtectedList)
  {
    safe, manual, protected := safe0, manual0, protected0;
    ghost var seen := kept;
    assert md[..0] == [];
    for i := 0 to |md|
      invariant seen == kept + md[..i]
      invariant safe == InBucket(seen, SafeList)
      invariant manual == InBucket(seen, ManualList)
      invariant protected == InBucket(seen, ProtectedList)
    {
      var p := md[i];
      ExtendPrefix(kept, md, i);
      safe, manual, protected := Sort(p, seen, safe, manual, protected);
      seen := seen + [p];
    }
    assert md[..|md|] == md;
  }

  lemma ExtendPrefix(a: seq<string>, b: seq<string>, i: nat)
    requires i < |b|
    ensures a + b[..i + 1] == (a + b[..i]) + [b[i]]
  {
    assert b[..i + 1] == b[..i] + [b[i]];
  }

  /** One file's finding appended to the list its verdict selects. */
  method Sort(p: string, ghost seen: seq<string>, safe: seq<Finding>, manual: seq<Finding>, protected: seq<Finding>)
    returns (safe': seq<Finding>, manual': seq<Finding>, protected': seq<Finding>)
    requires safe == InBucket(seen, SafeList)
    requires manual == InBucket(seen, ManualList)
    requires protected == InBucket(seen, ProtectedList)
    ensures safe' == InBucket(seen + [p], SafeList)
    ensures manual' == InBucket(seen + [p], ManualList)
    ensures protected' == InBucket(seen + [p], ProtectedList)
  {
    BucketSnoc(seen, p, SafeList);
    BucketSnoc(seen, p, ManualList);
    BucketSnoc(seen, p, ProtectedList);
    safe', manual', protected' := safe, manual, protected;
    var bucket := BucketOf(IsSafeToDelete(p));
    if bucket == SafeList {
      safe' := safe + [FindingFor(p)];
    } else if bucket == ProtectedList {
      protected' := protected + [FindingFor(p)];
    } else {
      manual' := manual + [FindingFor(p)];
    }
  }

  /** Scanning one more file appends its finding to its own bucket only. */
  lemma BucketSnoc(seen: seq<string>, p: string, b: Bucket)
    ensures InBucket(seen + [p], b) ==
      if BucketOf(IsSafeToDelete(p)) == b then InBucket(seen, b) + [FindingFor(p)] else InBucket(seen, b)
  {
    assert (seen + [p])[..|seen|] == seen;
  }

  /** Every scanned file lands in exactly one of the three lists. */
  lemma BucketsPartition(paths: seq<string>)
    ensures |InBucket(paths, SafeList)| + |InBucket(paths, ManualList)| + |InBucket(paths, ProtectedList)| == |paths|
  {
    BucketIsSelection(paths, SafeList);
    BucketIsSelection(paths, ManualList);
    BucketIsSelection(paths, ProtectedList);
    SelectShares(paths, Goes(SafeList), Goes(ManualList), Goes(ProtectedList), FindingFor);
  }

  /** A file's finding is in a bucket exactly when it was scanned and its
      verdict goes there. */
  lemma BucketMembership(paths: seq<string>, b: Bucket, p: string)
    ensures FindingFor(p) in InBucket(paths, b) <==> p in paths && BucketOf(IsSafeToDelete(p)) == b
  {
    BucketIsSelection(paths, b);
    SelectMembership(paths, Goes(b), FindingFor, p);
  }

  /** Every entry of a bucket is the finding of a scanned file of that bucket. */
  lemma BucketEntries(paths: seq<string>, b: Bucket)
    ensures forall f :: f in InBucket(paths, b) ==>
      f == FindingFor(f.path) && f.path in paths && BucketOf(IsSafeToDelete(f.path)) == b
  {
    BucketIsSelection(paths, b);
    SelectEntries(paths, Goes(b), FindingFor);
  }

  /** No file on the safe list has an essential base name. */
  lemma SafeListHoldsNoEssential(paths: seq<string>)
    ensures forall f :: f in InBucket(paths, SafeList) ==> Basename(f.path) !in AllEssential()
  {
    BucketEntries(paths, SafeList);
  }

  // ----- the presence check -----

  /** Those of `files` whose existence is `want`, in order. */
  function WithPresence(files: seq<string>, exists_: string -> bool, want: bool): seq<string>
    decreases |files|
  {
    if files == [] then []
    else
      var init := WithPresence(files[..|files| - 1], exists_, want);
      var f := files[|files| - 1];
      if exists_(f) == want then init + [f] else init
  }

  /** `check_essential_files`, with the file test as a predicate: the missing
      files of the flattened list in order; the present ones, which the
      source only counts, come back as well. */
  method CheckEssentialFiles(exists_: string -> bool) returns (missing: seq<string>, present: seq<string>)
    ensures missing == WithPresence(AllEssential(), exists_, false)
    ensures present == WithPresence(AllEssential(), exists_, true)
  {
    missing, present := CheckFiles(ESSENTIAL_FILES, exists_);
  }

  /** The two nested loops of the check, over any categories. */
  method CheckFiles(cats: seq<Category>, exists_: string -> bool) returns (missing: seq<string>, present: seq<string>)
    ensures missing == WithPresence(Flatten(cats), exists_, false)
    ensures present == WithPresence(Flatten(cats), exists_, true)
  {
    missing, present := [], [];
    for i := 0 to |cats|
      invariant missing == WithPresence(Flatten(cats[..i]), exists_, false)
      invariant present == WithPresence(Flatten(cats[..i]), exists_, true)
    {
      var files := cats[i].files;
      ghost var before := Flatten(cats[..i]);
      assert before + files[..0] == before;
      for j := 0 to |files|
        invariant missing == WithPresence(before + files[..j], exists_, false)
        invariant present == WithPresence(before + files[..j], exists_, true)
      {
        assert before + files[..j + 1] == (before + files[..j]) + [files[j]];
        assert (before + files[..j + 1])[..|before| + j] == before + files[..j];
        if exists_(files[j]) {
          present := present + [files[j]];
        } else {
          missing := missing + [files[j]];
        }
      }
      assert cats[..i + 1][..i] == cats[..i];
      assert files[..|files|] == files;
    }
    assert cats[..|cats|] == cats;
  }

  /** The missing and the present files split the list: each file is in
      exactly one of them, and their lengths add up. */
  lemma {:induction false} WithPresenceMembers(files: seq<string>, exists_: string -> bool, want: bool)
    ensures forall f :: f in WithPresence(files, exists_, want) <==> f in files && exists_(f) == want
    decreases |files|
  {
    if files != [] {
      WithPresenceMembers(files[..|files| - 1], exists_, want);
      assert files == files[..|files| - 1] + [files[|files| - 1]];
    }
  }

  lemma {:induction false} PresencePartition(files: seq<string>, exists_: string -> bool)
    ensures |WithPresence(files, exists_, false)| + |WithPresence(files, exists_, true)| == |files|
    ensures forall f :: f in files ==>
      (f in WithPresence(files, exists_, false) <==> !exists_(f)) &&
      (f in WithPresence(files, exists_, true) <==> exists_(f))
    decreases |files|
  {
    if files != [] {
      var init := files[..|files| - 1];
      PresencePartition(init, exists_);
      WithPresenceMembers(files, exists_, false);
      WithPresenceMembers(files, exists_, true);
    }
  }

  // ----- the confirmed deletion -----

  /** The replies that confirm the deletion, compared after lower-casing. */
  predicate Confirms(response: string) {
    Lower(response) in {"y", "yes", "да"}
  }

  /** The working directory: the files in it, and those whose removal fails
      (locked or read-only). */
  class Folder {
    var files: set<string>
    var undeletable: set<string>

    constructor(files0: set<string>, undeletable0: set<string>)
      ensures files == files0 && undeletable == undeletable0
    {
      files := files0;
      undeletable := undeletable0;
    }

    /** `Path.unlink()`: fails on a missing or an undeletable file. */
    method Unlink(p: string) returns (ok: bool)
      modifies this
      ensures ok <==> p in old(files) && p !in undeletable
      ensures files == if ok then old(files) - {p} else old(files)
      ensures undeletable == old(undeletable)
    {
      ok := p in files && p !in undeletable;
      if ok {
        files := files - {p};
      }
    }
  }

  /** The paths of a list of findings. */
  function Paths(fs: seq<Finding>): set<string>
    decreases |fs|
  {
    if fs == [] then {} else Paths(fs[..|fs| - 1]) + {fs[|fs| - 1].path}
  }

  lemma {:induction false} PathsMembers(fs: seq<Finding>)
    ensures forall p :: p in Paths(fs) <==> exists k :: 0 <= k < |fs| && fs[k].path == p
    decreases |fs|
  {
    if fs != [] {
      var init := fs[..|fs| - 1];
      PathsMembers(init);
      assert forall k :: 0 <= k < |init| ==> init[k] == fs[k];
    }
  }

  /** The deletion step of `interactive_cleanup`: with a non-empty safe list
      and a confirming reply, each listed file is unlinked in turn and the
      successes are counted. Nothing else is ever removed. */
  method DeleteSafeFiles(folder: Folder, safe: seq<Finding>, response: string) returns (deleted: nat)
    modifies folder
    ensures folder.undeletable == old(folder.undeletable)
    ensures safe != [] && Confirms(response) ==>
      folder.files == old(folder.files) - (Paths(safe) - folder.undeletable)
    ensures !(safe != [] && Confirms(response)) ==> folder.files == old(folder.files) && deleted == 0
    ensures old(folder.files) - folder.files <= Paths(safe)
    ensures deleted == |old(folder.files) - folder.files|
    ensures deleted <= |safe|
  {
    deleted := 0;
    if safe == [] || !Confirms(response) {
      return;
    }
    deleted := UnlinkAll(folder, safe);
  }

  /** The deletion loop: each listed path is unlinked in turn and the
      successes are counted. */
  method UnlinkAll(folder: Folder, safe: seq<Finding>) returns (deleted: nat)
    modifies folder
    ensures folder.undeletable == old(folder.undeletable)
    ensures folder.files == old(folder.files) - (Paths(safe) - folder.undeletable)
    ensures deleted == |old(folder.files) - folder.files| && deleted <= |safe|
  {
    deleted := 0;
    for i := 0 to |safe|
      invariant folder.undeletable == old(folder.undeletable)
      invariant folder.files == old(folder.files) - (Paths(safe[..i]) - folder.undeletable)
      invariant deleted == |old(folder.files) - folder.files| && deleted <= i
    {
      var p := safe[i].path;
      assert safe[..i + 1][..i] == safe[..i];
      assert Paths(safe[..i + 1]) == Paths(safe[..i]) + {p};
      RemoveStep(old(folder.files), Paths(safe[..i]), folder.undeletable, p);
      deleted := DeleteOne(folder, p, old(folder.files), deleted);
    }
    assert safe[..|safe|] == safe;
  }

  /** Removing the deletable paths one more at a time. */
  lemma RemoveStep(all: set<string>, gone: set<string>, kept: set<string>, p: string)
    ensures all - (gone - kept) <= all
    ensures (all - (gone - kept)) - ({p} - kept) == all - ((gone + {p}) - kept)
  {
  }

  /** One unlink of the deletion loop, counted against the files `all` it
      started from. */
  method DeleteOne(folder: Folder, p: string, ghost all: set<string>, deleted: nat) returns (deleted': nat)
    requires folder.files <= all && deleted == |all - folder.files|
    modifies folder
    ensures folder.undeletable == old(folder.undeletable)
    ensures folder.files == old(folder.files) - ({p} - folder.undeletable)
    ensures deleted' == |all - folder.files| && deleted' <= deleted + 1
  {
    ghost var before := folder.files;
    var ok := folder.Unlink(p);
    deleted' := deleted;
    if ok {
      RemovingOneMore(all, before, p);
      deleted' := deleted + 1;
    }
  }

  lemma RemovingOneMore(all: set<string>, left: set<string>, p: string)
    requires left <= all && p in left
    ensures |all - (left - {p})| == |all - left| + 1
  {
    assert all - (left - {p}) == (all - left) + {p};
  }

  /** `interactive_cleanup` without the backup and the printing: scan, then
      delete on confirmation. Without safe files or a confirming reply
      nothing is removed; otherwise exactly the removable files of the safe
      list go. No file with an essential base name, and no file the scan
      did not find safe, is ever removed. */
  method InteractiveCleanup(folder: Folder, py: seq<string>, md: seq<string>, selfName: string, response: string)
    returns (deleted: nat, manual: seq<Finding>)
    modifies folder
    ensures manual == InBucket(ScannedPaths(py, md, selfName), ManualList)
    ensures folder.undeletable == old(folder.undeletable)
    ensures InBucket(ScannedPaths(py, md, selfName), SafeList) != [] && Confirms(response) ==>
      folder.files == old(folder.files) - (Paths(InBucket(ScannedPaths(py, md, selfName), SafeList)) - folder.undeletable)
    ensures !(InBucket(ScannedPaths(py, md, selfName), SafeList) != [] && Confirms(response)) ==>
      folder.files == old(folder.files) && deleted == 0
    ensures deleted == |old(folder.files) - folder.files|
    ensures forall p :: p in old(folder.files) && p !in folder.files ==>
      Basename(p) !in AllEssential() && IsSafeToDelete(p).Safe? && p in ScannedPaths(py, md, selfName)
    ensures deleted <= |InBucket(ScannedPaths(py, md, selfName), SafeList)|
  {
    var safe, protected;
    safe, manual, protected := ScanForDeletableFiles(py, md, selfName);
    deleted := DeleteSafeFiles(folder, safe, response);
    forall p | p in old(folder.files) && p !in folder.files
      ensures Basename(p) !in AllEssential() && IsSafeToDelete(p).Safe? && p in ScannedPaths(py, md, selfName)
    {
      SafeListed(ScannedPaths(py, md, selfName), safe, p);
    }
  }

  /** A path of the safe list was scanned, has a safe verdict and no
      essential base name. */
  lemma SafeListed(paths: seq<string>, safe: seq<Finding>, p: string)
    requires safe == InBucket(paths, SafeList) && p in Paths(safe)
    ensures Basename(p) !in AllEssential() && IsSafeToDelete(p).Safe? && p in paths
  {
    PathsMembers(safe);
    var k :| 0 <= k < |safe| && safe[k].path == p;
    assert safe[k] in safe;
    BucketEntries(paths, SafeList);
    VerdictMeaning(p);
  }
}
