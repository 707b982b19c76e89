/** The release clean-up step that rewrites icon-file references in the
    program's sources: every `Path(__file__).parent / "<icon>"` listed in
    the table becomes a `None` with a comment naming the emoji used
    instead. */
module CleanIconsScript {
  import opened Strings

  /** The text before the icon's file name in every pattern. */
  const PATTERN_HEAD: string := "Path(__file__).parent / \""

  /** The table of substitutions in its order: the icon's file name and the
      text that replaces the reference to it. Each regular expression of
      the table escapes its parentheses and dots, so it matches exactly the
      text `PATTERN_HEAD + name + "\""`; no replacement has a backslash, so
      each is inserted as it is. */
  const REPLACEMENTS: seq<(string, string)> := [
    ("logo.png", "None  # Используем эмодзи 🎮"),
    ("folder.png", "None  # Используем эмодзи 📁"),
    ("info.png", "None  # Используем эмодзи ℹ️"),
    ("settings.png", "None  # Используем эмодзи ⚙️"),
    ("git.png", "None  # Используем эмодзи 🐙"),
    ("addon.png", "None  # Используем эмодзи 🧩"),
    ("add.png", "None  # Используем эмодзи ➕"),
    ("link.png", "None  # Используем эмодзи 🔗"),
    ("allon.png", "None  # Используем эмодзи ✅"),
    ("alloff.png", "None  # Используем эмодзи ❌"),
    ("trash.png", "None  # Используем эмодзи 🗑️"),
    ("sort.png", "None  # Используем эмодзи 🔄"),
    ("ref.png", "None  # Используем эмодзи 🔄"),
    ("upd.png", "None  # Используем эмодзи 🔄"),
    ("sup.png", "None  # Используем эмодзи 💝"),
    ("x.png", "None  # Используем эмодзи ❌"),
    ("ques.png", "None  # Используем эмодзи ❓"),
    ("spravka.png", "None  # Используем эмодзи ❓"),
    ("con.png", "None  # Используем эмодзи 📞"),
    ("steam.png", "None  # Используем эмодзи 🎮"),
    ("steamg.png", "None  # Используем эмодзи 🎮"),
    ("tg.png", "None  # Используем эмодзи 📱"),
    ("noadd.png", "None  # Используем эмодзи ❌"),
    ("wall.jpg", "None  # Убираем фон")
  ]

  /** The literal text the `k`-th pattern matches. */
  function Pattern(k: nat): (p: string)
    requires k < |REPLACEMENTS|
    ensures |p| > 0 && p[0] == 'P'
  {
    PATTERN_HEAD + REPLACEMENTS[k].0 + "\""
  }

  function Replacement(k: nat): string
    requires k < |REPLACEMENTS|
  {
    REPLACEMENTS[k].1
  }

  /** The content after the first `n` substitutions, each applied to the
      result of the one before. */
  function CleanedUpTo(content: string, n: nat): string
    requires n <= |REPLACEMENTS|
    decreases n
  {
    if n == 0 then content
    else ReplaceAll(CleanedUpTo(content, n - 1), Pattern(n - 1), Replacement(n - 1))
  }

  /** The content after the whole table. */
  function Cleaned(content: string): string {
    CleanedUpTo(content, |REPLACEMENTS|)
  }

  // ----- the shape of the table -----

  /** The first quarter of the table: every replacement starts with `N`
      and has no `P`, and no file name has an `N`. */
  lemma TableShape1()
    ensures forall k :: 0 <= k < 6 ==>
      |REPLACEMENTS[k].1| > 0 && REPLACEMENTS[k].1[0] == 'N' && 'P' !in REPLACEMENTS[k].1 &&
      'N' !in REPLACEMENTS[k].0
  {
  }

  /** The second quarter of the table, likewise. */
  lemma TableShape2()
    ensures forall k :: 6 <= k < 12 ==>
      |REPLACEMENTS[k].1| > 0 && REPLACEMENTS[k].1[0] == 'N' && 'P' !in REPLACEMENTS[k].1 &&
      'N' !in REPLACEMENTS[k].0
  {
  }

  /** The third quarter of the table, likewise. */
  lemma TableShape3()
    ensures forall k :: 12 <= k < 18 ==>
      |REPLACEMENTS[k].1| > 0 && REPLACEMENTS[k].1[0] == 'N' && 'P' !in REPLACEMENTS[k].1 &&
      'N' !in REPLACEMENTS[k].0
  {
  }

  /** The last quarter of the table, likewise. */
  lemma TableShape4()
    ensures forall k :: 18 <= k < |REPLACEMENTS| ==>
      |REPLACEMENTS[k].1| > 0 && REPLACEMENTS[k].1[0] == 'N' && 'P' !in REPLACEMENTS[k].1 &&
      'N' !in REPLACEMENTS[k].0
  {
  }

  /** No replacement can start a pattern and no pattern can start a
      replacement: replacements start with `N`, which no pattern has, and
      have no `P`, which starts every pattern. */
  lemma Unmixable(i: nat, j: nat)
    requires i < |REPLACEMENTS| && j < |REPLACEMENTS|
    ensures |Replacement(i)| > 0 && Pattern(j)[0] !in Replacement(i) && Replacement(i)[0] !in Pattern(j)
  {
    TableShape1();
    TableShape2();
    TableShape3();
    TableShape4();
    assert 'N' !in PATTERN_HEAD && 'N' !in "\"";
    var p := Pattern(j);
    assert forall c :: c in p ==> c in PATTERN_HEAD || c in REPLACEMENTS[j].0 || c in "\"";
  }

  // ----- what the substitutions achieve -----

  /** One substitution removes its own pattern and brings back none
      that was gone. */
  lemma RemovedStep(before: string, i: nat, j: nat)
    requires i < |REPLACEMENTS| && j < |REPLACEMENTS|
    requires j == i || !Contains(before, Pattern(j))
    ensures !Contains(ReplaceAll(before, Pattern(i), Replacement(i)), Pattern(j))
  {
    Unmixable(i, j);
    ReplaceAllLeavesNoOccurrence(before, Pattern(i), Replacement(i), Pattern(j));
  }

  /** After the first `n` substitutions none of their patterns occurs. */
  lemma {:induction false} RemovedUpTo(content: string, n: nat)
    requires n <= |REPLACEMENTS|
    ensures forall j :: 0 <= j < n ==> !Contains(CleanedUpTo(content, n), Pattern(j))
    decreases n
  {
    if n > 0 {
      RemovedUpTo(content, n - 1);
      var before := CleanedUpTo(content, n - 1);
      forall j | 0 <= j < n
        ensures !Contains(ReplaceAll(before, Pattern(n - 1), Replacement(n - 1)), Pattern(j))
      {
        RemovedStep(before, n - 1, j);
      }
    }
  }

  /** No pattern text is left once the whole table has been applied. */
  lemma NoPatternRemains(content: string)
    ensures forall j :: 0 <= j < |REPLACEMENTS| ==> !Contains(Cleaned(content), Pattern(j))
  {
    RemovedUpTo(content, |REPLACEMENTS|);
  }

  /** Content with none of the pattern texts goes through unchanged. */
  lemma {:induction false} UntouchedUpTo(content: string, n: nat)
    requires n <= |REPLACEMENTS|
    requires forall j :: 0 <= j < |REPLACEMENTS| ==> !Contains(content, Pattern(j))
    ensures CleanedUpTo(content, n) == content
    decreases n
  {
    if n > 0 {
      UntouchedUpTo(content, n - 1);
      ReplaceAllAbsent(content, Pattern(n - 1), Replacement(n - 1));
    }
  }

  lemma UntouchedWithoutPatterns(content: string)
    requires forall j :: 0 <= j < |REPLACEMENTS| ==> !Contains(content, Pattern(j))
    ensures Cleaned(content) == content
  {
    UntouchedUpTo(content, |REPLACEMENTS|);
  }

  /** Cleaning twice is cleaning once. */
  lemma CleanedIdempotent(content: string)
    ensures Cleaned(Cleaned(content)) == Cleaned(content)
  {
    NoPatternRemains(content);
    UntouchedWithoutPatterns(Cleaned(content));
  }

  // ----- the files -----

  /** The text files the script can see, by path. */
  class Disk {
    var files: map<string, string>

    constructor (files: map<string, string>)
      ensures this.files == files
    {
      this.files := files;
    }
  }

  /** `clean_icons_in_file`: rewrite the file with the table applied, and
      report whether that changed it; an unchanged file is not written. */
  method CleanIconsInFile(disk: Disk, path: string) returns (changed: bool)
    requires path in disk.files
    modifies disk
    ensures changed <==> Cleaned(old(disk.files[path])) != old(disk.files[path])
    ensures disk.files == old(disk.files)[path := Cleaned(old(disk.files[path]))]
  {
    var content := disk.files[path];
    var original := content;
    for i := 0 to |REPLACEMENTS|
      invariant content == CleanedUpTo(original, i)
    {
      content := ReplaceAll(content, Pattern(i), Replacement(i));
    }
    if content != original {
      disk.files := disk.files[path := content];
      changed := true;
    } else {
      changed := false;
    }
  }

  /** The two sources the script rewrites. */
  const FILES_TO_PROCESS: seq<string> := [
    "../RELEASE_READY/l4d2_pyqt_main.py",
    "../RELEASE_READY/modern_updater.py"
  ]

  /** The listed paths that exist among `files`. */
  function Existing(paths: seq<string>, files: map<string, string>): (n: nat)
    ensures n <= |paths|
    decreases |paths|
  {
    if paths == [] then 0
    else Existing(paths[..|paths| - 1], files) + if paths[|paths| - 1] in files then 1 else 0
  }

  /** The number of distinct listed paths that exist in `files` and whose
      content cleaning changes: the files a run over `paths` rewrites. */
  function Changed(paths: seq<string>, files: map<string, string>): (n: nat)
    ensures n <= Existing(paths, files)
    decreases |paths|
  {
    if paths == [] then 0
    else
      var init, p := paths[..|paths| - 1], paths[|paths| - 1];
      Changed(init, files) + if p in files && p !in init && Cleaned(files[p]) != files[p] then 1 else 0
  }

  /** Over files that are already clean nothing counts as changed, so a
      second run of the script, on the files the first one left (each
      `Cleaned` of its old content, by `CleanedIdempotent`), reports zero. */
  lemma {:induction false} CleanFilesCountZero(paths: seq<string>, files: map<string, string>)
    requires forall p :: p in paths && p in files ==> Cleaned(files[p]) == files[p]
    ensures Changed(paths, files) == 0
    decreases |paths|
  {
    if paths != [] {
      var init := paths[..|paths| - 1];
      assert forall p :: p in init ==> p in paths;
      CleanFilesCountZero(init, files);
    }
  }

  /** Extending the listed paths by the next one adds one to `Changed`
      exactly when that path is new, exists and changes when cleaned. */
  lemma ChangedStep(paths: seq<string>, i: nat, files: map<string, string>)
    requires i < |paths|
    ensures var p := paths[i];
      Changed(paths[..i + 1], files) ==
        Changed(paths[..i], files) + if p in files && p !in paths[..i] && Cleaned(files[p]) != files[p] then 1 else 0
  {
    assert paths[..i + 1][..i] == paths[..i];
  }

  /** The counting loop of `main` over `paths`: every existing listed file
      ends up cleaned, every other file is kept, and the count of updated
      files is the number of distinct listed files whose content changed. */
  method CleanFiles(disk: Disk, paths: seq<string>) returns (updated: nat)
    modifies disk
    ensures disk.files.Keys == old(disk.files).Keys
    ensures forall p :: p in old(disk.files) ==>
      disk.files[p] == if p in paths then Cleaned(old(disk.files)[p]) else old(disk.files)[p]
    ensures updated == Changed(paths, old(disk.files))
  {
    updated := 0;
    for i := 0 to |paths|
      invariant disk.files.Keys == old(disk.files).Keys
      invariant forall p :: p in old(disk.files) ==>
        disk.files[p] == if p in paths[..i] then Cleaned(old(disk.files)[p]) else old(disk.files)[p]
      invariant updated == Changed(paths[..i], old(disk.files))
    {
      var path := paths[i];
      ChangedStep(paths, i, old(disk.files));
      assert forall p :: p in paths[..i + 1] <==> p in paths[..i] || p == path;
      if path in disk.files {
        if path in paths[..i] {
          CleanedIdempotent(old(disk.files)[path]);
        }
        var changed := CleanIconsInFile(disk, path);
        if changed {
          updated := updated + 1;
        }
      }
    }
    assert paths[..|paths|] == paths;
  }

  /** `main` over the two listed sources: each of them that exists ends up
      cleaned, every other file is kept, and the printed count is the
      number of them whose content changed, so at most two. */
  method CleanListedSources(disk: Disk) returns (updated: nat)
    modifies disk
    ensures disk.files.Keys == old(disk.files).Keys
    ensures forall p :: p in old(disk.files) ==>
      disk.files[p] == if p in FILES_TO_PROCESS then Cleaned(old(disk.files)[p]) else old(disk.files)[p]
    ensures updated == Changed(FILES_TO_PROCESS, old(disk.files))
    ensures updated <= Existing(FILES_TO_PROCESS, old(disk.files)) <= 2
  {
    updated := CleanFiles(disk, FILES_TO_PROCESS);
  }
}
