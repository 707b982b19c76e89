/** Hand-tuning of the cached addon names: grouping the addons by the
    category their placeholder name mentions, the interactive rename loop
    and the quick setup that offers ready-made names per category. */
module CustomizeAddonNames {
  import opened Common
  import opened Strings
  import opened AddonCache

  /** Every cached entry has a `name`; the scripts index it without a check. */
  predicate AllNamed(entries: map<string, Entry>) {
    forall id :: id in entries ==> entries[id].name.Some?
  }

  // ----- categories -----

  /** The ten substring tests, in the order they are tried, each with the
      group it assigns. */
  const CATEGORY_TESTS: seq<(string, string)> := [
    ("Оружие мод", "🔫 Оружие"),
    ("Карты мод", "🗺️ Карты"),
    ("Звуки мод", "🔊 Звуки"),
    ("Персонажи мод", "👤 Персонажи"),
    ("Интерфейс мод", "🖥️ Интерфейс"),
    ("Эффекты мод", "✨ Эффекты"),
    ("Модели мод", "🎭 Модели"),
    ("Текстуры мод", "🎨 Текстуры"),
    ("Геймплей мод", "🎮 Геймплей"),
    ("Разное мод", "📦 Разное")
  ]

  /** The group of a name no test matches. */
  const DEFAULT_CATEGORY: string := "✅ Загруженные"

  /** The group chosen by the tests from index `k` on. */
  function CategoryFrom(name: string, k: nat): string
    requires k <= |CATEGORY_TESTS|
    decreases |CATEGORY_TESTS| - k
  {
    if k == |CATEGORY_TESTS| then DEFAULT_CATEGORY
    else if Contains(name, CATEGORY_TESTS[k].0) then CATEGORY_TESTS[k].1
    else CategoryFrom(name, k + 1)
  }

  /** The group of an addon. */
  function CategoryOf(name: string): string {
    CategoryFrom(name, 0)
  }

  /** The tests from `k` on pick the group of the first one that passes,
      and the default group when none does. */
  lemma {:induction false} CategoryFromFirstMatch(name: string, k: nat)
    requires k <= |CATEGORY_TESTS|
    ensures (forall j :: k <= j < |CATEGORY_TESTS| ==> !Contains(name, CATEGORY_TESTS[j].0)) ==>
      CategoryFrom(name, k) == DEFAULT_CATEGORY
    ensures forall j :: (k <= j < |CATEGORY_TESTS| && Contains(name, CATEGORY_TESTS[j].0) &&
      (forall i :: k <= i < j ==> !Contains(name, CATEGORY_TESTS[i].0))) ==>
      CategoryFrom(name, k) == CATEGORY_TESTS[j].1
    decreases |CATEGORY_TESTS| - k
  {
    if k < |CATEGORY_TESTS| && !Contains(name, CATEGORY_TESTS[k].0) {
      CategoryFromFirstMatch(name, k + 1);
    }
  }

  /** An addon's group is that of the first of the ten tests its name
      passes, or the default group when it passes none. */
  lemma CategoryFirstMatch(name: string)
    ensures (forall j :: 0 <= j < |CATEGORY_TESTS| ==> !Contains(name, CATEGORY_TESTS[j].0)) ==>
      CategoryOf(name) == DEFAULT_CATEGORY
    ensures forall j :: (0 <= j < |CATEGORY_TESTS| && Contains(name, CATEGORY_TESTS[j].0) &&
      (forall i :: 0 <= i < j ==> !Contains(name, CATEGORY_TESTS[i].0))) ==>
      CategoryOf(name) == CATEGORY_TESTS[j].1
  {
    CategoryFromFirstMatch(name, 0);
  }

  /** The eleven groups an addon can land in. */
  function AllCategories(): (cats: seq<string>)
    ensures |cats| == |CATEGORY_TESTS| + 1
  {
    seq(|CATEGORY_TESTS|, k requires 0 <= k < |CATEGORY_TESTS| => CATEGORY_TESTS[k].1) + [DEFAULT_CATEGORY]
  }

  lemma {:induction false} CategoryFromListed(name: string, k: nat)
    requires k <= |CATEGORY_TESTS|
    ensures CategoryFrom(name, k) in AllCategories()
    decreases |CATEGORY_TESTS| - k
  {
    var cats := AllCategories();
    if k == |CATEGORY_TESTS| {
      assert cats[|CATEGORY_TESTS|] == DEFAULT_CATEGORY;
    } else if Contains(name, CATEGORY_TESTS[k].0) {
      assert cats[k] == CATEGORY_TESTS[k].1;
    } else {
      CategoryFromListed(name, k + 1);
    }
  }

  /** Every name falls into one of the listed groups. */
  lemma CategoryListed(name: string)
    ensures CategoryOf(name) in AllCategories()
  {
    CategoryFromListed(name, 0);
  }

  /** The eleven groups are distinct. */
  lemma CategoriesDistinct()
    ensures forall i, j :: 0 <= i < j < |AllCategories()| ==> AllCategories()[i] != AllCategories()[j]
  {
    var cats := AllCategories();
    assert cats == ["🔫 Оружие", "🗺️ Карты", "🔊 Звуки", "👤 Персонажи", "🖥️ Интерфейс",
                    "✨ Эффекты", "🎭 Модели", "🎨 Текстуры", "🎮 Геймплей", "📦 Разное",
                    "✅ Загруженные"];
    forall i, j | 0 <= i < j < |cats| ensures cats[i] != cats[j] {
      assert cats[i][0] != cats[j][0];
    }
  }

  // ----- grouping -----

  /** Every addon of `ids` is cached and has a `name`. */
  predicate NamedIn(ids: seq<string>, entries: map<string, Entry>) {
    forall id :: id in ids ==> id in entries && entries[id].name.Some?
  }

  /** The `(id, name)` pairs of group `cat`, in cache order. */
  function Members(ids: seq<string>, entries: map<string, Entry>, cat: string): seq<(string, string)>
    requires NamedIn(ids, entries)
    decreases |ids|
  {
    if ids == [] then []
    else
      var init := Members(ids[..|ids| - 1], entries, cat);
      var id := ids[|ids| - 1];
      var name := entries[id].name.value;
      if CategoryOf(name) == cat then init + [(id, name)] else init
  }

  /** The grouping loop of `show_addons_by_category`; `None` where
      `data['name']` raises `KeyError` for an addon without a name. */
  method GroupByCategory(ids: seq<string>, entries: map<string, Entry>)
    returns (groups: Option<map<string, seq<(string, string)>>>)
    requires forall id :: id in ids ==> id in entries
    ensures groups.None? <==> !NamedIn(ids, entries)
    ensures groups.Some? ==> forall cat :: cat in groups.value <==> Members(ids, entries, cat) != []
    ensures groups.Some? ==> forall cat :: cat in groups.value ==> groups.value[cat] == Members(ids, entries, cat)
  {
    var acc: map<string, seq<(string, string)>> := map[];
    for i := 0 to |ids|
      invariant NamedIn(ids[..i], entries)
      invariant forall cat :: cat in acc <==> Members(ids[..i], entries, cat) != []
      invariant forall cat :: cat in acc ==> acc[cat] == Members(ids[..i], entries, cat)
    {
      var id := ids[i];
      if entries[id].name.None? {
        assert id in ids;
        return None;
      }
      var name := entries[id].name.value;
      var category := CategoryOf(name);
      assert ids[..i + 1] == ids[..i] + [id];
      assert ids[..i + 1][..i] == ids[..i];
      if category !in acc {
        acc := acc[category := []];
      }
      acc := acc[category := acc[category] + [(id, name)]];
    }
    assert ids[..|ids|] == ids;
    return Some(acc);
  }

  /** An addon is in group `cat` exactly when `cat` is its category. */
  lemma {:induction false} MembersExactly(ids: seq<string>, entries: map<string, Entry>, cat: string)
    requires NamedIn(ids, entries)
    ensures forall p :: p in Members(ids, entries, cat) <==>
      p.0 in ids && p.1 == entries[p.0].name.value && CategoryOf(p.1) == cat
    decreases |ids|
  {
    if ids != [] {
      var init := ids[..|ids| - 1];
      var id := ids[|ids| - 1];
      var name := entries[id].name.value;
      MembersExactly(init, entries, cat);
      assert ids == init + [id];
      GrownMembers(Members(init, entries, cat), (id, name), CategoryOf(name) == cat, Members(ids, entries, cat));
    }
  }

  /** Membership in a group that may have grown by one pair. */
  lemma GrownMembers(before: seq<(string, string)>, q: (string, string), grown: bool, after: seq<(string, string)>)
    requires after == if grown then before + [q] else before
    ensures forall p :: p in after <==> p in before || (grown && p == q)
  {
  }

  lemma {:induction false} MembersFromIds(ids: seq<string>, entries: map<string, Entry>, cat: string)
    requires NamedIn(ids, entries)
    ensures forall k :: 0 <= k < |Members(ids, entries, cat)| ==> Members(ids, entries, cat)[k].0 in ids
    decreases |ids|
  {
    if ids != [] {
      var init := ids[..|ids| - 1];
      MembersFromIds(init, entries, cat);
      assert forall x :: x in init ==> x in ids;
    }
  }

  /** The ids of `m` occur in `ids` in the same order. */
  ghost predicate InOrder(m: seq<(string, string)>, ids: seq<string>) {
    forall i, j :: 0 <= i < j < |m| ==>
      exists a, b :: 0 <= a < b < |ids| && ids[a] == m[i].0 && ids[b] == m[j].0
  }

  /** Each group keeps the cache order. */
  lemma {:induction false} MembersInOrder(ids: seq<string>, entries: map<string, Entry>, cat: string)
    requires NamedIn(ids, entries)
    ensures InOrder(Members(ids, entries, cat), ids)
    decreases |ids|
  {
    if ids != [] {
      var init := ids[..|ids| - 1];
      var last := ids[|ids| - 1];
      MembersInOrder(init, entries, cat);
      MembersFromIds(init, entries, cat);
      var m := Members(ids, entries, cat);
      var mi := Members(init, entries, cat);
      assert m == mi || m == mi + [(last, entries[last].name.value)];
      forall i, j | 0 <= i < j < |m|
        ensures exists a, b :: 0 <= a < b < |ids| && ids[a] == m[i].0 && ids[b] == m[j].0
      {
        if j < |mi| {
          assert m[i] == mi[i] && m[j] == mi[j];
          var a, b :| 0 <= a < b < |init| && init[a] == mi[i].0 && init[b] == mi[j].0;
          assert ids[a] == init[a] && ids[b] == init[b];
        } else {
          assert m[j].0 == last && m[i] == mi[i];
          assert mi[i].0 in init;
          var a :| 0 <= a < |init| && init[a] == mi[i].0;
          assert ids[a] == init[a] && ids[|ids| - 1] == last;
        }
      }
      assert InOrder(m, ids);
    }
  }

  /** The number of addons in the listed groups. */
  function GroupSizes(ids: seq<string>, entries: map<string, Entry>, cats: seq<string>): nat
    requires NamedIn(ids, entries)
    decreases |cats|
  {
    if cats == [] then 0
    else GroupSizes(ids, entries, cats[..|cats| - 1]) + |Members(ids, entries, cats[|cats| - 1])|
  }

  /** One more addon adds one to its own group and nothing elsewhere. */
  lemma {:induction false} GroupSizesSnoc(ids: seq<string>, entries: map<string, Entry>,
                                         cats: seq<string>, id: string)
    requires NamedIn(ids, entries) && id in entries && entries[id].name.Some?
    ensures GroupSizes(ids + [id], entries, cats) ==
      GroupSizes(ids, entries, cats) + Occurrences(cats, CategoryOf(entries[id].name.value))
    decreases |cats|
  {
    var ext := ids + [id];
    assert ext[..|ids|] == ids;
    if cats != [] {
      GroupSizesSnoc(ids, entries, cats[..|cats| - 1], id);
    }
  }

  lemma {:induction false} OccursOnce(cats: seq<string>, c: string)
    requires c in cats && forall i, j :: 0 <= i < j < |cats| ==> cats[i] != cats[j]
    ensures Occurrences(cats, c) == 1
    decreases |cats|
  {
    var init := cats[..|cats| - 1];
    if cats[|cats| - 1] == c {
      assert c !in init by {
        forall k | 0 <= k < |init| ensures init[k] != c {
          assert init[k] == cats[k];
        }
      }
      OccurrencesAbsent(init, c);
    } else {
      assert c in init by {
        var k :| 0 <= k < |cats| && cats[k] == c;
        assert init[k] == c;
      }
      OccursOnce(init, c);
    }
  }

  /** The eleven groups together hold every cached addon once: their sizes
      add up to the size of the cache. */
  lemma {:induction false} GroupSizesSum(ids: seq<string>, entries: map<string, Entry>)
    requires NamedIn(ids, entries)
    ensures GroupSizes(ids, entries, AllCategories()) == |ids|
    decreases |ids|
  {
    var cats := AllCategories();
    if ids == [] {
      GroupSizesEmpty(entries, cats);
    } else {
      var init := ids[..|ids| - 1];
      var id := ids[|ids| - 1];
      assert ids == init + [id];
      GroupSizesSum(init, entries);
      GroupSizesSnoc(init, entries, cats, id);
      CategoryListed(entries[id].name.value);
      CategoriesDistinct();
      OccursOnce(cats, CategoryOf(entries[id].name.value));
    }
  }

  lemma {:induction false} GroupSizesEmpty(entries: map<string, Entry>, cats: seq<string>)
    ensures GroupSizes([], entries, cats) == 0
    decreases |cats|
  {
    if cats != [] {
      GroupSizesEmpty(entries, cats[..|cats| - 1]);
    }
  }

  // ----- the interactive rename -----

  /** One rename: a non-empty new name replaces the name, the name before
      becomes `original_name`; an empty one changes nothing. */
  function Renamed(entries: map<string, Entry>, id: string, newName: string): (r: map<string, Entry>)
    requires id in entries && AllNamed(entries)
    ensures r.Keys == entries.Keys && AllNamed(r)
    ensures forall x :: x in entries && x != id ==> r[x] == entries[x]
  {
    if newName == "" then entries
    else entries[id := entries[id].(name := Some(newName), originalName := entries[id].name)]
  }

  /** How the rename session ends: `exit`, `save` (with whether the file
      was written), input running out, where Python raises `EOFError`, or
      the listing shown before each prompt raising `KeyError` on an addon
      without a `name`. */
  datatype SessionEnd = ExitedUnsaved | SavedOnExit(written: bool) | InputEnded | ListingFailed

  datatype Session = Session(end: SessionEnd, entries: map<string, Entry>)

  /** The session the console lines `inputs` drive, from `entries`. */
  function Rename(entries: map<string, Entry>, inputs: seq<string>, writable: bool): (s: Session)
    ensures s.entries.Keys == entries.Keys
    ensures s.end == ListingFailed <==> !AllNamed(entries)
    ensures AllNamed(s.entries) <==> AllNamed(entries)
    ensures !AllNamed(entries) ==> s.entries == entries
    decreases |inputs|
  {
    if !AllNamed(entries) then Session(ListingFailed, entries)
    else if inputs == [] then Session(InputEnded, entries)
    else
      var choice := Strip(inputs[0]);
      if Lower(choice) == "exit" then Session(ExitedUnsaved, entries)
      else if Lower(choice) == "save" then Session(SavedOnExit(writable), entries)
      else if Lower(choice) == "list" then Rename(entries, inputs[1..], writable)
      else if IsDigits(choice) && choice in entries then
        if |inputs| == 1 then Session(InputEnded, entries)
        else Rename(Renamed(entries, choice, Strip(inputs[1])), inputs[2..], writable)
      else Rename(entries, inputs[1..], writable)
  }

  /** `interactive_rename` reading its console lines from `inputs`; the
      file holds `entries` exactly when the session ends `SavedOnExit(true)`. */
  method InteractiveRename(entries0: map<string, Entry>, inputs: seq<string>, writable: bool)
    returns (end: SessionEnd, entries: map<string, Entry>)
    ensures Session(end, entries) == Rename(entries0, inputs, writable)
  {
    entries := entries0;
    var pos := 0;
    while true
      invariant 0 <= pos <= |inputs|
      invariant Rename(entries0, inputs, writable) == Rename(entries, inputs[pos..], writable)
      decreases |inputs| - pos
    {
      if !AllNamed(entries) {
        return ListingFailed, entries;
      }
      if pos == |inputs| {
        return InputEnded, entries;
      }
      var rest := inputs[pos..];
      assert rest[0] == inputs[pos] && rest[1..] == inputs[pos + 1..];
      RenameFirstLine(entries, rest, writable);
      var choice := Strip(inputs[pos]);
      if Lower(choice) == "exit" {
        return ExitedUnsaved, entries;
      } else if Lower(choice) == "save" {
        return SavedOnExit(writable), entries;
      } else if Lower(choice) == "list" {
        pos := pos + 1;
      } else if IsDigits(choice) && choice in entries {
        if pos + 1 == |inputs| {
          return InputEnded, entries;
        }
        assert rest[1] == inputs[pos + 1] && rest[2..] == inputs[pos + 2..];
        entries := Renamed(entries, choice, Strip(inputs[pos + 1]));
        pos := pos + 2;
      } else {
        pos := pos + 1;
      }
    }
  }

  /** One pass of the rename loop on the first of the remaining lines. */
  lemma RenameFirstLine(entries: map<string, Entry>, rest: seq<string>, writable: bool)
    requires AllNamed(entries) && rest != []
    ensures var c := Strip(rest[0]);
      (Lower(c) == "exit" ==> Rename(entries, rest, writable) == Session(ExitedUnsaved, entries)) &&
      (Lower(c) != "exit" && Lower(c) == "save" ==>
        Rename(entries, rest, writable) == Session(SavedOnExit(writable), entries)) &&
      (Lower(c) !in {"exit", "save"} && Lower(c) == "list" ==>
        Rename(entries, rest, writable) == Rename(entries, rest[1..], writable))
    ensures var c := Strip(rest[0]);
      Lower(c) !in {"exit", "save", "list"} && IsDigits(c) && c in entries ==>
        Rename(entries, rest, writable) ==
          if |rest| == 1 then Session(InputEnded, entries)
          else Rename(Renamed(entries, c, Strip(rest[1])), rest[2..], writable)
    ensures var c := Strip(rest[0]);
      Lower(c) !in {"exit", "save", "list"} && !(IsDigits(c) && c in entries) ==>
        Rename(entries, rest, writable) == Rename(entries, rest[1..], writable)
  {
  }

  /** `exit`, in any case and with any surrounding blanks, ends the session
      with the cache untouched and nothing saved. */
  lemma ExitEndsUnsaved(entries: map<string, Entry>, line: string, rest: seq<string>, writable: bool)
    requires AllNamed(entries) && Lower(Strip(line)) == "exit"
    ensures Rename(entries, [line] + rest, writable) == Session(ExitedUnsaved, entries)
  {
    assert ([line] + rest)[0] == line;
  }

  /** `save` ends the session with an attempt to write the cache. */
  lemma SaveEndsSaving(entries: map<string, Entry>, line: string, rest: seq<string>, writable: bool)
    requires AllNamed(entries) && Lower(Strip(line)) == "save"
    ensures Rename(entries, [line] + rest, writable) == Session(SavedOnExit(writable), entries)
  {
    assert ([line] + rest)[0] == line;
  }

  /** A line only renames when, stripped, it is all digits and a cached id:
      any other line (other than the commands) leaves the cache as it is. */
  lemma RenameNeedsCachedId(entries: map<string, Entry>, line: string, rest: seq<string>, writable: bool)
    requires AllNamed(entries)
    requires var c := Strip(line); Lower(c) !in {"exit", "save"} && !(IsDigits(c) && c in entries)
    ensures Rename(entries, [line] + rest, writable) == Rename(entries, rest, writable)
  {
    assert ([line] + rest)[1..] == rest;
  }

  /** Renaming `id` to a line that strips to a non-empty name sets `name`
      to it and `original_name` to the name before; an empty one is a
      no-op. */
  lemma RenameStep(entries: map<string, Entry>, id: string, line: string, rest: seq<string>, writable: bool)
    requires AllNamed(entries) && IsDigits(id) && id in entries
    ensures Strip(line) != "" ==>
      Rename(entries, [id, line] + rest, writable) ==
      Rename(entries[id := entries[id].(name := Some(Strip(line)), originalName := entries[id].name)], rest, writable)
    ensures Strip(line) == "" ==>
      Rename(entries, [id, line] + rest, writable) == Rename(entries, rest, writable)
  {
    DigitsAreNoCommand(id);
    var ins := [id, line] + rest;
    assert ins[0] == id && ins[1] == line && ins[2..] == rest;
    assert Rename(entries, ins, writable) == Rename(Renamed(entries, id, Strip(line)), rest, writable);
  }

  /** Two renames of the same addon: the name is the second new name and
      `original_name` the first. */
  lemma TwoRenames(entries: map<string, Entry>, id: string, first: string, second: string, writable: bool)
    requires AllNamed(entries) && IsDigits(id) && id in entries
    requires Strip(first) != "" && Strip(second) != ""
    ensures var e := Rename(entries, [id, first, id, second], writable).entries[id];
      e.name == Some(Strip(second)) && e.originalName == Some(Strip(first))
  {
    var once := entries[id := entries[id].(name := Some(Strip(first)), originalName := entries[id].name)];
    RenameStep(entries, id, first, [id, second], writable);
    assert [id, first] + [id, second] == [id, first, id, second];
    RenameStep(once, id, second, [], writable);
    assert [id, second] + [] == [id, second];
  }

  /** A digit string is its own strip and none of the command words. */
  lemma DigitsAreNoCommand(id: string)
    requires IsDigits(id)
    ensures Strip(id) == id && Lower(id) != "exit" && Lower(id) != "save" && Lower(id) != "list"
  {
    assert IsDigit(id[0]) && IsDigit(id[|id| - 1]);
    StripUnpadded(id);
    assert Lower(id)[0] == id[0];
    assert "exit"[0] == 'e' && "save"[0] == 's' && "list"[0] == 'l';
  }

  // ----- the quick setup -----

  /** The offered names for three of the categories, in table order. */
  const QUICK_NAMES: seq<(string, seq<string>)> := [
    ("Оружие мод", ["AK-47 модификация", "M4A1 кастом", "Снайперская винтовка",
                   "Дробовик улучшенный", "Пистолет модифицированный"]),
    ("Карты мод", ["Новая кампания", "Выживание карта", "Мультиплеер арена",
                  "Кооп миссия", "Хоррор карта"]),
    ("Звуки мод", ["Новые звуки оружия", "Музыка замена", "Голоса персонажей",
                  "Звуки окружения", "Эффекты звуков"])
  ]

  /** The five names offered for the `k`-th category. */
  function Suggestions(k: nat): (names: seq<string>)
    requires k < |QUICK_NAMES|
    ensures |names| == 5
  {
    QUICK_NAMES[k].1
  }

  /** The category offered for a name: the first key it contains, or none. */
  function Offer(name: string): (k: Option<nat>)
    ensures k.Some? ==> (k.value < |QUICK_NAMES| && Contains(name, QUICK_NAMES[k.value].0) &&
      forall j :: 0 <= j < k.value ==> !Contains(name, QUICK_NAMES[j].0))
    ensures k.None? ==> forall j :: 0 <= j < |QUICK_NAMES| ==> !Contains(name, QUICK_NAMES[j].0)
  {
    if Contains(name, QUICK_NAMES[0].0) then Some(0)
    else if Contains(name, QUICK_NAMES[1].0) then Some(1)
    else if Contains(name, QUICK_NAMES[2].0) then Some(2)
    else None
  }

  /** Where the quick setup stands after some addons: the cache, the
      number of names changed and the number of console lines read; or
      stopped because input ran out (`EOFError`) or because an addon has
      no `name` (`KeyError`). */
  datatype QuickState = Progress(entries: map<string, Entry>, updated: nat, used: nat) | OutOfInput | Unnamed

  /** One addon of the quick setup. */
  function QuickStep(id: string, entries: map<string, Entry>, updated: nat, used: nat,
                     inputs: seq<string>): (r: QuickState)
    requires id in entries
    ensures r.Progress? ==> r.entries.Keys == entries.Keys && used <= r.used
    ensures r.Unnamed? <==> entries[id].name.None?
  {
    if entries[id].name.None? then Unnamed
    else
    var name := entries[id].name.value;
    match Offer(name)
    case None => Progress(entries, updated, used)
    case Some(k) =>
      if used >= |inputs| then OutOfInput
      else
        var suggestions := Suggestions(k);
        match ParseInt(inputs[used])
        case Some(choice) =>
          if 1 <= choice <= |suggestions| then
            Progress(entries[id := entries[id].(name := Some(suggestions[choice - 1]),
                                                originalName := Some(name))],
                     updated + 1, used + 1)
          else Progress(entries, updated, used + 1)
        case None => Progress(entries, updated, used + 1)
  }

  /** The quick setup over the addons `ids`, in order. */
  function Quick(ids: seq<string>, entries0: map<string, Entry>, inputs: seq<string>): (r: QuickState)
    requires forall id :: id in ids ==> id in entries0
    ensures r.Progress? ==> r.entries.Keys == entries0.Keys
    decreases |ids|
  {
    if ids == [] then Progress(entries0, 0, 0)
    else match Quick(ids[..|ids| - 1], entries0, inputs)
      case Progress(entries, updated, used) => QuickStep(ids[|ids| - 1], entries, updated, used, inputs)
      case stopped => stopped
  }

  /** The quick setup stops with `Unnamed` exactly when one of the addons
      has no `name` and input has not run out before it; a step never adds
      or removes a `name`. */
  lemma {:induction false} QuickNames(ids: seq<string>, entries0: map<string, Entry>, inputs: seq<string>)
    requires forall x :: x in ids ==> x in entries0
    ensures Quick(ids, entries0, inputs).Progress? ==> NamedIn(ids, entries0)
    ensures Quick(ids, entries0, inputs).Progress? ==>
      forall x :: x in entries0 ==>
        (Quick(ids, entries0, inputs).entries[x].name.Some? <==> entries0[x].name.Some?)
    ensures NamedIn(ids, entries0) ==> !Quick(ids, entries0, inputs).Unnamed?
    decreases |ids|
  {
    if ids != [] {
      var init := ids[..|ids| - 1];
      var id := ids[|ids| - 1];
      assert ids == init + [id];
      QuickNames(init, entries0, inputs);
      var r := Quick(init, entries0, inputs);
      if r.Progress? {
        var r' := QuickStep(id, r.entries, r.updated, r.used, inputs);
        assert Quick(ids, entries0, inputs) == r';
        if r'.Progress? {
          assert entries0[id].name.Some?;
          assert forall x :: x in entries0 ==> (r'.entries[x].name.Some? <==> r.entries[x].name.Some?);
        }
      }
    }
  }

  /** The choice rule for one offered addon: a number in range picks that
      suggestion and keeps the old name as `original_name`; any other line
      is read and skipped. An addon no category matches reads nothing and
      stays as it is. */
  lemma QuickChoiceRule(id: string, entries: map<string, Entry>, updated: nat, used: nat,
                        inputs: seq<string>)
    requires id in entries && entries[id].name.Some?
    ensures var name := entries[id].name.value;
      Offer(name).None? ==> QuickStep(id, entries, updated, used, inputs) == Progress(entries, updated, used)
    ensures var name := entries[id].name.value;
      Offer(name).Some? && used < |inputs| ==>
      var suggestions := Suggestions(Offer(name).value);
      var choice := ParseInt(inputs[used]);
      if choice.Some? && 1 <= choice.value <= |suggestions| then
        QuickStep(id, entries, updated, used, inputs) ==
          Progress(entries[id := entries[id].(name := Some(suggestions[choice.value - 1]),
                                              originalName := Some(name))], updated + 1, used + 1)
      else QuickStep(id, entries, updated, used, inputs) == Progress(entries, updated, used + 1)
  {
  }

  /** Typing a number `n` picks the `n`-th suggestion of the offered
      category when `1 <= n <= 5`. */
  lemma QuickPicksTypedNumber(id: string, entries: map<string, Entry>, updated: nat, used: nat,
                              inputs: seq<string>, n: int)
    requires id in entries && entries[id].name.Some?
    requires Offer(entries[id].name.value).Some? && used < |inputs| && inputs[used] == IntText(n)
    ensures 1 <= n <= 5 ==>
      QuickStep(id, entries, updated, used, inputs).Progress? &&
      QuickStep(id, entries, updated, used, inputs).entries[id].name ==
      Some(Suggestions(Offer(entries[id].name.value).value)[n - 1])
    ensures !(1 <= n <= 5) ==>
      QuickStep(id, entries, updated, used, inputs) == Progress(entries, updated, used + 1)
  {
    ParseIntText(n);
  }

  /** An addon whose name matches no category is never changed. */
  lemma {:induction false} QuickLeavesUnoffered(ids: seq<string>, entries0: map<string, Entry>,
                                               inputs: seq<string>, id: string)
    requires forall x :: x in ids ==> x in entries0
    requires id in entries0 && entries0[id].name.Some? && Offer(entries0[id].name.value).None?
    ensures Quick(ids, entries0, inputs).Progress? ==> Quick(ids, entries0, inputs).entries[id] == entries0[id]
    decreases |ids|
  {
    if ids != [] {
      QuickLeavesUnoffered(ids[..|ids| - 1], entries0, inputs, id);
    }
  }

  /** How `quick_setup` ends. */
  datatype QuickOutcome =
    | NoCache                    // missing, unreadable or empty cache
    | InputExhausted             // `EOFError` at a prompt
    | UnnamedAddon               // `KeyError` on an addon without a `name`
    | NoChanges                  // nothing picked, nothing saved
    | Updated(count: nat, written: bool)

  /** `quick_setup` over the cache file, reading its answers from `inputs`. */
  method QuickSetup(file: CacheFile, inputs: seq<string>, writable: bool)
    returns (outcome: QuickOutcome, file': CacheFile)
    requires file.Stored? ==> Listed(file.cache)
    ensures !file.Stored? || file.cache.entries == map[] ==> outcome == NoCache && file' == file
    ensures file.Stored? && file.cache.entries != map[] ==>
      var r := Quick(file.cache.ids, file.cache.entries, inputs);
      (r.OutOfInput? ==> outcome == InputExhausted && file' == file) &&
      (r.Unnamed? ==> outcome == UnnamedAddon && file' == file) &&
      (r.Progress? && r.updated == 0 ==> outcome == NoChanges && file' == file) &&
      (r.Progress? && r.updated > 0 ==>
        outcome == Updated(r.updated, writable) &&
        file' == if writable then Stored(Cache(file.cache.ids, r.entries)) else file)
  {
    if !file.Stored? || file.cache.entries == map[] {
      return NoCache, file;
    }
    var r := QuickLoop(file.cache.ids, file.cache.entries, inputs);
    if r.OutOfInput? {
      return InputExhausted, file;
    }
    if r.Unnamed? {
      return UnnamedAddon, file;
    }
    if r.updated == 0 {
      return NoChanges, file;
    }
    outcome := Updated(r.updated, writable);
    file' := if writable then Stored(Cache(file.cache.ids, r.entries)) else file;
  }

  /** The loop over the addons of `quick_setup`. */
  method QuickLoop(ids: seq<string>, entries0: map<string, Entry>, inputs: seq<string>)
    returns (r: QuickState)
    requires forall id :: id in ids ==> id in entries0
    ensures r == Quick(ids, entries0, inputs)
  {
    r := Progress(entries0, 0, 0);
    for i := 0 to |ids|
      invariant r == Quick(ids[..i], entries0, inputs) && r.Progress?
    {
      assert ids[..i + 1][..i] == ids[..i];
      r := QuickOne(ids[i], r.entries, r.updated, r.used, inputs);
      if !r.Progress? {
        RemainsStopped(ids, entries0, inputs, i + 1);
        return;
      }
    }
    assert ids[..|ids|] == ids;
  }

  /** The body of that loop for one addon: offer the first matching
      category, read a choice, apply it. */
  method QuickOne(id: string, entries: map<string, Entry>, updated: nat, used: nat, inputs: seq<string>)
    returns (r: QuickState)
    requires id in entries
    ensures r == QuickStep(id, entries, updated, used, inputs)
  {
    if entries[id].name.None? {
      return Unnamed;
    }
    var name := entries[id].name.value;
    var k := Offer(name);
    if k.None? {
      return Progress(entries, updated, used);
    }
    if used >= |inputs| {
      return OutOfInput;
    }
    var suggestions := Suggestions(k.value);
    var choice := ParseInt(inputs[used]);
    if choice.Some? && 1 <= choice.value <= |suggestions| {
      var renamed := entries[id := entries[id].(name := Some(suggestions[choice.value - 1]),
                                                originalName := Some(name))];
      return Progress(renamed, updated + 1, used + 1);
    }
    return Progress(entries, updated, used + 1);
  }

  /** Once the setup has stopped, the rest of the addons do not change
      how it ends. */
  lemma {:induction false} RemainsStopped(ids: seq<string>, entries0: map<string, Entry>,
                                         inputs: seq<string>, n: nat)
    requires forall x :: x in ids ==> x in entries0
    requires n <= |ids| && !Quick(ids[..n], entries0, inputs).Progress?
    ensures Quick(ids, entries0, inputs) == Quick(ids[..n], entries0, inputs)
    decreases |ids| - n
  {
    if n < |ids| {
      assert ids[..n + 1][..n] == ids[..n];
      RemainsStopped(ids, entries0, inputs, n + 1);
    } else {
      assert ids[..n] == ids;
    }
  }
}
