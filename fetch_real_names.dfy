/** Refreshing the cached addon names from the Steam Workshop: the
    classification of Steam's reply, the choice of entries that still carry
    a generated name, the in-place update of those entries and the status
    histogram printed afterwards. The HTTP request is a parameter: the reply
    Steam gives for each id. */
module FetchRealNames {
  import opened Common
  import opened Strings
  import opened AddonCache

  // ----- the reply for one addon -----

  /** The first published-file detail, with the fields that are read. */
  datatype Detail = Detail(result: Option<int>, title: Option<string>,
                           description: Option<string>, previewUrl: Option<string>)

  /** What the request produced: an exception, or the parsed reply with its
      (possibly empty or missing) list of details. */
  datatype Reply = Raised(message: string) | Answer(details: seq<Detail>)

  /** `get_addon_info_from_steam`'s result. */
  datatype SteamInfo =
    | Found(title: string, description: string, previewUrl: string)
    | Failed(reason: string, status: string)
  {
    function Status(): string {
      match this
      case Found(_, _, _) => "available"
      case Failed(_, s) => s
    }
  }

  /** The result code of the reply's first detail, 0 when absent. */
  function ResultCode(reply: Reply): int
    requires reply.Answer? && reply.details != []
  {
    reply.details[0].result.GetOr(0)
  }

  /** The text used for an addon without a known title. */
  function PlaceholderTitle(id: string): string {
    "Аддон " + id
  }

  /** `get_addon_info_from_steam`, given the reply the request produced. */
  function GetAddonInfo(id: string, reply: Reply): (info: SteamInfo)
    ensures info.Found? <==> reply.Answer? && reply.details != [] && ResultCode(reply) == 1
    ensures info.Found? ==> info.title == reply.details[0].title.GetOr(PlaceholderTitle(id))
    ensures info.Status() == "not_found" <==> reply.Answer? && reply.details != [] && ResultCode(reply) == 9
    ensures info.Status() == "private" <==> reply.Answer? && reply.details != [] && ResultCode(reply) == 17
    ensures info.Status() == "error" <==>
      reply.Answer? && reply.details != [] && ResultCode(reply) !in {1, 9, 17}
    ensures info.Status() == "no_data" <==> reply.Answer? && reply.details == []
    ensures info.Status() == "request_error" <==> reply.Raised?
  {
    match reply
    case Raised(message) => Failed("Ошибка запроса: " + message, "request_error")
    case Answer(details) =>
      if details == [] then Failed("Нет данных от " + "Steam API", "no_data")
      else
        var detail := details[0];
        var code := detail.result.GetOr(0);
        if code == 1 then
          Found(detail.title.GetOr(PlaceholderTitle(id)), detail.description.GetOr(""),
                detail.previewUrl.GetOr(""))
        else if code == 9 then Failed("Аддон не найден " + "или удален", "not_found")
        else if code == 17 then Failed("Аддон приватный", "private")
        else Failed("Ошибка Steam API " + "(код: " + IntText(code) + ")", "error")
  }

  // ----- which entries are refreshed -----

  /** The generated names that mark an entry as not yet resolved. */
  const STALE_MARKERS: seq<string> := ["мод #", "Неизвестный аддон", "Недоступный аддон"]

  /** Whether an entry is refreshed: its name (empty when absent) contains a
      generated-name marker, or its status (`unknown` when absent) is
      `unprocessed`. */
  predicate NeedsRefresh(e: Entry) {
    (exists k :: 0 <= k < |STALE_MARKERS| && Contains(e.name.GetOr(""), STALE_MARKERS[k])) ||
    e.status.GetOr("unknown") == "unprocessed"
  }

  /** The ids to refresh, in cache order. */
  function Selected(ids: seq<string>, entries: map<string, Entry>): (sel: seq<string>)
    requires forall id :: id in ids ==> id in entries
    ensures forall id :: id in sel ==> id in entries
    decreases |ids|
  {
    if ids == [] then []
    else
      var init := Selected(ids[..|ids| - 1], entries);
      var id := ids[|ids| - 1];
      if NeedsRefresh(entries[id]) then init + [id] else init
  }

  /** An id is selected exactly when it is in the cache and needs a refresh;
      selected ids are distinct when the cache's ids are. */
  lemma {:induction false} SelectedMembers(ids: seq<string>, entries: map<string, Entry>)
    requires forall id :: id in ids ==> id in entries
    ensures forall id :: id in Selected(ids, entries) <==> id in ids && NeedsRefresh(entries[id])
    ensures (forall i, j :: 0 <= i < j < |ids| ==> ids[i] != ids[j]) ==>
      forall i, j :: 0 <= i < j < |Selected(ids, entries)| ==> Selected(ids, entries)[i] != Selected(ids, entries)[j]
    decreases |ids|
  {
    if ids != [] {
      var init := ids[..|ids| - 1];
      SelectedMembers(init, entries);
      assert ids == init + [ids[|ids| - 1]];
    }
  }

  // ----- the update of one entry -----

  /** The name given to an entry whose lookup failed with `status`. */
  function FailedName(id: string, status: string): (name: string)
    ensures |id| < |name| && name[|name| - |id|..] == id
  {
    if status == "not_found" then "Удаленный аддон " + id
    else if status == "private" then "Приватный аддон " + id
    else "Недоступный аддон " + id
  }

  /** The entry after its lookup, or `None` where the source raises: a found
      title for an entry that has no `name` to move to `original_name`. */
  function Refreshed(id: string, e: Entry, info: SteamInfo, now: string -> int): (r: Option<Entry>)
    ensures r.None? <==> info.Found? && e.name.None?
    ensures r.Some? ==> r.value.status == Some(info.Status()) && r.value.extra == e.extra
    ensures r.Some? && info.Found? ==>
      r.value == Entry(Some(info.title), Some("available"), e.name, Some(now(id)), e.extra)
    ensures r.Some? && info.Failed? ==>
      r.value == e.(name := Some(FailedName(id, info.status)), status := Some(info.status))
  {
    match info
    case Found(title, _, _) =>
      if e.name.None? then None
      else Some(e.(name := Some(title), originalName := e.name, status := Some("available"),
                   timestamp := Some(now(id))))
    case Failed(_, status) =>
      Some(e.(status := Some(status), name := Some(FailedName(id, status))))
  }

  /** The cache after the selected ids are refreshed one after the other, or
      `None` when one of them raises. */
  function RefreshAll(entries: map<string, Entry>, sel: seq<string>,
                      reply: string -> Reply, now: string -> int): (r: Option<map<string, Entry>>)
    requires forall id :: id in sel ==> id in entries
    ensures r.Some? ==> r.value.Keys == entries.Keys
    decreases |sel|
  {
    if sel == [] then Some(entries)
    else
      match RefreshAll(entries, sel[..|sel| - 1], reply, now)
      case None => None
      case Some(done) =>
        var id := sel[|sel| - 1];
        if id !in done then None
        else match Refreshed(id, done[id], GetAddonInfo(id, reply(id)), now)
          case None => None
          case Some(e) => Some(done[id := e])
  }

  /** Refreshing keeps the ids, leaves every unselected entry alone and,
      for distinct ids, turns each selected one into its refreshed entry. */
  lemma {:induction false} RefreshAllEffect(entries: map<string, Entry>, sel: seq<string>,
                                           reply: string -> Reply, now: string -> int)
    requires forall id :: id in sel ==> id in entries
    requires forall i, j :: 0 <= i < j < |sel| ==> sel[i] != sel[j]
    ensures RefreshAll(entries, sel, reply, now).Some? ==>
      var r := RefreshAll(entries, sel, reply, now).value;
      r.Keys == entries.Keys &&
      (forall id :: id in entries && id !in sel ==> r[id] == entries[id]) &&
      (forall id :: id in sel ==>
        Refreshed(id, entries[id], GetAddonInfo(id, reply(id)), now) == Some(r[id]))
    decreases |sel|
  {
    if sel != [] {
      var init := sel[..|sel| - 1];
      var id := sel[|sel| - 1];
      RefreshAllEffect(entries, init, reply, now);
      assert sel == init + [id];
      assert id !in init by {
        forall k | 0 <= k < |init| ensures init[k] != id {
          assert init[k] == sel[k];
        }
      }
    }
  }

  /** The number of selected ids whose lookup succeeds. */
  function CountFound(sel: seq<string>, reply: string -> Reply): (n: nat)
    ensures n <= |sel|
    decreases |sel|
  {
    if sel == [] then 0
    else
      var id := sel[|sel| - 1];
      CountFound(sel[..|sel| - 1], reply) + if GetAddonInfo(id, reply(id)).Found? then 1 else 0
  }

  // ----- the run -----

  /** How `fetch_real_names` ends: nothing to do (returns True), saved
      (True) or not saved (False) with the two counters and the histogram,
      or a `KeyError` at the given id. */
  datatype FetchOutcome =
    | NothingToUpdate
    | Saved(updated: nat, failed: nat, statuses: seq<string>, counts: map<string, nat>)
    | SaveFailed(updated: nat, failed: nat)
    | MissingName(id: string)

  /** The cache a run starts from: the stored one, or empty when the file is
      missing or unreadable. */
  function Loaded(file: CacheFile): Cache {
    if file.Stored? then file.cache else Cache([], map[])
  }

  /** The ids a run over `file` refreshes. */
  function SelectedIn(file: CacheFile): (sel: seq<string>)
    requires file.Stored? ==> Listed(file.cache)
    ensures forall id :: id in sel ==> id in Loaded(file).entries
  {
    var c := Loaded(file);
    Selected(c.ids, c.entries)
  }

  /** The cache a complete run over `file` leaves in memory. */
  function RefreshedIn(file: CacheFile, reply: string -> Reply, now: string -> int): (r: Option<map<string, Entry>>)
    requires file.Stored? ==> Listed(file.cache)
    ensures r.Some? ==> forall id :: id in Loaded(file).ids ==> id in r.value
  {
    RefreshAll(Loaded(file).entries, SelectedIn(file), reply, now)
  }

  /** `fetch_real_names`: `reply(id)` is what Steam answers for `id`,
      `now(id)` the clock reading taken when `id`'s title is stored,
      `writable` whether the cache file can be written. */
  method FetchNames(file: CacheFile, reply: string -> Reply, now: string -> int, writable: bool)
    returns (outcome: FetchOutcome, file': CacheFile)
    requires file.Stored? ==> Listed(file.cache)
    ensures SelectedIn(file) == [] ==> outcome == NothingToUpdate && file' == file
    ensures SelectedIn(file) != [] && RefreshedIn(file, reply, now).None? ==>
      outcome.MissingName? && outcome.id in SelectedIn(file) && file' == file
    ensures SelectedIn(file) != [] && RefreshedIn(file, reply, now).Some? && !writable ==>
      outcome == SaveFailed(CountFound(SelectedIn(file), reply),
                            |SelectedIn(file)| - CountFound(SelectedIn(file), reply)) &&
      file' == file
    ensures SelectedIn(file) != [] && RefreshedIn(file, reply, now).Some? && writable ==>
      outcome.Saved? && file' == Stored(Cache(Loaded(file).ids, RefreshedIn(file, reply, now).value)) &&
      outcome.updated == CountFound(SelectedIn(file), reply) &&
      outcome.failed == |SelectedIn(file)| - outcome.updated &&
      Hist(outcome.statuses, outcome.counts) ==
        Histogram(Statuses(Loaded(file).ids, RefreshedIn(file, reply, now).value))
  {
    var c := Loaded(file);
    var sel := SelectIds(c.ids, c.entries);
    if sel == [] {
      return NothingToUpdate, file;
    }
    var refreshed, updated, stop := RefreshSelected(c.entries, sel, reply, now);
    if refreshed.None? {
      return MissingName(stop), file;
    }
    if !writable {
      return SaveFailed(updated, |sel| - updated), file;
    }
    var statuses, counts := StatusHistogram(c.ids, refreshed.value);
    outcome := Saved(updated, |sel| - updated, statuses, counts);
    file' := Stored(Cache(c.ids, refreshed.value));
  }

  /** What a run that gets through the update loop does to a decoded cache:
      the same ids; an entry that needs no refresh unchanged; any other
      entry rewritten from its own lookup. */
  lemma RunEffect(file: CacheFile, reply: string -> Reply, now: string -> int)
    requires file.Stored? && Wellformed(file.cache)
    ensures RefreshedIn(file, reply, now).Some? ==>
      var before := file.cache.entries;
      var after := RefreshedIn(file, reply, now).value;
      after.Keys == before.Keys &&
      (forall id :: id in before && !NeedsRefresh(before[id]) ==> after[id] == before[id]) &&
      (forall id :: id in before && NeedsRefresh(before[id]) ==>
        Refreshed(id, before[id], GetAddonInfo(id, reply(id)), now) == Some(after[id]))
  {
    var c := file.cache;
    SelectedMembers(c.ids, c.entries);
    RefreshAllEffect(c.entries, SelectedIn(file), reply, now);
  }

  /** The update loop: each selected entry looked up and rewritten in turn,
      counting the successes, and stopping at the id whose update raises. */
  method RefreshSelected(entries0: map<string, Entry>, sel: seq<string>, reply: string -> Reply, now: string -> int)
    returns (r: Option<map<string, Entry>>, updated: nat, stop: string)
    requires forall id :: id in sel ==> id in entries0
    ensures r == RefreshAll(entries0, sel, reply, now)
    ensures r.Some? ==> updated == CountFound(sel, reply)
    ensures r.None? ==> stop in sel
  {
    var entries := entries0;
    updated, stop := 0, "";
    for i := 0 to |sel|
      invariant RefreshAll(entries0, sel[..i], reply, now) == Some(entries)
      invariant updated == CountFound(sel[..i], reply)
    {
      var id := sel[i];
      PrefixSnoc(sel, i);
      var next, counted := RefreshOne(entries0, sel[..i], id, reply, now, entries, updated);
      if next.None? {
        RefreshStopsAt(entries0, sel, i, reply, now);
        return None, updated, id;
      }
      entries, updated := next.value, counted;
    }
    assert sel[..|sel|] == sel;
    r := Some(entries);
  }

  /** The loop body: the request for one id, its refreshed entry, and the
      count of found addons. */
  method RefreshOne(ghost entries0: map<string, Entry>, ghost pre: seq<string>, id: string,
                    reply: string -> Reply, now: string -> int, entries: map<string, Entry>, updated: nat)
    returns (next: Option<map<string, Entry>>, updated': nat)
    requires forall x :: x in pre ==> x in entries0
    requires id in entries0 && RefreshAll(entries0, pre, reply, now) == Some(entries)
    requires updated == CountFound(pre, reply)
    ensures next == RefreshAll(entries0, pre + [id], reply, now)
    ensures updated' == CountFound(pre + [id], reply)
  {
    RefreshSnoc(entries0, pre, id, reply, now, entries);
    var info := GetAddonInfo(id, reply(id));
    var e := Refreshed(id, entries[id], info, now);
    next := if e.None? then None else Some(entries[id := e.value]);
    updated' := if info.Found? then updated + 1 else updated;
  }

  /** Refreshing one more selected id after the others succeeded: the
      refresh of that id decides the outcome, and the count of found
      addons goes up exactly when it was found. */
  lemma RefreshSnoc(entries: map<string, Entry>, pre: seq<string>, id: string,
                    reply: string -> Reply, now: string -> int, done: map<string, Entry>)
    requires forall x :: x in pre ==> x in entries
    requires id in entries && RefreshAll(entries, pre, reply, now) == Some(done)
    ensures id in done
    ensures RefreshAll(entries, pre + [id], reply, now) ==
      match Refreshed(id, done[id], GetAddonInfo(id, reply(id)), now)
      case None => None
      case Some(e) => Some(done[id := e])
    ensures CountFound(pre + [id], reply) ==
      CountFound(pre, reply) + if GetAddonInfo(id, reply(id)).Found? then 1 else 0
  {
    assert (pre + [id])[..|pre|] == pre;
  }

  /** The selection loop. */
  method SelectIds(ids: seq<string>, entries: map<string, Entry>) returns (sel: seq<string>)
    requires forall id :: id in ids ==> id in entries
    ensures sel == Selected(ids, entries)
  {
    sel := [];
    for i := 0 to |ids|
      invariant sel == Selected(ids[..i], entries)
    {
      assert ids[..i + 1][..i] == ids[..i];
      if NeedsRefresh(entries[ids[i]]) {
        sel := sel + [ids[i]];
      }
    }
    assert ids[..|ids|] == ids;
  }

  /** Once one step raises, the whole refresh does. */
  lemma {:induction false} RefreshStopsAt(entries: map<string, Entry>, sel: seq<string>, i: nat,
                                         reply: string -> Reply, now: string -> int)
    requires forall id :: id in sel ==> id in entries
    requires i < |sel|
    requires RefreshAll(entries, sel[..i + 1], reply, now).None?
    ensures RefreshAll(entries, sel, reply, now).None?
    decreases |sel| - i
  {
    if i + 1 < |sel| {
      assert sel[..i + 2][..i + 1] == sel[..i + 1];
      RefreshStopsAt(entries, sel, i + 1, reply, now);
    } else {
      assert sel[..i + 1] == sel;
    }
  }

  // ----- the status histogram -----

  /** Each entry's status, `unknown` when absent, in cache order. */
  function Statuses(ids: seq<string>, entries: map<string, Entry>): (ss: seq<string>)
    requires forall id :: id in ids ==> id in entries
    ensures |ss| == |ids|
    decreases |ids|
  {
    if ids == [] then []
    else Statuses(ids[..|ids| - 1], entries) + [entries[ids[|ids| - 1]].status.GetOr("unknown")]
  }

  /** A status histogram as Python's dict builds it: the statuses in order
      of first appearance, and the count of each. */
  datatype Hist = Hist(order: seq<string>, counts: map<string, nat>)

  function Count(h: Hist, s: string): Hist {
    if s in h.counts then Hist(h.order, h.counts[s := h.counts[s] + 1])
    else Hist(h.order + [s], h.counts[s := 1])
  }

  function Histogram(ss: seq<string>): Hist
    decreases |ss|
  {
    if ss == [] then Hist([], map[])
    else Count(Histogram(ss[..|ss| - 1]), ss[|ss| - 1])
  }

  lemma HistogramSnoc(ss: seq<string>, s: string)
    ensures Histogram(ss + [s]) == Count(Histogram(ss), s)
  {
    assert (ss + [s])[..|ss|] == ss;
  }

  /** The sum of the counts of the listed statuses. */
  function SumCounts(order: seq<string>, counts: map<string, nat>): nat
    requires forall s :: s in order ==> s in counts
    decreases |order|
  {
    if order == [] then 0
    else SumCounts(order[..|order| - 1], counts) + counts[order[|order| - 1]]
  }

  /** The histogram loop over the cache's entries. */
  method StatusHistogram(ids: seq<string>, entries: map<string, Entry>)
    returns (order: seq<string>, counts: map<string, nat>)
    requires forall id :: id in ids ==> id in entries
    ensures Hist(order, counts) == Histogram(Statuses(ids, entries))
  {
    order, counts := [], map[];
    for i := 0 to |ids|
      invariant Hist(order, counts) == Histogram(Statuses(ids[..i], entries))
    {
      var status := entries[ids[i]].status.GetOr("unknown");
      assert ids[..i + 1][..i] == ids[..i];
      assert Statuses(ids[..i + 1], entries) == Statuses(ids[..i], entries) + [status];
      HistogramSnoc(Statuses(ids[..i], entries), status);
      if status in counts {
        counts := counts[status := counts[status] + 1];
      } else {
        order := order + [status];
        counts := counts[status := 1];
      }
    }
    assert ids[..|ids|] == ids;
  }

  /** The histogram lists each status once, exactly the statuses that occur. */
  lemma {:induction false} HistogramKeys(ss: seq<string>)
    ensures forall s :: s in Histogram(ss).order <==> s in Histogram(ss).counts
    ensures forall s :: s in Histogram(ss).counts <==> s in ss
    ensures forall i, j :: 0 <= i < j < |Histogram(ss).order| ==> Histogram(ss).order[i] != Histogram(ss).order[j]
    decreases |ss|
  {
    if ss != [] {
      var init := ss[..|ss| - 1];
      HistogramKeys(init);
      assert ss == init + [ss[|ss| - 1]];
    }
  }

  /** Each count is the number of occurrences of its status. */
  lemma {:induction false} HistogramCounts(ss: seq<string>)
    ensures forall s :: s in Histogram(ss).counts ==> Histogram(ss).counts[s] == Occurrences(ss, s)
    decreases |ss|
  {
    if ss != [] {
      var init := ss[..|ss| - 1];
      var last := ss[|ss| - 1];
      HistogramCounts(init);
      HistogramKeys(init);
      if last !in init {
        OccurrencesAbsent(init, last);
      }
    }
  }

  /** The counts add up to the number of entries. */
  lemma {:induction false} HistogramTotal(ss: seq<string>)
    ensures forall s :: s in Histogram(ss).order ==> s in Histogram(ss).counts
    ensures SumCounts(Histogram(ss).order, Histogram(ss).counts) == |ss|
    decreases |ss|
  {
    HistogramKeys(ss);
    if ss != [] {
      var init := ss[..|ss| - 1];
      HistogramTotal(init);
      HistogramKeys(init);
      CountTotal(Histogram(init), ss[|ss| - 1]);
    }
  }

  /** Counting one more status adds one to the sum. */
  lemma CountTotal(h: Hist, s: string)
    requires forall t :: t in h.order <==> t in h.counts
    requires forall i, j :: 0 <= i < j < |h.order| ==> h.order[i] != h.order[j]
    ensures forall t :: t in Count(h, s).order ==> t in Count(h, s).counts
    ensures SumCounts(Count(h, s).order, Count(h, s).counts) == SumCounts(h.order, h.counts) + 1
  {
    if s in h.counts {
      CountSeen(h.order, h.counts, s);
    } else {
      CountNew(h.order, h.counts, s);
    }
  }

  /** A status seen before: its count goes up by one. */
  lemma CountSeen(order: seq<string>, counts: map<string, nat>, s: string)
    requires forall t :: t in order <==> t in counts
    requires forall i, j :: 0 <= i < j < |order| ==> order[i] != order[j]
    requires s in counts
    ensures forall t :: t in order ==> t in counts[s := counts[s] + 1]
    ensures SumCounts(order, counts[s := counts[s] + 1]) == SumCounts(order, counts) + 1
  {
    SumIncrement(order, counts, s);
  }

  /** A new status: listed last with a count of one. */
  lemma CountNew(order: seq<string>, counts: map<string, nat>, s: string)
    requires forall t :: t in order <==> t in counts
    requires s !in counts
    ensures forall t :: t in order + [s] ==> t in counts[s := 1]
    ensures SumCounts(order + [s], counts[s := 1]) == SumCounts(order, counts) + 1
  {
    var o, m := order + [s], counts[s := 1];
    assert o[..|order|] == order;
    SumUnaffected(order, counts, s, 1);
    assert SumCounts(o, m) == SumCounts(order, m) + m[s];
  }

  lemma {:induction false} SumIncrement(order: seq<string>, counts: map<string, nat>, s: string)
    requires forall t :: t in order ==> t in counts
    requires s in order && forall i, j :: 0 <= i < j < |order| ==> order[i] != order[j]
    ensures SumCounts(order, counts[s := counts[s] + 1]) == SumCounts(order, counts) + 1
    decreases |order|
  {
    var init := order[..|order| - 1];
    var last := order[|order| - 1];
    assert order == init + [last];
    if last == s {
      assert s !in init by {
        forall k | 0 <= k < |init| ensures init[k] != s {
          assert init[k] == order[k];
        }
      }
      SumUnaffected(init, counts, s, counts[s] + 1);
    } else {
      SumIncrement(init, counts, s);
    }
  }

  lemma {:induction false} SumUnaffected(order: seq<string>, counts: map<string, nat>, s: string, n: nat)
    requires forall t :: t in order ==> t in counts
    requires s !in order
    ensures SumCounts(order, counts[s := n]) == SumCounts(order, counts)
    decreases |order|
  {
    if order != [] {
      var init := order[..|order| - 1];
      assert order == init + [order[|order| - 1]];
      SumUnaffected(init, counts, s, n);
    }
  }

  // ----- what the next run selects -----

  /** A name without `#` and without a capital `Н` carries no marker. */
  lemma NoMarker(text: string)
    requires '#' !in text && 'Н' !in text
    ensures forall k :: 0 <= k < |STALE_MARKERS| ==> !Contains(text, STALE_MARKERS[k])
  {
    assert STALE_MARKERS[0][4] == '#' && STALE_MARKERS[1][0] == 'Н' && STALE_MARKERS[2][0] == 'Н';
    MissingCharNotContained(text, STALE_MARKERS[0], '#');
    MissingCharNotContained(text, STALE_MARKERS[1], 'Н');
    MissingCharNotContained(text, STALE_MARKERS[2], 'Н');
  }

  lemma DigitsLackMarkers(id: string)
    requires IsDigits(id)
    ensures '#' !in id && 'Н' !in id
  {
    assert forall k :: 0 <= k < |id| ==> IsDigit(id[k]);
  }

  /** The names given to an addon marked `not_found` or `private` carry
      no stale marker. */
  lemma FinalNameHasNoMarker(id: string, status: string)
    requires IsDigits(id) && status in {"not_found", "private"}
    ensures forall k :: 0 <= k < |STALE_MARKERS| ==> !Contains(FailedName(id, status), STALE_MARKERS[k])
  {
    DigitsLackMarkers(id);
    var prefix := if status == "not_found" then "Удаленный аддон " else "Приватный аддон ";
    assert '#' !in prefix && 'Н' !in prefix;
    assert FailedName(id, status) == prefix + id;
    NoMarker(prefix + id);
  }

  lemma UnavailableNameIsStale(id: string, status: string)
    requires status != "not_found" && status != "private"
    ensures Contains(FailedName(id, status), STALE_MARKERS[2])
  {
    var text := "Недоступный аддон " + id;
    assert text[..|STALE_MARKERS[2]|] == STALE_MARKERS[2];
    PrefixContained(text, STALE_MARKERS[2]);
  }

  /** A failed lookup's entry of a numeric id: marked `not_found` or
      `private`, it is not selected again; with any other failure its name
      carries `Недоступный аддон`, so it is. */
  lemma FailedEntryReselection(id: string, e: Entry, info: SteamInfo, now: string -> int)
    requires IsDigits(id) && info.Failed?
    ensures Refreshed(id, e, info, now).Some?
    ensures info.status in {"not_found", "private"} ==> !NeedsRefresh(Refreshed(id, e, info, now).value)
    ensures info.status !in {"not_found", "private"} ==> NeedsRefresh(Refreshed(id, e, info, now).value)
  {
    if info.status in {"not_found", "private"} {
      FinalNameHasNoMarker(id, info.status);
    } else {
      UnavailableNameIsStale(id, info.status);
    }
  }
}
