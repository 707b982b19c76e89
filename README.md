# L4D2 Addon Manager — verified model of the helper routines

L4D2 Addon Manager is a desktop tool for managing Left 4 Dead 2 addons. It ships
with several small routines that this project models in Dafny and then proves
properties of:

- the self-updater's version comparison and release handling;
- the interface localization object;
- the classifier that keeps the program's essential files from being deleted;
- two scripts that maintain the cache of addon names (`~/.l4d2_addon_names_cache.json`):
  - refreshing names from Steam Workshop;
  - renaming addons from the console;
- the announcer that posts each release to Steam once and keeps a ledger of
  announced versions;
- the update configuration;
- the release step that rewrites icon-file references to emoji.

The files follow the program:

| file | module | models |
|---|---|---|
| `strings.dfy` | `Common`, `Strings` | `Option`, and the Python string operations the scripts use: `in`, `startswith`, `endswith`, `replace`, `split`, `strip`, `lower`, `isdigit`, `int`, `splitlines` |
| `addon_cache.dfy` | `AddonCache` | the cache data shared by the two name scripts |
| `modern_updater.dfy` | `ModernUpdater` | `modern_updater.py` |
| `update_config.dfy` | `UpdateConfig` | `update_config.py` |
| `localization.dfy` | `Localization` | `localization.py` |
| `protect_essential_files.dfy` | `ProtectEssentialFiles` | `protect_essential_files.py` |
| `fetch_real_names.dfy` | `FetchRealNames` | `fetch_real_names.py` |
| `customize_addon_names.dfy` | `CustomizeAddonNames` | `customize_addon_names.py` |
| `steam_autopost.dfy` | `SteamAutopost` | `steam_autopost.py` |
| `clean_icons_script.dfy` | `CleanIconsScript` | `FINAL_RELEASE/clean_icons_script.py` |

How the source's forms become Dafny:

- Code that updates state in place keeps that form:
  - the `current_language` field of `Localization`;
  - the `driver` field and the ledger file of `SteamPoster`;
  - the folder files are deleted from;
  - the files the icon clean-up rewrites.

  Each becomes a class with `modifies` clauses. Loops that build lists, count or
  mutate a cache become methods with loop invariants. Each method is proved
  equal to a specification function, and the properties are proved as lemmas
  about that function.
- The outside world becomes parameters:
  - Steam's reply to a request (`string -> Reply`);
  - the release feed's parsed JSON;
  - which files exist (a predicate);
  - the console input (a sequence of lines);
  - whether a file can be written (a flag);
  - the clock (one integer reading per addon id, `string -> int`);
  - the outcome of each browser step.
- Where Python raises and the program catches nothing, the model returns an
  explicit outcome for it. Examples: `MissingName` in `FetchRealNames`, and
  `InputEnded`, `InputExhausted`, `ListingFailed` and `UnnamedAddon` in
  `CustomizeAddonNames`.

## Model

| member | source | states |
|---|---|---|
| `ModernUpdater.ResourcePath` | modern_updater.py:22-41 | the base is the bundle directory for a frozen build and the script directory otherwise. The result is `base/filename` or `base/assets/filename`: the direct path whenever that exists, and also whenever the assets path does not. It exists iff either candidate exists |
| `ModernUpdater.ParseComponent` | modern_updater.py:379-380 | a component parses exactly when it is a non-empty run of ASCII digits |
| `ModernUpdater.ParseParts` | modern_updater.py:379-380 | the list parses iff every part does; the result has one number per part, each the part's value |
| `ModernUpdater.ParseList` | modern_updater.py:379-380 | the conversion loop returns exactly what `ParseParts` specifies, stopping at the first failure |
| `ModernUpdater.ParseVersion` | modern_updater.py:379-380 | a definition without a contract: `ParseParts` of the dot-separated parts, `None` where `int()` raises |
| `ModernUpdater.Zeros` | modern_updater.py:383-384 | `[0] * n`: length `n`, all zeros |
| `ModernUpdater.Padded` | modern_updater.py:382-384 | the list extended with zeros to length `n`: the original as a prefix, zeros after it |
| `ModernUpdater.LexGreater` | modern_updater.py:386 | a definition without a contract: Python's `>` on two lists of equal length, decided by the first difference. `LexIrreflexive`, `LexAsymmetric` and `LexTransitive` make it a strict order |
| `ModernUpdater.VersionNewer` | modern_updater.py:376-388 | a definition without a contract: both versions parse, and after zero padding to the longer length the latest is greater; `False` where either raises. `IsNewerVersion` computes it and the `Version*` lemmas order it |
| `ModernUpdater.ExtendWithZeros` | modern_updater.py:383-384 | the in-place extension loop yields `Padded(xs, n)` |
| `ModernUpdater.CompareLists` | modern_updater.py:386 | the scan for the first difference yields Python's list `>` (`LexGreater`) |
| `ModernUpdater.IsNewerVersion` | modern_updater.py:376-388 | `is_newer_version` returns exactly `VersionNewer`. Any unparsable version gives `false` |
| `ModernUpdater.LexDrop` | modern_updater.py:386 | an equal prefix does not decide the list comparison |
| `ModernUpdater.LexIrreflexive` | modern_updater.py:386 | no list is greater than itself |
| `ModernUpdater.LexAsymmetric` | modern_updater.py:386 | two lists are never each greater than the other |
| `ModernUpdater.LexTransitive` | modern_updater.py:386 | list `>` is transitive |
| `ModernUpdater.LexCommonTail` | modern_updater.py:383-386 | a common tail does not change the comparison |
| `ModernUpdater.PaddingIrrelevant` | modern_updater.py:382-386 | padding both lists further does not change the comparison |
| `ModernUpdater.VersionIrreflexive` | modern_updater.py:376-386 | no version is newer than itself |
| `ModernUpdater.VersionAsymmetric` | modern_updater.py:386 | two versions are never each newer than the other |
| `ModernUpdater.VersionTransitive` | modern_updater.py:382-386 | "newer" is transitive across different lengths |
| `ModernUpdater.SplitAppendZero` | modern_updater.py:379 | splitting `v + ".0"` gives the parts of `v` and then `"0"` |
| `ModernUpdater.ParsePartsAppend` | modern_updater.py:379 | a digit part appended to the list appends its value |
| `ModernUpdater.ParseAppendZero` | modern_updater.py:379 | `v + ".0"` parses iff `v` does, to the same list plus a zero |
| `ModernUpdater.TrailingZeroLatest` | modern_updater.py:382-384 | a trailing `.0` on the latest version does not change the verdict |
| `ModernUpdater.TrailingZeroCurrent` | modern_updater.py:382-384 | a trailing `.0` on the running version does not change the verdict |
| `ModernUpdater.UnparsableNeverNewer` | modern_updater.py:387-388 | an unparsable version is never newer than anything, and nothing is newer than it |
| `ModernUpdater.EmptyVersionUnparsable` | modern_updater.py:361-379 | the empty version (from a missing tag) does not parse |
| `ModernUpdater.NewerOfParsed` | modern_updater.py:382-386 | for two versions that parse, the verdict is the padded list comparison |
| `ModernUpdater.ParsePartsCons` | modern_updater.py:379 | a digit part in front puts its value in front |
| `ModernUpdater.RemoteVersion` | modern_updater.py:361 | the tag with every `v` removed, or `""` without a tag; a non-string tag raises |
| `ModernUpdater.CheckForUpdates` | modern_updater.py:355-374 | an update is reported iff the reply arrived and its `v`-less tag is newer than the running version. It then carries that release. An error is reported iff the request failed or the tag is not a string |
| `ModernUpdater.MissingTagNoUpdate` | modern_updater.py:361-366 | a release without `tag_name` never reports an update |
| `ModernUpdater.OnlyTagWithoutVMatters` | modern_updater.py:361-363 | two tags equal after removing every `v` give the same answer |
| `ModernUpdater.SameVersionNoUpdate` | modern_updater.py:361-366 | a release of the running version is not offered |
| `ModernUpdater.FirstZip` | modern_updater.py:604-608 | none iff no asset name ends in `.zip`; otherwise the index of the first asset whose name does |
| `ModernUpdater.FindDownloadUrl` | modern_updater.py:604-608 | no URL iff `FirstZip` finds no `.zip` asset; otherwise the URL of that first `.zip` asset |
| `ModernUpdater.StartUpdateProcess` | modern_updater.py:600-645 | a worker starts iff the first `.zip` asset has a non-empty URL, and then with that URL and the release tag (`""` when absent). Otherwise the outcome is the "update file not found" message |
| `ModernUpdater.HasDownload` | modern_updater.py:604-610 | a definition without a contract: the first `.zip` asset exists and its URL is non-empty, the test `download_url` passes; `StartUpdateProcess` starts a worker iff it holds |
| `ModernUpdater.NoZipNoWorker` | modern_updater.py:604-613 | a release without a `.zip` asset never starts a worker |
| `ModernUpdater.Shortened` | modern_updater.py:440-441 | a body up to 300 characters is kept; a longer one becomes its first 300 characters plus `...` |
| `ModernUpdater.FormatChanges` | modern_updater.py:437-444 | an empty or missing body gives the placeholder text; otherwise the shortened body with each newline replaced by `<br>` |
| `ModernUpdater.FormattedHasNoNewline` | modern_updater.py:442 | no newline remains in the formatted changelog |
| `ModernUpdater.ShortPlainBodyUnchanged` | modern_updater.py:437-442 | a short body without newlines is shown as written |
| `ModernUpdater.LongPlainBodyShortened` | modern_updater.py:440-442 | a long body without newlines is shown as its first 300 characters plus `...` |
| `UpdateConfig.RepoSlug` | update_config.py:10 | `owner/name`: the owner, one `/`, the name |
| `UpdateConfig.SlugRoundTrip` | update_config.py:8-10 | a slug of `/`-free parts splits back into owner and name |
| `UpdateConfig.ApiUrl` | update_config.py:13 | the API prefix, the repository and `/releases/latest`; the repository can be read back out of the URL |
| `UpdateConfig.ValidateConfig` | update_config.py:52-65 | exactly one message per failed check and no other, in the order username, repository, version: the length is the number of failed checks, each message is present iff its check fails, and the list is empty iff all pass |
| `UpdateConfig.ShippedConfigIsValid` | update_config.py:52-65 | the shipped constants (lines 8-9 and 16) give no messages |
| `UpdateConfig.GetVersionInfo` | update_config.py:44-50 | exactly the keys `version`, `repo`, `api_url`, holding the three constants |
| `UpdateConfig.IntervalHours` | update_config.py:79 | whole hours by floor division |
| `UpdateConfig.CheckIntervalIsOneDay` | update_config.py:19 | the interval is 86 400 000 ms, shown as 24 hours (also line 79) |
| `Localization.Fields` | localization.py:210-214 | a definition without a contract: the keyword fields of a template in order, `None` where `str.format` rejects the template itself |
| `Localization.Format` | localization.py:210-214 | a definition without a contract: `str.format` with keyword arguments, `None` where it raises. `FormatSucceedsIff` and `PlainTextFormatsToItself` state it |
| `Localization.FormatSucceedsIff` | localization.py:210-214 | `str.format` succeeds iff the template is well formed and every field has an argument |
| `Localization.PlainTextFormatsToItself` | localization.py:210-212 | a text without braces has no fields and formats to itself |
| `Localization.FieldsAppend` | localization.py:211 | the fields of two templates joined are the fields of each in order |
| `Localization.FieldsAppendAtField` | localization.py:211 | the same, when the first template starts with a field |
| `Localization.FieldAlone` | localization.py:211 | `{n}` has the single field `n` |
| `Localization.PlainFields` | localization.py:211 | a text without braces has no fields |
| `Localization.FieldsBetweenPlain` | localization.py:211 | text without braces around a template adds no fields |
| `Localization.OneFieldTemplate` | localization.py:74 | plain text, one field, plain text has that field (also line 166) |
| `Localization.TwoFieldTemplate` | localization.py:52 | plain text with two fields has both, in order (also line 144) |
| `Localization.PlainAppend` | localization.py:74 | two texts without braces joined have none (also line 166) |
| `Localization.NameIsBare` | localization.py:74 | `name` is a plain keyword field (also line 166) |
| `Localization.RuCountFieldsText` | localization.py:52 | the Russian addon count has the fields `total`, `enabled` |
| `Localization.RuCountFields` | localization.py:52 | the same, for the table entry |
| `Localization.EnCountFieldsText` | localization.py:144 | the English addon count has the fields `total`, `enabled` |
| `Localization.EnCountFields` | localization.py:144 | the same, for the table entry |
| `Localization.RuDeleteFieldsText` | localization.py:74 | the Russian delete confirmation has the field `name` |
| `Localization.RuDeleteFieldsHead` | localization.py:74 | its text before the field has no braces |
| `Localization.RuDeleteFieldsTail` | localization.py:74 | its text after the field has no braces |
| `Localization.RuDeleteFields` | localization.py:74 | the same, for the table entry |
| `Localization.EnDeleteFieldsText` | localization.py:166 | the English delete confirmation has the field `name` |
| `Localization.EnDeleteFieldsHead` | localization.py:166 | its text before the field has no braces |
| `Localization.EnDeleteFieldsTail` | localization.py:166 | its text after the field has no braces |
| `Localization.EnDeleteFields` | localization.py:166 | the same, for the table entry |
| `Localization.MainKeys` | localization.py:15-22 | the main-interface sections of both languages have the same keys (also lines 107-114) |
| `Localization.TabsKeys` | localization.py:23-29 | the tab sections have the same keys (also lines 115-121) |
| `Localization.ButtonsKeys` | localization.py:30-47 | the button sections have the same keys (also lines 122-139) |
| `Localization.DescriptionsKeys` | localization.py:48-53 | the description sections have the same keys (also lines 140-145) |
| `Localization.SettingsKeys` | localization.py:54-61 | the settings sections have the same keys (also lines 146-153) |
| `Localization.MessagesKeys` | localization.py:62-71 | the message sections have the same keys (also lines 154-163) |
| `Localization.DialogsKeys` | localization.py:72-79 | the dialog sections have the same keys (also lines 164-171) |
| `Localization.StatusesKeys` | localization.py:80-85 | the status sections have the same keys (also lines 172-177) |
| `Localization.ErrorsKeys` | localization.py:86-91 | the error sections have the same keys (also lines 178-183) |
| `Localization.UpdatesKeys` | localization.py:92-98 | the update sections have the same keys (also lines 184-190) |
| `Localization.HelpKeys` | localization.py:99-104 | the help sections have the same keys (also lines 191-196) |
| `Localization.TranslationLanguages` | localization.py:13-14 | the translated languages are `ru` and `en` (also line 106) |
| `Localization.SameKeys` | localization.py:14-104 | the Russian and English tables translate the same keys (also lines 106-196) |
| `Localization.SameFields` | localization.py:52 | both languages' addon count has the fields `{total}` then `{enabled}`; both delete confirmations have `{name}` (also lines 74, 144, 166) |
| `Localization.FieldTextsFormat` | localization.py:52 | in either language, the addon count formats iff `total` and `enabled` are given; the confirmation formats iff `name` is given (also lines 74, 144, 166, 210-214) |
| `Localization.GetAvailableLanguages` | localization.py:216-221 | exactly `ru` and `en`, with their own names |
| `Localization.AvailableLanguagesAreTranslated` | localization.py:14 | the offered languages are exactly the translated ones (also lines 106, 216-221) |
| `Localization.ReadLanguage` | localization.py:244-250 | a value is read iff the file holds a JSON object whose `language`, if present, is hashable. The value is that `language`, or `"ru"` when absent |
| `Localization.Localization.constructor` | localization.py:11-14 | a new object starts in `ru` with the tables, and `ru` is translated |
| `Localization.Localization.SetLanguage` | localization.py:199-204 | returns `true` iff the code is translated. It then switches to it; otherwise the language is unchanged |
| `Localization.Lookup` | localization.py:209 | `dict.get(key, key)`: a key of the table gives the table's text for that key; any other key gives the key itself |
| `Localization.Localization.GetText` | localization.py:206-214 | the current language's text, or the key itself when absent. With arguments it is the formatted text, or the key when formatting fails |
| `Localization.Localization.SaveLanguagePreference` | localization.py:223-240 | it succeeds iff the file is missing or an object and is writable. It then sets `language` to the current language and keeps every other setting. A failure writes nothing |
| `Localization.Localization.LoadLanguagePreference` | localization.py:242-254 | it returns the stored value, or `"ru"` with nothing to read. It switches language only when that value is a translated code |
| `Localization.MissingFileReadsNothing` | localization.py:245-254 | a missing file gives `"ru"` |
| `Localization.StoredCodeReturned` | localization.py:248-250 | a stored code is returned as stored, known or not |
| `Localization.SaveThenLoad` | localization.py:223-254 | after a successful save, loading reads back the current language |
| `Localization.SaveIdempotent` | localization.py:226-235 | saving twice leaves the same file as saving once |
| `Localization.MissingArgumentGivesKey` | localization.py:210-214 | a field without an argument makes `get_text` return the key |
| `Localization.PlainTextIgnoresArguments` | localization.py:209-212 | for a text without braces the arguments change nothing |
| `ProtectEssentialFiles.FlattenSize` | protect_essential_files.py:82-87 | the flattened list is as long as all categories together |
| `ProtectEssentialFiles.FlattenMembers` | protect_essential_files.py:82-87 | a name is in the flattened list iff some category lists it |
| `ProtectEssentialFiles.CollectFiles` | protect_essential_files.py:84-86 | the extending loop yields the categories' files one category after another |
| `ProtectEssentialFiles.GetAllEssentialFiles` | protect_essential_files.py:82-87 | the same over `ESSENTIAL_FILES` |
| `ProtectEssentialFiles.EssentialCount` | protect_essential_files.py:14-74 | the declared categories hold 44 files |
| `ProtectEssentialFiles.Parts` | protect_essential_files.py:146 | the non-empty, non-`.` components of a `/`-separated path |
| `ProtectEssentialFiles.KeptParts` | protect_essential_files.py:146 | a part is kept iff it is neither empty nor `.` |
| `ProtectEssentialFiles.Basename` | protect_essential_files.py:146 | `Path(p).name` has no `/` and is not `.` |
| `ProtectEssentialFiles.PlainNameIsBasename` | protect_essential_files.py:146 | a name without a separator is its own base name |
| `ProtectEssentialFiles.BasenameIdempotent` | protect_essential_files.py:146 | the base name of a base name is itself |
| `ProtectEssentialFiles.BasenameAfterDirectory` | protect_essential_files.py:146 | the base name of a path `dir/name` is `name` |
| `ProtectEssentialFiles.FirstPattern` | protect_essential_files.py:159-161 | the index of the first pattern that occurs in the name. There is none iff no pattern occurs |
| `ProtectEssentialFiles.IsSafeToDelete` | protect_essential_files.py:144-163 | a definition without a contract: the verdict on a path from its base name. An essential name gives `False`, then the first matching safe pattern gives `True`, otherwise `None`. `VerdictMeaning` and `VerdictOfBasename` state it |
| `ProtectEssentialFiles.VerdictMeaning` | protect_essential_files.py:144-163 | an essential base name gives `False`. Otherwise the first safe pattern in the base name gives `True` with that pattern, and no pattern gives `None` |
| `ProtectEssentialFiles.VerdictOfBasename` | protect_essential_files.py:146 | the verdict depends on the base name only |
| `ProtectEssentialFiles.Reason` | protect_essential_files.py:150-163 | every message names the file |
| `ProtectEssentialFiles.NamedInMessage` | protect_essential_files.py:150-163 | each of the three messages contains the file name |
| `ProtectEssentialFiles.UpdaterIsProtected` | protect_essential_files.py:149-150 | a copy of the updater in another directory is still protected |
| `ProtectEssentialFiles.WithoutSelfMembers` | protect_essential_files.py:173-175 | the `.py` files kept are exactly those whose name is not the scanner's own |
| `ProtectEssentialFiles.ScannedMembers` | protect_essential_files.py:173-188 | the scanner skips itself among `.py` files only |
| `ProtectEssentialFiles.ScanScripts` | protect_essential_files.py:173-184 | the `.py` loop sorts every file but the scanner into the list of its verdict, in listing order |
| `ProtectEssentialFiles.ScanNotes` | protect_essential_files.py:186-195 | the `.md` loop extends the three lists as if its files had been scanned after the `.py` ones |
| `ProtectEssentialFiles.ScanForDeletableFiles` | protect_essential_files.py:165-209 | the three lists are the scanned files of each verdict, in scan order |
| `ProtectEssentialFiles.InBucket` | protect_essential_files.py:179-195 | the findings of one verdict, in scan order, never more than the files scanned. `BucketIsSelection` equates it with the selection by verdict |
| `ProtectEssentialFiles.ScannedPaths` | protect_essential_files.py:173-188 | a definition without a contract: the `.py` files other than the scanner itself, then the `.md` files. `ScannedMembers` states its members |
| `ProtectEssentialFiles.Sort` | protect_essential_files.py:179-184 | one file's finding is appended to the list its verdict selects |
| `ProtectEssentialFiles.ExtendPrefix` | protect_essential_files.py:173 | one more scanned file extends the scanned prefix by that file |
| `ProtectEssentialFiles.BucketsPartition` | protect_essential_files.py:179-195 | every scanned file lands in exactly one list: the sizes add up to the number scanned |
| `ProtectEssentialFiles.BucketMembership` | protect_essential_files.py:179-195 | a file's finding is in a list iff the file was scanned and its verdict selects that list |
| `ProtectEssentialFiles.BucketEntries` | protect_essential_files.py:179-195 | every entry of a list is the finding of a scanned file of that verdict |
| `ProtectEssentialFiles.SafeListHoldsNoEssential` | protect_essential_files.py:149-150 | no file on the safe list has an essential base name (also lines 179-180) |
| `ProtectEssentialFiles.CheckFiles` | protect_essential_files.py:96-106 | the nested loops yield the missing and the present files in list order |
| `ProtectEssentialFiles.CheckEssentialFiles` | protect_essential_files.py:89-118 | the same over the essential list |
| `ProtectEssentialFiles.WithPresenceMembers` | protect_essential_files.py:99-106 | a file is listed iff it is essential and its existence matches the list |
| `ProtectEssentialFiles.PresencePartition` | protect_essential_files.py:93-118 | the missing and present lists partition the essential list |
| `ProtectEssentialFiles.Folder.constructor` | protect_essential_files.py:233 | the folder holds the given files |
| `ProtectEssentialFiles.Folder.Unlink` | protect_essential_files.py:233 | unlinking succeeds iff the file exists and can be removed; only that file goes |
| `ProtectEssentialFiles.PathsMembers` | protect_essential_files.py:231 | a path is among a list's paths iff some entry has it |
| `ProtectEssentialFiles.RemovingOneMore` | protect_essential_files.py:235 | one more removal adds one to the removed count |
| `ProtectEssentialFiles.UnlinkAll` | protect_essential_files.py:230-237 | the deletion loop removes exactly the listed files that can be removed, and counts them |
| `ProtectEssentialFiles.DeleteOne` | protect_essential_files.py:232-237 | one unlink removes at most that file and adds at most one to the count |
| `ProtectEssentialFiles.SafeListed` | protect_essential_files.py:179-180 | a path on the safe list was scanned, has a safe verdict and a non-essential base name (also line 231) |
| `ProtectEssentialFiles.Confirms` | protect_essential_files.py:229 | a definition without a contract: the reply, lower-cased, is `y`, `yes` or `да` |
| `ProtectEssentialFiles.DeleteSafeFiles` | protect_essential_files.py:223-240 | without safe files or a `y`/`yes`/`да` reply, nothing is deleted. Only files on the safe list are ever removed. The count is the number removed, at most the list's length |
| `ProtectEssentialFiles.InteractiveCleanup` | protect_essential_files.py:211-246 | with a non-empty safe list and a `y`/`yes`/`да` reply, exactly the safe files the folder can remove disappear. Otherwise the folder is unchanged and the count is zero. The count is the number of files removed, each scanned, safe and with a non-essential base name; the manual list is returned as scanned |
| `FetchRealNames.GetAddonInfo` | fetch_real_names.py:13-72 | code 1 gives success with the title, or `Аддон <id>` when it is missing. Code 9 gives `not_found`, code 17 `private`, any other code `error`. No details gives `no_data`, an exception `request_error` |
| `FetchRealNames.FailedName` | fetch_real_names.py:150-155 | the name given after a failed lookup ends with the addon's id |
| `FetchRealNames.Selected` | fetch_real_names.py:104-110 | the selected ids are cache entries |
| `FetchRealNames.NeedsRefresh` | fetch_real_names.py:105-109 | a definition without a contract: the name (`""` when missing) holds one of the three stale markers, or the status (`unknown` when missing) is `unprocessed`. `SelectedMembers` uses it |
| `FetchRealNames.SelectedMembers` | fetch_real_names.py:104-110 | an id is selected iff its name holds a marker or its status is `unprocessed`. Without duplicate ids, the selection has none |
| `FetchRealNames.SelectIds` | fetch_real_names.py:102-110 | the selection loop yields `Selected`, in cache order |
| `FetchRealNames.Refreshed` | fetch_real_names.py:131-155 | on success: `name` becomes the title, `original_name` the old name, `status` becomes `available`, `timestamp` the clock reading for that addon. An entry without `name` raises. On failure: `status` and the failure name. Other fields are kept |
| `FetchRealNames.RefreshAll` | fetch_real_names.py:123-157 | refreshing in turn keeps the set of ids |
| `FetchRealNames.RefreshAllEffect` | fetch_real_names.py:123-157 | unselected entries are unchanged; each selected entry is the refresh of its own lookup |
| `FetchRealNames.RefreshStopsAt` | fetch_real_names.py:133 | once one entry raises, the whole run does |
| `FetchRealNames.CountFound` | fetch_real_names.py:139-143 | the successes number at most the selected ids |
| `FetchRealNames.RefreshOne` | fetch_real_names.py:124-157 | one pass of the loop body extends the refresh and the success count by one id |
| `FetchRealNames.RefreshSelected` | fetch_real_names.py:123-157 | the update loop yields `RefreshAll` and counts the successes. When it stops, the stop is at a selected id |
| `FetchRealNames.SelectedIn` | fetch_real_names.py:99-110 | the selection over the loaded cache, or over the empty cache when the file is missing or unreadable |
| `FetchRealNames.RefreshedIn` | fetch_real_names.py:123-157 | a completed run keeps every listed id |
| `FetchRealNames.FetchNames` | fetch_real_names.py:97-191 | with nothing selected it returns without saving. A selected entry without `name` whose lookup finds a title stops the run, with nothing saved; one whose lookup fails is renamed like any other. Otherwise the updated and failed counters add up to the selection, and the refreshed cache is saved when writable. The histogram is taken over the refreshed entries |
| `FetchRealNames.RunEffect` | fetch_real_names.py:104-157 | for a decoded cache, the run keeps the ids. Entries not needing a refresh stay as they are, and every other entry is rewritten from its own lookup |
| `FetchRealNames.Statuses` | fetch_real_names.py:173-174 | one status per entry, `unknown` when absent |
| `FetchRealNames.StatusHistogram` | fetch_real_names.py:172-175 | the counting loop yields `Histogram`, in first-seen order |
| `FetchRealNames.HistogramSnoc` | fetch_real_names.py:175 | one more status counts that status once more |
| `FetchRealNames.Histogram` | fetch_real_names.py:172-175 | a definition without a contract: the statuses in order of first appearance, each with its count. `HistogramKeys`, `HistogramCounts` and `HistogramTotal` state what it holds |
| `FetchRealNames.HistogramKeys` | fetch_real_names.py:172-175 | each occurring status is listed once, and nothing else is |
| `FetchRealNames.HistogramCounts` | fetch_real_names.py:172-175 | each count is the number of entries with that status |
| `Strings.OccurrencesAbsent` | fetch_real_names.py:175 | a status that no entry has counts zero |
| `FetchRealNames.HistogramTotal` | fetch_real_names.py:169-175 | the counts sum to the cache size |
| `FetchRealNames.CountTotal` | fetch_real_names.py:175 | counting one more status, seen or new, adds one to the sum of counts |
| `FetchRealNames.SumIncrement` | fetch_real_names.py:175 | incrementing a listed count adds one to the sum |
| `FetchRealNames.SumUnaffected` | fetch_real_names.py:175 | a count of an unlisted status does not enter the sum |
| `FetchRealNames.NoMarker` | fetch_real_names.py:109 | a name without `#` and without `Н` has no marker |
| `FetchRealNames.DigitsLackMarkers` | fetch_real_names.py:109 | a numeric id has no marker character |
| `FetchRealNames.FinalNameHasNoMarker` | fetch_real_names.py:150-153 | the names given for `not_found` and `private` carry none of the stale markers of line 109, so such an entry is not selected again |
| `FetchRealNames.UnavailableNameIsStale` | fetch_real_names.py:109 | `Недоступный аддон <id>` carries the marker (also lines 154-155) |
| `FetchRealNames.FailedEntryReselection` | fetch_real_names.py:109 | after a failed lookup of a numeric id, the entry is selected next time iff the status is neither `not_found` nor `private` (also lines 141-155) |
| `CustomizeAddonNames.CategoryFromFirstMatch` | customize_addon_names.py:43-65 | from any test on, the group is that of the first test that passes, or the default |
| `CustomizeAddonNames.CategoryFirstMatch` | customize_addon_names.py:43-65 | an addon's group is that of the first of the ten substring tests it passes, otherwise `✅ Загруженные` |
| `CustomizeAddonNames.AllCategories` | customize_addon_names.py:43-65 | the ten groups of the substring checks, and the default |
| `CustomizeAddonNames.CategoryFromListed` | customize_addon_names.py:43-65 | any tail of the tests picks a listed group |
| `CustomizeAddonNames.CategoryListed` | customize_addon_names.py:43-65 | every name falls into a listed group |
| `CustomizeAddonNames.CategoriesDistinct` | customize_addon_names.py:45-65 | the eleven groups are distinct |
| `CustomizeAddonNames.CategoryFrom` | customize_addon_names.py:44-65 | a definition without a contract: the group chosen by the tests from index `k` on. `CategoryFromFirstMatch` states it |
| `CustomizeAddonNames.CategoryOf` | customize_addon_names.py:43-65 | a definition without a contract: the group chosen by the whole if/elif chain. `CategoryFirstMatch` and `CategoryListed` state it |
| `CustomizeAddonNames.GroupByCategory` | customize_addon_names.py:38-69 | no grouping iff some listed addon has no `name` (the `KeyError` of line 41). Otherwise there is a group iff some addon falls in it, and each group is `Members` |
| `CustomizeAddonNames.MembersExactly` | customize_addon_names.py:40-69 | a pair is in a group iff it is a cached addon with its name and the group is its category |
| `CustomizeAddonNames.MembersFromIds` | customize_addon_names.py:40-69 | every member of a group is a cached addon |
| `CustomizeAddonNames.MembersInOrder` | customize_addon_names.py:40-69 | each group keeps cache order |
| `CustomizeAddonNames.GroupSizesSnoc` | customize_addon_names.py:67-69 | one more addon adds one to its own group only |
| `CustomizeAddonNames.OccursOnce` | customize_addon_names.py:67-69 | a group listed once among distinct groups occurs once |
| `CustomizeAddonNames.GroupSizesSum` | customize_addon_names.py:40-69 | the group sizes add up to the cache size, so every addon is in exactly one group |
| `CustomizeAddonNames.GroupSizesEmpty` | customize_addon_names.py:38 | an empty cache has empty groups |
| `CustomizeAddonNames.Renamed` | customize_addon_names.py:111-118 | a rename keeps the ids and leaves every other addon unchanged |
| `CustomizeAddonNames.Rename` | customize_addon_names.py:77-120 | a session keeps the ids. It ends `ListingFailed`, with the cache as it was, iff some addon has no `name`, since the listing at line 84 raises before the first prompt. Every addon has a name afterwards iff every addon had one before |
| `CustomizeAddonNames.InteractiveRename` | customize_addon_names.py:77-120 | the console loop, which lists the addons before each prompt, ends as `Rename` specifies, with the cache it specifies |
| `CustomizeAddonNames.ExitEndsUnsaved` | customize_addon_names.py:92-96 | `exit`, in any case and with surrounding blanks, ends without saving or change |
| `CustomizeAddonNames.SaveEndsSaving` | customize_addon_names.py:92-100 | `save` ends with a write attempt, whether or not it succeeds |
| `CustomizeAddonNames.RenameNeedsCachedId` | customize_addon_names.py:101-120 | a line that is no command and not a cached numeric id changes nothing |
| `CustomizeAddonNames.RenameStep` | customize_addon_names.py:103-118 | a cached id followed by a non-empty new name sets `name` to it and `original_name` to the old name. An empty name changes nothing |
| `CustomizeAddonNames.TwoRenames` | customize_addon_names.py:111-118 | after two renames, `name` is the second new name and `original_name` the first |
| `CustomizeAddonNames.DigitsAreNoCommand` | customize_addon_names.py:92-103 | a numeric id is no command word and strips to itself |
| `CustomizeAddonNames.Offer` | customize_addon_names.py:160-178 | the offered category is the first key the name contains, or none |
| `CustomizeAddonNames.QuickStep` | customize_addon_names.py:157-178 | a step keeps the ids and never moves the input position back. It stops with `Unnamed` iff the addon has no `name` (line 158) |
| `CustomizeAddonNames.Quick` | customize_addon_names.py:156-178 | the loop over the addons keeps the ids |
| `CustomizeAddonNames.QuickNames` | customize_addon_names.py:157-158 | while the setup goes on, every addon it has passed has a `name`, and no step adds or removes one. When every addon has a name, it never stops with `Unnamed` |
| `CustomizeAddonNames.QuickChoiceRule` | customize_addon_names.py:157-178 | for an addon no key matches, nothing is read and nothing changes. For an offered addon, a number in range picks that suggestion and records the old name. Any other line is read and skipped |
| `CustomizeAddonNames.QuickPicksTypedNumber` | customize_addon_names.py:169-173 | typing `n` with `1 <= n <= 5` picks the `n`-th suggestion; any other number changes nothing |
| `CustomizeAddonNames.QuickLeavesUnoffered` | customize_addon_names.py:160-161 | an addon that no category matches is never changed |
| `CustomizeAddonNames.QuickOne` | customize_addon_names.py:158-178 | the loop body yields `QuickStep` |
| `CustomizeAddonNames.QuickLoop` | customize_addon_names.py:156-178 | the loop yields `Quick` |
| `CustomizeAddonNames.RemainsStopped` | customize_addon_names.py:157-178 | once the setup has stopped, because input ran out or an addon has no `name`, the remaining addons do not change how it ends |
| `CustomizeAddonNames.QuickSetup` | customize_addon_names.py:122-184 | a missing, unreadable or empty cache ends at once. Running out of input, or an addon without `name`, ends with the file unchanged. The cache is saved iff at least one name was updated and the file is writable |
| `SteamAutopost.PostedIn` | steam_autopost.py:27-35 | a definition without a contract: a ledger file exists and the version is one of its `splitlines()`; `MarkThenPosted` and `MarksLedger` state it |
| `SteamAutopost.Appended` | steam_autopost.py:37-40 | the old ledger (empty when absent), then the version, then one `\n` |
| `SteamAutopost.MarkThenPosted` | steam_autopost.py:29-40 | after marking a one-line version on a ledger that is absent, empty or ends in `\n`, the version reads as posted. The ledger gains exactly that line |
| `SteamAutopost.MarksLedger` | steam_autopost.py:29-40 | a ledger written only by marking is absent (nothing marked) or ends in `\n`. Its lines are the marked versions, and a version reads as posted iff it was marked |
| `SteamAutopost.Title` | steam_autopost.py:128 | the title is the fixed head, the version and the fixed tail |
| `SteamAutopost.TitleNamesVersion` | steam_autopost.py:128 | the version can be read back from its title |
| `SteamAutopost.Body` | steam_autopost.py:139-149 | a definition without a contract: the fixed announcement text around the release-tag URL of the version. `BodyLinksRelease` states it |
| `SteamAutopost.BodyLinksRelease` | steam_autopost.py:139-149 | the body holds the release-tag URL of its own version |
| `SteamAutopost.SteamPoster.constructor` | steam_autopost.py:20-25 | the credentials and version as given, no driver |
| `SteamAutopost.SteamPoster.IsAlreadyPosted` | steam_autopost.py:27-35 | `false` without a ledger file; otherwise true iff the version is one of its lines |
| `SteamAutopost.SteamPoster.MarkAsPosted` | steam_autopost.py:37-40 | the ledger becomes `Appended` of the old one |
| `SteamAutopost.SteamPoster.Run` | steam_autopost.py:166-207 | an announced version succeeds at once, with no driver and no change. Otherwise it succeeds iff every browser step does, and records the version iff it succeeds. A started driver is closed |
| `SteamAutopost.Announce` | steam_autopost.py:210-224 | exit 1 when a setting is unset or empty. Otherwise exit 0 iff the version was announced before or the run succeeds; the ledger changes only on a new announcement |
| `CleanIconsScript.Pattern` | FINAL_RELEASE/clean_icons_script.py:11-41 | each table pattern matches the literal `Path(__file__).parent / "<name>"`, which starts with `P` |
| `CleanIconsScript.TableShape1` | FINAL_RELEASE/clean_icons_script.py:12-17 | the first six replacements start with `N`, contain no `P`, and their file names contain no `N` |
| `CleanIconsScript.TableShape2` | FINAL_RELEASE/clean_icons_script.py:18-23 | the same for the next six |
| `CleanIconsScript.TableShape3` | FINAL_RELEASE/clean_icons_script.py:24-29 | the same for the next six |
| `CleanIconsScript.TableShape4` | FINAL_RELEASE/clean_icons_script.py:30-40 | the same for the rest |
| `CleanIconsScript.Unmixable` | FINAL_RELEASE/clean_icons_script.py:11-41 | no replacement contains a pattern's first character, and no pattern contains a replacement's |
| `CleanIconsScript.RemovedStep` | FINAL_RELEASE/clean_icons_script.py:54 | one substitution removes its own pattern and brings back no pattern already gone |
| `CleanIconsScript.RemovedUpTo` | FINAL_RELEASE/clean_icons_script.py:53-54 | after the first `n` substitutions, none of their patterns occurs |
| `CleanIconsScript.CleanedUpTo` | FINAL_RELEASE/clean_icons_script.py:53-54 | a definition without a contract: the first `n` replacements of the table applied in order |
| `CleanIconsScript.Cleaned` | FINAL_RELEASE/clean_icons_script.py:53-54 | a definition without a contract: the whole table applied in order. `NoPatternRemains` and `CleanedIdempotent` state what it yields |
| `CleanIconsScript.NoPatternRemains` | FINAL_RELEASE/clean_icons_script.py:53-54 | after the whole table, no pattern remains |
| `CleanIconsScript.UntouchedUpTo` | FINAL_RELEASE/clean_icons_script.py:53-54 | content without any pattern passes through every substitution unchanged |
| `CleanIconsScript.UntouchedWithoutPatterns` | FINAL_RELEASE/clean_icons_script.py:53-64 | content without any pattern is left unchanged |
| `CleanIconsScript.CleanedIdempotent` | FINAL_RELEASE/clean_icons_script.py:53-54 | cleaning twice is cleaning once |
| `CleanIconsScript.Disk.constructor` | FINAL_RELEASE/clean_icons_script.py:47-48 | the disk holds the given files |
| `CleanIconsScript.CleanIconsInFile` | FINAL_RELEASE/clean_icons_script.py:43-64 | it returns `true` iff the cleaned content differs. The file holds the cleaned content afterwards, and an unchanged file is not rewritten |
| `CleanIconsScript.Existing` | FINAL_RELEASE/clean_icons_script.py:79 | the listed files that exist number at most the listed files |
| `CleanIconsScript.Changed` | FINAL_RELEASE/clean_icons_script.py:79-81 | the distinct listed files that exist and whose cleaning changes them number at most the existing listed files |
| `CleanIconsScript.CleanFilesCountZero` | FINAL_RELEASE/clean_icons_script.py:59-64 | over files that are already clean nothing counts as changed, so a second run reports zero |
| `CleanIconsScript.CleanFiles` | FINAL_RELEASE/clean_icons_script.py:76-83 | every existing listed file ends up cleaned and every other file is kept. The count is exactly `Changed`: the distinct listed files that exist and whose content cleaning changes |
| `CleanIconsScript.CleanListedSources` | FINAL_RELEASE/clean_icons_script.py:66-85 | the disk keeps its files. Each of the two listed sources that exists is replaced by its cleaned text, every other file is unchanged. The count is exactly `Changed` over the two sources, the ones present whose content cleaning changes, so at most two |
| `Strings.ReplaceAll` | FINAL_RELEASE/clean_icons_script.py:54 | a definition without a contract: `re.sub` of a literal pattern, leftmost occurrences first and never overlapping; `ReplaceAllAbsent` and `ReplaceAllLeavesNoOccurrence` state it |
| `Strings.ReplaceAllAbsent` | FINAL_RELEASE/clean_icons_script.py:54 | a replace-all without an occurrence changes nothing |
| `Strings.ReplaceAllLeavesNoOccurrence` | FINAL_RELEASE/clean_icons_script.py:54 | a replace-all creates no occurrence of a text it cannot splice together, and removes its own pattern |
| `Strings.RemoveChar` | modern_updater.py:361 | `replace('v', '')`: no `v` remains and every other character stays |
| `Strings.Split` | modern_updater.py:379 | `split('.')` gives one or more parts, none with a `.` |
| `Strings.SplitJoin` | update_config.py:10 | joining `.`-free parts and splitting gives them back |
| `Strings.SplitAtFirst` | modern_updater.py:379 | `split` cuts at the first separator and splits the rest |
| `Strings.JoinSplit` | modern_updater.py:379 | splitting and joining gives the text back |
| `Strings.Contains` | customize_addon_names.py:44-62 | a definition without a contract: Python's `p in s`, an occurrence of `p` at some index of `s`; the category and cleaning lemmas state what it decides |
| `Strings.IsDigits` | customize_addon_names.py:103 | a definition without a contract: `isdigit()` on ASCII, a non-empty run of digits; `ParseComponent` and `DigitsAreNoCommand` state it |
| `Strings.Strip` | customize_addon_names.py:92-111 | `strip()` leaves no whitespace at either end and is no longer than its input |
| `Strings.TrimStart` | customize_addon_names.py:92-111 | the tail of the text that follows its leading whitespace: everything dropped is whitespace, and the tail is empty or starts with a non-space |
| `Strings.TrimEnd` | customize_addon_names.py:92-111 | the head of the text before its trailing whitespace: everything dropped is whitespace, and the head is empty or ends with a non-space |
| `Strings.StripHead` | customize_addon_names.py:92-111 | `strip()` is a head of the tail after the leading whitespace, followed there only by whitespace; with `TrimStart` it is a slice of the text with only whitespace around it |
| `Strings.Lower` | customize_addon_names.py:94-101 | `lower()`, character by character |
| `Strings.NatText` | fetch_real_names.py:57 | `str(n)` is digits denoting `n` |
| `Strings.ParseInt` | customize_addon_names.py:169 | `int()` of a line succeeds only on a non-blank line |
| `Strings.ParseIntText` | customize_addon_names.py:169 | `int(str(n)) == n` |
| `Strings.SplitLines` | steam_autopost.py:33 | a definition without a contract: `splitlines()`, the lines without their breaks and no final empty line; `SplitLinesHaveNoBreaks` and `SplitLinesAppend` state it |
| `Strings.SplitLinesHaveNoBreaks` | steam_autopost.py:33 | `splitlines()` gives lines without line breaks |
| `Strings.SplitLinesAppend` | steam_autopost.py:33-40 | appending a line plus `\n` to a text that is empty or ends in `\n` appends that line to its lines |

## Left out

- The PyQt interface is not modelled: the update dialogs and progress dialogs, the language dialog, and the message boxes.
- The network requests are replaced by their parsed replies: the release feed in `check_for_updates` and Steam's `GetPublishedFileDetails`.
- The download and install thread of the updater is not modelled: `ModernUpdateWorker`, its cancel flag and its float progress arithmetic.
- The release-date formatting in the update dialog is not modelled.
- `protect_essential_files.py`: `create_backup` (copying the files into a timestamped folder) is not modelled. `interactive_cleanup` is modelled without it.
- The Selenium steps of `steam_autopost.py` (`setup_driver`, `login_steam`, `navigate_to_discussions`, the clicks of `create_post`) are reduced to their outcomes. The `time.sleep` pauses are not modelled.
- Console printing and the menus of the `main` functions are not modelled. This covers the menu of `customize_addon_names.py`, the sorted display order of its categories, and `show_sample_results` of `fetch_real_names.py`.
- The module-level wrappers at the end of `localization.py` delegate to one global `Localization` object and are not modelled separately.
- Cache files are modelled as their decoded contents. A cache whose JSON is not an object of objects is out of scope, and so are read errors other than a missing or undecodable file.
- `SteamAutopost.SteamPoster.Run`: it does not model a failure while reading or appending to the ledger. In the source that would be caught and give `false`.
- `CleanIconsScript.CleanIconsInFile`: it requires the file to be present and readable, as `main` checks existence first. A write failure is not modelled.
- Paths use `/` separators only. Windows separators and drive letters in `Path(p).name` are not modelled.
- `ModernUpdater.ParseComponent`: it accepts ASCII digit runs only. Python's `int()` also accepts surrounding whitespace, a sign, underscores and non-ASCII digits, so versions such as `" 1"` or `"+1"` are rejected here although Python would accept them.
- `Strings.ParseInt`: it accepts whitespace, a sign and ASCII digits. Underscores and non-ASCII digits, which Python's `int()` also takes, are not modelled.
- `Strings.Lower`: it lower-cases the Latin and Cyrillic capitals only (`A`-`Z`, `А`-`Я`, `Ѐ`-`Џ`) and leaves every other character as it is.
- `Strings.IsDigits` (Python's `isdigit()`) holds for ASCII digits only.
- The clean-up's regular expressions are modelled as the literal text each one matches, since each escapes its only special characters. No regular-expression engine is modelled.
- `Localization.SameFields`: the fields are proved to agree only for the four texts that have replacement fields. That no other text of either table has a brace is not proved, because unfolding a whole table is too costly. For the same reason, the link from those section facts to a lookup through `Ru()`/`En()` is not stated.
- `Localization.Localization.GetText`: `str.format` is modelled for keyword fields without conversion or format spec. The translated texts use only those.
- `FetchRealNames.FetchNames`: the 0.8-second pause and the printed statistics are not modelled. The clock is a parameter `now`, one reading per addon id (`now(id)` is the `timestamp` stored for `id`); that the readings grow as the run goes on is not modelled.
