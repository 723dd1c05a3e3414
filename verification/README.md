# Sign-in kiosk: tag writer and day uploader, modelled in Dafny

The sign-in kiosk has two scripts.

- **The RFID tag writer** (`rfid_writer_gui.py`) is a touch-screen app. It
  loads a student roster from a CSV or TSV file and searches it by name or
  student number. It writes the selected student's id onto an RC522 RFID
  tag: first it reads the tag and asks before replacing another value, then
  it writes, then it reads the tag again to verify. Tag text is cleaned by
  dropping NUL padding and surrounding whitespace.
- **The day uploader** (`upload_kiosk_day.py`) mirrors one local day folder
  (`YYYY-MM-DD`) under a same-named folder on a cloud drive. It walks the
  folder in sorted order and reuses the first existing remote folder of each
  name, creating it when missing. New files are created, existing `.csv`
  files are refreshed in place, and every other existing file is skipped.
  One counter is bumped and one progress step taken per file.

The Dafny project has these modules:

| module | file | what it holds |
|---|---|---|
| `Wrappers` | `wrappers.dfy` | `Option` |
| `PyStr` | `py_str.dfy` | the Python `str` operations the scripts use: `strip`, `replace(c, "")`, `count`, `lower`, `isdigit`, `in` |
| `LocalTree` | `local_tree.dfy` | the local folder as a tree of entries; `sorted()` order, `count_files_recursive`, `Path.suffix`, `name[:40]` |
| `DriveStore` | `drive_store.dfy` | the remote drive as the uploader observes it: the listing of each (parent, name) pair, file contents, fresh ids. `DriveService` is the client object whose `list`/`create`/`update` calls change it |
| `UploadKioskDay` | `upload_kiosk_day.dfy` | `find_child_by_name`, `ensure_drive_folder`, `upload_file`, `upload_tree`, the `stats` dictionary, the progress bar and `main` |
| `RfidWriterGui` | `rfid_writer_gui.dfy` | `clean_tag_text`, `detect_delimiter`, the roster, the search, the selection, the write and read tasks, the reader, and the `RFIDWriterApp` object |

The imperative code stays imperative:

- `upload_tree` is a recursive method with a loop. It changes a
  `DriveService`, a `Stats` object and a `Progress` object.
- `load_file`, `do_search`, `get_selected`, `write_selected` and `read_tag`
  are methods of the `RFIDWriterApp` class. They update its `students`,
  `filtered` and `log` fields and the scripted `TagReader`.

Each method is proved against a value-level specification function:

- `SyncDir` specifies `upload_tree`.
- `Roster` specifies `load_file`.
- `SearchResult` specifies `do_search`.
- `Selected` specifies `get_selected`.
- `WriteTask` specifies the write task.
- `ReadTask` specifies the read task.

The properties the scripts promise are proved as lemmas about those
functions.

## Model

| member | source | states |
|---|---|---|
| PyStr.IsSpace | rfid_writer_gui.py:22 | the characters `str.strip()` removes: Python's whitespace (tab to carriage return, the separators 28–31, space, NEL, no-break space and the Unicode spaces) |
| PyStr.Strip | rfid_writer_gui.py:22 | the result of `strip()` starts and ends with a non-whitespace character and is no longer than its input |
| PyStr.StripPiece | rfid_writer_gui.py:22 | `strip()` returns a contiguous piece of its input, and everything cut off on either side is whitespace |
| PyStr.StripTrimmed | rfid_writer_gui.py:218-221 | a string with no whitespace at either end is left unchanged by `strip()` |
| PyStr.StripIdempotent | rfid_writer_gui.py:343 | stripping twice is stripping once, so stripping an id that was stripped at load time changes nothing |
| PyStr.StripEmpty | rfid_writer_gui.py:243-244 | `strip()` is empty exactly when the input is all whitespace: the `if not q` test of the search |
| PyStr.StripPadded | rfid_writer_gui.py:22 | a trimmed string followed by any whitespace strips back to itself |
| PyStr.RemoveChar | rfid_writer_gui.py:22 | after `replace(c, "")` no `c` is left and the string is no longer |
| PyStr.RemoveCharMultiset | rfid_writer_gui.py:22 | `replace(c, "")` removes exactly the occurrences of `c`; every other character stays as often as it occurred |
| PyStr.RemoveAbsent | rfid_writer_gui.py:22 | removing a character that does not occur changes nothing |
| PyStr.RemoveCharIdempotent | rfid_writer_gui.py:249 | removing hyphens twice is removing them once |
| PyStr.RemoveCharAppend | rfid_writer_gui.py:22 | `replace` works piecewise on a concatenation |
| PyStr.Count | rfid_writer_gui.py:29-30 | `count(c)` is the number of occurrences of `c`, at most the length |
| PyStr.Contains | rfid_writer_gui.py:255-258 | the substring test `needle in hay`, characterised by `ContainsOccurs` |
| PyStr.ContainsOccurs | rfid_writer_gui.py:255 | `needle in hay` holds exactly when `needle` occurs in `hay` at some index |
| PyStr.Lower | rfid_writer_gui.py:243 | `lower()` keeps the length and lowers each character |
| PyStr.IsDigits | rfid_writer_gui.py:344 | `isdigit()`: non-empty and every character a digit |
| LocalTree.NameLeTotal | upload_kiosk_day.py:163 | code-point order on names is total |
| LocalTree.NameLeTransitive | upload_kiosk_day.py:163 | code-point order on names is transitive |
| LocalTree.SortSorted | upload_kiosk_day.py:163 | `sorted(local_dir.iterdir())` yields the entries in name order |
| LocalTree.SortPerm | upload_kiosk_day.py:163 | sorting keeps every entry as often as it occurs (a permutation) |
| LocalTree.SortedMember | upload_kiosk_day.py:163 | an entry is visited exactly when it is in the directory |
| LocalTree.CountAllAppend | upload_kiosk_day.py:88-89 | the file count of a concatenation of entry lists is the sum of the counts |
| LocalTree.CountSorted | upload_kiosk_day.py:88-89 | counting the entries in sorted order gives the same count as in any order |
| LocalTree.Lookup | upload_kiosk_day.py:196-197 | `base / date_str` finds an entry of that name in the folder, or there is none of that name |
| LocalTree.FirstSlash | upload_kiosk_day.py:196 | the index found holds the first `/`, or there is no `/` at all |
| LocalTree.Component | upload_kiosk_day.py:196 | a piece between separators gives no component exactly when it is empty or `.`, and otherwise itself |
| LocalTree.Parts | upload_kiosk_day.py:196 | how `Path(base) / date_str` splits `date_str`: the pieces between `/`, with empty pieces and `.` dropped |
| LocalTree.PartsNames | upload_kiosk_day.py:196 | every component is non-empty, is not `.` and holds no `/` |
| LocalTree.PartsName | upload_kiosk_day.py:196 | a plain name (no `/`, not empty, not `.`) is its single component |
| LocalTree.PartsJoinPiece | upload_kiosk_day.py:196 | a piece without `/`, then `/`, then more: its component followed by the components of the rest |
| LocalTree.JoinPath | upload_kiosk_day.py:196 | the path that names the given components one after another, starting with the first |
| LocalTree.PartsJoinPath | upload_kiosk_day.py:196 | splitting a joined path gives back the components, when each is a proper name (round trip) |
| LocalTree.Resolve | upload_kiosk_day.py:196-197 | following components down from an entry: no components gives the entry itself; otherwise a found entry carries the last component's name; one component in a directory is a `Lookup`; a file with components left leads nowhere |
| LocalTree.ResolveAppend | upload_kiosk_day.py:196-197 | following `a + b` is following `a`, then `b` from where `a` led; a dead end stays a dead end |
| LocalTree.Suffix | upload_kiosk_day.py:168 | `Path.suffix` is empty or the final `.xxx` of the name: it starts with its only dot, and that dot neither starts nor ends the name |
| LocalTree.SuffixShape | upload_kiosk_day.py:168 | conversely, the suffix is non-empty exactly when the last dot of the name is neither its first nor its last character, and then it is the name from that dot on |
| LocalTree.LastDot | upload_kiosk_day.py:168 | the index found holds a dot and no later index does, or there is no dot at all |
| LocalTree.Truncate40 | upload_kiosk_day.py:179 | `name[:40]` is a prefix of the name of at most 40 characters, and the whole name when it is that short |
| LocalTree.CountFiles | upload_kiosk_day.py:88-89 | `count_files_recursive`: a file counts one, a directory the files below it |
| LocalTree.CountAll | upload_kiosk_day.py:88-89 | the files below a list of entries |
| LocalTree.Insert | upload_kiosk_day.py:163 | one step of sorting: an entry placed before the first entry whose name it does not exceed |
| LocalTree.SortByName | upload_kiosk_day.py:163 | `sorted(local_dir.iterdir())` by name; it keeps the length, and `SortSorted` and `SortPerm` state what it promises |
| LocalTree.InsertSorted | upload_kiosk_day.py:163 | inserting into a sorted list keeps it sorted |
| LocalTree.InsertPerm | upload_kiosk_day.py:163 | inserting adds exactly the one entry |
| DriveStore.Listing | upload_kiosk_day.py:72-80 | the items named `name` directly under `parent`, in listing order; empty when there are none, as `res.get("files", [])` |
| DriveStore.FirstFolder | upload_kiosk_day.py:112-114 | the id reused is that of the first folder in the listing, and there is none exactly when no listed item is a folder |
| DriveStore.Folders | upload_kiosk_day.py:100-112 | the folder-only query lists exactly the folders among the items of that name; it is empty exactly when there is no first folder, and its head is the first folder |
| DriveStore.FirstFolderPrefix | upload_kiosk_day.py:112-114 | once a folder of that name exists, later creations, which are appended, do not change which folder is reused |
| DriveStore.Added | upload_kiosk_day.py:121-125 | a creation appends exactly one item under (parent, name), changes no other listing, takes the next fresh id and keeps ids unique |
| DriveStore.Rewritten | upload_kiosk_day.py:141-145 | an update replaces the content of one id and changes no listing and no id |
| DriveStore.Valid | upload_kiosk_day.py:121-125 | every listed item and every stored content has an id below the next fresh id |
| DriveStore.Grows | upload_kiosk_day.py:121-125 | the next id never goes down, every listing only gets items appended, and every appended item has an id at or after the old next id |
| DriveStore.GrowsTransitive | upload_kiosk_day.py:121-125 | growing twice is growing |
| DriveStore.GrowsNoReuse | upload_kiosk_day.py:121-125 | an item appended while a valid store grows has an id that named nothing before |
| DriveStore.NextIdUnused | upload_kiosk_day.py:121-125 | in a valid store the next fresh id names nothing |
| DriveStore.DriveService.constructor | upload_kiosk_day.py:91-95 | the client starts out on the given remote state |
| DriveStore.DriveService.List | upload_kiosk_day.py:72-80 | the name query returns the listing of (parent, name), in order |
| DriveStore.DriveService.ListFolders | upload_kiosk_day.py:100-112 | the folder query returns the folders of that listing, in order |
| DriveStore.DriveService.CreateFolder | upload_kiosk_day.py:116-127 | creating a folder adds one folder item with a fresh id and returns that id |
| DriveStore.DriveService.CreateFile | upload_kiosk_day.py:153-159 | creating a file adds one item with a fresh id, the given type and the data |
| DriveStore.DriveService.UpdateFile | upload_kiosk_day.py:141-145 | updating replaces that item's content only |
| UploadKioskDay.FindChildByName | upload_kiosk_day.py:67-86 | `(None, None)` exactly when nothing of that name is under the parent; otherwise the id and the type of the first item listed, duplicates ignored |
| UploadKioskDay.EnsuredFolder | upload_kiosk_day.py:98-127 | afterwards the returned id is the first folder of that name under the parent, and the store is untouched when such a folder already existed |
| UploadKioskDay.EnsuredFolderEffect | upload_kiosk_day.py:116-127 | when no folder existed, exactly one fresh folder is appended and no other listing changes; in every case the store only grows |
| UploadKioskDay.EnsureFolderIdempotent | upload_kiosk_day.py:98-127 | a second find-or-create with the same name and parent returns the same id and changes nothing |
| UploadKioskDay.MimeFor | upload_kiosk_day.py:131-133 | the guessed type when there is a non-empty one; `application/octet-stream` exactly when there is no guess or an empty one; never empty |
| UploadKioskDay.FileUploaded | upload_kiosk_day.py:130-160 | "created" exactly when nothing of that name exists; "updated" exactly when it exists and overwrite is set; "skipped" leaves the store unchanged |
| UploadKioskDay.FileUploadedEffect | upload_kiosk_day.py:139-160 | an update keeps every listing and replaces the first item's content; a creation appends exactly one item with a fresh id and the file's type; afterwards the name is present and the store has only grown |
| UploadKioskDay.CsvAccepted | upload_kiosk_day.py:168 | `roster.csv` and `LOG.CSV` are overwritten |
| UploadKioskDay.CsvRejected | upload_kiosk_day.py:168 | `.csv` (no suffix), `photo1.jpg` and `notes.csv.bak` are not overwritten |
| UploadKioskDay.IsCsv | upload_kiosk_day.py:168 | `entry.suffix.lower() == ".csv"`: the overwrite flag of a file |
| UploadKioskDay.IsCsvEnding | upload_kiosk_day.py:168 | for every name: overwritten exactly when the name is at least five characters long and its last four characters lower to `.csv` |
| UploadKioskDay.Bump | upload_kiosk_day.py:171-176 | the counter named by the result (created, updated or skipped) rises by one and the other two stay, so the total rises by one |
| UploadKioskDay.SyncFile | upload_kiosk_day.py:167-179 | one file: `upload_file` with the overwrite flag of its name, the counter of its result bumped, one postfix `result: name[:40]` shown |
| UploadKioskDay.SyncEntry | upload_kiosk_day.py:163-179 | one entry: a file is uploaded as `SyncFile` says; a directory gets its folder ensured and is walked inside it |
| UploadKioskDay.SyncChildren | upload_kiosk_day.py:163-166 | the walk of a directory after its first n entries in sorted order |
| UploadKioskDay.SyncDir | upload_kiosk_day.py:162-179 | `upload_tree` of a directory: the walk over all of its entries |
| UploadKioskDay.SyncChildrenStep | upload_kiosk_day.py:163-166 | walking one more entry of a directory is walking that entry after the ones before it, and the entry is a child of the directory |
| UploadKioskDay.SyncEntryDir | upload_kiosk_day.py:164-166 | a subdirectory is walked inside the folder ensured for it |
| UploadKioskDay.SyncEntryCounts | upload_kiosk_day.py:167-179 | handling an entry bumps the counters and the progress postfixes by the number of files below it |
| UploadKioskDay.SyncChildrenCounts | upload_kiosk_day.py:163-179 | after the first n sorted entries, counters and postfixes have grown by the files in those entries |
| UploadKioskDay.SyncDirCounts | upload_kiosk_day.py:162-179 | a whole walk grows created + updated + skipped, and the progress steps, by `count_files_recursive` of the folder |
| UploadKioskDay.Noted | upload_kiosk_day.py:178-179 | the number of progress postfixes that show a given result, at most the number of postfixes |
| UploadKioskDay.SyncEntryTallies | upload_kiosk_day.py:164-179 | handling an entry raises each counter by exactly the number of postfixes it adds that show that counter's result |
| UploadKioskDay.SyncChildrenTallies | upload_kiosk_day.py:163-179 | after the first n sorted entries, each counter has risen by the number of new postfixes that show its result |
| UploadKioskDay.SyncDirTallies | upload_kiosk_day.py:162-179 | a whole directory walk raises each counter by the number of new postfixes that show its result |
| UploadKioskDay.SyncDirCountsEach | upload_kiosk_day.py:171-179 | a walk from zeroed counters and no postfixes, as `main` starts it, ends with each of created, updated and skipped equal to the number of postfixes showing that result |
| UploadKioskDay.SyncEntryGrows | upload_kiosk_day.py:162-179 | a walk never removes or reorders remote items; every item it adds has an id at or after the old next id, so no id is reused; a valid store stays valid |
| UploadKioskDay.SyncChildrenGrows | upload_kiosk_day.py:163-166 | the same for the first n entries of a directory: items only appended, new items with fresh ids, validity kept |
| UploadKioskDay.PlacedGrows | upload_kiosk_day.py:162-179 | an entry that has its remote counterpart keeps it as the store grows |
| UploadKioskDay.SyncEntryPlaces | upload_kiosk_day.py:164-169 | after handling an entry, a file of that name, or a folder of that name, exists under the parent |
| UploadKioskDay.SyncChildrenLast | upload_kiosk_day.py:163-169 | the entry walked last has its counterpart |
| UploadKioskDay.SyncChildrenStepGrows | upload_kiosk_day.py:163-169 | walking one more entry only grows the store |
| UploadKioskDay.SyncChildrenPlaces | upload_kiosk_day.py:163-169 | after the first n entries, each of them has its counterpart |
| UploadKioskDay.SyncDirPlaces | upload_kiosk_day.py:162-179 | after a whole walk every entry of the folder has its remote counterpart |
| UploadKioskDay.Stats.constructor | upload_kiosk_day.py:186-190 | all three counters start at zero |
| UploadKioskDay.Stats.Record | upload_kiosk_day.py:171-176 | the counter named by the result goes up by one |
| UploadKioskDay.Progress.constructor | upload_kiosk_day.py:226 | the bar starts at zero steps with the given total |
| UploadKioskDay.Progress.Update | upload_kiosk_day.py:178 | one more step, postfixes unchanged |
| UploadKioskDay.Progress.SetPostfix | upload_kiosk_day.py:179 | one more postfix, steps unchanged |
| UploadKioskDay.EnsureDriveFolder | upload_kiosk_day.py:98-127 | list the folders of that name, reuse the first, else create one: the store and id of `EnsuredFolder` |
| UploadKioskDay.UploadFile | upload_kiosk_day.py:130-160 | the store and result of `FileUploaded` |
| UploadKioskDay.UploadTreeFile | upload_kiosk_day.py:167-179 | a file is uploaded, counted and shown: the state of `SyncFile`, one more step |
| UploadKioskDay.UploadTreeEntry | upload_kiosk_day.py:163-179 | one loop iteration gives the state of `SyncEntry` and keeps steps in line with postfixes |
| UploadKioskDay.UploadTree | upload_kiosk_day.py:162-179 | the store, counters and postfixes end as `SyncDir` of the old state, and the bar has advanced by the number of files below the folder |
| UploadKioskDay.DayFolder | upload_kiosk_day.py:196-197 | `Path(base) / date_str` is followed component by component; a found day folder is a directory, found by `Resolve`, named by the last component; when none is found, the path leads nowhere or to a file |
| UploadKioskDay.DayFolderName | upload_kiosk_day.py:196-197 | for a plain name, a found day folder is a directory of that name among the base folder's entries; when none is found, any entry of that name is a file |
| UploadKioskDay.DayFolderBase | upload_kiosk_day.py:196-197 | a date string with no components (`""`, `"."`, `"./"`) names the base folder itself when that is a directory, and nothing otherwise |
| UploadKioskDay.DayPathTrailingSlash | upload_kiosk_day.py:196 | a trailing `/` after a name changes nothing: `"2024-01-01/"` is `"2024-01-01"` |
| UploadKioskDay.DayPathDotPrefix | upload_kiosk_day.py:196 | a leading `./` changes nothing |
| UploadKioskDay.EmptyPieceDropped | upload_kiosk_day.py:196 | an empty piece before the rest contributes no component |
| UploadKioskDay.DayPathDoubleSlash | upload_kiosk_day.py:196 | a doubled `/` after the first piece is read as a single one |
| UploadKioskDay.DayPathDot | upload_kiosk_day.py:196 | `"."` has no components |
| UploadKioskDay.UniqueNames | upload_kiosk_day.py:196-197 | no two entries of a folder share a name, as on a real filesystem |
| UploadKioskDay.DirNames | upload_kiosk_day.py:203-206 | the names listed are exactly those of the base folder's subdirectories |
| UploadKioskDay.AvailableDays | upload_kiosk_day.py:199-212 | the subdirectory names of the base folder in sorted order, or nothing when there is no base directory |
| UploadKioskDay.UploadDay | upload_kiosk_day.py:182-233 | a day path that leads to no directory is refused with the available days and no remote change; otherwise the remote folder named by the raw date string is ensured, the tree uploaded from zeroed counters, and created + updated + skipped equals the file count |
| RfidWriterGui.CleanTagText | rfid_writer_gui.py:20-22 | the cleaned text has no NUL and no surrounding whitespace; no payload cleans to the empty string |
| RfidWriterGui.CleanTagTextIdempotent | rfid_writer_gui.py:20-22 | cleaning a cleaned text changes nothing |
| RfidWriterGui.NulPaddingRemoved | rfid_writer_gui.py:22 | NUL-or-whitespace padding without its NULs is only whitespace |
| RfidWriterGui.CleanPadded | rfid_writer_gui.py:20-22 | a NUL-free trimmed id followed by any mix of NUL and whitespace padding cleans back to exactly the id |
| RfidWriterGui.DetectDelimiter | rfid_writer_gui.py:25-33 | tab exactly when there are more than twice as many tabs as commas and more than three tabs; comma otherwise |
| RfidWriterGui.DelimiterDefaultsToComma | rfid_writer_gui.py:25-33 | a sample with at most three tabs is read as comma-separated |
| RfidWriterGui.MissingHeaders | rfid_writer_gui.py:207 | the headers reported missing are exactly the required ones that the header row lacks |
| RfidWriterGui.MissingFrom | rfid_writer_gui.py:207 | the same for any list of wanted headers |
| RfidWriterGui.Field | rfid_writer_gui.py:218-221 | a field is the stripped cell, or empty when the cell is absent; it is always trimmed |
| RfidWriterGui.RowStudent | rfid_writer_gui.py:218-223 | the student a row gives: its id, name, grade and email fields, each stripped |
| RfidWriterGui.KeepsRow | rfid_writer_gui.py:222 | `if sid and name`: a row is kept exactly when its stripped id and name are both non-empty |
| RfidWriterGui.RowContribution | rfid_writer_gui.py:222-223 | one row adds at most one student |
| RfidWriterGui.Roster | rfid_writer_gui.py:216-223 | the roster has at most as many students as there are rows |
| RfidWriterGui.RosterWellFormed | rfid_writer_gui.py:216-223 | every stored student has stripped fields and a non-empty id and name |
| RfidWriterGui.RosterAppend | rfid_writer_gui.py:217-223 | rows are kept independently: the roster of more rows extends the roster of the first ones |
| RfidWriterGui.RosterSingle | rfid_writer_gui.py:222-223 | a single row yields its student when kept and nothing otherwise |
| RfidWriterGui.RosterKept | rfid_writer_gui.py:222-223 | every row with a non-empty stripped id and name has its student in the roster |
| RfidWriterGui.RosterFromRows | rfid_writer_gui.py:222-223 | every student in the roster comes from some kept row |
| RfidWriterGui.DigitQueryIgnoresHyphens | rfid_writer_gui.py:249-255 | for a digit query, dropping its hyphens changes neither that it is a digit query nor which students match |
| RfidWriterGui.SearchFilter | rfid_writer_gui.py:250-259 | the `for s in self.students` loop of `do_search`; the result is no longer than the roster |
| RfidWriterGui.SearchSubsequence | rfid_writer_gui.py:250-261 | the search result keeps the roster order (a subsequence) |
| RfidWriterGui.SubsequenceExtend | rfid_writer_gui.py:250-261 | a subsequence of all but the last element is a subsequence of the whole |
| RfidWriterGui.SubsequenceShrink | rfid_writer_gui.py:250-261 | dropping the last element of a subsequence keeps it a subsequence |
| RfidWriterGui.SearchMember | rfid_writer_gui.py:250-259 | a student is in the result exactly when it is in the roster and matches |
| RfidWriterGui.SearchFilterCount | rfid_writer_gui.py:250-259 | every student that matches is kept exactly as often as it occurs in the roster, and no other student is kept |
| RfidWriterGui.DigitQuery | rfid_writer_gui.py:249 | `q.replace("-", "").isdigit()`: the query is matched against ids with hyphens dropped |
| RfidWriterGui.Matches | rfid_writer_gui.py:252-259 | a digit query matches a student whose lowered id, hyphens dropped, contains the query without hyphens; any other query matches a lowered name or lowered id containing it |
| RfidWriterGui.SearchResult | rfid_writer_gui.py:243-247 | a blank query shows the whole roster |
| RfidWriterGui.FirstWithId | rfid_writer_gui.py:296-302 | the first record with exactly this id, or none exactly when no record has it |
| RfidWriterGui.Selected | rfid_writer_gui.py:286-308 | nothing exactly when nothing is selected; otherwise a record with the selected id: the first such record of the shown list when it has one, else the first of the roster when it has one, else rebuilt from the row with an empty email |
| RfidWriterGui.WriteTaskProtocol | rfid_writer_gui.py:348-385 | at most one write, and only of the id; a prompt exactly when the tag holds another non-empty value; a write exactly when the first read succeeds and any prompt is confirmed; Cancelled exactly after a declined prompt, with nothing written and the cancel line last; Verified or Mismatch decided by the second read alone; every failure logged last |
| RfidWriterGui.WriteEchoVerifies | rfid_writer_gui.py:356-378 | a blank tag, or one already holding the id, is written without a prompt, and a tag echoing the id with NUL or space padding verifies |
| RfidWriterGui.ReadTask | rfid_writer_gui.py:322-333 | the read task logs the prompt, then either the uid and cleaned text or the read error |
| RfidWriterGui.WriteGate | rfid_writer_gui.py:337-346 | no task without a selection; a non-digit id needs the operator's yes; a ready reader is needed; the task writes the stripped id |
| RfidWriterGui.Conflicts | rfid_writer_gui.py:360 | the first read succeeded with a cleaned value that is non-empty and differs from the id |
| RfidWriterGui.WriteTask | rfid_writer_gui.py:348-385 | the write task as a value: the two opening log lines, then the first read, or the read error logged; its properties are stated by `WriteTaskProtocol` |
| RfidWriterGui.AfterFirstRead | rfid_writer_gui.py:356-369 | after a successful first read: the current value logged, the prompt when it conflicts, the cancel line when declined, else the write and verify steps |
| RfidWriterGui.WriteVerify | rfid_writer_gui.py:370-380 | the write, then the verify read: Verified when the cleaned text equals the id, Mismatch otherwise; a failing write or read is logged as the error |
| RfidWriterGui.TagReader.constructor | rfid_writer_gui.py:71-73 | the reader starts with its scripts, nothing written and no cleanup |
| RfidWriterGui.TagReader.Read | rfid_writer_gui.py:356 | `read()` gives the next scripted result and consumes it |
| RfidWriterGui.TagReader.Write | rfid_writer_gui.py:371 | `write(text)` sends the text and gives the next scripted result |
| RfidWriterGui.TagReader.Cleanup | rfid_writer_gui.py:333 | `GPIO.cleanup()` runs once more |
| RfidWriterGui.RFIDWriterApp.constructor | rfid_writer_gui.py:45-76 | empty roster and list; the reader is ready exactly when it could be set up; the not-ready message is logged otherwise |
| RfidWriterGui.RFIDWriterApp.ClearSearch | rfid_writer_gui.py:233-236 | empty query, everyone shown |
| RfidWriterGui.RFIDWriterApp.LoadFile | rfid_writer_gui.py:199-228 | missing headers are reported and nothing changes; otherwise the roster becomes `Roster(rows)`, the count and delimiter are logged and the search is cleared |
| RfidWriterGui.RFIDWriterApp.DoSearch | rfid_writer_gui.py:238-262 | refused while no roster is loaded; otherwise the shown list becomes `SearchResult` of the roster and the query |
| RfidWriterGui.RFIDWriterApp.GetSelected | rfid_writer_gui.py:286-308 | the two scans and the fallback give `Selected` |
| RfidWriterGui.RFIDWriterApp.RunWriteTask | rfid_writer_gui.py:348-385 | log, reader scripts and written texts change as `WriteTask` says, and cleanup runs exactly once whichever way the task ended |
| RfidWriterGui.RFIDWriterApp.WriteSteps | rfid_writer_gui.py:352-357 | the steps inside `try` give `WriteTask` |
| RfidWriterGui.RFIDWriterApp.CheckAndWrite | rfid_writer_gui.py:357-369 | the steps after the first read give `AfterFirstRead` |
| RfidWriterGui.RFIDWriterApp.WriteAndVerify | rfid_writer_gui.py:370-380 | the write and verify steps give `WriteVerify` |
| RfidWriterGui.RFIDWriterApp.WriteSelected | rfid_writer_gui.py:337-387 | the gate of `WriteGate`; no log line and no reader call unless it lets the task start; when it does, the whole effect of the write task with cleanup |
| RfidWriterGui.RFIDWriterApp.Ready | rfid_writer_gui.py:316 | the `run_thread` gate: the reader was set up and is present |
| RfidWriterGui.RFIDWriterApp.ReadTag | rfid_writer_gui.py:321-335 | with a ready reader, one read, the lines of `ReadTask` and one cleanup; otherwise no log line and the reader's scripts, written texts and cleanups unchanged |

## Left out

- The Tk user interface is not modelled: widgets, labels, the summary box, fullscreen and the Treeview drawing. `refresh_tree` is covered only through `filtered`.
- Each yes/no dialog becomes a boolean parameter holding the operator's answer. `showinfo` and `showerror` boxes become early returns.
- Threading is not modelled. `run_thread` becomes a direct call of the task, so the log lines of one task are never interleaved with another's.
- The RC522 driver and GPIO become `TagReader`, driven by scripts of read and write results. A call after its script is exhausted reads as a failure; the real call would block until a tag is presented. Any exception the driver raises is a `ReadFail` or `WriteFail`.
- `Write`: a write that raises still sends the text, and it counts in `written`. Whether bytes actually reached the tag is not modelled.
- Log messages are typed `LogEvent` values rather than formatted text. The `'[empty]'` rendering, the emoji and the "Default CSV not found" line are not modelled.
- File opening, the file dialog and `csv.DictReader` are not modelled. `LoadFile` takes the first 4096 characters, the header row and the parsed rows (header to cell) as parameters. `None` cells and absent cells are both an absent key. The "Load error" box is not modelled.
- The automatic load of `students_master.csv` at start-up is not modelled; it is a `LoadFile` call.
- `GetSelected`: Tk may hand numeric-looking Treeview values back as numbers rather than strings. The model assumes the row's values come back as the strings inserted, as three values.
- `LowerChar` and `IsDigits` cover only ASCII: `lower()` maps `A`–`Z` and `isdigit()` accepts `0`–`9`. Python's Unicode case mapping and its other digit characters are not modelled.
- Remote calls that fail (network errors, quota, authentication) are not modelled. In the script they end the run with exit code 1 through the top-level handler; in the model every remote call succeeds.
- Query quoting is not modelled: a name containing `'` would break the list queries. The model looks names up exactly.
- The `mimetypes` table is not modelled. Each local file carries the type guessed for it.
- `pick_storage_base`, the service-account credentials and `datetime.now()` are not modelled. The base folder, the client and the date are parameters of `UploadDay`.
- The top-level wrapper is not modelled: the closing message, the exit codes (1 for a missing day folder or any exception, 130 for `KeyboardInterrupt`) and the pause for Enter. `UploadDay` returns `DayMissing` where the script exits with code 1.
- `DriveStore.Added`: a newly created item is appended at the end of its (parent, name) listing. This stands in for the drive's listing order, which is unspecified.
- `DriveStore.Rewritten`: an updated file keeps its recorded type; the drive's re-detection of the type is not modelled.
- `RfidWriterGui.WriteTaskProtocol`: the protocol is stated over the value-level `WriteTask`. The app's methods are tied to it by their postconditions rather than restating each property.
- `UploadKioskDay.DayFolder`: POSIX paths are assumed. A date string starting with `/` would replace the base folder in `pathlib`; the model reads it relative to the base. A `..` component would climb to the parent on disk; the model looks it up as an entry named `..`. A `\` separator (Windows) is not modelled.
- `UploadKioskDay.UploadDay`: symbolic links are not modelled. `rglob` does not descend into a linked directory, while `is_dir` and `upload_tree` do, so the script's counters can then exceed `total_files`; in the model every directory is a real one and the two agree.
- `UploadKioskDay.UploadDay`: local I/O failures are not modelled. `MediaFileUpload` opens the file before the skip decision, so an unreadable file ends the run even when it would be skipped; a folder `iterdir` cannot read ends the run too. In the model every local read succeeds.
- `UploadKioskDay.SyncDirCounts`: the equality of created + updated + skipped and the file count holds for a tree without symbolic links and without local read errors (see the two lines above).
- `UploadKioskDay.SyncDirCounts`: FIFOs, sockets and device files are not modelled; a local entry is a file or a directory. `upload_tree` hands any entry that is not a directory to `upload_file` (upload_kiosk_day.py:166-169), while `count_files_recursive` counts only regular files (upload_kiosk_day.py:88-89), so such an entry would raise the counters above `total_files`.
