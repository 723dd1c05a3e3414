/**
 * The day-folder uploader: mirror a local day folder under a same-named
 * remote folder, creating missing folders, uploading new files, refreshing
 * existing `.csv` files and leaving every other existing file alone, and
 * count what happened to each file.
 */
module UploadKioskDay {
  import opened Wrappers
  import opened PyStr
  import opened LocalTree
  import opened DriveStore

  const OctetStream: string := "application/octet-stream"

  datatype UploadResult = Created | Updated | Skipped

  /** The `stats` dictionary of `main`. */
  datatype Tally = Tally(created: nat, updated: nat, skipped: nat)
  {
    function Total(): nat { created + updated + skipped }

    /** The counter that result `r` is tallied under. */
    function Of(r: UploadResult): nat
    {
      match r
      case Created => created
      case Updated => updated
      case Skipped => skipped
    }
  }

  /** What the progress bar's postfix shows after a file: `"<result>: <name[:40]>"`. */
  datatype Note = Note(result: UploadResult, caption: string)

  /** Everything a sync run changes: the remote store, the counters, the progress postfixes. */
  datatype SyncState = SyncState(store: Store, tally: Tally, trail: seq<Note>)

  // ---------------------------------------------------------------------
  // find_child_by_name, ensure_drive_folder, upload_file
  // ---------------------------------------------------------------------

  /**
   * `find_child_by_name`: the id and type of the first item called `name`
   * under `parent`, or `None` (Python's `(None, None)`) when there is none.
   * Duplicates are left where they are.
   */
  function FindChildByName(s: Store, parent: Id, name: string): (r: Option<(Id, string)>)
    ensures r.None? <==> Listing(s, parent, name) == []
    ensures r.Some? ==> exists n :: n in Listing(s, parent, name) && r.value == (n.id, n.mimeType)
    ensures r.Some? ==> r.value == (Listing(s, parent, name)[0].id, Listing(s, parent, name)[0].mimeType)
  {
    var items := Listing(s, parent, name);
    if items == [] then None else Some((items[0].id, items[0].mimeType))
  }

  /**
   * `ensure_drive_folder` on the value level: afterwards the first folder
   * called `name` under `parent` is the one returned, and when such a folder
   * already existed nothing was created.
   */
  function EnsuredFolder(s: Store, name: string, parent: Id): (r: (Store, Id))
    ensures FirstFolder(Listing(r.0, parent, name)) == Some(r.1)
    ensures FirstFolder(Listing(s, parent, name)).Some? ==> r.0 == s
  {
    var found := FirstFolder(Listing(s, parent, name));
    if found.Some? then
      (s, found.value)
    else
      var t := Added(s, parent, name, Node(s.nextId, FolderMime), None);
      assert Listing(t, parent, name)[|Listing(s, parent, name)|] == Node(s.nextId, FolderMime);
      (t, s.nextId)
  }

  /**
   * When no folder of that name exists, exactly one fresh folder is added
   * under `parent`, behind whatever items of that name were there; in every
   * case the store only grows.
   */
  lemma EnsuredFolderEffect(s: Store, name: string, parent: Id)
    ensures var (t, id) := EnsuredFolder(s, name, parent);
            && (FirstFolder(Listing(s, parent, name)).None? ==>
                  && Listing(t, parent, name) == Listing(s, parent, name) + [Node(id, FolderMime)]
                  && (forall p: Id, m: string :: (p, m) != (parent, name) ==> Listing(t, p, m) == Listing(s, p, m))
                  && (Valid(s) ==> Unused(s, id))
                  && t.nextId == s.nextId + 1)
            && Grows(s, t)
            && (Valid(s) ==> Valid(t))
  {
  }

  /**
   * Find-or-create is idempotent: a second call with the same name and
   * parent returns the same id and changes nothing.
   */
  lemma EnsureFolderIdempotent(s: Store, name: string, parent: Id)
    ensures EnsuredFolder(EnsuredFolder(s, name, parent).0, name, parent) == EnsuredFolder(s, name, parent)
  {
  }

  /** The type `upload_file` sends: the guessed one, or the generic binary type. */
  function MimeFor(guess: Option<string>): (m: string)
    ensures m != []
    ensures guess.Some? && guess.value != [] ==> m == guess.value
    ensures guess.None? || guess.value == [] ==> m == OctetStream
  {
    if guess.None? || guess.value == [] then OctetStream else guess.value
  }

  /**
   * `upload_file` on the value level: an existing item is updated when
   * `overwrite` is set and skipped otherwise; a missing one is created.
   */
  function FileUploaded(s: Store, f: Entry, parent: Id, overwrite: bool): (r: (Store, UploadResult))
    requires f.File?
    ensures r.1 == Created <==> Listing(s, parent, f.name) == []
    ensures r.1 == Updated <==> Listing(s, parent, f.name) != [] && overwrite
    ensures r.1 == Skipped ==> r.0 == s
  {
    var mime := MimeFor(f.guessedType);
    var existing := FindChildByName(s, parent, f.name);
    if existing.Some? && overwrite then
      (Rewritten(s, existing.value.0, f.data), Updated)
    else if existing.Some? then
      (s, Skipped)
    else
      (Added(s, parent, f.name, Node(s.nextId, mime), Some(f.data)), Created)
  }

  /**
   * What each outcome does to the store. An update replaces the content of
   * the first item of that name and keeps every listing, so the remote id
   * and name stay; a creation adds exactly one child under `parent`, with a
   * fresh id and the file's type. Afterwards the name is always present.
   */
  lemma FileUploadedEffect(s: Store, f: Entry, parent: Id, overwrite: bool)
    requires f.File?
    ensures var (t, res) := FileUploaded(s, f, parent, overwrite);
            && (res == Updated ==>
                  && (forall p: Id, m: string :: Listing(t, p, m) == Listing(s, p, m))
                  && t.content == s.content[Listing(s, parent, f.name)[0].id := f.data])
            && (res == Created ==>
                  && Listing(t, parent, f.name) == [Node(s.nextId, MimeFor(f.guessedType))]
                  && (forall p: Id, m: string :: (p, m) != (parent, f.name) ==> Listing(t, p, m) == Listing(s, p, m))
                  && t.content == s.content[s.nextId := f.data]
                  && (Valid(s) ==> Unused(s, s.nextId)))
            && Listing(t, parent, f.name) != []
            && Grows(s, t)
            && (Valid(s) ==> Valid(t))
  {
  }

  /** `entry.suffix.lower() == ".csv"`: the files that are always refreshed. */
  predicate IsCsv(name: string)
  {
    Lower(Suffix(name)) == ".csv"
  }

  /**
   * The overwrite rule on all names: a file is refreshed exactly when its
   * name is longer than `.csv` and ends in `.csv` in any letter case.
   */
  lemma IsCsvEnding(name: string)
    ensures IsCsv(name) <==> |name| >= 5 && Lower(name[|name| - 4..]) == ".csv"
  {
    if |name| >= 5 && Lower(name[|name| - 4..]) == ".csv" {
      var i := |name| - 4;
      var t := name[i..];
      assert LowerChar(t[0]) == '.';
      forall k | i < k < |name|
        ensures name[k] != '.'
      {
        assert LowerChar(t[k - i]) == ".csv"[k - i];
      }
      var j := LastDot(name, |name|);
      assert j == i;
      assert Suffix(name) == t;
    }
    if IsCsv(name) {
      SuffixShape(name);
      var r := Suffix(name);
      assert |Lower(r)| == |r|;
    }
  }

  lemma CsvAccepted()
    ensures IsCsv("roster.csv") && IsCsv("LOG.CSV")
  {
    assert LastDot("roster.csv", 10) == 6;
    assert Suffix("roster.csv") == ".csv";
    assert LastDot("LOG.CSV", 4) == 3;
    assert Suffix("LOG.CSV") == ".CSV";
  }

  lemma CsvRejected()
    ensures !IsCsv(".csv") && !IsCsv("photo1.jpg") && !IsCsv("notes.csv.bak")
  {
    assert Suffix(".csv") == [];
    assert LastDot("photo1.jpg", 7) == 6;
    assert Suffix("photo1.jpg") == ".jpg";
    assert LastDot("notes.csv.bak", 10) == 9;
    assert Suffix("notes.csv.bak") == ".bak";
  }

  // ---------------------------------------------------------------------
  // upload_tree as a function of the state
  // ---------------------------------------------------------------------

  /** Tallying one file: the counter named by its result rises by one, the other two stay. */
  function Bump(t: Tally, r: UploadResult): (u: Tally)
    ensures u.created == t.created + (if r.Created? then 1 else 0)
    ensures u.updated == t.updated + (if r.Updated? then 1 else 0)
    ensures u.skipped == t.skipped + (if r.Skipped? then 1 else 0)
    ensures u.Total() == t.Total() + 1
  {
    match r
    case Created => t.(created := t.created + 1)
    case Updated => t.(updated := t.updated + 1)
    case Skipped => t.(skipped := t.skipped + 1)
  }

  /** One file of `upload_tree`: upload it, bump its counter, show it on the bar. */
  function SyncFile(acc: SyncState, f: Entry, parent: Id): SyncState
    requires f.File?
  {
    var (s, res) := FileUploaded(acc.store, f, parent, IsCsv(f.name));
    SyncState(s, Bump(acc.tally, res), acc.trail + [Note(res, Truncate40(f.name))])
  }

  /** One entry of `upload_tree`: a file, or a folder ensured and then walked. */
  function SyncEntry(acc: SyncState, e: Entry, parent: Id): SyncState
    decreases e, 1, 0
  {
    match e
    case File(_, _, _) => SyncFile(acc, e, parent)
    case Dir(name, children) =>
      var (s, id) := EnsuredFolder(acc.store, name, parent);
      SyncChildren(acc.(store := s), e, |children|, id)
  }

  /** `upload_tree(d, parent)` after the first `n` entries of `d` in sorted order. */
  function SyncChildren(acc: SyncState, d: Entry, n: nat, parent: Id): SyncState
    requires d.Dir? && n <= |d.children|
    decreases d, 0, n
  {
    if n == 0 then acc
    else
      var sorted := SortByName(d.children);
      SortedMember(d.children, sorted[n - 1]);
      SyncEntry(SyncChildren(acc, d, n - 1, parent), sorted[n - 1], parent)
  }

  /** The whole walk of directory `d` into remote folder `parent`. */
  function SyncDir(acc: SyncState, d: Entry, parent: Id): SyncState
    requires d.Dir?
  {
    SyncChildren(acc, d, |d.children|, parent)
  }

  /** Walking one more entry of `d` is walking that entry after the ones before it. */
  lemma SyncChildrenStep(acc: SyncState, d: Entry, n: nat, parent: Id)
    requires d.Dir? && n < |d.children|
    ensures SortByName(d.children)[n] < d
    ensures SyncChildren(acc, d, n + 1, parent) == SyncEntry(SyncChildren(acc, d, n, parent), SortByName(d.children)[n], parent)
  {
    SortedMember(d.children, SortByName(d.children)[n]);
  }

  /** A subdirectory is walked inside the folder ensured for it. */
  lemma SyncEntryDir(acc: SyncState, e: Entry, parent: Id)
    requires e.Dir?
    ensures var (s, id) := EnsuredFolder(acc.store, e.name, parent);
            SyncEntry(acc, e, parent) == SyncDir(acc.(store := s), e, id)
  {
  }

  // ---------------------------------------------------------------------
  // What a walk guarantees
  // ---------------------------------------------------------------------

  /** Each file visited bumps exactly one counter and shows exactly one postfix. */
  lemma {:induction false} SyncEntryCounts(acc: SyncState, e: Entry, parent: Id)
    ensures SyncEntry(acc, e, parent).tally.Total() == acc.tally.Total() + CountFiles(e)
    ensures |SyncEntry(acc, e, parent).trail| == |acc.trail| + CountFiles(e)
    decreases e, 1, 0
  {
    match e
    case File(_, _, _) =>
    case Dir(name, children) =>
      var (s, id) := EnsuredFolder(acc.store, name, parent);
      SyncDirCounts(acc.(store := s), e, id);
  }

  lemma {:induction false} SyncChildrenCounts(acc: SyncState, d: Entry, n: nat, parent: Id)
    requires d.Dir? && n <= |d.children|
    ensures SyncChildren(acc, d, n, parent).tally.Total() == acc.tally.Total() + CountAll(SortByName(d.children)[..n])
    ensures |SyncChildren(acc, d, n, parent).trail| == |acc.trail| + CountAll(SortByName(d.children)[..n])
    decreases d, 0, n
  {
    var sorted := SortByName(d.children);
    if n == 0 {
      assert sorted[..0] == [];
    } else {
      var e := sorted[n - 1];
      SortedMember(d.children, e);
      var mid := SyncChildren(acc, d, n - 1, parent);
      var last := SyncEntry(mid, e, parent);
      assert SyncChildren(acc, d, n, parent) == last;
      SyncChildrenCounts(acc, d, n - 1, parent);
      SyncEntryCounts(mid, e, parent);
      CountPrefixStep(sorted, n);
      var before, step := CountAll(sorted[..n - 1]), CountFiles(e);
      assert mid.tally.Total() == acc.tally.Total() + before && last.tally.Total() == mid.tally.Total() + step;
      assert |mid.trail| == |acc.trail| + before && |last.trail| == |mid.trail| + step;
    }
  }



  /**
   * After a full walk, created + updated + skipped has grown by the number of
   * files below `d`, and so has the number of progress steps.
   */
  lemma {:induction false} SyncDirCounts(acc: SyncState, d: Entry, parent: Id)
    requires d.Dir?
    decreases d, 0, |d.children| + 1
    ensures SyncDir(acc, d, parent).tally.Total() == acc.tally.Total() + CountFiles(d)
    ensures |SyncDir(acc, d, parent).trail| == |acc.trail| + CountFiles(d)
  {
    var sorted := SortByName(d.children);
    SyncChildrenCounts(acc, d, |d.children|, parent);
    assert sorted[..|d.children|] == sorted;
    CountSorted(d.children);
  }

  /** How many of the postfixes in `notes` show result `r`. */
  function Noted(notes: seq<Note>, r: UploadResult): (n: nat)
    ensures n <= |notes|
  {
    if notes == [] then 0
    else Noted(notes[..|notes| - 1], r) + (if notes[|notes| - 1].result == r then 1 else 0)
  }

  /** The counter for `r` in `st` is its value in `t0` plus one per postfix of `st` showing `r`. */
  predicate TalliesTrail(t0: Tally, st: SyncState, r: UploadResult)
  {
    st.tally.Of(r) == t0.Of(r) + Noted(st.trail, r)
  }

  /** Handling one entry keeps every counter in step with the postfixes shown so far. */
  lemma {:induction false} SyncEntryTallies(acc: SyncState, e: Entry, parent: Id, t0: Tally, r: UploadResult)
    requires TalliesTrail(t0, acc, r)
    ensures TalliesTrail(t0, SyncEntry(acc, e, parent), r)
    decreases e, 1, 0
  {
    match e
    case File(_, _, _) =>
      var out := SyncEntry(acc, e, parent);
      assert out.trail[..|out.trail| - 1] == acc.trail;
    case Dir(name, children) =>
      var (s, id) := EnsuredFolder(acc.store, name, parent);
      SyncDirTallies(acc.(store := s), e, id, t0, r);
  }

  lemma {:induction false} SyncChildrenTallies(acc: SyncState, d: Entry, n: nat, parent: Id, t0: Tally, r: UploadResult)
    requires d.Dir? && n <= |d.children|
    requires TalliesTrail(t0, acc, r)
    ensures TalliesTrail(t0, SyncChildren(acc, d, n, parent), r)
    decreases d, 0, n
  {
    if n > 0 {
      var e := SortByName(d.children)[n - 1];
      SortedMember(d.children, e);
      var mid := SyncChildren(acc, d, n - 1, parent);
      var last := SyncEntry(mid, e, parent);
      assert SyncChildren(acc, d, n, parent) == last;
      SyncChildrenTallies(acc, d, n - 1, parent, t0, r);
      SyncEntryTallies(mid, e, parent, t0, r);
    }
  }

  lemma {:induction false} SyncDirTallies(acc: SyncState, d: Entry, parent: Id, t0: Tally, r: UploadResult)
    requires d.Dir? && TalliesTrail(t0, acc, r)
    ensures TalliesTrail(t0, SyncDir(acc, d, parent), r)
    decreases d, 0, |d.children| + 1
  {
    SyncChildrenTallies(acc, d, |d.children|, parent, t0, r);
  }

  /**
   * A walk that starts with zeroed counters and no postfixes, as `main`'s
   * does, ends with each of created, updated and skipped equal to the
   * number of postfixes that show that result.
   */
  lemma SyncDirCountsEach(s: Store, d: Entry, parent: Id, r: UploadResult)
    requires d.Dir?
    ensures var out := SyncDir(SyncState(s, Tally(0, 0, 0), []), d, parent);
            out.tally.Of(r) == Noted(out.trail, r)
  {
    SyncDirTallies(SyncState(s, Tally(0, 0, 0), []), d, parent, Tally(0, 0, 0), r);
  }

  /** A walk only ever adds to the remote store and never reuses an id. */
  lemma {:induction false} SyncEntryGrows(acc: SyncState, e: Entry, parent: Id)
    ensures Grows(acc.store, SyncEntry(acc, e, parent).store)
    ensures Valid(acc.store) ==> Valid(SyncEntry(acc, e, parent).store)
    decreases e, 1, 0
  {
    match e
    case File(_, _, _) =>
      FileUploadedEffect(acc.store, e, parent, IsCsv(e.name));
    case Dir(name, children) =>
      var (s, id) := EnsuredFolder(acc.store, name, parent);
      EnsuredFolderEffect(acc.store, name, parent);
      SyncChildrenGrows(acc.(store := s), e, |children|, id);
      GrowsTransitive(acc.store, s, SyncEntry(acc, e, parent).store);
  }

  lemma {:induction false} SyncChildrenGrows(acc: SyncState, d: Entry, n: nat, parent: Id)
    requires d.Dir? && n <= |d.children|
    ensures Grows(acc.store, SyncChildren(acc, d, n, parent).store)
    ensures Valid(acc.store) ==> Valid(SyncChildren(acc, d, n, parent).store)
    decreases d, 0, n
  {
    if n > 0 {
      var sorted := SortByName(d.children);
      SyncChildrenStep(acc, d, n - 1, parent);
      var mid := SyncChildren(acc, d, n - 1, parent);
      SyncChildrenGrows(acc, d, n - 1, parent);
      SyncEntryGrows(mid, sorted[n - 1], parent);
      GrowsTransitive(acc.store, mid.store, SyncChildren(acc, d, n, parent).store);
    }
  }



  /** Entry `e` has its remote counterpart under `parent`: a file item, or a folder. */
  ghost predicate Placed(s: Store, parent: Id, e: Entry)
  {
    if e.File? then Listing(s, parent, e.name) != []
    else FirstFolder(Listing(s, parent, e.name)).Some?
  }

  lemma PlacedGrows(s: Store, t: Store, parent: Id, e: Entry)
    requires Placed(s, parent, e) && Grows(s, t)
    ensures Placed(t, parent, e)
  {
    assert Listing(s, parent, e.name) <= Listing(t, parent, e.name);
    if e.Dir? {
      FirstFolderPrefix(Listing(s, parent, e.name), Listing(t, parent, e.name));
    }
  }

  lemma SyncEntryPlaces(acc: SyncState, e: Entry, parent: Id)
    ensures Placed(SyncEntry(acc, e, parent).store, parent, e)
  {
    match e
    case File(_, _, _) =>
      FileUploadedEffect(acc.store, e, parent, IsCsv(e.name));
    case Dir(name, children) =>
      var (s, id) := EnsuredFolder(acc.store, name, parent);
      SyncChildrenGrows(acc.(store := s), e, |children|, id);
      PlacedGrows(s, SyncEntry(acc, e, parent).store, parent, e);
  }

  /** The entry walked last is placed. */
  lemma SyncChildrenLast(acc: SyncState, d: Entry, n: nat, parent: Id)
    requires d.Dir? && n < |d.children|
    ensures Placed(SyncChildren(acc, d, n + 1, parent).store, parent, SortByName(d.children)[n])
  {
    var sorted := SortByName(d.children);
    var mid := SyncChildren(acc, d, n, parent);
    SyncChildrenStep(acc, d, n, parent);
    SyncEntryPlaces(mid, sorted[n], parent);
  }

  /** Walking one more entry only grows the store. */
  lemma SyncChildrenStepGrows(acc: SyncState, d: Entry, n: nat, parent: Id)
    requires d.Dir? && n < |d.children|
    ensures Grows(SyncChildren(acc, d, n, parent).store, SyncChildren(acc, d, n + 1, parent).store)
  {
    var sorted := SortByName(d.children);
    var mid := SyncChildren(acc, d, n, parent);
    SyncChildrenStep(acc, d, n, parent);
    SyncEntryGrows(mid, sorted[n], parent);
  }

  lemma {:induction false} SyncChildrenPlaces(acc: SyncState, d: Entry, n: nat, parent: Id, k: nat)
    requires d.Dir? && k < n <= |d.children|
    ensures Placed(SyncChildren(acc, d, n, parent).store, parent, SortByName(d.children)[k])
  {
    if k == n - 1 {
      SyncChildrenLast(acc, d, k, parent);
    } else {
      SyncChildrenStepGrows(acc, d, n - 1, parent);
      SyncChildrenPlaces(acc, d, n - 1, parent, k);
      PlacedGrows(SyncChildren(acc, d, n - 1, parent).store, SyncChildren(acc, d, n, parent).store, parent, SortByName(d.children)[k]);
    }
  }

  /**
   * After a full walk every entry of `d` has its counterpart under `parent`:
   * each file exists remotely by name, each subdirectory as a folder.
   */
  lemma SyncDirPlaces(acc: SyncState, d: Entry, parent: Id)
    requires d.Dir?
    ensures forall e :: e in d.children ==> Placed(SyncDir(acc, d, parent).store, parent, e)
  {
    var sorted := SortByName(d.children);
    forall e | e in d.children
      ensures Placed(SyncDir(acc, d, parent).store, parent, e)
    {
      SortedMember(d.children, e);
      var k :| 0 <= k < |sorted| && sorted[k] == e;
      SyncChildrenPlaces(acc, d, |d.children|, parent, k);
    }
  }

  // ---------------------------------------------------------------------
  // The script's objects and procedures
  // ---------------------------------------------------------------------

  /** The `stats` dictionary, updated in place by `upload_tree`. */
  class Stats {
    var created: nat
    var updated: nat
    var skipped: nat

    /** `main` starts every counter at zero. */
    constructor ()
      ensures created == 0 && updated == 0 && skipped == 0
    {
      created, updated, skipped := 0, 0, 0;
    }

    function Counts(): Tally
      reads this
    {
      Tally(created, updated, skipped)
    }

    /** The `if result == "created": ... elif ...` chain of `upload_tree`. */
    method Record(result: UploadResult)
      modifies this
      ensures Counts() == Bump(old(Counts()), result)
    {
      if result == Created {
        created := created + 1;
      } else if result == Updated {
        updated := updated + 1;
      } else if result == Skipped {
        skipped := skipped + 1;
      }
    }
  }

  /** The `tqdm` bar: `n` steps done so far and every postfix it has shown. */
  class Progress {
    const total: nat
    var n: nat
    var shown: seq<Note>

    constructor (total: nat)
      ensures this.total == total && n == 0 && shown == []
    {
      this.total := total;
      n, shown := 0, [];
    }

    /** `pbar.update(1)`. */
    method Update()
      modifies this
      ensures n == old(n) + 1 && shown == old(shown)
    {
      n := n + 1;
    }

    /** `pbar.set_postfix_str(...)`. */
    method SetPostfix(note: Note)
      modifies this
      ensures shown == old(shown) + [note] && n == old(n)
    {
      shown := shown + [note];
    }
  }

  /** The part of the world a sync run changes, read off the three objects. */
  function Snapshot(service: DriveService, stats: Stats, pbar: Progress): SyncState
    reads service, stats, pbar
  {
    SyncState(service.State(), stats.Counts(), pbar.shown)
  }

  /** `ensure_drive_folder`: list the folders called `name`, reuse the first or create one. */
  method EnsureDriveFolder(service: DriveService, name: string, parent: Id) returns (id: Id)
    modifies service
    ensures (service.State(), id) == EnsuredFolder(old(service.State()), name, parent)
  {
    var files := service.ListFolders(parent, name);
    if files != [] {
      return files[0].id;
    }
    id := service.CreateFolder(name, parent);
  }

  /** `upload_file`: update, skip or create, and say which. */
  method UploadFile(service: DriveService, localFile: Entry, parent: Id, overwrite: bool)
    returns (result: UploadResult)
    requires localFile.File?
    modifies service
    ensures (service.State(), result) == FileUploaded(old(service.State()), localFile, parent, overwrite)
  {
    var mime := MimeFor(localFile.guessedType);
    var files := service.List(parent, localFile.name);
    if files != [] && overwrite {
      service.UpdateFile(files[0].id, localFile.data);
      return Updated;
    }
    if files != [] && !overwrite {
      return Skipped;
    }
    var _ := service.CreateFile(localFile.name, parent, mime, localFile.data);
    return Created;
  }

  /** The file branch of `upload_tree`: upload, count the result, advance the bar. */
  method UploadTreeFile(service: DriveService, entry: Entry, parent: Id, pbar: Progress, stats: Stats)
    requires entry.File?
    modifies service, pbar, stats
    ensures Snapshot(service, stats, pbar) == SyncFile(old(Snapshot(service, stats, pbar)), entry, parent)
    ensures pbar.n == old(pbar.n) + 1
  {
    var overwrite := IsCsv(entry.name);
    var result := UploadFile(service, entry, parent, overwrite);
    stats.Record(result);
    pbar.Update();
    pbar.SetPostfix(Note(result, Truncate40(entry.name)));
  }

  /** One entry of `upload_tree`'s loop: a subdirectory is mirrored and walked, a file uploaded. */
  method UploadTreeEntry(service: DriveService, entry: Entry, parent: Id, pbar: Progress, stats: Stats)
    modifies service, pbar, stats
    ensures Snapshot(service, stats, pbar) == SyncEntry(old(Snapshot(service, stats, pbar)), entry, parent)
    ensures pbar.n - |pbar.shown| == old(pbar.n - |pbar.shown|)
    decreases entry, 1
  {
    if entry.Dir? {
      ghost var before := Snapshot(service, stats, pbar);
      SyncEntryDir(before, entry, parent);
      var childId := EnsureDriveFolder(service, entry.name, parent);
      ghost var inside := Snapshot(service, stats, pbar);
      assert inside == before.(store := service.State());
      UploadTree(service, entry, childId, pbar, stats);
      SyncDirCounts(inside, entry, childId);
    } else {
      UploadTreeFile(service, entry, parent, pbar, stats);
    }
  }

  /**
   * `upload_tree`: walk `localDir` in sorted order, mirroring each
   * subdirectory as a folder and uploading each file, one counter and one
   * progress step per file.
   */
  method UploadTree(service: DriveService, localDir: Entry, parent: Id, pbar: Progress, stats: Stats)
    requires localDir.Dir?
    modifies service, pbar, stats
    ensures Snapshot(service, stats, pbar) == SyncDir(old(Snapshot(service, stats, pbar)), localDir, parent)
    ensures pbar.n == old(pbar.n) + CountFiles(localDir)
    decreases localDir, 0
  {
    var entries := SortByName(localDir.children);
    ghost var start := Snapshot(service, stats, pbar);
    var i := 0;
    while i < |entries|
      invariant 0 <= i <= |entries|
      invariant Snapshot(service, stats, pbar) == SyncChildren(start, localDir, i, parent)
      invariant pbar.n - |pbar.shown| == old(pbar.n - |pbar.shown|)
    {
      SyncChildrenStep(start, localDir, i, parent);
      UploadTreeEntry(service, entries[i], parent, pbar, stats);
      i := i + 1;
    }
    SyncDirCounts(start, localDir, parent);
  }

  /** How `main` ends: the day folder is missing, or the tree was uploaded. */
  datatype DayOutcome =
    | DayMissing(available: Option<seq<string>>)
    | Uploaded(total: nat, tally: Tally)

  /** No two entries of a directory share a name, as on any real filesystem. */
  predicate UniqueNames(es: seq<Entry>)
  {
    forall i, j :: 0 <= i < j < |es| ==> es[i].name != es[j].name
  }

  /**
   * `Path(base) / date_str`, when it exists and is a directory: the
   * components of `date_str` followed down from the base folder.
   */
  function DayFolder(base: Option<Entry>, dateStr: string): (r: Option<Entry>)
    ensures r.Some? ==> base.Some? && r.value.Dir? && r == Resolve(base.value, Parts(dateStr))
    ensures r.Some? && Parts(dateStr) != [] ==> r.value.name == Parts(dateStr)[|Parts(dateStr)| - 1]
    ensures r.None? && base.Some? ==> match Resolve(base.value, Parts(dateStr))
      case None => true
      case Some(e) => e.File?
  {
    if base.Some? then
      var found := Resolve(base.value, Parts(dateStr));
      if found.Some? && found.value.Dir? then found else None
    else None
  }

  /** A plain folder name is looked up among the base folder's own entries. */
  lemma DayFolderName(base: Option<Entry>, dateStr: string)
    requires dateStr != [] && dateStr != "." && '/' !in dateStr
    ensures var r := DayFolder(base, dateStr);
      && (r.Some? ==> base.value.Dir? && r.value in base.value.children && r.value.Dir? && r.value.name == dateStr)
      && (r.None? && base.Some? && base.value.Dir? && UniqueNames(base.value.children) ==>
            forall e :: e in base.value.children && e.name == dateStr ==> e.File?)
  {
    PartsName(dateStr);
  }

  /** A date string with no components (`""`, `"."`, `"./"`) names the base folder itself. */
  lemma DayFolderBase(base: Option<Entry>, dateStr: string)
    requires Parts(dateStr) == []
    ensures base.Some? && base.value.Dir? ==> DayFolder(base, dateStr) == base
    ensures base.None? || base.value.File? ==> DayFolder(base, dateStr).None?
  {
  }

  /** `pathlib` drops a trailing `/`: `"2024-01-01/"` names the same folder as `"2024-01-01"`. */
  lemma DayPathTrailingSlash(dateStr: string)
    requires '/' !in dateStr
    ensures Parts(dateStr + "/") == Parts(dateStr)
  {
    assert FirstSlash(dateStr) == |dateStr|;
    PartsJoinPiece(dateStr, "");
    assert dateStr + "/" + "" == dateStr + "/";
  }

  /** `pathlib` drops a leading `./`. */
  lemma DayPathDotPrefix(dateStr: string)
    ensures Parts("./" + dateStr) == Parts(dateStr)
  {
    var s := "./" + dateStr;
    assert FirstSlash(s[1..]) == 0;
    assert FirstSlash(s) == 1 && s[..1] == "." && s[2..] == dateStr;
    PartsUnfold(s);
  }

  /** An empty piece contributes no component. */
  lemma EmptyPieceDropped(rest: string)
    ensures Parts("/" + rest) == Parts(rest)
  {
    var s := "/" + rest;
    assert FirstSlash(s) == 0 && s[..0] == [] && s[1..] == rest;
    PartsUnfold(s);
  }

  /** `pathlib` reads a doubled `/` as a single one. */
  lemma DayPathDoubleSlash(first: string, rest: string)
    requires '/' !in first
    ensures Parts(first + "//" + rest) == Parts(first + "/" + rest)
  {
    assert first + "/" + ("/" + rest) == first + "//" + rest;
    assert FirstSlash(first) == |first|;
    PartsJoinPiece(first, "/" + rest);
    PartsJoinPiece(first, rest);
    EmptyPieceDropped(rest);
  }

  /** `"."` has no components, so it names the base folder itself. */
  lemma DayPathDot()
    ensures Parts(".") == []
  {
    PartsUnfold(".");
  }

  /** The names of the directories among `es`, in order. */
  function DirNames(es: seq<Entry>): (names: seq<string>)
    ensures |names| <= |es|
    ensures forall e :: e in es && e.Dir? ==> e.name in names
    ensures forall n :: n in names ==> exists e :: e in es && e.Dir? && e.name == n
  {
    if es == [] then []
    else (if es[0].Dir? then [es[0].name] else []) + DirNames(es[1..])
  }

  /** The day folders `main` lists when the requested one is missing (`None`: no base directory). */
  function AvailableDays(base: Option<Entry>): Option<seq<string>>
  {
    if base.Some? && base.value.Dir? then Some(DirNames(SortByName(base.value.children))) else None
  }

  /**
   * `main`, after the date and the base folder are chosen: refuse with the
   * list of available days, before any remote call, when the day folder is
   * missing; otherwise ensure the remote day folder under `rootId` and upload
   * the whole tree into it with counters starting at zero.
   */
  method UploadDay(service: DriveService, base: Option<Entry>, dateStr: string, rootId: Id)
    returns (outcome: DayOutcome)
    modifies service
    ensures outcome.DayMissing? <==> DayFolder(base, dateStr).None?
    ensures outcome.DayMissing? ==> service.State() == old(service.State()) && outcome.available == AvailableDays(base)
    ensures outcome.Uploaded? ==>
              var day := DayFolder(base, dateStr).value;
              var (s, dayId) := EnsuredFolder(old(service.State()), dateStr, rootId);
              var run := SyncDir(SyncState(s, Tally(0, 0, 0), []), day, dayId);
              && outcome.total == CountFiles(day)
              && outcome.tally == run.tally
              && service.State() == run.store
    ensures outcome.Uploaded? ==> outcome.tally.Total() == outcome.total
  {
    var stats := new Stats();
    var day := DayFolder(base, dateStr);
    if day.None? {
      return DayMissing(AvailableDays(base));
    }
    var dayId := EnsureDriveFolder(service, dateStr, rootId);
    var totalFiles := CountFiles(day.value);
    var pbar := new Progress(totalFiles);
    ghost var start := Snapshot(service, stats, pbar);
    UploadTree(service, day.value, dayId, pbar, stats);
    SyncDirCounts(start, day.value, dayId);
    outcome := Uploaded(totalFiles, stats.Counts());
  }
}
