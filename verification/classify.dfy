/**
 The per-file classification inside getTrackedFilesTable: each tracked
 file of the pull request is looked up in the tracking status, labelled as
 a source or a localization change, checked for being outdated, and turned
 into one row of the report's file table.
 */
module Classify {
  import opened Wrappers
  import opened Strings
  import opened Seqs
  import opened Paths
  import opened Status

  /**
   One entry of the tracking status: a source file, the paths of its
   localizations, and the timestamp of the latest tracked change to the
   source, when one is known.
   */
  datatype StatusRecord = StatusRecord(source: string, localizations: seq<string>, latestChange: Option<int>)

  /** A changed file of the pull request. */
  datatype TrackedFile = TrackedFile(filename: string, status: FileStatus, blobUrl: string)

  /** The warnings a row can carry. */
  datatype Warning = Outdated

  /** A row of the file table: the link text and target, the note key and the warnings. */
  datatype Row = Row(path: string, blobUrl: string, key: NoteKey, warnings: seq<Warning>)

  /** The entry is about `path`, as its source or as one of its localizations. */
  predicate Tracks(rec: StatusRecord, path: string): (r: bool)
    ensures r <==> rec.source == path || path in rec.localizations
  {
    rec.source == path || FindIndex(rec.localizations, path) != -1
  }

  /** `fullStatus.find(...)` from index `from` on, returning the index of the entry found. */
  function FindStatusFrom(records: seq<StatusRecord>, path: string, from: nat): (r: Option<nat>)
    decreases |records| - from
    ensures r.Some? ==> from <= r.value < |records| && Tracks(records[r.value], path)
    ensures r.Some? ==> forall j :: from <= j < r.value ==> !Tracks(records[j], path)
    ensures r.None? ==> forall j :: from <= j < |records| ==> !Tracks(records[j], path)
  {
    if from >= |records| then None
    else if Tracks(records[from], path) then Some(from)
    else FindStatusFrom(records, path, from + 1)
  }

  /** The status entry of `path`: the first entry, in order, that tracks it. */
  function FindStatus(records: seq<StatusRecord>, path: string): (r: Option<StatusRecord>)
    ensures r.Some? ==>
      exists i :: 0 <= i < |records| && records[i] == r.value &&
        Tracks(records[i], path) && forall j :: 0 <= j < i ==> !Tracks(records[j], path)
    ensures r.None? <==> forall j :: 0 <= j < |records| ==> !Tracks(records[j], path)
  {
    match FindStatusFrom(records, path, 0)
    case None => None
    case Some(i) => Some(records[i])
  }

  /** `isSourceLocale`: the entry found has `path` as its source. */
  predicate IsSourceLocale(entry: Option<StatusRecord>, path: string): (r: bool)
    ensures entry.None? ==> !r
    ensures r ==> entry.Some? && Tracks(entry.value, path)
    ensures entry.Some? && Tracks(entry.value, path) && path !in entry.value.localizations ==> r
  {
    entry.Some? && entry.value.source == path
  }

  /** Reference definition: the first entry tracking `path` names it as its source. */
  ghost predicate IsSourceFile(records: seq<StatusRecord>, path: string) {
    exists i :: 0 <= i < |records| && records[i].source == path &&
      forall j :: 0 <= j < i ==> !Tracks(records[j], path)
  }

  /** The role of a file is source exactly when its first tracking entry names it as source. */
  lemma IsSourceLocaleIff(records: seq<StatusRecord>, path: string)
    ensures IsSourceLocale(FindStatus(records, path), path) <==> IsSourceFile(records, path)
  {
  }

  /** The latest tracked change of the entry's source, if the entry and its date exist. */
  function LatestChange(entry: Option<StatusRecord>): (r: Option<int>)
    ensures entry.None? ==> r.None?
    ensures entry.Some? ==> r == entry.value.latestChange
  {
    if entry.Some? then entry.value.latestChange else None
  }

  /** The date looked up for `path` is the one of the first entry that tracks it. */
  lemma LatestChangeOfFirst(records: seq<StatusRecord>, path: string, i: nat)
    requires i < |records| && Tracks(records[i], path)
    requires forall j :: 0 <= j < i ==> !Tracks(records[j], path)
    ensures LatestChange(FindStatus(records, path)) == records[i].latestChange
  {
  }

  /**
   The outdated check as the action writes it: a source file is compared
   against the creation date itself; any other file against the latest
   tracked change, or against the current time `now` when that is unknown.
   */
  function IsOutdatedAsWritten(entry: Option<StatusRecord>, path: string, createdAt: int, now: int): (r: bool)
    ensures IsSourceLocale(entry, path) ==> !r
    ensures !IsSourceLocale(entry, path) && LatestChange(entry).Some? ==>
      (r <==> LatestChange(entry).value > createdAt)
    ensures !IsSourceLocale(entry, path) && LatestChange(entry).None? ==> (r <==> now > createdAt)
  {
    var latestSourceChange :=
      if !IsSourceLocale(entry, path) then
        (if LatestChange(entry).Some? then LatestChange(entry).value else now)
      else createdAt;
    latestSourceChange > createdAt
  }

  /**
   The outdated check as its comment describes it: a file is outdated only
   when it is not the source and its source has a known tracked change
   strictly after the pull request was created.
   */
  function IsOutdated(entry: Option<StatusRecord>, path: string, createdAt: int): (r: bool)
    ensures r ==> !IsSourceLocale(entry, path)
    ensures r <==> !IsSourceLocale(entry, path) && LatestChange(entry).Some? && LatestChange(entry).value > createdAt
  {
    match LatestChange(entry)
    case None => false
    case Some(date) => !IsSourceLocale(entry, path) && date > createdAt
  }

  /** The two checks agree whenever the date is known or the file is the source. */
  lemma OutdatedAgreesWhenDated(entry: Option<StatusRecord>, path: string, createdAt: int, now: int)
    requires IsSourceLocale(entry, path) || LatestChange(entry).Some?
    ensures IsOutdated(entry, path, createdAt) == IsOutdatedAsWritten(entry, path, createdAt, now)
  {
  }

  /**
   As written, a localization whose source change date is unknown is
   flagged as outdated whenever the action runs after the pull request was
   created, which is what the comment says must not happen.
   */
  lemma UndatedFlaggedAsWritten(path: string, createdAt: int, now: int)
    requires now > createdAt
    ensures IsOutdatedAsWritten(None, path, createdAt, now)
    ensures !IsOutdated(None, path, createdAt)
  {
  }

  /** A newer source change can only raise the outdated warning, never clear it. */
  lemma OutdatedMonotone(rec: StatusRecord, path: string, createdAt: int, later: int)
    requires rec.latestChange.Some? && rec.latestChange.value <= later
    ensures IsOutdated(Some(rec), path, createdAt) ==>
      IsOutdated(Some(rec.(latestChange := Some(later))), path, createdAt)
  {
  }

  /**
   Classifies one tracked file into its row of the report, as the action
   does it: the outdated check is `IsOutdatedAsWritten`, with `now` standing
   for `Date.now()`.
   */
  function ClassifyFile(root: string, records: seq<StatusRecord>, file: TrackedFile, createdAt: int, now: int): (r: Row)
    ensures r.path == Collapse(Unroot(root, file.filename))
    ensures r.blobUrl == file.blobUrl
    ensures r.key.change == StatusType(file.status)
    ensures r.key.role == Source <==> IsSourceFile(records, Unroot(root, file.filename))
    ensures r.key.role == Source ==> r.warnings == []
    ensures r.warnings == [] || r.warnings == [Outdated]
    ensures r.warnings == [Outdated] <==>
      r.key.role == Localization &&
      match LatestChange(FindStatus(records, Unroot(root, file.filename)))
      case Some(date) => date > createdAt
      case None => now > createdAt
  {
    var rootlessFilename := Unroot(root, file.filename);
    var collapsedPath := Collapse(rootlessFilename);
    var fileStatus := FindStatus(records, rootlessFilename);
    var isSourceLocale := IsSourceLocale(fileStatus, rootlessFilename);
    IsSourceLocaleIff(records, rootlessFilename);
    var foundWarnings := if IsOutdatedAsWritten(fileStatus, rootlessFilename, createdAt, now) then [Outdated] else [];
    var key := NoteKey(if isSourceLocale then Source else Localization, StatusType(file.status));
    Row(collapsedPath, file.blobUrl, key, foundWarnings)
  }

  /**
   The row with the corrected outdated check `IsOutdated`: the same link,
   note key and role, but an undated localization is not flagged.
   */
  function ClassifyFileCorrected(root: string, records: seq<StatusRecord>, file: TrackedFile, createdAt: int): (r: Row)
    ensures r.path == Collapse(Unroot(root, file.filename))
    ensures r.blobUrl == file.blobUrl
    ensures r.key.change == StatusType(file.status)
    ensures r.key.role == Source <==> IsSourceFile(records, Unroot(root, file.filename))
    ensures r.key.role == Source ==> r.warnings == []
    ensures r.warnings == [] || r.warnings == [Outdated]
    ensures r.warnings == [Outdated] <==>
      r.key.role == Localization &&
      LatestChange(FindStatus(records, Unroot(root, file.filename))).Some? &&
      LatestChange(FindStatus(records, Unroot(root, file.filename))).value > createdAt
  {
    var rootlessFilename := Unroot(root, file.filename);
    var fileStatus := FindStatus(records, rootlessFilename);
    var row := ClassifyFile(root, records, file, createdAt, createdAt);
    row.(warnings := if IsOutdated(fileStatus, rootlessFilename, createdAt) then [Outdated] else [])
  }

  /** The two rows agree, for every `now`, unless the file is a localization with no known date. */
  lemma ClassifyAgreesWhenDated(root: string, records: seq<StatusRecord>, file: TrackedFile, createdAt: int, now: int)
    requires IsSourceFile(records, Unroot(root, file.filename)) ||
      LatestChange(FindStatus(records, Unroot(root, file.filename))).Some?
    ensures ClassifyFile(root, records, file, createdAt, now) == ClassifyFileCorrected(root, records, file, createdAt)
  {
  }

  /**
   A file no status entry tracks, in a pull request created at 0 and
   processed at 1: the row as written carries `outdated`, the corrected
   row does not.
   */
  lemma UntrackedRowFlagged()
    ensures ClassifyFile(".", [], TrackedFile("a", FileStatus.Added, "u"), 0, 1).warnings == [Outdated]
    ensures ClassifyFileCorrected(".", [], TrackedFile("a", FileStatus.Added, "u"), 0).warnings == []
  {
  }

  /** The rows pushed for `items`, front to back: `classify` applied to each item in turn. */
  function RowsOf<A>(classify: A -> Row, items: seq<A>): (rows: seq<Row>)
    decreases |items|
    ensures |rows| == |items|
  {
    if |items| == 0 then []
    else RowsOf(classify, items[..|items| - 1]) + [classify(items[|items| - 1])]
  }

  /** Each row of the table is the classification of the item at the same position. */
  lemma {:induction false} RowsOfPointwise<A>(classify: A -> Row, items: seq<A>, i: int)
    requires 0 <= i < |items|
    ensures RowsOf(classify, items)[i] == classify(items[i])
    decreases |items|
  {
    var last := |items| - 1;
    if i < last {
      RowsOfPointwise(classify, items[..last], i);
    }
  }

  /** The loop that pushes one row per item, front to back. */
  method PushRows<A>(classify: A -> Row, items: seq<A>) returns (rows: seq<Row>)
    ensures rows == RowsOf(classify, items)
  {
    rows := [];
    var n := 0;
    while n < |items|
      invariant n <= |items|
      invariant rows == RowsOf(classify, items[..n])
    {
      assert items[..n + 1][..n] == items[..n];
      rows := rows + [classify(items[n])];
      n := n + 1;
    }
    assert items[..n] == items;
  }

  /**
   getTrackedFilesTable's loop: one row per tracked file, in the order of
   the files. A file's iteration reads the clock only when the file is a
   localization with no known date, so `nows[i]` stands for the reading
   file `i` would get.
   */
  method TrackedFilesRows(root: string, records: seq<StatusRecord>, trackedFiles: seq<TrackedFile>, createdAt: int, nows: seq<int>)
    returns (rows: seq<Row>)
    requires |nows| == |trackedFiles|
    ensures |rows| == |trackedFiles|
    ensures forall i :: 0 <= i < |trackedFiles| ==>
      rows[i] == ClassifyFile(root, records, trackedFiles[i], createdAt, nows[i])
  {
    var items := seq(|trackedFiles|, i requires 0 <= i < |trackedFiles| => (trackedFiles[i], nows[i]));
    var classify := (item: (TrackedFile, int)) => ClassifyFile(root, records, item.0, createdAt, item.1);
    rows := PushRows(classify, items);
    forall i | 0 <= i < |trackedFiles|
      ensures rows[i] == ClassifyFile(root, records, trackedFiles[i], createdAt, nows[i])
    {
      RowsOfPointwise(classify, items, i);
    }
  }
}
