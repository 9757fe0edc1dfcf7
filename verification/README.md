# Lunaria pull-request report: file classification

A Dafny model of the decision logic in the Lunaria GitHub Action. The action
comments on a pull request with a table of its tracked files. The model covers
how each file is labelled in that table:

- `Paths.Unroot` strips the configured root directory from a changed file's
  path (`unrootFilename`).
- `Paths.Collapse` hides the first content base that occurs in the path,
  `src/content/docs/` before `src/i18n/` (`collapseFilename`).
- `Status.StatusType` maps GitHub's file statuses onto the report's four change
  types. `Status.KeyName` writes the note key `<role>-<change type>`.
- `Classify.ClassifyFile` finds the file's entry in the tracking status. It
  decides source or localization and raises the `outdated` warning by comparing
  timestamps. `Classify.TrackedFilesRows` builds one row per tracked file, in
  order (the loop of `getTrackedFilesTable`).
- `Overview.GetStatusOverview` decides whether the pull-request title contains
  an ignore keyword. Case is ignored, and the leftmost match is quoted.

Modules: `Wrappers` (the `Option` type), `Seqs` (JavaScript's array
`findIndex` by equality and `join`, with `Split` as the reference that reads a
joined text back) and `Strings` (JavaScript's `indexOf`, `replace` with a
string pattern, and ASCII lower-casing) support `Paths`, `Status`, `Overview`
and `Classify`.

Inputs that come from outside the code are parameters:

- The tracking status that the Lunaria library computes is a
  `seq<StatusRecord>`. Each record has a source path, its localization paths
  and an optional latest-change timestamp.
- Dates are integer timestamps.
- The current time (`Date.now()`) is the parameter `now` of
  `Classify.IsOutdatedAsWritten` and `Classify.ClassifyFile`. The loop reads
  the clock at most once per file: `??` evaluates `Date.now()` only for a
  localization whose latest-change date is unknown. So
  `Classify.TrackedFilesRows` takes one potential reading per tracked file,
  `nows`, and `nows[i]` matters only in that case.

## Model

| member | source | states |
|---|---|---|
| `Strings.RemoveFirst` | action/src/index.ts:46 | `s.replace(pat, '')` removes exactly the first occurrence of the pattern: the result joins the text before and after that first occurrence, it is shorter by the pattern's length, and a string without the pattern is returned unchanged |
| `Strings.RemoveFirstPrefix` | action/src/index.ts:64 | when the pattern is a prefix, removing its first occurrence leaves exactly the rest of the string |
| `Seqs.FindIndexFrom` | action/src/index.ts:115 | `findIndex` scanning from a given index returns the first later index holding the element, or `-1` exactly when none does |
| `Seqs.FindIndex` | action/src/index.ts:115 | `findIndex((l) => l === x)` is `-1` exactly when `x` is absent, and otherwise the first index holding `x` |
| `Seqs.Join` | action/src/index.ts:69 | `join` of an empty array is empty, of one element is that element, and otherwise starts with the first element and the separator and ends with the last element |
| `Seqs.SplitJoin` | action/src/index.ts:69 | round trip: joining a non-empty list of parts that do not contain the separator character, then cutting the text at every separator, gives back the list |
| `Strings.RemoveFirstChangesIff` | action/src/index.ts:46-48 | for a non-empty base, `newFilename === filename` fails exactly when the base occurs in the filename |
| `Paths.Unroot` | action/src/index.ts:60-66 | root `.` returns the filename unchanged; when the filename starts with `root + "/"`, `root + "/" + result == filename`; otherwise the filename is returned unchanged |
| `Paths.UnrootPrefixed` | action/src/index.ts:60-65 | round trip: unrooting `root + "/" + rest` gives back `rest` for every root other than `.` |
| `Paths.CollapseWith` | action/src/index.ts:45-52 | the bases are tried in list order; if none occurs, the filename is returned; otherwise the first base that occurs anywhere is removed at its first occurrence, and the result is shorter by exactly that base's length |
| `Paths.Collapse` | action/src/index.ts:40-53 | `src/content/docs/` is removed if it occurs; else `src/i18n/` is removed if it occurs; the result equals the input exactly when neither occurs |
| `Paths.CollapseRemovesFirstOccurrence` | action/src/index.ts:46 | the docs base is cut out at its first occurrence, wherever that is |
| `Paths.CollapseHidesOneBase` | action/src/index.ts:45-50 | at most one base is removed: `src/content/docs/src/i18n/x` collapses to `src/i18n/x` |
| `Paths.CollapseInsidePath` | action/src/index.ts:41-49 | a base need not be a prefix: behind any directory without the letter `s`, such as `www/`, the docs base is cut out and the directory is kept (`www/src/content/docs/en/a.md` collapses to `www/en/a.md`) |
| `Status.StatusType` | action/src/index.ts:95-107 | `renamed` and `copied` map to `added` and `modified` maps to `changed`; every other status passes through under its own name |
| `Status.StatusTypePreimage` | action/src/index.ts:95-107 | for each change type, exactly which GitHub statuses map onto it |
| `Status.StatusTypeOnto` | action/src/index.ts:95-107 | every change type that has a note is reached by some GitHub status |
| `Status.KeyNameSeparator` | action/src/index.ts:132-133 | the first `-` of the key text `${role}-${statusType}` sits right after the role name, so it separates the role from the change type |
| `Status.ParseKey` | action/src/index.ts:132-133 | the inverse of `KeyName`, which the action never computes itself: a text that reads back as a key is exactly that key's `<role>-<change type>` text |
| `Status.ParseKeyName` | action/src/index.ts:132-133 | round trip: the text `${role}-${statusType}` reads back as the key it was written from |
| `Status.KeyNameDeclared` | action/src/index.ts:132-134 | every key the action builds is one of the eight entries of the `notes` table, and distinct keys have distinct texts, so `notes[key]` is always defined |
| `Overview.AlternativesSource` | action/src/index.ts:69 | when no keyword contains the alternation bar, cutting `keywords.join` (joined with the bar) at every bar gives exactly the model's alternatives: the keywords, or the single empty alternative for an empty list |
| `Overview.EmptyGroupSource` | action/src/index.ts:69 | the empty keyword list and the list of the empty keyword give the same source text `()` |
| `Overview.FirstAltAt` | action/src/index.ts:69-70 | at one position, the alternatives of the keyword group are tried in list order and the first that matches is taken |
| `Overview.SearchFrom` | action/src/index.ts:69-70 | the search returns the leftmost position where some alternative matches, with the first matching alternative there; it reports no match only if no alternative matches at any position up to the end of the title |
| `Overview.RegexMatch` | action/src/index.ts:69-70 | the match text is the slice of the title matched by an alternative at the leftmost position where any alternative matches, and that alternative is the first in list order that matches there; the text equals one of the alternatives up to ASCII case, that is a keyword, or the empty text for an empty list; there is no match exactly when no alternative matches anywhere |
| `Overview.GetStatusOverview` | action/src/index.ts:68-75 | `isIgnored` is `!!match`: it holds exactly when the regex match exists and is non-empty, and exactly when the overview is the untracked one, which quotes that match; an empty keyword list never ignores; a title that is ignored mentions a keyword; for non-empty keywords, `isIgnored` holds iff some keyword occurs in the title, ignoring case |
| `Overview.ConfiguredKeywordsDecide` | action/src/index.ts:301-308 | with the configured keywords, a title is ignored exactly when it mentions one of them |
| `Overview.UpperCaseKeywordIgnored` | action/src/index.ts:69-73 | `Fix TYPO` is ignored, and the overview quotes `TYPO` in the title's own case |
| `Overview.EmptyKeywordAfterMatch` | action/src/index.ts:69-74 | with keywords `typo` and the empty string, the title `typo` is ignored: `typo` is tried first at position 0 and its match is truthy |
| `Overview.EmptyKeywordShadows` | action/src/index.ts:69-74 | an empty keyword matches the empty text at position 0. That match is falsy, so a later keyword in the title is never reached |
| `Classify.Tracks` | action/src/index.ts:113-115 | the `find` predicate, written with `findIndex(...) !== -1`, holds exactly when the entry's source is the path or the path is one of its localizations |
| `Classify.FindStatusFrom` | action/src/index.ts:112-116 | `find` returns the first entry from the given index on whose source is the path or whose localizations contain it; no entry is returned only when none tracks it |
| `Classify.FindStatus` | action/src/index.ts:112-116 | the entry found is the first in sequence order that tracks the path; there is none exactly when no entry tracks it |
| `Classify.IsSourceLocale` | action/src/index.ts:120 | `fileStatus?.source?.path === rootlessFilename`: false when no entry is found; when true, the entry tracks the path; an entry tracking the path but not as a localization names it as source |
| `Classify.IsSourceLocaleIff` | action/src/index.ts:112-120 | `isSourceLocale` holds exactly when the first entry tracking the path has it as source; a missing entry means localization |
| `Classify.LatestChangeOfFirst` | action/src/index.ts:112-126 | the date `fileStatus?.source?.git?.latestTrackedChange?.date` belongs to the first entry that tracks the path, and is absent when that entry has none |
| `Classify.IsOutdatedAsWritten` | action/src/index.ts:122-129 | as written: a source file is never outdated (strict comparison against the creation date itself). A localization is outdated iff its latest source change is after creation. With no known date it is outdated iff `now` is after creation |
| `Classify.IsOutdated` | action/src/index.ts:122-129 | corrected check: outdated iff the file is not the source and a known latest source change is strictly after creation |
| `Classify.OutdatedAgreesWhenDated` | action/src/index.ts:122-129 | the corrected and as-written checks agree for every `now` whenever the file is the source or the date is known |
| `Classify.UndatedFlaggedAsWritten` | action/src/index.ts:123-129 | as written, an undated localization is flagged whenever `now` is after creation; the corrected check does not flag it |
| `Classify.OutdatedMonotone` | action/src/index.ts:129 | a later source change can only raise the warning, never clear it |
| `Classify.ClassifyFile` | action/src/index.ts:90-136 | the row as the action builds it: it links `collapse(unroot(filename))` to the file's blob URL; its change type is `statusType(status)`; its role is source iff the first tracking entry names the rootless path as source; a source row carries no warning; the `outdated` warning is raised iff the file is a localization whose latest source change, or the current time when no date is known, is after creation |
| `Classify.ClassifyFileCorrected` | action/src/index.ts:122-129 | the corrected row: the same link, key and role, and `outdated` iff the file is a localization whose known latest source change is after creation |
| `Classify.ClassifyAgreesWhenDated` | action/src/index.ts:122-136 | the row as written and the corrected row are equal for every current time, unless the file is a localization with no known date |
| `Classify.UntrackedRowFlagged` | action/src/index.ts:112-129 | a file no entry tracks, in a pull request created at 0 and processed at 1, gets `outdated` as written and no warning when corrected |
| `Classify.RowsOf` | action/src/index.ts:87-136 | the table has exactly one row per tracked file |
| `Classify.RowsOfPointwise` | action/src/index.ts:87-136 | the row at each position is the classifier applied to the file at the same position |
| `Classify.PushRows` | action/src/index.ts:87-141 | the loop pushes exactly the rows of `RowsOf`: one per item, front to back |
| `Classify.TrackedFilesRows` | action/src/index.ts:85-141 | the loop yields one row per tracked file, in the order of the tracked files; row `i` is file `i`'s row as the action builds it, with `nows[i]` standing for the clock reading its iteration makes when it needs one |

## Findings

| source | as written | input that shows it | evidently intended | confidence | as-written member | corrected member |
|---|---|---|---|---|---|---|
| action/src/index.ts:124-129 | when the latest source change date is unknown (or no status entry is found), `Date.now()` is compared with the creation date | a localization file with no tracked change date, in a pull request created at `t`, processed at `now > t`: the file gets the `outdated` warning | the comment on line 124 says such a file is assumed not to be outdated | high (not executed) | `Classify.IsOutdatedAsWritten`, `Classify.UndatedFlaggedAsWritten`, `Classify.ClassifyFile`, `Classify.UntrackedRowFlagged` | `Classify.IsOutdated`, `Classify.OutdatedAgreesWhenDated`, `Classify.ClassifyFileCorrected`, `Classify.ClassifyAgreesWhenDated` |

`Classify.ClassifyFile` and `Classify.TrackedFilesRows` model the table the
action emits, with the check as written; `Classify.UntrackedRowFlagged`
exhibits the discrepancy on one row. `Classify.ClassifyFileCorrected` is the
row with the corrected check. In every other case both rows agree
(`Classify.ClassifyAgreesWhenDated`).

## Left out

- `Seqs.Join`: its own contract fixes the empty and one-element cases and the
  two ends of the text. The whole text is pinned down through
  `Seqs.SplitJoin`, which covers parts that do not contain the separator,
  which holds for every configured keyword.
- `main` and the GitHub plumbing are not modelled: the event checks, Octokit
  calls, pagination and the comment upsert are network I/O (action/src/index.ts:152-351).
- `setWorkingDirectory` is a process side effect (`process.chdir`, `process.exit`).
- `createLunaria`, `getFullStatus` and `findFileConfig` belong to a foreign
  library. The tracking status is the input `seq<StatusRecord>`. The filter of
  changed files by `findFileConfig` is assumed done: the table's input is the
  tracked files. `getFullStatus()` is awaited once per file; the model assumes
  it returns the same status each time.
- Markdown rendering is not modelled: `markdownTable`, the `notes`, `warnings`
  and overview texts, `body` and `trackedFilesDetails`. A row holds its note
  key and warnings rather than the rendered note text. The untracked overview
  holds the matched text.
- Logging is not modelled: `core.debug`, `core.setFailed` and the `catch` path.
  Nothing in the modelled loop body throws.
- `Overview.RegexMatch`: the keywords are literal text, not regular
  expressions, and case folding is ASCII only. JavaScript's `i` flag also folds
  other letters, and a keyword containing regex metacharacters would be
  interpreted. The configured keywords contain neither.
- `Paths.Collapse`: the guard `if (!basesToHide)` at line 43 can never fire,
  because the array literal is always truthy, so it is not modelled.
- `Status.FileStatus`: GitHub statuses are the seven values of GitHub's
  pull-request files API rather than arbitrary strings. A string outside that
  set would pass through `statusType` and name no note.
- Date parsing is not modelled. `new Date(...)` of an unparsable string gives
  an invalid date, and every comparison with it is false; the model uses
  integer timestamps.
