/**
 The vocabulary of the report: GitHub's file statuses, the four change
 types the report's notes are written for, and the note keys that combine
 a change type with the file's role (source or localization).
 */
module Status {
  import opened Wrappers
  import opened Strings

  /** The `status` of a file in GitHub's list of pull-request files. */
  datatype FileStatus = Added | Removed | Modified | Renamed | Copied | Changed | Unchanged

  /** The change types the report has notes for. */
  datatype ChangeType = Added | Removed | Changed | Unchanged

  /** The role of a tracked file: the source locale, or one of its localizations. */
  datatype Role = Source | Localization

  /** A key of the report's `notes` table, written `<role>-<change type>`. */
  datatype NoteKey = NoteKey(role: Role, change: ChangeType)

  function FileStatusName(s: FileStatus): string {
    match s
    case Added => "added"
    case Removed => "removed"
    case Modified => "modified"
    case Renamed => "renamed"
    case Copied => "copied"
    case Changed => "changed"
    case Unchanged => "unchanged"
  }

  function ChangeName(c: ChangeType): string {
    match c
    case Added => "added"
    case Removed => "removed"
    case Changed => "changed"
    case Unchanged => "unchanged"
  }

  function RoleName(r: Role): string {
    match r
    case Source => "source"
    case Localization => "localization"
  }

  /**
   statusType: renames and copies count as additions, modifications as
   changes, and every other status is passed through under its own name.
   */
  function StatusType(s: FileStatus): (r: ChangeType)
    ensures s in {FileStatus.Renamed, FileStatus.Copied} ==> r == ChangeType.Added
    ensures s == FileStatus.Modified ==> r == ChangeType.Changed
    ensures s !in {FileStatus.Renamed, FileStatus.Copied, FileStatus.Modified} ==>
      ChangeName(r) == FileStatusName(s)
  {
    match s
    case Renamed | Copied => ChangeType.Added
    case Modified => ChangeType.Changed
    case Added => ChangeType.Added
    case Removed => ChangeType.Removed
    case Changed => ChangeType.Changed
    case Unchanged => ChangeType.Unchanged
  }

  /** Which GitHub statuses land on each change type. */
  lemma StatusTypePreimage(s: FileStatus)
    ensures StatusType(s) == ChangeType.Added <==> s in {FileStatus.Added, FileStatus.Renamed, FileStatus.Copied}
    ensures StatusType(s) == ChangeType.Changed <==> s in {FileStatus.Modified, FileStatus.Changed}
    ensures StatusType(s) == ChangeType.Removed <==> s == FileStatus.Removed
    ensures StatusType(s) == ChangeType.Unchanged <==> s == FileStatus.Unchanged
  {
  }

  /** Every change type is reached by some GitHub status. */
  lemma StatusTypeOnto(c: ChangeType)
    ensures exists s: FileStatus :: StatusType(s) == c
  {
    match c
    case Added => assert StatusType(FileStatus.Added) == c;
    case Removed => assert StatusType(FileStatus.Removed) == c;
    case Changed => assert StatusType(FileStatus.Changed) == c;
    case Unchanged => assert StatusType(FileStatus.Unchanged) == c;
  }

  /** The key text `${role}-${statusType(status)}`: the role name, a `-`, then the change type's name. */
  function KeyName(k: NoteKey): (r: string)
    ensures |r| == |RoleName(k.role)| + 1 + |ChangeName(k.change)|
    ensures r[..|RoleName(k.role)|] == RoleName(k.role)
    ensures r[|RoleName(k.role)|] == '-'
    ensures r[|RoleName(k.role)| + 1..] == ChangeName(k.change)
  {
    RoleName(k.role) + "-" + ChangeName(k.change)
  }

  /** The keys of the `notes` table, in the order they are declared. */
  const NoteKeyNames: seq<string> := [
    "source-added", "source-removed", "source-changed", "source-unchanged",
    "localization-added", "localization-removed", "localization-changed", "localization-unchanged"
  ]

  function RoleFromName(s: string): Option<Role> {
    if s == "source" then Some(Source)
    else if s == "localization" then Some(Localization)
    else None
  }

  function ChangeFromName(s: string): Option<ChangeType> {
    if s == "added" then Some(ChangeType.Added)
    else if s == "removed" then Some(ChangeType.Removed)
    else if s == "changed" then Some(ChangeType.Changed)
    else if s == "unchanged" then Some(ChangeType.Unchanged)
    else None
  }

  /** Reads a key text back: the role up to the first `-`, the change type after it. */
  function ParseKey(s: string): (r: Option<NoteKey>)
    ensures r.Some? ==> KeyName(r.value) == s
  {
    match IndexOf(s, "-")
    case None => None
    case Some(i) =>
      match (RoleFromName(s[..i]), ChangeFromName(s[i + 1..]))
      case (Some(role), Some(change)) =>
        assert s == s[..i] + "-" + s[i + 1..] by {
          assert OccursAt(s, "-", i);
        }
        Some(NoteKey(role, change))
      case _ => None
  }

  /** No role name contains the separator `-`. */
  lemma RoleNameHasNoDash(r: Role, j: nat)
    requires j < |RoleName(r)|
    ensures RoleName(r)[j] != '-'
  {
  }

  /** The first `-` of `a + "-" + b` is the one after `a` when `a` has none. */
  lemma DashAfterDashFree(a: string, b: string)
    requires forall j :: 0 <= j < |a| ==> a[j] != '-'
    ensures IndexOf(a + "-" + b, "-") == Some(|a|)
  {
    var s := a + "-" + b;
    assert OccursAt(s, "-", |a|);
    forall j: nat | j < |a| ensures !OccursAt(s, "-", j) {
      assert s[j..j + 1][0] == s[j] == a[j];
    }
  }

  /** The first `-` of a key text is the one that separates the role from the change type. */
  lemma KeyNameSeparator(k: NoteKey)
    ensures IndexOf(KeyName(k), "-") == Some(|RoleName(k.role)|)
  {
    var role := RoleName(k.role);
    forall j | 0 <= j < |role| ensures role[j] != '-' {
      RoleNameHasNoDash(k.role, j);
    }
    DashAfterDashFree(role, ChangeName(k.change));
  }

  /** Role names read back to their role. */
  lemma RoleFromNameRoundTrip(r: Role)
    ensures RoleFromName(RoleName(r)) == Some(r)
  {
  }

  /** Change-type names read back to their change type. */
  lemma ChangeFromNameRoundTrip(c: ChangeType)
    ensures ChangeFromName(ChangeName(c)) == Some(c)
  {
  }

  /** Key texts read back to the key they were written from. */
  lemma ParseKeyName(k: NoteKey)
    ensures ParseKey(KeyName(k)) == Some(k)
  {
    var role, change := RoleName(k.role), ChangeName(k.change);
    KeyNameSeparator(k);
    var s := role + "-" + change;
    assert s[..|role|] == role && s[|role| + 1..] == change;
    RoleFromNameRoundTrip(k.role);
    ChangeFromNameRoundTrip(k.change);
  }

  /** Distinct keys have distinct texts, and every key text is a declared entry of `notes`. */
  lemma KeyNameDeclared(k: NoteKey, k': NoteKey)
    ensures KeyName(k) in NoteKeyNames
    ensures KeyName(k) == KeyName(k') ==> k == k'
  {
    match k {
      case NoteKey(Source, Added) => assert KeyName(k) == NoteKeyNames[0];
      case NoteKey(Source, Removed) => assert KeyName(k) == NoteKeyNames[1];
      case NoteKey(Source, Changed) => assert KeyName(k) == NoteKeyNames[2];
      case NoteKey(Source, Unchanged) => assert KeyName(k) == NoteKeyNames[3];
      case NoteKey(Localization, Added) => assert KeyName(k) == NoteKeyNames[4];
      case NoteKey(Localization, Removed) => assert KeyName(k) == NoteKeyNames[5];
      case NoteKey(Localization, Changed) => assert KeyName(k) == NoteKeyNames[6];
      case NoteKey(Localization, Unchanged) => assert KeyName(k) == NoteKeyNames[7];
    }
    ParseKeyName(k);
    ParseKeyName(k');
  }
}
