/**
 How the action turns a changed file's repository path into the path the
 tracking configuration knows (`Unroot`) and into the short text shown in
 the report's link (`Collapse`).
 */
module Paths {
  import opened Strings

  /** The content bases hidden from report links, tried in this order. */
  const DocsBase: string := "src/content/docs/"
  const I18nBase: string := "src/i18n/"
  const HiddenBases: seq<string> := [DocsBase, I18nBase]

  /**
   Strips the configured root directory from a filename; the root `.`
   means the repository root, which strips nothing.
   */
  function Unroot(root: string, filename: string): (r: string)
    ensures root == "." ==> r == filename
    ensures root != "." && root + "/" <= filename ==> root + "/" + r == filename
    ensures root != "." && !(root + "/" <= filename) ==> r == filename
  {
    if root == "." then filename
    else
      var rootDir := root + "/";
      if rootDir <= filename then
        RemoveFirstPrefix(filename, rootDir);
        RemoveFirst(filename, rootDir)
      else filename
  }

  /** Unroot undoes the prefixing of a path with a root directory. */
  lemma UnrootPrefixed(root: string, rest: string)
    requires root != "."
    ensures Unroot(root, root + "/" + rest) == rest
  {
  }

  /** `bases[i]` is the first base of the list that occurs anywhere in `filename`. */
  ghost predicate FirstHit(bases: seq<string>, filename: string, i: nat) {
    i < |bases| && Occurs(filename, bases[i]) &&
    forall j :: 0 <= j < i ==> !Occurs(filename, bases[j])
  }

  /**
   The loop of collapseFilename: each base in turn has its first occurrence
   removed, and the first base whose removal changes the name wins.
   */
  function CollapseWith(bases: seq<string>, filename: string): (r: string)
    requires forall i :: 0 <= i < |bases| ==> |bases[i]| > 0
    decreases |bases|
    ensures (forall i :: 0 <= i < |bases| ==> !Occurs(filename, bases[i])) ==> r == filename
    ensures forall i: nat :: FirstHit(bases, filename, i) ==>
      r == RemoveFirst(filename, bases[i]) && |r| == |filename| - |bases[i]|
  {
    if |bases| == 0 then filename
    else
      var newFilename := RemoveFirst(filename, bases[0]);
      RemoveFirstChangesIff(filename, bases[0]);
      if newFilename == filename then
        var r := CollapseWith(bases[1..], filename);
        assert forall i: nat :: FirstHit(bases, filename, i) ==> i > 0 && FirstHit(bases[1..], filename, i - 1);
        r
      else
        assert forall i: nat :: FirstHit(bases, filename, i) ==> i == 0;
        newFilename
  }

  /**
   collapseFilename: hides `src/content/docs/` or, failing that,
   `src/i18n/`, wherever it first occurs in the filename.
   */
  function Collapse(filename: string): (r: string)
    ensures Occurs(filename, DocsBase) ==>
      r == RemoveFirst(filename, DocsBase) && |r| == |filename| - |DocsBase|
    ensures !Occurs(filename, DocsBase) && Occurs(filename, I18nBase) ==>
      r == RemoveFirst(filename, I18nBase) && |r| == |filename| - |I18nBase|
    ensures r == filename <==> !Occurs(filename, DocsBase) && !Occurs(filename, I18nBase)
  {
    var r := CollapseWith(HiddenBases, filename);
    assert Occurs(filename, DocsBase) ==> FirstHit(HiddenBases, filename, 0);
    assert !Occurs(filename, DocsBase) && Occurs(filename, I18nBase) ==> FirstHit(HiddenBases, filename, 1);
    r
  }

  /** The hidden base is removed at its first occurrence, which need not be a prefix. */
  lemma CollapseRemovesFirstOccurrence(filename: string, i: nat)
    requires FirstOccurrence(filename, DocsBase, i)
    ensures Collapse(filename) == filename[..i] + filename[i + |DocsBase|..]
  {
  }

  /** At most one base is hidden: a docs path under the i18n base keeps that base. */
  lemma CollapseHidesOneBase(rest: string)
    ensures Collapse(DocsBase + I18nBase + rest) == I18nBase + rest
  {
    var g := I18nBase + rest;
    var f := DocsBase + g;
    assert DocsBase + I18nBase + rest == f;
    assert f[..|DocsBase|] == DocsBase && f[|DocsBase|..] == g;
    assert FirstOccurrence(f, DocsBase, 0);
    CollapseRemovesFirstOccurrence(f, 0);
  }

  /** Behind a directory without the letter `s`, the docs base first occurs right after it. */
  lemma DocsBaseAfterDir(dir: string, tail: string)
    requires forall j :: 0 <= j < |dir| ==> dir[j] != 's'
    ensures FirstOccurrence(dir + DocsBase + tail, DocsBase, |dir|)
  {
    var f := dir + DocsBase + tail;
    assert f[|dir|..|dir| + |DocsBase|] == DocsBase;
    forall j: nat | j < |dir| ensures !OccursAt(f, DocsBase, j) {
      assert f[j..j + |DocsBase|][0] == f[j] == dir[j] != DocsBase[0];
    }
  }

  /**
   A base in the middle of the path is hidden too: it need not be a prefix,
   as in `www/src/content/docs/en/a.md`, which collapses to `www/en/a.md`.
   */
  lemma CollapseInsidePath(dir: string, tail: string)
    requires forall j :: 0 <= j < |dir| ==> dir[j] != 's'
    ensures Collapse(dir + DocsBase + tail) == dir + tail
  {
    var f := dir + DocsBase + tail;
    DocsBaseAfterDir(dir, tail);
    CollapseRemovesFirstOccurrence(f, |dir|);
    assert f[..|dir|] == dir && f[|dir| + |DocsBase|..] == tail;
  }
}
