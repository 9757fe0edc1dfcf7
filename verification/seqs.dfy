/**
 The JavaScript array operations the action relies on, over `seq`:
 `findIndex` by equality and `join`, with `Split` as the reference that
 reads a joined text back into its parts.
 */
module Seqs {

  /** `xs.findIndex((y) => y === x)` from index `from` on, with JavaScript's `-1` for none. */
  function FindIndexFrom<T(==)>(xs: seq<T>, x: T, from: nat): (r: int)
    decreases |xs| - from
    ensures r == -1 || (from <= r < |xs| && xs[r] == x)
    ensures r == -1 <==> forall j :: from <= j < |xs| ==> xs[j] != x
    ensures r != -1 ==> forall j :: from <= j < r ==> xs[j] != x
  {
    if from >= |xs| then -1
    else if xs[from] == x then from
    else FindIndexFrom(xs, x, from + 1)
  }

  /** `xs.findIndex((y) => y === x)`: the first index holding `x`, or `-1` when `x` is absent. */
  function FindIndex<T(==)>(xs: seq<T>, x: T): (r: int)
    ensures r == -1 <==> x !in xs
    ensures r != -1 ==> 0 <= r < |xs| && xs[r] == x && forall j :: 0 <= j < r ==> xs[j] != x
  {
    FindIndexFrom(xs, x, 0)
  }

  /**
   `xs.join(sep)`: the elements with `sep` between neighbours; an empty
   array joins to the empty string.
   */
  function Join(xs: seq<string>, sep: string): (r: string)
    decreases |xs|
    ensures |xs| == 0 ==> r == ""
    ensures |xs| == 1 ==> r == xs[0]
    ensures |xs| > 1 ==> xs[0] + sep <= r
    ensures |xs| > 0 ==> |xs[|xs| - 1]| <= |r| && r[|r| - |xs[|xs| - 1]|..] == xs[|xs| - 1]
  {
    if |xs| == 0 then ""
    else if |xs| == 1 then xs[0]
    else
      var rest := Join(xs[1..], sep);
      var r := xs[0] + sep + rest;
      assert r[|r| - |rest|..] == rest;
      r
  }

  /**
   The text cut at every `sep`: the parts between consecutive separators,
   in order. A text without `sep` is a single part.
   */
  function Split(s: string, sep: char): (parts: seq<string>)
    decreases |s|
    ensures |parts| > 0
    ensures sep !in s ==> parts == [s]
  {
    var i := FindIndex(s, sep);
    if i == -1 then [s] else [s[..i]] + Split(s[i + 1..], sep)
  }

  /** The first `sep` of `first + [sep] + rest` is the one after `first` when `first` has none. */
  lemma FindIndexAfter(first: string, sep: char, rest: string)
    requires sep !in first
    ensures FindIndex(first + [sep] + rest, sep) == |first|
  {
    var s := first + [sep] + rest;
    assert s[|first|] == sep;
    forall j | 0 <= j < |first| ensures s[j] != sep {
      assert s[j] == first[j];
    }
  }

  /** Splitting `first + [sep] + rest` cuts off `first` and splits the rest. */
  lemma SplitStep(first: string, sep: char, rest: string)
    requires sep !in first
    ensures Split(first + [sep] + rest, sep) == [first] + Split(rest, sep)
  {
    var s := first + [sep] + rest;
    FindIndexAfter(first, sep, rest);
    assert s[..|first|] == first && s[|first| + 1..] == rest;
  }

  /** A list of two or more parts joins to its first part, the separator, and the rest joined. */
  lemma JoinCons(xs: seq<string>, sep: string)
    requires |xs| > 1
    ensures Join(xs, sep) == xs[0] + sep + Join(xs[1..], sep)
  {
  }

  /** One step of the round trip: if the tail survives joining and splitting, so does the whole list. */
  lemma SplitJoinStep(xs: seq<string>, sep: char)
    requires |xs| > 1 && sep !in xs[0]
    requires Split(Join(xs[1..], [sep]), sep) == xs[1..]
    ensures Split(Join(xs, [sep]), sep) == xs
  {
    JoinCons(xs, [sep]);
    SplitStep(xs[0], sep, Join(xs[1..], [sep]));
    assert xs == [xs[0]] + xs[1..];
  }

  /**
   Joining parts that do not contain the separator and splitting the text
   again gives back the parts.
   */
  lemma {:induction false} SplitJoin(xs: seq<string>, sep: char)
    requires |xs| > 0
    requires forall i :: 0 <= i < |xs| ==> sep !in xs[i]
    ensures Split(Join(xs, [sep]), sep) == xs
    decreases |xs|
  {
    if |xs| == 1 {
      assert sep !in xs[0];
    } else {
      assert sep !in xs[0];
      SplitJoin(xs[1..], sep);
      SplitJoinStep(xs, sep);
    }
  }
}
