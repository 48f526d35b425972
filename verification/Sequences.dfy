/** Facts about sequences used by several modules. */
module Sequences {

  function Flatten<T>(ss: seq<seq<T>>): seq<T> {
    if ss == [] then [] else Flatten(ss[..|ss| - 1]) + ss[|ss| - 1]
  }

  lemma FlattenAppend<T>(ss: seq<seq<T>>, s: seq<T>)
    ensures Flatten(ss + [s]) == Flatten(ss) + s
  {
    assert (ss + [s])[..|ss|] == ss;
  }

  ghost predicate NoDuplicates<T>(s: seq<T>) {
    forall i, j | 0 <= i < j < |s| :: s[i] != s[j]
  }

  lemma NoDuplicatesAppend<T>(s: seq<T>, x: T)
    requires NoDuplicates(s) && x !in s
    ensures NoDuplicates(s + [x])
  {
  }

  /** In a duplicate-free concatenation the parts are disjoint and duplicate-free. */
  lemma NoDuplicatesParts<T>(s: seq<T>, t: seq<T>)
    requires NoDuplicates(s + t)
    ensures NoDuplicates(s) && NoDuplicates(t)
    ensures forall x | x in s :: x !in t
  {
    forall i, j | 0 <= i < j < |t| ensures t[i] != t[j] {
      assert (s + t)[|s| + i] == t[i] && (s + t)[|s| + j] == t[j];
    }
    forall x | x in s ensures x !in t {
      var i :| 0 <= i < |s| && s[i] == x;
      forall j | 0 <= j < |t| ensures t[j] != x {
        assert (s + t)[i] == x && (s + t)[|s| + j] == t[j];
      }
    }
    forall i, j | 0 <= i < j < |s| ensures s[i] != s[j] {
      assert (s + t)[i] == s[i] && (s + t)[j] == s[j];
    }
  }
}
