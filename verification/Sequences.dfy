/** Facts about sequences without repetition that several modules share. */
module Sequences {
  function Elements<T>(s: seq<T>): set<T> {
    set x | x in s
  }

  /** No member occurs twice, counted as the source does: `len(s) == len(set(s))`. */
  predicate Distinct<T(==)>(s: seq<T>) {
    |Elements(s)| == |s|
  }

  lemma ElementsAppend<T>(s: seq<T>, x: T)
    ensures Elements(s + [x]) == Elements(s) + {x}
  {}

  lemma ElementsPrefix<T>(s: seq<T>, i: nat)
    requires i < |s|
    ensures Elements(s[..i + 1]) == Elements(s[..i]) + {s[i]}
  {
    assert s[..i + 1] == s[..i] + [s[i]];
  }

  lemma ElementsConcat<T>(s: seq<T>, t: seq<T>)
    ensures Elements(s + t) == Elements(s) + Elements(t)
  {}

  /** The members of `s` that are wanted, in their order. */
  function Keep<T(==)>(s: seq<T>, wanted: set<T>): seq<T> {
    if s == [] then []
    else
      var last := |s| - 1;
      Keep(s[..last], wanted) + if s[last] in wanted then [s[last]] else []
  }

  lemma KeepPrefix<T>(s: seq<T>, wanted: set<T>, i: nat)
    requires i < |s|
    ensures Keep(s[..i + 1], wanted) == Keep(s[..i], wanted) + if s[i] in wanted then [s[i]] else []
  {
    assert s[..i + 1][..i] == s[..i];
  }

  lemma {:induction false} KeepElements<T>(s: seq<T>, wanted: set<T>)
    ensures Elements(Keep(s, wanted)) == Elements(s) * wanted
  {
    if s != [] {
      var last := |s| - 1;
      KeepElements(s[..last], wanted);
      assert s[..last + 1] == s;
      ElementsPrefix(s, last);
      ElementsConcat(Keep(s[..last], wanted), if s[last] in wanted then [s[last]] else []);
    }
  }

  lemma {:induction false} KeepDistinct<T>(s: seq<T>, wanted: set<T>)
    requires Distinct(s)
    ensures Distinct(Keep(s, wanted))
  {
    if s != [] {
      var last := |s| - 1;
      DistinctPrefix(s, last);
      KeepDistinct(s[..last], wanted);
      KeepElements(s[..last], wanted);
      assert s[last] !in Elements(Keep(s[..last], wanted));
      if s[last] in wanted {
        ElementsAppend(Keep(s[..last], wanted), s[last]);
      } else {
        assert Keep(s, wanted) == Keep(s[..last], wanted);
      }
    }
  }

  /** Concatenating two sequences keeps the members apart when they share none. */
  lemma DistinctConcat<T>(s: seq<T>, t: seq<T>)
    requires Distinct(s) && Distinct(t) && Elements(s) !! Elements(t)
    ensures Distinct(s + t)
  {
    ElementsConcat(s, t);
  }

  lemma {:induction false} ElementsSize<T>(s: seq<T>)
    ensures |Elements(s)| <= |s|
  {
    if s != [] {
      var last := |s| - 1;
      ElementsSize(s[..last]);
      assert s[..last + 1] == s;
      ElementsPrefix(s, last);
    }
  }

  /** In a sequence without repetition no member occurs in the prefix before it. */
  lemma {:induction false} DistinctPrefix<T>(s: seq<T>, i: nat)
    requires Distinct(s) && i <= |s|
    ensures Distinct(s[..i])
    ensures i < |s| ==> s[i] !in s[..i]
    decreases |s| - i
  {
    if i == |s| {
      assert s[..i] == s;
    } else {
      DistinctPrefix(s, i + 1);
      ElementsPrefix(s, i);
      ElementsSize(s[..i]);
    }
  }

  /** Counting members agrees with comparing every pair of positions. */
  lemma {:induction false} DistinctPairs<T>(s: seq<T>)
    ensures Distinct(s) <==> forall i, j | 0 <= i < j < |s| :: s[i] != s[j]
  {
    if Distinct(s) {
      forall i, j | 0 <= i < j < |s| ensures s[i] != s[j] {
        DistinctPrefix(s, j);
        assert s[i] in s[..j];
      }
    }
    if s != [] && forall i, j | 0 <= i < j < |s| :: s[i] != s[j] {
      var last := |s| - 1;
      DistinctPairs(s[..last]);
      ElementsPrefix(s, last);
      assert s[..last + 1] == s;
    }
  }

  /** A finite set bounds the size of each of its subsets. */
  lemma {:induction false} SubsetSize<T>(a: set<T>, b: set<T>)
    requires a <= b
    ensures |a| <= |b|
    ensures |a| == |b| ==> a == b
  {
    if a != {} {
      var x :| x in a;
      SubsetSize(a - {x}, b - {x});
    }
  }

  /** The pigeonhole principle: too long a sequence over a set repeats a member. */
  lemma Pigeonhole<T>(s: seq<T>, pool: set<T>) returns (i: nat, j: nat)
    requires Elements(s) <= pool
    requires |s| > |pool|
    ensures i < j < |s| && s[i] == s[j]
  {
    SubsetSize(Elements(s), pool);
    DistinctPairs(s);
    i, j :| 0 <= i < j < |s| && s[i] == s[j];
  }

  /** All parts one after the other. */
  function Flatten<T>(parts: seq<seq<T>>): seq<T> {
    if parts == [] then [] else Flatten(parts[..|parts| - 1]) + parts[|parts| - 1]
  }

  lemma FlattenAppend<T>(parts: seq<seq<T>>, part: seq<T>)
    ensures Flatten(parts + [part]) == Flatten(parts) + part
  {
    assert (parts + [part])[..|parts|] == parts;
  }
}
