/**
 * What `splitext` and `basename` give on the path shapes the converter meets: a file name
 * with an extension, a file name without one, and a path cut at a known final dot.
 */
module PathFacts {
  import opened Text
  import opened PathOps

  /** `basename` is the part of the path after its last separator: a suffix with a separator (or nothing) before it. */
  lemma BasenameIsLastComponent(p: string)
    ensures |Basename(p)| <= |p| && p[|p| - |Basename(p)|..] == Basename(p)
    ensures |Basename(p)| < |p| ==> p[|p| - |Basename(p)| - 1] == Sep
  {
  }

  /** The last separator of a path lies before a final dot after which no separator occurs. */
  lemma SepBeforeDot(p: string, n: int)
    requires 0 <= n < |p| && p[n] == ExtSep
    requires forall k :: n < k < |p| ==> p[k] != Sep
    ensures LastIndexOf(p, Sep) < n
  {
  }

  /** Cutting a path before its final dot keeps the component that holds the dot. */
  lemma BasenameBeforeDot(p: string, n: int)
    requires 0 <= n < |p| && p[n] == ExtSep
    requires forall k :: n < k < |p| ==> p[k] != Sep
    ensures LastIndexOf(p, Sep) < n
    ensures Basename(p[..n]) == p[LastIndexOf(p, Sep) + 1..n]
  {
    SepBeforeDot(p, n);
    var sep := LastIndexOf(p, Sep);
    LastIndexOfAt(p[..n], Sep, sep);
  }

  /** `splitext` cuts at the final dot when some non-dot precedes it inside the last component. */
  lemma SplitExtAtLast(p: string, n: int)
    requires 0 <= n < |p| && p[n] == ExtSep
    requires LastIndexOf(p, ExtSep) == n
    requires LastIndexOf(p, Sep) < n
    requires HasNonDot(p[LastIndexOf(p, Sep) + 1..n])
    ensures SplitExt(p) == (p[..n], p[n..])
  {
  }

  /** The indices `splitext` looks up, for a path whose last dot is at `n` with no separator after it. */
  lemma IndicesBeforeDot(p: string, n: int)
    requires 0 <= n < |p| && p[n] == ExtSep
    requires forall k :: n < k < |p| ==> p[k] != ExtSep && p[k] != Sep
    requires HasNonDot(Basename(p[..n]))
    ensures LastIndexOf(p, ExtSep) == n
    ensures LastIndexOf(p, Sep) < n && HasNonDot(p[LastIndexOf(p, Sep) + 1..n])
  {
    LastIndexOfAt(p, ExtSep, n);
    BasenameBeforeDot(p, n);
  }

  /** `splitext` of a path whose last dot is at `n`, with no separator after it and a non-dot character before it in the file name. */
  lemma SplitExtAt(p: string, n: int)
    requires 0 <= n < |p| && p[n] == ExtSep
    requires forall k :: n < k < |p| ==> p[k] != ExtSep && p[k] != Sep
    requires HasNonDot(Basename(p[..n]))
    ensures SplitExt(p) == (p[..n], p[n..])
  {
    IndicesBeforeDot(p, n);
    SplitExtAtLast(p, n);
  }

  /** In `dir + stem + "." + e`, the last separator is the one that ends `dir`. */
  lemma {:induction false} LastSepOfNamed(dir: string, stem: string, e: string)
    requires dir == [] || dir[|dir| - 1] == Sep
    requires Sep !in stem && Sep !in e
    ensures LastIndexOf(dir + stem + [ExtSep] + e, Sep) == |dir| - 1
  {
    var p := dir + stem + [ExtSep] + e;
    var dot := |dir| + |stem|;
    forall i | |dir| <= i < |p| ensures p[i] != Sep {
      if i < dot {
        assert p[i] == stem[i - |dir|];
      } else if i > dot {
        assert p[i] == e[i - dot - 1];
      }
    }
    if dir != [] {
      assert p[|dir| - 1] == Sep;
    }
    LastIndexOfAt(p, Sep, |dir| - 1);
  }

  /** In `dir + stem + "." + e` with no dot in `e`, the last dot is the one before `e`. */
  lemma {:induction false} LastDotOfNamed(dir: string, stem: string, e: string)
    requires ExtSep !in e
    ensures LastIndexOf(dir + stem + [ExtSep] + e, ExtSep) == |dir| + |stem|
  {
    var p := dir + stem + [ExtSep] + e;
    var dot := |dir| + |stem|;
    assert p[dot] == ExtSep;
    forall i | dot < i < |p| ensures p[i] != ExtSep {
      assert p[i] == e[i - dot - 1];
    }
    LastIndexOfAt(p, ExtSep, dot);
  }

  /** A path splits at `dot` once its last dot and its last separator are known and a non-dot lies between them. */
  lemma SplitExtBetween(p: string, sep: int, dot: int)
    requires LastIndexOf(p, Sep) == sep && LastIndexOf(p, ExtSep) == dot
    requires sep < dot && HasNonDot(p[sep + 1..dot])
    ensures SplitExt(p) == (p[..dot], p[dot..])
  {
  }

  /** `basename` of a path whose last separator is at `sep`. */
  lemma BasenameAfter(p: string, sep: int)
    requires LastIndexOf(p, Sep) == sep
    ensures Basename(p) == p[sep + 1..]
  {
  }

  /** The slices of `dir + stem + "." + e` around the dot. */
  lemma NamedSlices(dir: string, stem: string, e: string)
    ensures (dir + stem + [ExtSep] + e)[..|dir| + |stem|] == dir + stem
    ensures (dir + stem + [ExtSep] + e)[|dir| + |stem|..] == [ExtSep] + e
    ensures (dir + stem + [ExtSep] + e)[|dir|..|dir| + |stem|] == stem
    ensures (dir + stem + [ExtSep] + e)[|dir|..] == stem + [ExtSep] + e
  {
    var p := dir + stem + [ExtSep] + e;
    assert p == (dir + stem) + ([ExtSep] + e);
    assert p[|dir|..] == stem + [ExtSep] + e;
  }

  /**
   * A path whose last component is `stem.e`, with a non-dot character in `stem` and no dot
   * in `e`, splits at that dot.
   */
  lemma {:induction false} SplitExtOfNamed(dir: string, stem: string, e: string)
    requires dir == [] || dir[|dir| - 1] == Sep
    requires Sep !in stem && HasNonDot(stem)
    requires Sep !in e && ExtSep !in e
    ensures SplitExt(dir + stem + [ExtSep] + e) == (dir + stem, [ExtSep] + e)
    ensures Basename(dir + stem + [ExtSep] + e) == stem + [ExtSep] + e
  {
    var p := dir + stem + [ExtSep] + e;
    var dot := |dir| + |stem|;
    LastSepOfNamed(dir, stem, e);
    LastDotOfNamed(dir, stem, e);
    NamedSlices(dir, stem, e);
    SplitExtBetween(p, |dir| - 1, dot);
    BasenameAfter(p, |dir| - 1);
  }

  /** `splitext` finds no extension when the last dot is not preceded by a non-dot inside the last component. */
  lemma SplitExtNone(p: string, sep: int, dot: int)
    requires LastIndexOf(p, Sep) == sep && LastIndexOf(p, ExtSep) == dot
    requires !(dot > sep && HasNonDot(p[sep + 1..dot]))
    ensures SplitExt(p) == (p, [])
  {
  }

  /** Between the last separator and a dot that only dots precede, there is no non-dot. */
  lemma OnlyDotsBefore(p: string, sep: int, dot: int)
    requires -1 <= sep < dot < |p| && p[dot] == ExtSep
    requires forall i, j :: sep < j < i < |p| && p[i] == ExtSep ==> p[j] == ExtSep
    ensures !HasNonDot(p[sep + 1..dot])
  {
    forall k | sep < k < dot ensures p[k] == ExtSep {
    }
  }

  /** A path with no dot after its last separator, other than leading dots of the file name, has no extension. */
  lemma NoExtensionAfter(p: string, sep: int)
    requires LastIndexOf(p, Sep) == sep
    requires forall i, j :: sep < j < i < |p| && p[i] == ExtSep ==> p[j] == ExtSep
    ensures SplitExt(p) == (p, [])
  {
    var dot := LastIndexOf(p, ExtSep);
    if dot > sep {
      OnlyDotsBefore(p, sep, dot);
    }
    SplitExtNone(p, sep, dot);
  }

  /** In `dir + name` with no separator in `name`, the last separator is the one that ends `dir`. */
  lemma LastSepOfJoined(dir: string, name: string)
    requires dir == [] || dir[|dir| - 1] == Sep
    requires Sep !in name
    ensures LastIndexOf(dir + name, Sep) == |dir| - 1
  {
    var p := dir + name;
    forall i | |dir| <= i < |p| ensures p[i] != Sep {
      assert p[i] == name[i - |dir|];
    }
    LastIndexOfAt(p, Sep, |dir| - 1);
  }

  /**
   * A path whose last component `name` has only leading dots (or none at all) has no
   * extension.
   */
  lemma {:induction false} SplitExtOfUndotted(dir: string, name: string)
    requires dir == [] || dir[|dir| - 1] == Sep
    requires Sep !in name
    requires forall i, j :: 0 <= j < i < |name| && name[i] == ExtSep ==> name[j] == ExtSep
    ensures SplitExt(dir + name) == (dir + name, [])
    ensures Basename(dir + name) == name
  {
    var p := dir + name;
    LastSepOfJoined(dir, name);
    forall i, j | |dir| - 1 < j < i < |p| && p[i] == ExtSep ensures p[j] == ExtSep {
      assert p[i] == name[i - |dir|] && p[j] == name[j - |dir|];
    }
    NoExtensionAfter(p, |dir| - 1);
    BasenameAfter(p, |dir| - 1);
    assert p[|dir|..] == name;
  }
}
