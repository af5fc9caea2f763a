/**
 * The parts of Python's `os.path` (POSIX flavour, `posixpath`) that the converter uses to
 * take a source path apart and build the destination path.
 */
module PathOps {
  import opened Text

  const Sep: char := '/'
  const ExtSep: char := '.'

  /** Some character of `s` is not a dot. */
  predicate HasNonDot(s: string) {
    exists i :: 0 <= i < |s| && s[i] != ExtSep
  }

  /** `os.path.basename(p)`: everything after the last separator. */
  function Basename(p: string): (name: string)
    ensures Sep !in name
  {
    p[LastIndexOf(p, Sep) + 1..]
  }

  /**
   * `os.path.splitext(p)`: `(root, ext)` where `ext` starts at the last dot of the last path
   * component, unless every character of that component before the dot is a dot too
   * (so `.bashrc` and `..` have no extension).
   */
  function SplitExt(p: string): (parts: (string, string))
    ensures parts.0 + parts.1 == p
    ensures parts.1 == [] || (parts.1[0] == ExtSep && ExtSep !in parts.1[1..] && Sep !in parts.1)
  {
    var sepIndex := LastIndexOf(p, Sep);
    var dotIndex := LastIndexOf(p, ExtSep);
    if dotIndex > sepIndex && HasNonDot(p[sepIndex + 1..dotIndex]) then
      var ext := p[dotIndex..];
      assert forall k :: 0 <= k < |ext| ==> ext[k] == p[dotIndex + k];
      (p[..dotIndex], ext)
    else
      (p, [])
  }

  /** `os.path.join(a, b)` */
  function Join(a: string, b: string): string {
    if |b| > 0 && b[0] == Sep then b
    else if a == [] || a[|a| - 1] == Sep then a + b
    else a + [Sep] + b
  }

  /** `os.path.join(a, name)` for a name that does not start at the root: `a`, a separator if needed, then `name`. */
  function DirPrefix(a: string): (d: string)
    ensures d == [] || d[|d| - 1] == Sep
  {
    if a == [] || a[|a| - 1] == Sep then a else a + [Sep]
  }

  lemma JoinRelative(a: string, name: string)
    requires name == [] || name[0] != Sep
    ensures Join(a, name) == DirPrefix(a) + name
  {
  }


  /** Joining a directory and a relative file name `stem.e`. */
  lemma JoinNamed(a: string, stem: string, e: string)
    requires stem != [] && stem[0] != Sep
    ensures Join(a, stem + [ExtSep] + e) == DirPrefix(a) + stem + [ExtSep] + e
  {
    var name := stem + [ExtSep] + e;
    assert name[0] == stem[0];
    JoinRelative(a, name);
    assert DirPrefix(a) + name == DirPrefix(a) + stem + [ExtSep] + e;
  }
}
