/**
 * The pieces of POSIX path handling and string case mapping that the
 * normaliser uses to derive `file_name` and `file_ext` from the photo path:
 * `str.rfind`, `os.path.basename`, `os.path.splitext` and `str.lower`,
 * with `/` as the only separator and `.` as the extension separator.
 *
 * The functions carry no postconditions of their own; what they compute is
 * stated by the lemmas beside them, so that callers that only pass the
 * derived strings along do not pay for those facts.
 */
module PosixPath {

  const Sep: char := '/'
  const ExtSep: char := '.'

  /** `s.rfind(c)`: the index of the last occurrence of `c`, or -1. */
  function LastIndexOf(s: string, c: char): (i: int)
    ensures -1 <= i < |s|
    ensures i >= 0 ==> s[i] == c
    ensures forall j | i < j < |s| :: s[j] != c
  {
    if |s| == 0 then -1
    else if s[|s| - 1] == c then |s| - 1
    else LastIndexOf(s[..|s| - 1], c)
  }

  /** `rfind` finds the occurrence that no later occurrence follows, and -1 when there is none. */
  lemma {:induction false} LastIndexOfSplit(pre: string, c: char, post: string)
    requires c !in post
    ensures LastIndexOf(pre + [c] + post, c) == |pre|
    ensures LastIndexOf(post, c) == -1
  {
    var s := pre + [c] + post;
    assert s[|pre|] == c;
    forall j | |pre| < j < |s| ensures s[j] != c {
      assert s[j] == post[j - |pre| - 1];
    }
  }

  /** `posixpath.basename`: everything after the last separator. */
  function Basename(p: string): string {
    p[LastIndexOf(p, Sep) + 1..]
  }

  /**
   * The base name is the suffix of the path after its last separator: it
   * holds no separator, and a separator precedes it unless it is the whole
   * path.
   */
  lemma BasenameIsLastComponent(p: string)
    ensures var b := Basename(p);
            && Sep !in b
            && |b| <= |p| && p[|p| - |b|..] == b
            && (|b| < |p| ==> p[|p| - |b| - 1] == Sep)
  {
  }

  /** A concatenation splits back into its two parts. */
  lemma ConcatSlices(a: string, b: string)
    ensures (a + b)[..|a|] == a && (a + b)[|a|..] == b
  {
  }

  predicate AllExtSeps(s: string) {
    forall i | 0 <= i < |s| :: s[i] == ExtSep
  }

  /**
   * `posixpath.splitext`: the extension starts at the last `.` that comes
   * after the last `/`, unless everything between that `/` and that `.` is
   * dots (a name made only of leading dots has no extension).
   */
  function Splitext(p: string): (string, string) {
    var sepIndex := LastIndexOf(p, Sep);
    var dotIndex := LastIndexOf(p, ExtSep);
    if dotIndex > sepIndex && !AllExtSeps(p[sepIndex + 1..dotIndex]) then
      (p[..dotIndex], p[dotIndex..])
    else
      (p, [])
  }

  /**
   * The two parts put back together give the path, and an extension is a
   * `.` followed by characters that are neither `.` nor `/`.
   */
  lemma SplitextParts(p: string)
    ensures Splitext(p).0 + Splitext(p).1 == p
    ensures var e := Splitext(p).1;
            e != [] ==> e[0] == ExtSep && ExtSep !in e[1..] && Sep !in e
  {
  }

  /** A name has an extension when some `.` in it comes after a character that is not a `.`. */
  ghost predicate DotAfterStem(name: string) {
    exists i, j | 0 <= i < j < |name| :: name[i] != ExtSep && name[j] == ExtSep
  }

  /**
   * The extension `Splitext` finds is exactly the suffix of the base name
   * that starts at its last `.`, and there is one exactly when a `.` follows
   * some other character of the base name.
   */
  lemma ExtensionOfBasename(p: string)
    ensures var b := Basename(p);
            && (Splitext(p).1 != [] <==> DotAfterStem(b))
            && (Splitext(p).1 != [] ==> Splitext(p).1 == b[LastIndexOf(b, ExtSep)..])
  {
  }

  /** `dir` is empty or ends with a separator: what comes after it is the base name. */
  predicate IsDirPrefix(dir: string) {
    dir == [] || dir[|dir| - 1] == Sep
  }

  /** Where the last separator of `dir + name` lies, when `name` holds none. */
  lemma {:induction false} LastSepOfDirPrefix(dir: string, name: string)
    requires IsDirPrefix(dir) && Sep !in name
    ensures LastIndexOf(dir + name, Sep) == |dir| - 1
  {
    if dir == [] {
      assert dir + name == name;
      LastIndexOfSplit([], Sep, name);
    } else {
      assert dir + name == dir[..|dir| - 1] + [Sep] + name;
      LastIndexOfSplit(dir[..|dir| - 1], Sep, name);
    }
  }

  /** A name made of a stem, a `.` and an extension holds a separator only if one of its parts does. */
  lemma NoSepInFileName(stem: string, ext: string)
    requires Sep !in stem && Sep !in ext
    ensures Sep !in stem + [ExtSep] + ext
  {
  }

  /** `Splitext` once the last separator and the last `.` are known. */
  lemma SplitextAt(p: string, sepIndex: int, dotIndex: int)
    requires LastIndexOf(p, Sep) == sepIndex < dotIndex == LastIndexOf(p, ExtSep)
    requires !AllExtSeps(p[sepIndex + 1..dotIndex])
    ensures Splitext(p) == (p[..dotIndex], p[dotIndex..])
  {
  }

  /**
   * A file `stem.ext` in a directory: its base name is `stem.ext` and its
   * extension is `.ext`, provided the stem holds no separator and is not made
   * of dots only, and `ext` holds neither separator.
   */
  lemma {:induction false} FileNameParts(dir: string, stem: string, ext: string)
    requires IsDirPrefix(dir)
    requires Sep !in stem && !AllExtSeps(stem)
    requires Sep !in ext && ExtSep !in ext
    ensures Basename(dir + stem + [ExtSep] + ext) == stem + [ExtSep] + ext
    ensures Splitext(dir + stem + [ExtSep] + ext) == (dir + stem, [ExtSep] + ext)
  {
    var name := stem + [ExtSep] + ext;
    assert dir + stem + [ExtSep] + ext == dir + name;
    NoSepInFileName(stem, ext);
    BasenameAfterDir(dir, name);
    ExtensionAfterStem(dir, stem, ext);
  }

  /** The base name of `dir + name` is `name` when `name` holds no separator. */
  lemma {:induction false} BasenameAfterDir(dir: string, name: string)
    requires IsDirPrefix(dir) && Sep !in name
    ensures LastIndexOf(dir + name, Sep) == |dir| - 1
    ensures Basename(dir + name) == name
  {
    LastSepOfDirPrefix(dir, name);
    ConcatSlices(dir, name);
  }

  lemma {:induction false} ExtensionAfterStem(dir: string, stem: string, ext: string)
    requires IsDirPrefix(dir)
    requires Sep !in stem && !AllExtSeps(stem)
    requires Sep !in ext && ExtSep !in ext
    requires Sep !in stem + [ExtSep] + ext
    ensures Splitext(dir + stem + [ExtSep] + ext) == (dir + stem, [ExtSep] + ext)
  {
    var name := stem + [ExtSep] + ext;
    var front, back := dir + stem, [ExtSep] + ext;
    var p := dir + stem + [ExtSep] + ext;
    assert p == dir + name;
    assert p == front + back;
    ConcatSlices(front, back);
    LastSepOfDirPrefix(dir, name);
    LastIndexOfSplit(front, ExtSep, ext);
    StemInPath(dir, stem, back);
    SplitextAt(p, |dir| - 1, |front|);
  }

  /** The stem keeps its characters inside the path, so it is still not all dots there. */
  lemma StemInPath(dir: string, stem: string, back: string)
    requires !AllExtSeps(stem)
    ensures !AllExtSeps((dir + stem + back)[|dir|..|dir| + |stem|])
  {
  }

  /**
   * A dotfile (a `.` followed by a name holding no other `.`) in a directory
   * has no extension.
   */
  lemma {:induction false} DotfileHasNoExtension(dir: string, name: string)
    requires IsDirPrefix(dir)
    requires Sep !in name && ExtSep !in name
    ensures Splitext(dir + [ExtSep] + name).1 == []
  {
    var p := dir + [ExtSep] + name;
    assert Sep !in [ExtSep] + name by {
      forall j | 0 <= j < |[ExtSep] + name| ensures ([ExtSep] + name)[j] != Sep {
        if j > 0 { assert ([ExtSep] + name)[j] == name[j - 1]; }
      }
    }
    assert p == dir + ([ExtSep] + name);
    LastSepOfDirPrefix(dir, [ExtSep] + name);
    LastIndexOfSplit(dir, ExtSep, name);
    assert AllExtSeps(p[|dir|..|dir|]);
  }

  /** ASCII case mapping of one character; every other character is unchanged. */
  function LowerChar(c: char): char {
    if 'A' <= c <= 'Z' then (c as int - 'A' as int + 'a' as int) as char else c
  }

  /** `str.lower`, restricted to ASCII letters. */
  function Lower(s: string): string {
    seq(|s|, i requires 0 <= i < |s| => LowerChar(s[i]))
  }

  /**
   * Lower-casing keeps the length and every character that is not an
   * upper-case ASCII letter, maps each upper-case letter to its lower-case
   * partner, and leaves no upper-case letter behind.
   */
  lemma LowerSpec(s: string)
    ensures |Lower(s)| == |s|
    ensures forall i | 0 <= i < |s| && !('A' <= s[i] <= 'Z') :: Lower(s)[i] == s[i]
    ensures forall i | 0 <= i < |s| && 'A' <= s[i] <= 'Z' :: Lower(s)[i] as int == s[i] as int + 32
    ensures forall i | 0 <= i < |s| :: !('A' <= Lower(s)[i] <= 'Z')
  {
  }
}
