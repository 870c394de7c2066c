/**
 * FilesystemUtil: the pure path helpers. normalize_path trims whitespace,
 * squeezes runs of '/' into one and drops one trailing '/'; filename,
 * directory and parent_directory split the normalised path at its last '/';
 * is_directory inspects a stat record that is never filled in.
 */
module FilesystemUtil {
  import opened StrUtil
  import opened Wrappers

  /** No two '/' next to each other. */
  predicate NoDoubleSlash(s: string)
  {
    forall i :: 0 <= i < |s| - 1 ==> !(s[i] == '/' && s[i + 1] == '/')
  }

  /** normalize_path's copy loop as a definition: append each character unless it is a '/' right after a '/'. */
  function Squeeze(t: string): (r: string)
    ensures |r| <= |t|
    ensures t != [] ==> r != [] && r[0] == t[0] && r[|r| - 1] == t[|t| - 1]
  {
    if t == [] then []
    else
      var r := Squeeze(t[..|t| - 1]);
      var c := t[|t| - 1];
      if c == '/' && r != [] && r[|r| - 1] == '/' then r else r + [c]
  }

  /** Squeezing leaves no double '/'. */
  lemma {:induction false} SqueezeNoDoubleSlash(t: string)
    ensures NoDoubleSlash(Squeeze(t))
  {
    if t != [] {
      SqueezeNoDoubleSlash(t[..|t| - 1]);
    }
  }

  /** A path without double '/' is copied unchanged. */
  lemma {:induction false} SqueezePlain(t: string)
    requires NoDoubleSlash(t)
    ensures Squeeze(t) == t
  {
    if t != [] {
      SqueezePlain(t[..|t| - 1]);
    }
  }

  /** Squeezing works piecewise, except across a "//" at the seam. */
  lemma {:induction false} SqueezeConcat(a: string, b: string)
    requires a == [] || b == [] || a[|a| - 1] != '/' || b[0] != '/'
    ensures Squeeze(a + b) == Squeeze(a) + Squeeze(b)
    decreases |b|
  {
    if b == [] {
      assert a + b == a;
    } else {
      var b', c := b[..|b| - 1], b[|b| - 1];
      assert (a + b)[..|a + b| - 1] == a + b';
      SqueezeConcat(a, b');
      var x, r := Squeeze(a), Squeeze(b');
      assert Squeeze(a + b) == if c == '/' && x + r != [] && (x + r)[|x + r| - 1] == '/' then x + r else (x + r) + [c];
      assert Squeeze(b) == if c == '/' && r != [] && r[|r| - 1] == '/' then r else r + [c];
      if b' == [] {
        assert a + b' == a;
      } else {
        assert (x + r)[|x + r| - 1] == r[|r| - 1];
      }
      AppendAssoc(x, r, c);
    }
  }

  lemma {:induction false} AppendAssoc(x: string, r: string, c: char)
    ensures (x + r) + [c] == x + (r + [c])
  {
  }

  /** What normalize_path returns. */
  function Normalize(s: string): string
  {
    var r := Squeeze(Trim(s));
    if r != [] && r[|r| - 1] == '/' then r[..|r| - 1] else r
  }

  /**
   * The shape of a normalised path: no double '/', no trailing '/', no longer
   * than the input, and no leading whitespace.
   */
  lemma {:induction false} NormalizeShape(s: string)
    ensures NoDoubleSlash(Normalize(s))
    ensures Normalize(s) == [] || Normalize(s)[|Normalize(s)| - 1] != '/'
    ensures |Normalize(s)| <= |s|
    ensures Normalize(s) == [] || !IsSpace(Normalize(s)[0])
  {
    var r := Squeeze(Trim(s));
    SqueezeNoDoubleSlash(Trim(s));
  }

  /**
   * normalize_path: the two trimming loops of trim_whitespace, then a copy
   * that skips a '/' following a '/', then one trailing '/' erased.
   */
  method NormalizePath(str: string) returns (result: string)
    ensures result == Normalize(str)
    ensures NoDoubleSlash(result) && (result == [] || result[|result| - 1] != '/')
    ensures |result| <= |str| && (result == [] || !IsSpace(result[0]))
  {
    var copy := EraseLeadingSpace(str);
    copy := EraseTrailingSpace(copy);
    result := [];
    for i := 0 to |copy|
      invariant result == Squeeze(copy[..i])
    {
      assert copy[..i + 1][..i] == copy[..i];
      if copy[i] == '/' && result != [] && result[|result| - 1] == '/' {
        continue;
      }
      result := result + [copy[i]];
    }
    assert copy[..|copy|] == copy;
    if result != [] && result[|result| - 1] == '/' {
      result := result[..|result| - 1];
    }
    NormalizeShape(str);
  }

  /** normalize_path is not idempotent: a '/' dropped from the end can uncover whitespace. */
  lemma {:induction false} NormalizeNotIdempotent()
    ensures Normalize("a /") == "a "
    ensures Normalize(Normalize("a /")) == "a"
  {
    NormalizeSpaceSlash();
    NormalizeSpace();
  }

  /** "a /" keeps its space: only the '/' goes, after trimming. */
  lemma {:induction false} NormalizeSpaceSlash()
    ensures Normalize("a /") == "a "
  {
    var s := "a /";
    assert TrimLeft(s) == s && TrimRight(s) == s;
    SqueezePlain(s);
    assert s[..2] == "a ";
  }

  /** A second pass trims the space that the first pass exposed. */
  lemma {:induction false} NormalizeSpace()
    ensures Normalize("a ") == "a"
  {
    var s := "a ";
    assert TrimLeft(s) == s;
    assert s[..1] == "a";
    assert TrimRight(s) == "a";
    assert Squeeze("a") == "a";
  }

  /** std::string::find_last_of of one character: the last position holding c, if any. */
  function LastIndexOf(s: string, c: char): (pos: Option<nat>)
    ensures pos.None? ==> c !in s
    ensures pos.Some? ==> pos.value < |s| && s[pos.value] == c
    ensures pos.Some? ==> c !in s[pos.value + 1..]
  {
    if s == [] then None
    else if s[|s| - 1] == c then Some(|s| - 1)
    else
      var p := LastIndexOf(s[..|s| - 1], c);
      assert p.Some? ==> s[p.value + 1..] == s[..|s| - 1][p.value + 1..] + [s[|s| - 1]];
      p
  }

  /** S_ISDIR: the file-type bits of st_mode say "directory". */
  predicate IsDirMode(mode: nat)
  {
    mode % 0x10000 / 0x1000 == 4
  }

  /** st_mode of the zero-initialised stat record that is_directory inspects; stat is never called to fill it. */
  const UnfilledMode: nat := 0

  /** is_directory: answers from the unfilled stat record, so it is false for every path. */
  function IsDirectory(path: string, norm: bool): (r: bool)
    ensures !r
  {
    var nPath := if norm then Normalize(path) else path;
    if nPath == [] then false
    else IsDirMode(UnfilledMode)
  }

  /** filename: the normalised path after its last '/', or all of it when it has no '/'. */
  function Filename(path: string): (r: string)
    ensures '/' !in r
    ensures |r| <= |Normalize(path)| && r == Normalize(path)[|Normalize(path)| - |r|..]
    ensures '/' in Normalize(path) ==> Normalize(path)[|Normalize(path)| - |r| - 1] == '/'
    ensures '/' !in Normalize(path) ==> r == Normalize(path)
  {
    var nPath := Normalize(path);
    if IsDirectory(path, false) then ""
    else match LastIndexOf(nPath, '/')
      case None => nPath
      case Some(pos) => nPath[pos + 1..]
  }

  /** directory: the normalised path before its last '/', or "." when it has no '/'. */
  function Directory(path: string): (r: string)
    ensures '/' !in Normalize(path) ==> r == "."
    ensures '/' in Normalize(path) ==> r + "/" + Filename(path) == Normalize(path)
  {
    var nPath := Normalize(path);
    if IsDirectory(path, false) then nPath
    else match LastIndexOf(nPath, '/')
      case None => "."
      case Some(pos) => nPath[..pos]
  }

  /** Whitespace around a path that neither starts nor ends with whitespace is all that trimming removes. */
  lemma {:induction false} TrimPadded(x: string)
    requires x != [] && !IsSpace(x[0]) && !IsSpace(x[|x| - 1])
    ensures Trim(" " + x + "  ") == x
  {
    var p := " " + x + "  ";
    assert p[1..] == x + "  ";
    assert TrimLeft(p) == TrimLeft(x + "  ");
    assert TrimLeft(x + "  ") == x + "  ";
    assert (x + "  ")[..|x| + 1] == x + " ";
    assert TrimRight(x + "  ") == TrimRight(x + " ");
    assert (x + " ")[..|x|] == x;
    assert TrimRight(x + " ") == TrimRight(x);
    assert TrimRight(x) == x;
  }

  /** A '/' after a squeezed path that already ends in '/' adds nothing. */
  lemma {:induction false} SqueezeExtraSlash(t: string)
    requires t != [] && t[|t| - 1] == '/'
    ensures Squeeze(t + "/") == Squeeze(t)
  {
    assert (t + "/")[..|t|] == t;
  }

  /**
   * The shape of the repository's test path: leading and trailing whitespace
   * and a run of three '/' between a directory and a file name are reduced
   * to the directory, one '/', and the file name.
   */
  lemma {:induction false} NormalizeRun(dir: string, file: string)
    requires dir != [] && !IsSpace(dir[0]) && dir[|dir| - 1] != '/' && NoDoubleSlash(dir)
    requires file != [] && file[0] != '/' && !IsSpace(file[|file| - 1]) && file[|file| - 1] != '/'
    requires NoDoubleSlash(file)
    ensures Normalize(" " + dir + "///" + file + "  ") == dir + "/" + file
  {
    var x := dir + "///" + file;
    TrimPadded(x);
    assert " " + dir + "///" + file + "  " == " " + x + "  ";
    SqueezePlain(dir);
    SqueezePlain(file);
    SqueezeConcat(dir, "/");
    assert Squeeze("/") == "/";
    SqueezeExtraSlash(dir + "/");
    assert dir + "/" + "/" == dir + "//";
    SqueezeExtraSlash(dir + "//");
    assert dir + "//" + "/" == dir + "///";
    SqueezeConcat(dir + "///", file);
  }

  /** The last '/' of dir + "/" + file, when file has none, is the one after dir. */
  lemma {:induction false} LastSlashBeforeFile(dir: string, file: string)
    requires '/' !in file
    ensures LastIndexOf(dir + "/" + file, '/') == Some(|dir|)
  {
    var s := dir + "/" + file;
    var p := LastIndexOf(s, '/');
    assert s[|dir|] == '/';
  }

  /** The repository's test path normalises to "/etc/profile.d/lang.sh". */
  lemma {:induction false} ProfileNormalize()
    ensures Normalize(" /etc/profile.d///lang.sh  ") == "/etc/profile.d/lang.sh"
  {
    var dir, file := "/etc/profile.d", "lang.sh";
    ProfilePieces();
    NormalizeRun(dir, file);
  }

  /** The test path and its normalised form, assembled from their pieces. */
  lemma {:induction false} ProfilePieces()
    ensures " " + "/etc/profile.d" + "///" + "lang.sh" + "  " == " /etc/profile.d///lang.sh  "
    ensures "/etc/profile.d" + "/" + "lang.sh" == "/etc/profile.d/lang.sh"
    ensures NoDoubleSlash("/etc/profile.d") && NoDoubleSlash("lang.sh")
  {
  }

  /** The repository's test path splits into "/etc/profile.d" and "lang.sh". */
  lemma {:induction false} ProfileSplit()
    ensures Filename(" /etc/profile.d///lang.sh  ") == "lang.sh"
    ensures Directory(" /etc/profile.d///lang.sh  ") == "/etc/profile.d"
  {
    var dir, file := "/etc/profile.d", "lang.sh";
    ProfileNormalize();
    ProfilePieces();
    LastSlashBeforeFile(dir, file);
    assert (dir + "/" + file)[|dir| + 1..] == file;
    assert (dir + "/" + file)[..|dir|] == dir;
  }

  /**
   * parent_directory as written: "/" stays "/"; otherwise the normalised path
   * must have a '/' past position 0 (the assert aborts, modelled as None), and
   * substr(0, pos - 1) keeps everything before the character that precedes
   * the last '/', one character short of the directory.
   */
  function ParentDirectoryAsWritten(path: string): (r: Option<string>)
    ensures r.None? <==> ParentDirectory(path).None?
    ensures r.Some? ==> |ParentDirectory(path).value| >= 1 && r.value == ParentDirectory(path).value[..|ParentDirectory(path).value| - 1]
  {
    var nPath := Normalize(path);
    NormalizeShape(path);
    if |nPath| == 1 && nPath[0] == '/' then Some("/")
    else match LastIndexOf(nPath, '/')
      case None => None
      case Some(pos) => if pos == 0 then None else Some(nPath[..pos - 1])
  }

  /** On the repository's test path the as-written parent directory loses the 'd' of "profile.d". */
  lemma {:induction false} ParentDirectoryDropsChar()
    ensures ParentDirectoryAsWritten(" /etc/profile.d///lang.sh  ") == Some("/etc/profile.")
    ensures ParentDirectory(" /etc/profile.d///lang.sh  ") == Some("/etc/profile.d")
  {
    ProfileSplit();
    assert "/etc/profile.d"[..13] == "/etc/profile.";
  }

  /**
   * parent_directory with substr(0, pos): the directory part of the
   * normalised path, which with a '/' and the file name rebuilds the path.
   */
  function ParentDirectory(path: string): (r: Option<string>)
    ensures r.None? <==> match LastIndexOf(Normalize(path), '/') case None => true case Some(pos) => pos == 0
    ensures r.Some? ==> r.value == Directory(path)
    ensures r.Some? ==> r.value + "/" + Filename(path) == Normalize(path)
  {
    var nPath := Normalize(path);
    NormalizeShape(path);
    if |nPath| == 1 && nPath[0] == '/' then Some("/")
    else match LastIndexOf(nPath, '/')
      case None => None
      case Some(pos) => if pos == 0 then None else Some(nPath[..pos])
  }
}
