/**
 * The path-string helpers of gl/utils.cpp (namespace `fileio`): `normalize`,
 * which unifies `\` and `/` and collapses every run of separators into one `/`,
 * and the `rfind`/`substr` helpers `fname`, `fname_noext`, `fdir` and `fext`
 * built on it. Strings are sequences of `char`.
 */
module FileIO {

  datatype Option<T> = None | Some(value: T)

  predicate IsSeparator(c: char) {
    c == '/' || c == '\\'
  }

  /**
   * The normalized form of a path, defined by looking one character ahead: a
   * separator followed by another separator contributes nothing, the last
   * separator of a run contributes one `/`, and every other character is kept.
   * It is never longer than the path, and empty only for the empty path.
   */
  function Norm(s: seq<char>): (r: seq<char>)
    ensures |r| <= |s|
    ensures r == [] <==> s == []
  {
    if s == [] then []
    else if IsSeparator(s[0]) then
      (if |s| > 1 && IsSeparator(s[1]) then [] else ['/']) + Norm(s[1..])
    else [s[0]] + Norm(s[1..])
  }

  /** The characters of `s` that are not separators, in order. */
  function NonSeparators(s: seq<char>): seq<char>
  {
    if s == [] then []
    else (if IsSeparator(s[0]) then [] else [s[0]]) + NonSeparators(s[1..])
  }

  /** `s` contains no `\` and no two consecutive `/`. */
  predicate IsNormal(s: seq<char>)
  {
    && (forall k :: 0 <= k < |s| ==> s[k] != '\\')
    && (forall k :: 0 <= k < |s| - 1 ==> !(s[k] == '/' && s[k + 1] == '/'))
  }

  /**
   * What the scan has established after reading `path[..i]`: `lastIsSlash`
   * says whether the last character read was a separator, and the output so
   * far, followed by the normalized rest of the path, is the normalized path.
   * After a separator the `/` already emitted stands for the whole run, so the
   * rest is taken from that separator on.
   */
  ghost predicate ScanInv(path: seq<char>, i: nat, normalized: seq<char>, lastIsSlash: bool)
  {
    && i <= |path|
    && (lastIsSlash <==> i > 0 && IsSeparator(path[i - 1]))
    && (!lastIsSlash ==> Norm(path) == normalized + Norm(path[i..]))
    && (lastIsSlash ==> && normalized != [] && normalized[|normalized| - 1] == '/'
                        && Norm(path) == normalized[..|normalized| - 1] + Norm(path[i - 1..]))
  }

  /** One character read by the scan keeps ScanInv. */
  lemma {:induction false} ScanStep(path: seq<char>, i: nat, normalized: seq<char>, lastIsSlash: bool,
                                    normalized': seq<char>, lastIsSlash': bool)
    requires i < |path| && ScanInv(path, i, normalized, lastIsSlash)
    requires lastIsSlash' == IsSeparator(path[i])
    requires normalized' == if !IsSeparator(path[i]) then normalized + [path[i]]
                            else if lastIsSlash then normalized else normalized + ['/']
    ensures ScanInv(path, i + 1, normalized', lastIsSlash')
  {
    var rest := path[i..];
    assert rest[0] == path[i] && rest[1..] == path[i + 1..];
    if !IsSeparator(path[i]) {
      assert Norm(rest) == [path[i]] + Norm(path[i + 1..]);
      if lastIsSlash {
        SeparatorBefore(path, i);
        assert normalized[..|normalized| - 1] + ['/'] == normalized;
      }
    } else if lastIsSlash {
      SeparatorBefore(path, i);
    }
  }

  /** From a separator at i - 1 on, normalizing emits `/` for it unless path[i] is a separator too. */
  lemma {:induction false} SeparatorBefore(path: seq<char>, i: nat)
    requires 0 < i < |path| && IsSeparator(path[i - 1])
    ensures Norm(path[i - 1..]) == (if IsSeparator(path[i]) then [] else ['/']) + Norm(path[i..])
  {
    var from := path[i - 1..];
    assert from[0] == path[i - 1] && from[1] == path[i] && from[1..] == path[i..];
  }

  /** Once the whole path is read, the output is the normalized path. */
  lemma {:induction false} ScanDone(path: seq<char>, normalized: seq<char>, lastIsSlash: bool)
    requires ScanInv(path, |path|, normalized, lastIsSlash)
    ensures normalized == Norm(path)
  {
    if lastIsSlash {
      var last := path[|path| - 1..];
      assert last == [path[|path| - 1]] && last[1..] == [];
      assert Norm(last) == ['/'];
      assert normalized == normalized[..|normalized| - 1] + ['/'];
    } else {
      assert path[|path|..] == [];
    }
  }

  /**
   * `normalize(const std::string&)`: scans the path once, remembering whether
   * the previous character was a separator, and appends `/` only for the first
   * separator of each run.
   */
  method Normalize(path: seq<char>) returns (normalized: seq<char>)
    ensures normalized == Norm(path)
  {
    normalized := [];
    var lastIsSlash := false;
    var i := 0;
    while i < |path|
      invariant ScanInv(path, i, normalized, lastIsSlash)
    {
      var c := path[i];
      ghost var before, lastBefore := normalized, lastIsSlash;
      if IsSeparator(c) {
        if !lastIsSlash {
          normalized := normalized + ['/'];
        }
        lastIsSlash := true;
      } else {
        lastIsSlash := false;
        normalized := normalized + [c];
      }
      ScanStep(path, i, before, lastBefore, normalized, lastIsSlash);
      i := i + 1;
    }
    ScanDone(path, normalized, lastIsSlash);
  }

  /** The C string stored at the front of `mem`: everything before the first NUL. */
  function CString(mem: seq<char>): (s: seq<char>)
    requires '\0' in mem
    ensures '\0' !in s && |s| < |mem| && mem[..|s|] == s && mem[|s|] == '\0'
  {
    if mem[0] == '\0' then [] else [mem[0]] + CString(mem[1..])
  }

  /** A NUL-free string followed by its terminator reads back as itself, whatever follows. */
  lemma {:induction false} CStringOfTerminated(s: seq<char>, rest: seq<char>)
    requires '\0' !in s
    ensures CString(s + ['\0'] + rest) == s
  {
    if s != [] {
      assert (s + ['\0'] + rest)[1..] == s[1..] + ['\0'] + rest;
      CStringOfTerminated(s[1..], rest);
    }
  }

  /** Reading `mem` at an index no further than its C string: NUL exactly at the end. */
  lemma {:induction false} CStringAt(mem: seq<char>, i: nat)
    requires '\0' in mem && i <= |CString(mem)|
    ensures i < |CString(mem)| ==> mem[i] == CString(mem)[i] && mem[i] != '\0'
    ensures i == |CString(mem)| ==> mem[i] == '\0'
  {
    var path := CString(mem);
    if i < |path| {
      assert mem[..|path|][i] == mem[i];
    }
  }

  /**
   * `normalize(const char*)`: the same scan as Normalize, walking the C string
   * at the front of `mem` until its terminating NUL.
   */
  method NormalizeCString(mem: seq<char>) returns (normalized: seq<char>)
    requires '\0' in mem
    ensures normalized == Norm(CString(mem))
  {
    ghost var path := CString(mem);
    normalized := [];
    var lastIsSlash := false;
    var i := 0;
    CStringAt(mem, 0);
    while mem[i] != '\0'
      invariant ScanInv(path, i, normalized, lastIsSlash)
      invariant i < |path| <==> mem[i] != '\0'
      invariant i < |path| ==> mem[i] == path[i]
      decreases |path| - i
    {
      var c := mem[i];
      ghost var before, lastBefore := normalized, lastIsSlash;
      if IsSeparator(c) {
        if !lastIsSlash {
          normalized := normalized + ['/'];
        }
        lastIsSlash := true;
      } else {
        lastIsSlash := false;
        normalized := normalized + [c];
      }
      ScanStep(path, i, before, lastBefore, normalized, lastIsSlash);
      i := i + 1;
      CStringAt(mem, i);
    }
    ScanDone(path, normalized, lastIsSlash);
  }

  /**
   * The two overloads of normalize agree: on a NUL-free string `s`, the C
   * string overload applied to `s` and its terminator computes Norm(s), which
   * is what Normalize(s) computes.
   */
  lemma {:induction false} OverloadsAgree(s: seq<char>, rest: seq<char>)
    requires '\0' !in s
    ensures Norm(CString(s + ['\0'] + rest)) == Norm(s)
  {
    CStringOfTerminated(s, rest);
  }

  /** The first character of a normalized non-empty path: `/` for a separator, else itself. */
  lemma {:induction false} NormHead(s: seq<char>)
    requires s != []
    ensures Norm(s) != [] && Norm(s)[0] == (if IsSeparator(s[0]) then '/' else s[0])
  {
    if IsSeparator(s[0]) && |s| > 1 && IsSeparator(s[1]) {
      NormHead(s[1..]);
    }
  }

  /** normalize never leaves a `\` and never two consecutive `/`. */
  lemma {:induction false} NormIsNormal(s: seq<char>)
    ensures IsNormal(Norm(s))
  {
    if s != [] {
      NormIsNormal(s[1..]);
      var t := s[1..];
      if t != [] {
        NormHead(t);
      }
    }
  }

  /** normalize keeps every character that is not a separator, in order. */
  lemma {:induction false} NormKeepsNonSeparators(s: seq<char>)
    ensures NonSeparators(Norm(s)) == NonSeparators(s)
  {
    if s != [] {
      NormKeepsNonSeparators(s[1..]);
      var head := if IsSeparator(s[0]) then (if |s| > 1 && IsSeparator(s[1]) then [] else ['/']) else [s[0]];
      NonSeparatorsAppend(head, Norm(s[1..]));
    }
  }

  lemma {:induction false} NonSeparatorsAppend(a: seq<char>, b: seq<char>)
    ensures NonSeparators(a + b) == NonSeparators(a) + NonSeparators(b)
  {
    if a != [] {
      assert (a + b)[0] == a[0];
      assert (a + b)[1..] == a[1..] + b;
      NonSeparatorsAppend(a[1..], b);
    } else {
      assert a + b == b;
    }
  }

  /** A path that is already normal is left as it is. */
  lemma {:induction false} NormOfNormal(s: seq<char>)
    requires IsNormal(s)
    ensures Norm(s) == s
  {
    if s != [] {
      assert IsNormal(s[1..]) by {
        forall k | 0 <= k < |s| - 2 ensures !(s[1..][k] == '/' && s[1..][k + 1] == '/') {
          assert s[1..][k] == s[k + 1] && s[1..][k + 1] == s[k + 2];
        }
      }
      NormOfNormal(s[1..]);
      if |s| > 1 {
        assert s[1] != '\\';
        assert s[0] == '/' ==> s[1] != '/';
      }
    }
  }

  /** A path is its own normal form exactly when it has no `\` and no `//`. */
  lemma {:induction false} NormFixpoints(s: seq<char>)
    ensures Norm(s) == s <==> IsNormal(s)
  {
    if IsNormal(s) {
      NormOfNormal(s);
    } else {
      NormIsNormal(s);
    }
  }

  /** normalize is idempotent. */
  lemma {:induction false} NormIdempotent(s: seq<char>)
    ensures Norm(Norm(s)) == Norm(s)
  {
    NormIsNormal(s);
    NormOfNormal(Norm(s));
  }

  /** Normalization splits at a boundary whose left side does not end in a separator. */
  lemma {:induction false} NormAppend(a: seq<char>, b: seq<char>)
    requires a == [] || !IsSeparator(a[|a| - 1])
    ensures Norm(a + b) == Norm(a) + Norm(b)
  {
    if a != [] {
      var ab := a + b;
      assert ab[0] == a[0];
      assert ab[1..] == a[1..] + b;
      if |a| > 1 {
        assert ab[1] == a[1];
        NormAppend(a[1..], b);
      } else {
        assert !IsSeparator(a[0]);
        assert a[1..] == [];
        assert ab[1..] == b;
      }
    } else {
      assert a + b == b;
    }
  }

  /** A non-empty run of separators followed by a non-separator (or nothing) becomes one `/`. */
  lemma {:induction false} NormSeparatorRun(run: seq<char>, b: seq<char>)
    requires run != [] && forall k :: 0 <= k < |run| ==> IsSeparator(run[k])
    requires b == [] || !IsSeparator(b[0])
    ensures Norm(run + b) == ['/'] + Norm(b)
  {
    assert (run + b)[1..] == run[1..] + b;
    if |run| > 1 {
      NormSeparatorRun(run[1..], b);
      assert (run + b)[1] == run[1];
    } else {
      assert run[1..] == [];
      assert (run + b)[1..] == b;
    }
  }

  /**
   * Each maximal run of separators between two non-separator stretches is
   * replaced by exactly one `/`.
   */
  lemma {:induction false} MaximalRunCollapses(a: seq<char>, run: seq<char>, b: seq<char>)
    requires a == [] || !IsSeparator(a[|a| - 1])
    requires run != [] && forall k :: 0 <= k < |run| ==> IsSeparator(run[k])
    requires b == [] || !IsSeparator(b[0])
    ensures Norm(a + run + b) == Norm(a) + ['/'] + Norm(b)
  {
    assert a + run + b == a + (run + b);
    NormAppend(a, run + b);
    NormSeparatorRun(run, b);
  }

  /**
   * `std::string::rfind(c)`: the position of the last occurrence of `c`, or
   * None for `npos`.
   */
  function RFind(s: seq<char>, c: char): (r: Option<nat>)
    ensures r.None? <==> c !in s
    ensures r.Some? ==> r.value < |s| && s[r.value] == c && c !in s[r.value + 1..]
  {
    if s == [] then None
    else if s[|s| - 1] == c then Some(|s| - 1)
    else RFind(s[..|s| - 1], c)
  }

  /** The text after the last `/`, or all of `s` when it has none. */
  function NamePart(s: seq<char>): seq<char>
  {
    match RFind(s, '/')
    case None => s
    case Some(slash) => s[slash + 1..]
  }

  /** The text before the last `.`, or all of `s` when it has none. */
  function StemPart(s: seq<char>): seq<char>
  {
    match RFind(s, '.')
    case None => s
    case Some(dot) => s[..dot]
  }

  /** The text before the last `/`, or empty when it has none. */
  function DirPart(s: seq<char>): seq<char>
  {
    match RFind(s, '/')
    case None => []
    case Some(slash) => s[..slash]
  }

  /** The text after the last `.`, or empty when it has none. */
  function ExtPart(s: seq<char>): seq<char>
  {
    match RFind(s, '.')
    case None => []
    case Some(dot) => s[dot + 1..]
  }

  /**
   * `fname`: the part of the normalized path after its last `/`. When there is
   * no `/`, rfind gives npos and npos + 1 wraps to 0, so the whole path is kept.
   */
  function Fname(path: seq<char>): (r: seq<char>)
    ensures '/' !in r
    ensures |r| <= |Norm(path)| && r == Norm(path)[|Norm(path)| - |r|..]
  {
    NamePart(Norm(path))
  }

  /**
   * `fname_noext`: the normalized path up to its last `.`. It is a prefix of
   * the whole normalized path, so the directory part is kept; it is shorter
   * than that path exactly when the path has a `.`.
   */
  function FnameNoext(path: seq<char>): (r: seq<char>)
    ensures r <= Norm(path)
    ensures '.' in Norm(path) <==> |r| < |Norm(path)|
  {
    StemPart(Norm(path))
  }

  /** `fdir`: the normalized path before its last `/`, or empty when it has none. */
  function Fdir(path: seq<char>): (r: seq<char>)
    ensures r <= Norm(path)
    ensures '/' !in Norm(path) ==> r == []
    ensures '/' in Norm(path) ==>
      |r| < |Norm(path)| && Norm(path)[|r|] == '/' && '/' !in Norm(path)[|r| + 1..]
  {
    DirPart(Norm(path))
  }

  /** `fext`: the normalized path after its last `.`, or empty when it has none. */
  function Fext(path: seq<char>): (r: seq<char>)
    ensures '.' !in r
    ensures |r| <= |Norm(path)| && r == Norm(path)[|Norm(path)| - |r|..]
  {
    ExtPart(Norm(path))
  }

  /** fdir and fname split the normalized path at its last `/`. */
  lemma {:induction false} DirNameSplit(path: seq<char>)
    ensures '/' in Norm(path) ==> Fdir(path) + ['/'] + Fname(path) == Norm(path)
    ensures '/' !in Norm(path) ==> Fdir(path) == [] && Fname(path) == Norm(path)
  {
    var npath := Norm(path);
    match RFind(npath, '/')
    case None =>
    case Some(slash) =>
      assert npath == npath[..slash] + [npath[slash]] + npath[slash + 1..];
  }

  /** fname_noext and fext split the normalized path at its last `.`. */
  lemma {:induction false} StemExtensionSplit(path: seq<char>)
    ensures '.' in Norm(path) ==> FnameNoext(path) + ['.'] + Fext(path) == Norm(path)
    ensures '.' !in Norm(path) ==> FnameNoext(path) == Norm(path) && Fext(path) == []
  {
    var npath := Norm(path);
    match RFind(npath, '.')
    case None =>
    case Some(dot) =>
      assert npath == npath[..dot] + [npath[dot]] + npath[dot + 1..];
  }

  /** fname_noext keeps the directory part: "d/x.txt" gives "d/x". */
  lemma {:induction false} FnameNoextKeepsDirectory()
    ensures FnameNoext("d/x.txt") == "d/x"
  {
    var p := "d/x.txt";
    assert Norm(p) == p by {
      assert IsNormal(p);
      NormOfNormal(p);
    }
    assert p[4..] == "txt";
    RFindUnique(p, '.', 3);
  }

  /** When the last `.` lies in a directory name, fname_noext cuts there: "a.b/c" gives "a". */
  lemma {:induction false} FnameNoextCutsDirectory()
    ensures FnameNoext("a.b/c") == "a"
  {
    var p := "a.b/c";
    assert Norm(p) == p by {
      assert IsNormal(p);
      NormOfNormal(p);
    }
    assert p[2..] == "b/c";
    RFindUnique(p, '.', 1);
  }

  /** fdir is itself normal, so normalizing it again changes nothing. */
  lemma {:induction false} FdirIsNormal(path: seq<char>)
    ensures IsNormal(Fdir(path)) && Norm(Fdir(path)) == Fdir(path)
  {
    var npath := Norm(path);
    NormIsNormal(path);
    match RFind(npath, '/')
    case None =>
    case Some(slash) =>
      var d := npath[..slash];
      assert forall k :: 0 <= k < |d| ==> d[k] == npath[k];
      NormOfNormal(d);
  }

  /**
   * As written, fext takes the text after the last `.` of the whole path, so a
   * dot in a directory name yields an "extension" that contains `/`.
   */
  lemma {:induction false} FextCrossesDirectory()
    ensures Fext("a.b/c") == "b/c" && '/' in Fext("a.b/c")
  {
    var p := "a.b/c";
    assert Norm(p) == p by {
      assert IsNormal(p);
      NormOfNormal(p);
    }
    assert RFind(p, '.') == Some(1);
  }

  /**
   * The extension of the file name alone: the text after the last `.` of
   * fname's result, or empty when the file name has no `.`.
   */
  function FileExtension(path: seq<char>): (ext: seq<char>)
    ensures '/' !in ext && '.' !in ext
  {
    ExtPart(Fname(path))
  }

  /** The last occurrence is determined: a `c` with no `c` after it is what rfind reports. */
  lemma {:induction false} RFindUnique(s: seq<char>, c: char, j: nat)
    requires j < |s| && s[j] == c && c !in s[j + 1..]
    ensures RFind(s, c) == Some(j)
  {
    if j < |s| - 1 {
      assert s[|s| - 1] == s[j + 1..][|s| - 2 - j];
      var prefix := s[..|s| - 1];
      assert prefix[j + 1..] == s[j + 1..|s| - 1];
      assert forall k :: j + 1 <= k < |s| - 1 ==> s[k] == s[j + 1..][k - j - 1];
      RFindUnique(prefix, c, j);
    }
  }

  /** The extension of a string whose last `.` is at j is what follows j. */
  lemma {:induction false} ExtPartAt(t: seq<char>, j: nat)
    requires j < |t| && t[j] == '.' && '.' !in t[j + 1..]
    ensures ExtPart(t) == t[j + 1..]
  {
    RFindUnique(t, '.', j);
  }

  /** A suffix of a string without `.` has no extension either. */
  lemma {:induction false} NoExtPartInSuffix(s: seq<char>, start: nat)
    requires start <= |s| && '.' !in s
    ensures ExtPart(s[start..]) == []
  {
    var t := s[start..];
    forall j | 0 <= j < |t| ensures t[j] != '.' {
      assert t[j] == s[start + j];
    }
    assert RFind(t, '.') == None;
  }

  /**
   * Taking the extension of the name part agrees with taking it of the whole
   * string, unless the latter crosses a `/`.
   */
  lemma {:induction false} ExtPartOfNamePart(s: seq<char>)
    requires '/' !in ExtPart(s)
    ensures ExtPart(NamePart(s)) == ExtPart(s)
  {
    var slashAt := RFind(s, '/');
    if slashAt.Some? {
      var slash := slashAt.value;
      var name := s[slash + 1..];
      assert NamePart(s) == name;
      var dotAt := RFind(s, '.');
      if dotAt.Some? {
        var dot := dotAt.value;
        assert ExtPart(s) == s[dot + 1..];
        SlashBeforeDot(s, slash, dot);
        assert name[dot - slash..] == s[dot + 1..];
        assert name[dot - slash - 1] == s[dot];
        ExtPartAt(name, dot - slash - 1);
      } else {
        NoExtPartInSuffix(s, slash + 1);
      }
    }
  }

  /** A `/` somewhere and a `.` with no `/` after it: the `/` comes first. */
  lemma {:induction false} SlashBeforeDot(s: seq<char>, slash: nat, dot: nat)
    requires slash < |s| && s[slash] == '/' && dot < |s| && s[dot] == '.' && '/' !in s[dot + 1..]
    ensures slash < dot
  {
    forall k | dot + 1 <= k < |s| ensures s[k] != '/' {
      assert s[k] == s[dot + 1..][k - dot - 1];
    }
  }

  /** FileExtension and fext agree whenever fext's result stays inside the file name. */
  lemma {:induction false} FileExtensionAgrees(path: seq<char>)
    requires '/' !in Fext(path)
    ensures FileExtension(path) == Fext(path)
  {
    ExtPartOfNamePart(Norm(path));
  }
}
