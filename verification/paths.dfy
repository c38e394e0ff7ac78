/**
 * Paths as Rust's `std::path` sees them: a sequence of components. A leading "/" component
 * is the root directory and a leading "." the current directory; every other component is
 * a name. `Parse` is `PathBuf::from(string)` followed by `components()`, which drops empty
 * and inner "." pieces. `Display` is the text of a path built from components, as
 * `to_string_lossy` shows a path the program assembles itself; the text a path was typed as
 * is not recoverable from its components (`Parse("src/")` displays as "src").
 */
module Paths {
  import opened Wrappers
  import opened Text

  type Path = seq<string>

  const RootDir := "/"
  const CurDir := "."
  const ParentDir := ".."

  /** A component that is a plain name. */
  predicate IsNormal(c: string) {
    c != "" && '/' !in c && c != CurDir && c != ParentDir
  }

  /** A relative path made only of plain names. */
  predicate IsPlain(p: Path) {
    forall i :: 0 <= i < |p| ==> IsNormal(p[i])
  }

  /** A path `components()` can produce: plain names, optionally behind a root or "." prefix. */
  predicate WellFormed(p: Path) {
    IsPlain(p) || (|p| >= 1 && (p[0] == RootDir || p[0] == CurDir) && IsPlain(p[1..]))
  }

  predicate IsAbsolute(p: Path) {
    |p| > 0 && p[0] == RootDir
  }

  /**
   * The text of a path made of these components: components separated by '/', with no
   * separator doubled after the root. It is not the text a parsed path was typed as.
   */
  function Display(p: Path): string {
    if IsAbsolute(p) then "/" + Join(p[1..], '/') else Join(p, '/')
  }

  /** Drops the empty and "." pieces of a split path string. */
  function Clean(pieces: seq<string>): (r: seq<string>)
    ensures forall i :: 0 <= i < |r| ==> r[i] != "" && r[i] != CurDir && r[i] in pieces
    ensures |r| <= |pieces|
  {
    if pieces == [] then []
    else if pieces[0] == "" || pieces[0] == CurDir then Clean(pieces[1..])
    else [pieces[0]] + Clean(pieces[1..])
  }

  /**
   * The components of a path string: none is empty, only a leading root holds a '/', and
   * "." or the root can appear only first.
   */
  function Parse(s: string): (r: Path)
    ensures forall i :: 0 <= i < |r| ==> r[i] != "" && (r[i] == RootDir || '/' !in r[i])
    ensures forall i :: 1 <= i < |r| ==> r[i] != CurDir && r[i] != RootDir
    ensures |r| > 0 && r[0] == RootDir <==> |s| > 0 && s[0] == '/'
  {
    if |s| > 0 && s[0] == '/' then [RootDir] + Clean(Split(s[1..], '/'))
    else
      var pieces := Split(s, '/');
      if pieces[0] == CurDir then [CurDir] + Clean(pieces[1..]) else Clean(pieces)
  }

  lemma {:induction false} CleanPlain(p: Path)
    requires IsPlain(p)
    ensures Clean(p) == p
  {
    if p != [] {
      CleanPlain(p[1..]);
    }
  }

  lemma JoinPlainFirstChar(p: Path)
    requires IsPlain(p) && |p| >= 1
    ensures |Join(p, '/')| > 0 && Join(p, '/')[0] == p[0][0]
  {
    assert p[0][0] in p[0];
  }

  /** Parsing the displayed form of a well-formed path gives the path back. */
  lemma ParseDisplay(p: Path)
    requires WellFormed(p)
    ensures Parse(Display(p)) == p
  {
    if IsPlain(p) {
      ParseDisplayPlain(p);
    } else if p[0] == RootDir {
      ParseDisplayRooted(p);
    } else {
      ParseDisplayCurrent(p);
    }
  }

  lemma ParseDisplayPlain(p: Path)
    requires IsPlain(p)
    ensures Parse(Display(p)) == p
  {
    if p == [] {
      assert Split("", '/') == [""];
    } else {
      JoinPlainFirstChar(p);
      assert p[0][0] != '/' by { assert p[0][0] in p[0]; }
      SplitJoin(p, '/');
      CleanPlain(p);
    }
  }

  lemma ParseDisplayRooted(p: Path)
    requires |p| >= 1 && p[0] == RootDir && IsPlain(p[1..])
    ensures Parse(Display(p)) == p
  {
    var q := p[1..];
    assert Display(p) == "/" + Join(q, '/');
    assert Display(p)[1..] == Join(q, '/');
    if q == [] {
      assert Split("", '/') == [""];
    } else {
      SplitJoin(q, '/');
      CleanPlain(q);
    }
    assert p == [RootDir] + q;
  }

  lemma ParseDisplayCurrent(p: Path)
    requires |p| >= 1 && p[0] == CurDir && IsPlain(p[1..])
    ensures Parse(Display(p)) == p
  {
    var q := p[1..];
    assert p == [CurDir] + q;
    assert forall i :: 0 <= i < |p| ==> '/' !in p[i] by {
      forall i | 0 <= i < |p| ensures '/' !in p[i] {
        if i > 0 { assert p[i] == q[i - 1]; }
      }
    }
    SplitJoin(p, '/');
    assert Split(Display(p), '/')[1..] == q;
    CleanPlain(q);
    assert Display(p)[0] == '.' by {
      if |p| == 1 { assert Display(p) == CurDir; }
      else { assert Display(p) == CurDir + ['/'] + Join(q, '/'); }
    }
  }

  /** Rust `Path::file_name`: the last component when it is a name. */
  function FileName(p: Path): Option<string> {
    if |p| == 0 then None
    else
      var last := p[|p| - 1];
      if last == RootDir || last == CurDir || last == ParentDir then None else Some(last)
  }

  /** Rust `Path::ancestors`: the path, its parent, and so on; a relative path ends with "". */
  function Ancestors(p: Path): (r: seq<Path>)
    ensures |r| == if IsAbsolute(p) then |p| else |p| + 1
    ensures forall i :: 0 <= i < |r| ==> r[i] == p[..|p| - i]
  {
    var n := if IsAbsolute(p) then |p| else |p| + 1;
    seq(n, i requires 0 <= i < n => p[..|p| - i])
  }

  /** `take_while(|parent| parent != Path::new(""))`. */
  function TakeWhileNonEmpty(ps: seq<Path>): (r: seq<Path>)
    ensures |r| <= |ps| && r == ps[..|r|]
    ensures forall i :: 0 <= i < |r| ==> r[i] != []
    ensures |r| < |ps| ==> ps[|r|] == []
  {
    if ps == [] || ps[0] == [] then [] else [ps[0]] + TakeWhileNonEmpty(ps[1..])
  }

  /** `get_top_parent`: the outermost ancestor other than the path itself and "". */
  function TopParent(p: Path): (r: Option<Path>)
    ensures r == if |p| >= 2 then Some([p[0]]) else None
  {
    var ps := Ancestors(p)[1..];
    var chain := TakeWhileNonEmpty(ps);
    // Every proper ancestor but "" is non-empty, and "" comes last when it is there.
    assert forall i :: 0 <= i < |ps| - 1 ==> ps[i] == p[..|p| - 1 - i] && |ps[i]| >= 1;
    assert |chain| == if |p| >= 2 then |p| - 1 else 0 by {
      if IsAbsolute(p) {
        assert |ps| == |p| - 1;
        if |ps| > 0 { assert ps[|ps| - 1] == p[..1]; }
      } else if |p| >= 1 {
        assert ps[|ps| - 1] == [];
      }
    }
    if chain == [] then None
    else
      assert chain[|chain| - 1] == p[..1] == [p[0]];
      Some(chain[|chain| - 1])
  }

  /** Rust `Path::strip_prefix`, comparing whole components. */
  function StripPathPrefix(p: Path, base: Path): (r: Option<Path>)
    ensures r.Some? <==> |base| <= |p| && p[..|base|] == base
    ensures r.Some? ==> base + r.value == p
  {
    if |base| <= |p| && p[..|base|] == base then Some(p[|base|..]) else None
  }

  /** `remove_top_parent`: the path without its outermost ancestor. */
  function RemoveTopParent(p: Path): (r: Option<Path>)
    ensures r == if |p| >= 2 then Some(p[1..]) else None
  {
    match TopParent(p)
    case Some(top) => StripPathPrefix(p, top)
    case None => None
  }

  /** The top parent and the path without it put back together give the path. */
  lemma TopParentSplitsPath(p: Path)
    ensures TopParent(p).Some? <==> RemoveTopParent(p).Some?
    ensures TopParent(p).Some? ==> TopParent(p).value + RemoveTopParent(p).value == p
  {
  }

  /** The displayed form of two plain paths joined is the two displays around one '/'. */
  lemma DisplayAppend(a: Path, b: Path)
    requires IsPlain(a) && IsPlain(b) && |a| >= 1 && |b| >= 1
    ensures Display(a + b) == Display(a) + "/" + Display(b)
  {
    JoinAppend(a, b);
    if |a| > 0 {
      assert (a + b)[0] == a[0];
    }
  }

  lemma {:induction false} JoinAppend(a: Path, b: Path)
    requires |a| >= 1 && |b| >= 1
    ensures Join(a + b, '/') == Join(a, '/') + "/" + Join(b, '/')
    decreases |a|
  {
    if |a| > 1 {
      assert (a + b)[1..] == a[1..] + b;
      JoinAppend(a[1..], b);
    } else {
      assert (a + b)[1..] == b;
    }
  }

  lemma {:induction false} CleanAppendEmpty(pieces: seq<string>)
    ensures Clean(pieces + [""]) == Clean(pieces)
    decreases |pieces|
  {
    if pieces == [] {
      assert Clean([""]) == Clean([]);
    } else {
      assert (pieces + [""])[1..] == pieces[1..] + [""];
      CleanAppendEmpty(pieces[1..]);
    }
  }

  lemma {:induction false} CleanAppendName(pieces: seq<string>, x: string)
    requires x != "" && x != CurDir
    ensures Clean(pieces + [x]) == Clean(pieces) + [x]
    decreases |pieces|
  {
    if pieces == [] {
      assert Clean([x]) == [x] + Clean([]);
    } else {
      assert (pieces + [x])[1..] == pieces[1..] + [x];
      CleanAppendName(pieces[1..], x);
    }
  }

  /**
   * `PathBuf::push` of a relative name, as `DirEntry::path` joins an entry's name to its
   * folder: the name follows a '/', unless the text is empty or already ends with one.
   */
  function Push(item: string, name: string): (r: string)
    ensures IsPrefix(item, r) && |r| >= |name| && r[|r| - |name|..] == name
  {
    if item == "" || item[|item| - 1] == '/' then item + name else item + "/" + name
  }

  /** Whatever the folder's text, an entry pushed onto it has the entry's name as file name. */
  lemma FileNameOfPush(item: string, name: string)
    requires IsNormal(name)
    ensures FileName(Parse(Push(item, name))) == Some(name)
  {
    var t := Push(item, name);
    if item == "" {
      assert t == name;
      ParseName(name);
    } else if item[|item| - 1] == '/' {
      var b := item[..|item| - 1];
      assert t == b + "/" + name;
      ParseBelow(b, name);
    } else {
      assert t == item + "/" + name;
      ParseBelow(item, name);
    }
    NameIsNotSpecial(name);
  }

  lemma NameIsNotSpecial(name: string)
    requires IsNormal(name)
    ensures name != RootDir && name != CurDir && name != ParentDir
  {
    assert RootDir[0] == '/';
  }

  lemma SplitName(name: string)
    requires '/' !in name
    ensures Split(name, '/') == [name]
  {
  }

  lemma ParseName(name: string)
    requires IsNormal(name)
    ensures Parse(name) == [name]
  {
    assert name[0] in name;
    SplitName(name);
    assert Clean([name]) == [name] + Clean([]);
  }

  /** A name after a '/' is the last component of the parsed text. */
  lemma ParseBelow(b: string, name: string)
    requires IsNormal(name)
    ensures var r := Parse(b + "/" + name); |r| >= 1 && r[|r| - 1] == name
  {
    if b == "" {
      ParseBelowRoot(name);
    } else if b[0] == '/' {
      ParseBelowAbsolute(b, name);
    } else {
      ParseBelowRelative(b, name);
    }
  }

  lemma ParseBelowRoot(name: string)
    requires IsNormal(name)
    ensures Parse("/" + name) == [RootDir, name]
  {
    var u := "/" + name;
    assert u[1..] == name;
    SplitName(name);
    assert Clean([name]) == [name] + Clean([]);
  }

  lemma ParseBelowAbsolute(b: string, name: string)
    requires IsNormal(name) && b != "" && b[0] == '/'
    ensures Parse(b + "/" + name) == [RootDir] + Clean(Split(b[1..], '/')) + [name]
  {
    var u := b + "/" + name;
    assert u[0] == '/';
    assert u[1..] == b[1..] + "/" + name;
    SplitAround(b[1..], '/', name);
    SplitName(name);
    CleanAppendName(Split(b[1..], '/'), name);
  }

  lemma ParseBelowRelative(b: string, name: string)
    requires IsNormal(name) && b != "" && b[0] != '/'
    ensures var r := Parse(b + "/" + name); |r| >= 1 && r[|r| - 1] == name
  {
    var u := b + "/" + name;
    assert u[0] == b[0];
    SplitAround(b, '/', name);
    SplitName(name);
    var first := Split(b, '/');
    assert Split(u, '/') == first + [name];
    ParseRelativePieces(u, first, name);
  }

  /** Relative text whose pieces end in a name parses to components ending in that name. */
  lemma ParseRelativePieces(u: string, first: seq<string>, name: string)
    requires IsNormal(name) && first != []
    requires u != "" && u[0] != '/' && Split(u, '/') == first + [name]
    ensures var r := Parse(u); |r| >= 1 && r[|r| - 1] == name
  {
    var pieces := first + [name];
    assert pieces[0] == first[0];
    if first[0] == CurDir {
      assert pieces[1..] == first[1..] + [name];
      CleanAppendName(first[1..], name);
      assert Parse(u) == [CurDir] + Clean(pieces[1..]);
    } else {
      CleanAppendName(first, name);
      assert Parse(u) == Clean(pieces);
    }
  }

  /** The texts whose components end without a file name, as a root may be given. */
  lemma ParseUnnamed()
    ensures Parse("./") == [CurDir]
    ensures Parse(".//") == [CurDir]
    ensures Parse("../") == [ParentDir]
    ensures Parse("/") == [RootDir]
    ensures Parse("") == []
  {
    ParseDotSlash();
    ParseDotSlashSlash();
    ParseDotDotSlash();
    assert Split("", '/') == [""];
    assert Clean([""]) == [];
  }

  lemma ParseDotSlash()
    ensures Parse("./") == [CurDir]
  {
    assert "./" == "." + "/";
    SplitAppendSeparator(".", '/');
    assert Split(".", '/') == ["."];
    assert Clean([""]) == [];
  }

  lemma ParseDotSlashSlash()
    ensures Parse(".//") == [CurDir]
  {
    assert "./" == "." + "/";
    assert ".//" == "./" + "/";
    SplitAppendSeparator(".", '/');
    SplitAppendSeparator("./", '/');
    assert Split(".", '/') == ["."];
    assert Split(".//", '/') == [".", "", ""];
    assert Clean(["", ""]) == Clean([""]) == [];
  }

  lemma ParseDotDotSlash()
    ensures Parse("../") == [ParentDir]
  {
    assert "../" == ".." + "/";
    SplitAppendSeparator("..", '/');
    assert Split("..", '/') == [".."];
    assert Clean(["..", ""]) == [".."] + Clean([""]);
    assert Clean([""]) == [];
  }

  /** A path of names typed with a trailing '/' parses to the same components. */
  lemma ParseTrailingSlash(p: Path)
    requires IsPlain(p) && |p| >= 1
    ensures Parse(Display(p) + "/") == p
  {
    var t := Join(p, '/');
    JoinPlainFirstChar(p);
    assert p[0][0] != '/' by { assert p[0][0] in p[0]; }
    assert Display(p) == t;
    SplitAppendSeparator(t, '/');
    SplitJoin(p, '/');
    assert Split(t + "/", '/') == p + [""];
    assert (t + "/")[0] == t[0];
    CleanAppendEmpty(p);
    CleanPlain(p);
  }

  /** Text put in front of a joined path lands in its first component. */
  lemma JoinGlueFirst(name: string, q: Path)
    requires |q| >= 1
    ensures Join([name + q[0]] + q[1..], '/') == name + Join(q, '/')
  {
    if |q| > 1 {
      JoinGlueFirstOfMany(name, q[0], q[1..]);
      assert q == [q[0]] + q[1..];
    } else {
      assert [name + q[0]] + q[1..] == [name + q[0]];
    }
  }

  lemma JoinGlueFirstOfMany(name: string, x: string, rest: Path)
    requires |rest| >= 1
    ensures Join([name + x] + rest, '/') == name + Join([x] + rest, '/')
  {
    var j := Join(rest, '/');
    JoinCons(name + x, rest);
    JoinCons(x, rest);
    ConcatAssoc(name + x, "/", j);
    ConcatAssoc(x, "/", j);
    ConcatAssoc(name, x, "/" + j);
    assert Join([name + x] + rest, '/') == name + x + ("/" + j);
    assert Join([x] + rest, '/') == x + ("/" + j);
  }

  lemma JoinCons(x: string, rest: Path)
    requires |rest| >= 1
    ensures Join([x] + rest, '/') == x + "/" + Join(rest, '/')
  {
    assert ([x] + rest)[1..] == rest;
  }

  lemma ConcatAssoc(a: string, b: string, c: string)
    ensures a + b + c == a + (b + c)
  {
  }
}
