/**
 * `fs_generator/src/main.rs`: the test-tree generator. `create_files_in_directory` is the
 * list of directories and files it writes, in order; `main` checks and parses its
 * arguments before writing anything.
 */
module FsGenerator {
  import opened Wrappers
  import opened Text
  import opened Paths

  /** One write to the file system: a directory made, or a file (re)written with its content. */
  datatype Write = MakeDir(path: Path) | WriteFile(path: Path, content: string)

  const Line := "This is a line.\n"

  function FileNameOf(j: nat): string {
    "file" + NatToString(j) + ".txt"
  }

  function DirNameOf(i: nat): string {
    "dir" + NatToString(i)
  }

  /** The files written in one pass of the outer loop: `file0.txt` up to the count, each `lines` lines long. */
  function FileWrites(path: Path, count: nat, lines: nat): (r: seq<Write>)
    ensures |r| == count
    ensures forall j :: 0 <= j < count ==> r[j] == WriteFile(path + [FileNameOf(j)], Repeat(Line, lines))
  {
    seq(count, j requires 0 <= j < count => WriteFile(path + [FileNameOf(j)], Repeat(Line, lines)))
  }

  /**
   * `create_files_in_directory`: nothing at depth 0; otherwise the directory, then for each
   * `i < width` the files (the same names every time) and the tree below `dir{i}`. The file
   * count is only divided by the width inside the loop, so width 0 divides nothing.
   */
  function CreateFilesInDirectory(path: Path, totalFiles: nat, width: nat, depth: nat, numLines: nat): (r: seq<Write>)
    ensures depth == 0 <==> r == []
    decreases depth, 1, 0
  {
    if depth == 0 then []
    else [MakeDir(path)] + OuterLoop(path, totalFiles, width, depth, numLines, 0)
  }

  /** The passes `i`, `i + 1`, ... `width - 1` of the outer loop. */
  function OuterLoop(path: Path, totalFiles: nat, width: nat, depth: nat, numLines: nat, i: nat): seq<Write>
    requires depth >= 1
    decreases depth, 0, width - i
  {
    if i >= width then []
    else
      FileWrites(path, totalFiles / width, numLines)
        + CreateFilesInDirectory(path + [DirNameOf(i)], totalFiles, width, depth - 1, numLines)
        + OuterLoop(path, totalFiles, width, depth, numLines, i + 1)
  }

  /** With width 0 only the directory itself is made. */
  lemma WidthZero(path: Path, totalFiles: nat, depth: nat, numLines: nat)
    requires depth >= 1
    ensures CreateFilesInDirectory(path, totalFiles, 0, depth, numLines) == [MakeDir(path)]
  {
  }

  /** The directory below `path` reached through the sub-directories numbered `idx`. */
  function DirPath(path: Path, idx: seq<nat>): (r: Path)
    ensures |r| == |path| + |idx|
  {
    path + seq(|idx|, k requires 0 <= k < |idx| => DirNameOf(idx[k]))
  }

  /** A list of sub-directory numbers the generator follows: fewer than `depth`, each below `width`. */
  predicate IsReached(idx: seq<nat>, width: nat, depth: nat) {
    |idx| < depth && forall k :: 0 <= k < |idx| ==> idx[k] < width
  }

  lemma DirPathCons(path: Path, i: nat, idx: seq<nat>)
    ensures DirPath(path + [DirNameOf(i)], idx) == DirPath(path, [i] + idx)
  {
    var a := seq(|idx|, k requires 0 <= k < |idx| => DirNameOf(idx[k]));
    var b := seq(|[i] + idx|, k requires 0 <= k < |[i] + idx| => DirNameOf(([i] + idx)[k]));
    assert b == [DirNameOf(i)] + a;
  }

  /**
   * Every write the generator makes is a directory reached through numbered sub-directories,
   * or a file `file{j}.txt` with `j` below `total / width` in such a directory, holding the
   * line repeated `numLines` times.
   */
  lemma {:induction false} WritesAreReached(path: Path, totalFiles: nat, width: nat, depth: nat, numLines: nat, w: Write)
    requires w in CreateFilesInDirectory(path, totalFiles, width, depth, numLines)
    ensures w.MakeDir? ==> exists idx :: IsReached(idx, width, depth) && w.path == DirPath(path, idx)
    ensures w.WriteFile? ==> (width > 0 && w.content == Repeat(Line, numLines) &&
      exists idx, j: nat :: IsReached(idx, width, depth) && j < totalFiles / width &&
        w.path == DirPath(path, idx) + [FileNameOf(j)])
    decreases depth, 1, 0
  {
    if w == MakeDir(path) {
      assert DirPath(path, []) == path;
      assert IsReached([], width, depth);
    } else {
      OuterLoopWritesAreReached(path, totalFiles, width, depth, numLines, 0, w);
    }
  }

  lemma {:induction false} OuterLoopWritesAreReached(path: Path, totalFiles: nat, width: nat, depth: nat, numLines: nat, i: nat, w: Write)
    requires depth >= 1
    requires w in OuterLoop(path, totalFiles, width, depth, numLines, i)
    ensures w.MakeDir? ==> exists idx :: IsReached(idx, width, depth) && w.path == DirPath(path, idx)
    ensures w.WriteFile? ==> (width > 0 && w.content == Repeat(Line, numLines) &&
      exists idx, j: nat :: IsReached(idx, width, depth) && j < totalFiles / width &&
        w.path == DirPath(path, idx) + [FileNameOf(j)])
    decreases depth, 0, width - i
  {
    var files := FileWrites(path, totalFiles / width, numLines);
    var below := CreateFilesInDirectory(path + [DirNameOf(i)], totalFiles, width, depth - 1, numLines);
    var rest := OuterLoop(path, totalFiles, width, depth, numLines, i + 1);
    assert i < width;
    assert OuterLoop(path, totalFiles, width, depth, numLines, i) == files + below + rest;
    if w in files {
      PassFileReached(path, totalFiles, width, depth, numLines, w);
    } else if w in below {
      SubDirectoryWriteReached(path, totalFiles, width, depth, numLines, i, w);
    } else {
      OuterLoopWritesAreReached(path, totalFiles, width, depth, numLines, i + 1, w);
    }
  }

  lemma PassFileReached(path: Path, totalFiles: nat, width: nat, depth: nat, numLines: nat, w: Write)
    requires depth >= 1 && width > 0
    requires w in FileWrites(path, totalFiles / width, numLines)
    ensures w.WriteFile? && w.content == Repeat(Line, numLines)
    ensures exists idx, j: nat :: (IsReached(idx, width, depth) && j < totalFiles / width &&
      w.path == DirPath(path, idx) + [FileNameOf(j)])
  {
    var files := FileWrites(path, totalFiles / width, numLines);
    var j :| 0 <= j < |files| && files[j] == w;
    assert DirPath(path, []) == path;
    assert IsReached([], width, depth);
  }

  lemma {:induction false} SubDirectoryWriteReached(path: Path, totalFiles: nat, width: nat, depth: nat, numLines: nat, i: nat, w: Write)
    requires depth >= 1 && i < width
    requires w in CreateFilesInDirectory(path + [DirNameOf(i)], totalFiles, width, depth - 1, numLines)
    ensures w.MakeDir? ==> exists idx :: IsReached(idx, width, depth) && w.path == DirPath(path, idx)
    ensures w.WriteFile? ==> (width > 0 && w.content == Repeat(Line, numLines) &&
      exists idx, j: nat :: IsReached(idx, width, depth) && j < totalFiles / width &&
        w.path == DirPath(path, idx) + [FileNameOf(j)])
    decreases depth, 0, 0
  {
    var sub := path + [DirNameOf(i)];
    WritesAreReached(sub, totalFiles, width, depth - 1, numLines, w);
    if w.MakeDir? {
      var idx :| IsReached(idx, width, depth - 1) && w.path == DirPath(sub, idx);
      DirPathCons(path, i, idx);
      assert IsReached([i] + idx, width, depth);
    } else {
      var idx, j: nat :| IsReached(idx, width, depth - 1) && j < totalFiles / width &&
        w.path == DirPath(sub, idx) + [FileNameOf(j)];
      DirPathCons(path, i, idx);
      assert IsReached([i] + idx, width, depth);
    }
  }

  /**
   * Conversely, every directory reached through sub-directories numbered below the width,
   * fewer than the depth of them, is made, and every `file{j}.txt` below `total / width` is
   * written in it.
   */
  lemma {:induction false} ReachedAreWritten(path: Path, totalFiles: nat, width: nat, depth: nat, numLines: nat, idx: seq<nat>)
    requires IsReached(idx, width, depth)
    ensures MakeDir(DirPath(path, idx)) in CreateFilesInDirectory(path, totalFiles, width, depth, numLines)
    ensures width > 0 ==> forall j :: 0 <= j < totalFiles / width ==>
      WriteFile(DirPath(path, idx) + [FileNameOf(j)], Repeat(Line, numLines))
        in CreateFilesInDirectory(path, totalFiles, width, depth, numLines)
    decreases depth
  {
    var all := CreateFilesInDirectory(path, totalFiles, width, depth, numLines);
    if idx == [] {
      assert DirPath(path, []) == path;
      assert all[0] == MakeDir(path);
      if width > 0 {
        forall j | 0 <= j < totalFiles / width
          ensures WriteFile(path + [FileNameOf(j)], Repeat(Line, numLines)) in all
        {
          var files := FileWrites(path, totalFiles / width, numLines);
          assert files[j] == WriteFile(path + [FileNameOf(j)], Repeat(Line, numLines));
          assert OuterLoop(path, totalFiles, width, depth, numLines, 0)
            == files + CreateFilesInDirectory(path + [DirNameOf(0)], totalFiles, width, depth - 1, numLines)
              + OuterLoop(path, totalFiles, width, depth, numLines, 1);
          assert all == [MakeDir(path)] + OuterLoop(path, totalFiles, width, depth, numLines, 0);
          assert all[1 + j] == files[j];
        }
      }
    } else {
      var i := idx[0];
      var sub := path + [DirNameOf(i)];
      assert IsReached(idx[1..], width, depth - 1) by {
        forall k | 0 <= k < |idx[1..]| ensures idx[1..][k] < width {
          assert idx[1..][k] == idx[k + 1];
        }
      }
      ReachedAreWritten(sub, totalFiles, width, depth - 1, numLines, idx[1..]);
      DirPathCons(path, i, idx[1..]);
      assert [i] + idx[1..] == idx;
      var below := CreateFilesInDirectory(sub, totalFiles, width, depth - 1, numLines);
      OuterLoopHolds(path, totalFiles, width, depth, numLines, 0, i);
      assert all == [MakeDir(path)] + OuterLoop(path, totalFiles, width, depth, numLines, 0);
      forall w | w in below ensures w in all {
        OuterLoopHoldsWrite(path, totalFiles, width, depth, numLines, 0, i, w);
      }
    }
  }

  /** The passes from `start` on include the whole tree of every later sub-directory. */
  lemma {:induction false} OuterLoopHolds(path: Path, totalFiles: nat, width: nat, depth: nat, numLines: nat, start: nat, i: nat)
    requires depth >= 1 && start <= i < width
    ensures forall w :: w in CreateFilesInDirectory(path + [DirNameOf(i)], totalFiles, width, depth - 1, numLines) ==>
      w in OuterLoop(path, totalFiles, width, depth, numLines, start)
    decreases i - start
  {
    forall w | w in CreateFilesInDirectory(path + [DirNameOf(i)], totalFiles, width, depth - 1, numLines)
      ensures w in OuterLoop(path, totalFiles, width, depth, numLines, start)
    {
      OuterLoopHoldsWrite(path, totalFiles, width, depth, numLines, start, i, w);
    }
  }

  lemma {:induction false} OuterLoopHoldsWrite(path: Path, totalFiles: nat, width: nat, depth: nat, numLines: nat, start: nat, i: nat, w: Write)
    requires depth >= 1 && start <= i < width
    requires w in CreateFilesInDirectory(path + [DirNameOf(i)], totalFiles, width, depth - 1, numLines)
    ensures w in OuterLoop(path, totalFiles, width, depth, numLines, start)
    decreases i - start
  {
    var files := FileWrites(path, totalFiles / width, numLines);
    var below := CreateFilesInDirectory(path + [DirNameOf(start)], totalFiles, width, depth - 1, numLines);
    var rest := OuterLoop(path, totalFiles, width, depth, numLines, start + 1);
    assert OuterLoop(path, totalFiles, width, depth, numLines, start) == files + below + rest;
    if i > start {
      OuterLoopHoldsWrite(path, totalFiles, width, depth, numLines, start + 1, i, w);
    }
  }

  /**
   * The file names of one directory do not depend on the pass of the outer loop: every pass
   * writes the same `total / width` files again, so `width` passes write each file `width`
   * times.
   */
  lemma {:induction false} FilesRewrittenEachPass(path: Path, totalFiles: nat, width: nat, depth: nat, numLines: nat, i: nat)
    requires depth == 1 && 0 < width && i <= width
    ensures OuterLoop(path, totalFiles, width, depth, numLines, i)
         == Repeated(FileWrites(path, totalFiles / width, numLines), width - i)
    decreases width - i
  {
    if i < width {
      FilesRewrittenEachPass(path, totalFiles, width, depth, numLines, i + 1);
      assert CreateFilesInDirectory(path + [DirNameOf(i)], totalFiles, width, 0, numLines) == [];
    }
  }

  /** A list of writes made `n` times in a row. */
  function Repeated(ws: seq<Write>, n: nat): (r: seq<Write>)
    ensures |r| == n * |ws|
  {
    if n == 0 then [] else ws + Repeated(ws, n - 1)
  }

  /* ---------------------------------------------------------------- */
  /* `main`                                                            */

  /** The largest `usize` on a 64-bit target. */
  const UsizeMax: nat := 0xFFFF_FFFF_FFFF_FFFF

  predicate AllDigits(s: string) {
    forall i :: 0 <= i < |s| ==> IsDigit(s[i])
  }

  /** The text after an optional leading '+'. */
  function Unsigned(s: string): string {
    if |s| > 0 && s[0] == '+' then s[1..] else s
  }

  /** `str::parse::<usize>`: an optional '+', then at least one digit, and no overflow. */
  function ParseUsize(s: string): (r: Option<nat>)
    ensures r.Some? ==> r.value <= UsizeMax
  {
    var digits := Unsigned(s);
    if |digits| > 0 && AllDigits(digits) && DigitsValue(digits) <= UsizeMax then Some(DigitsValue(digits))
    else None
  }

  /** Every `usize` written in decimal parses back to itself. */
  lemma ParseUsizeOfDecimal(n: nat)
    requires n <= UsizeMax
    ensures ParseUsize(NatToString(n)) == Some(n)
  {
    DigitsValueOfNatToString(n);
  }

  /** An empty argument, a lone '+', or one starting with anything but a digit or '+' (a '-', a letter) is refused. */
  lemma ParseUsizeRefuses(s: string)
    requires s == "" || s == "+" || (|s| > 0 && s[0] != '+' && !IsDigit(s[0]))
    ensures ParseUsize(s) == None
  {
    if |s| > 0 && s[0] != '+' {
      assert !AllDigits(Unsigned(s));
    }
  }

  /** How a run of the generator ends. */
  datatype Outcome =
      /** The arguments were accepted and these writes were made (errors of the writes are not modelled). */
    | Generated(writes: seq<Write>)
      /** An argument was refused with this message; nothing was written. */
    | Refused(message: string)
      /** `args[0]` does not exist: the usage message itself panics. */
    | Panicked

  const RootName := "root_directory"

  function NotANumber(name: string): string {
    "Erreur: " + name + " doit être un nombre entier"
  }

  /** `main`: exactly four arguments after the program name, each a `usize`. */
  function RunGenerator(args: seq<string>): (r: Outcome)
    ensures |args| != 5 ==> r == (if |args| == 0 then Panicked else
      Refused("Usage: " + args[0] + " <total_files> <width> <depth> <num_lines>"))
  {
    if |args| != 5 then
      if |args| == 0 then Panicked
      else Refused("Usage: " + args[0] + " <total_files> <width> <depth> <num_lines>")
    else
      match ParseUsize(args[1])
      case None => Refused(NotANumber("total_files"))
      case Some(totalFiles) =>
        match ParseUsize(args[2])
        case None => Refused(NotANumber("width"))
        case Some(width) =>
          match ParseUsize(args[3])
          case None => Refused(NotANumber("depth"))
          case Some(depth) =>
            match ParseUsize(args[4])
            case None => Refused(NotANumber("num_lines"))
            case Some(numLines) =>
              Generated(CreateFilesInDirectory([RootName], totalFiles, width, depth, numLines))
  }

  /**
   * The generator writes something only when given exactly four arguments that all parse as
   * `usize`; it then builds the tree under "root_directory" from them.
   */
  lemma RunGeneratorWrites(args: seq<string>)
    ensures RunGenerator(args).Generated? <==>
      |args| == 5 && forall k :: 1 <= k < 5 ==> ParseUsize(args[k]).Some?
    ensures RunGenerator(args).Generated? ==>
      RunGenerator(args).writes == CreateFilesInDirectory([RootName], ParseUsize(args[1]).value,
        ParseUsize(args[2]).value, ParseUsize(args[3]).value, ParseUsize(args[4]).value)
  {
    if |args| == 5 {
      var p1, p2, p3, p4 := ParseUsize(args[1]), ParseUsize(args[2]), ParseUsize(args[3]), ParseUsize(args[4]);
      assert (forall k :: 1 <= k < 5 ==> ParseUsize(args[k]).Some?) <==> p1.Some? && p2.Some? && p3.Some? && p4.Some?;
      if p1.Some? && p2.Some? && p3.Some? && p4.Some? {
        assert RunGenerator(args) == Generated(CreateFilesInDirectory([RootName], p1.value, p2.value, p3.value, p4.value));
      } else {
        assert RunGenerator(args).Refused?;
      }
    }
  }
}
