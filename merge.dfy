/**
 * `merge_csv_files` and `_read_from_zip` of csv_xls_analyse/core.py: the paths are visited in
 * order; a `.csv` path contributes its table normalised by `_read_csv`, a `.zip` path the raw
 * tables of its `.csv` members in archive order, any other path nothing; the tables are then
 * stacked.
 *
 * Reading files is a parameter: `readCsv(path)` is the table `pd.read_csv` makes of the file,
 * and `zipMembers(path)` lists the archive's members in `namelist()` order, each with the table
 * `pd.read_csv` makes of it.
 */
module Merge {
  import opened Wrappers
  import opened Text
  import opened Frames
  import opened Normaliser

  /** A member of an archive: its name and the table read from it. */
  datatype Member = Member(name: string, table: Frame)

  /** Python's `s.rfind(c)`: the last index of `c`, or -1. */
  function RFind(s: string, c: char): (i: int)
    ensures -1 <= i < |s|
    ensures i >= 0 ==> s[i] == c
    ensures forall j | i < j < |s| :: s[j] != c
  {
    if s == [] then -1
    else if s[|s| - 1] == c then |s| - 1
    else RFind(s[..|s| - 1], c)
  }

  /** The path without the slashes that end it. */
  function TrimSlashes(path: string): (r: string)
    ensures |r| <= |path| && r == path[..|r|]
    ensures r == [] || r[|r| - 1] != '/'
  {
    if path != [] && path[|path| - 1] == '/' then TrimSlashes(path[..|path| - 1]) else path
  }

  /** `Path(path).name`: the last component of a POSIX path. */
  function BaseName(path: string): string {
    var t := TrimSlashes(path);
    t[RFind(t, '/') + 1..]
  }

  /**
   * `Path(path).suffix`: from the last '.' of the name, when that point is neither the
   * name's first character nor its last; otherwise empty.
   */
  function Suffix(path: string): string {
    var name := BaseName(path);
    var i := RFind(name, '.');
    if 0 < i < |name| - 1 then name[i..] else ""
  }

  /** A suffix is empty or a point, then at least one character that is neither a point nor a slash. */
  lemma SuffixShape(path: string)
    ensures var r := Suffix(path);
      r == "" || (|r| >= 2 && r[0] == '.' && '.' !in r[1..] && '/' !in r)
  {
    var t := TrimSlashes(path);
    var name := BaseName(path);
    forall j | 0 <= j < |name| ensures name[j] != '/' {
      assert name[j] == t[RFind(t, '/') + 1 + j];
    }
    var i := RFind(name, '.');
    if 0 < i < |name| - 1 {
      var r := name[i..];
      assert forall j | 0 <= j < |r| :: r[j] == name[i + j];
      assert forall j | 0 <= j < |r[1..]| :: r[1..][j] == name[i + 1 + j];
    }
  }

  /** `Path(path).suffix.lower() == ext` for a lower-case ASCII extension such as ".csv". */
  predicate SuffixIs(path: string, ext: string) {
    var s := Suffix(path);
    |s| == |ext| && EndsWithIgnoringCase(s, ext)
  }

  /** `name.lower().endswith('.csv')`: the member filter of `_read_from_zip`. */
  predicate IsCsvName(name: string) {
    EndsWithIgnoringCase(name, ".csv")
  }

  /** The tables of the `.csv` members, in archive order. */
  function CsvTables(members: seq<Member>): seq<Frame> {
    if members == [] then []
    else
      var last := members[|members| - 1];
      CsvTables(members[..|members| - 1]) + (if IsCsvName(last.name) then [last.table] else [])
  }

  /** Selecting members distributes over concatenation: order is kept and nothing is duplicated. */
  lemma {:induction false} CsvTablesAppend(a: seq<Member>, b: seq<Member>)
    ensures CsvTables(a + b) == CsvTables(a) + CsvTables(b)
  {
    if b == [] {
      assert a + b == a;
    } else {
      var init := b[..|b| - 1];
      assert (a + b)[..|a + b| - 1] == a + init;
      CsvTablesAppend(a, init);
    }
  }

  /** A table is kept exactly when it was read from a member named `*.csv`. */
  lemma {:induction false} CsvTablesMembers(members: seq<Member>, t: Frame)
    ensures t in CsvTables(members) <==> exists k | 0 <= k < |members| :: IsCsvName(members[k].name) && members[k].table == t
  {
    if members != [] {
      var init := members[..|members| - 1];
      CsvTablesMembers(init, t);
      if k :| 0 <= k < |init| && IsCsvName(init[k].name) && init[k].table == t {
        assert members[k] == init[k];
      }
      if k :| 0 <= k < |members| && IsCsvName(members[k].name) && members[k].table == t {
        if k < |init| {
          assert init[k] == members[k];
        }
      }
    }
  }

  /** `_read_from_zip`: the tables of the `.csv` members, as read, in `namelist()` order. */
  method ReadFromZip(members: seq<Member>) returns (frames: seq<Frame>)
    ensures frames == CsvTables(members)
  {
    frames := [];
    var i := 0;
    while i < |members|
      invariant i <= |members|
      invariant frames == CsvTables(members[..i])
    {
      assert members[..i + 1][..i] == members[..i];
      if IsCsvName(members[i].name) {
        frames := frames + [members[i].table];
      }
      i := i + 1;
    }
    assert members[..i] == members;
  }

  /** What one path contributes to the list of frames. */
  function PathFrames(path: string, readCsv: string -> Frame, zipMembers: string -> seq<Member>,
                      toNumber: string -> Option<real>): seq<Frame>
  {
    if SuffixIs(path, ".csv") then [NormaliseFrame(readCsv(path), false, toNumber)]
    else if SuffixIs(path, ".zip") then CsvTables(zipMembers(path))
    else []
  }

  /** The frames the paths contribute, one path after the other. */
  function Collect(paths: seq<string>, contribution: string -> seq<Frame>): seq<Frame> {
    if paths == [] then []
    else Collect(paths[..|paths| - 1], contribution) + contribution(paths[|paths| - 1])
  }

  function Contribution(readCsv: string -> Frame, zipMembers: string -> seq<Member>,
                        toNumber: string -> Option<real>): string -> seq<Frame>
  {
    p => PathFrames(p, readCsv, zipMembers, toNumber)
  }

  /** The list `frames` once every path has been visited. */
  function MergeFrames(paths: seq<string>, readCsv: string -> Frame, zipMembers: string -> seq<Member>,
                       toNumber: string -> Option<real>): seq<Frame>
  {
    Collect(paths, Contribution(readCsv, zipMembers, toNumber))
  }

  /** The merged table: empty when no frame was produced, the stacked frames otherwise. */
  function Merged(paths: seq<string>, readCsv: string -> Frame, zipMembers: string -> seq<Member>,
                  toNumber: string -> Option<real>): Frame
  {
    var frames := MergeFrames(paths, readCsv, zipMembers, toNumber);
    if frames == [] then EmptyFrame() else ConcatAll(frames)
  }

  /** The frames of consecutive runs of paths follow each other. */
  lemma {:induction false} CollectAppend(a: seq<string>, b: seq<string>, contribution: string -> seq<Frame>)
    ensures Collect(a + b, contribution) == Collect(a, contribution) + Collect(b, contribution)
  {
    if b == [] {
      assert a + b == a;
    } else {
      var init := b[..|b| - 1];
      assert (a + b)[..|a + b| - 1] == a + init;
      CollectAppend(a, init, contribution);
    }
  }

  /** A path that contributes nothing can be removed from anywhere in the list. */
  lemma CollectSkip(a: seq<string>, p: string, b: seq<string>, contribution: string -> seq<Frame>)
    requires contribution(p) == []
    ensures Collect(a + [p] + b, contribution) == Collect(a + b, contribution)
  {
    CollectAppend(a + [p], b, contribution);
    CollectAppend(a, [p], contribution);
    CollectAppend(a, b, contribution);
    assert [p][..0] == [];
  }

  /** A path whose suffix is neither `.csv` nor `.zip` (in any case) changes nothing. */
  lemma IgnoredPath(a: seq<string>, p: string, b: seq<string>, readCsv: string -> Frame,
                    zipMembers: string -> seq<Member>, toNumber: string -> Option<real>)
    requires !SuffixIs(p, ".csv") && !SuffixIs(p, ".zip")
    ensures Merged(a + [p] + b, readCsv, zipMembers, toNumber) == Merged(a + b, readCsv, zipMembers, toNumber)
  {
    var c := Contribution(readCsv, zipMembers, toNumber);
    assert c(p) == PathFrames(p, readCsv, zipMembers, toNumber) == [];
    CollectSkip(a, p, b, c);
  }

  /** No suffix is both `.csv` and `.zip`. */
  lemma ZipIsNotCsv(p: string)
    requires SuffixIs(p, ".zip")
    ensures !SuffixIs(p, ".csv")
  {
    var s := Suffix(p);
    assert AsciiLower(s[|s| - |".zip"| + 1]) == ".zip"[1] == 'z';
    assert ".csv"[1] == 'c';
  }

  /** An archive path contributes the tables of its `.csv` members as read. */
  lemma ZipContribution(p: string, readCsv: string -> Frame, zipMembers: string -> seq<Member>,
                        toNumber: string -> Option<real>)
    requires SuffixIs(p, ".zip")
    ensures PathFrames(p, readCsv, zipMembers, toNumber) == CsvTables(zipMembers(p))
  {
    ZipIsNotCsv(p);
  }

  /** Tables read from an archive are stacked as read, not normalised as a `.csv` file would be. */
  lemma ZipNotNormalised(p: string, readCsv: string -> Frame, zipMembers: string -> seq<Member>,
                         toNumber: string -> Option<real>, m: Member)
    requires SuffixIs(p, ".zip") && zipMembers(p) == [m] && IsCsvName(m.name)
    ensures Merged([p], readCsv, zipMembers, toNumber) == m.table
  {
    var c := Contribution(readCsv, zipMembers, toNumber);
    ZipContribution(p, readCsv, zipMembers, toNumber);
    assert [m][..0] == [];
    assert CsvTables([m]) == [m.table];
    assert [p][..0] == [];
    assert c(p) == PathFrames(p, readCsv, zipMembers, toNumber);
    assert Collect([p], c) == Collect([], c) + c(p);
  }

  /** A single `.csv` path yields its table normalised by `_read_csv`, commas read as points. */
  lemma CsvNormalised(p: string, readCsv: string -> Frame, zipMembers: string -> seq<Member>,
                      toNumber: string -> Option<real>)
    requires SuffixIs(p, ".csv")
    ensures Merged([p], readCsv, zipMembers, toNumber) == NormaliseFrame(readCsv(p), false, toNumber)
  {
    var c := Contribution(readCsv, zipMembers, toNumber);
    assert [p][..0] == [];
    assert c(p) == PathFrames(p, readCsv, zipMembers, toNumber);
    assert Collect([p], c) == Collect([], c) + c(p);
  }

  lemma {:induction false} MergeFramesValid(paths: seq<string>, readCsv: string -> Frame,
                                            zipMembers: string -> seq<Member>, toNumber: string -> Option<real>)
    requires forall p :: Valid(readCsv(p))
    requires forall p, m | m in zipMembers(p) :: Valid(m.table)
    ensures forall k | 0 <= k < |MergeFrames(paths, readCsv, zipMembers, toNumber)| ::
      Valid(MergeFrames(paths, readCsv, zipMembers, toNumber)[k])
  {
    if paths != [] {
      var init := paths[..|paths| - 1];
      var p := paths[|paths| - 1];
      MergeFramesValid(init, readCsv, zipMembers, toNumber);
      var pf := PathFrames(p, readCsv, zipMembers, toNumber);
      assert MergeFrames(paths, readCsv, zipMembers, toNumber) == MergeFrames(init, readCsv, zipMembers, toNumber) + pf;
      PathFramesValid(p, readCsv, zipMembers, toNumber);
    }
  }

  /** What one path contributes is made of valid tables. */
  lemma PathFramesValid(p: string, readCsv: string -> Frame, zipMembers: string -> seq<Member>,
                        toNumber: string -> Option<real>)
    requires Valid(readCsv(p))
    requires forall m | m in zipMembers(p) :: Valid(m.table)
    ensures forall k | 0 <= k < |PathFrames(p, readCsv, zipMembers, toNumber)| ::
      Valid(PathFrames(p, readCsv, zipMembers, toNumber)[k])
  {
    if SuffixIs(p, ".csv") {
      NormaliseFrameCells(readCsv(p), false, toNumber);
    } else if SuffixIs(p, ".zip") {
      var pf := CsvTables(zipMembers(p));
      forall k | 0 <= k < |pf| ensures Valid(pf[k]) {
        CsvTablesMembers(zipMembers(p), pf[k]);
      }
    }
  }

  /**
   * The merged table is a valid table whose rows are the rows of the produced frames, one
   * frame after the other in path order, with no row added or dropped.
   */
  lemma MergedSpec(paths: seq<string>, readCsv: string -> Frame, zipMembers: string -> seq<Member>,
                   toNumber: string -> Option<real>)
    requires forall p :: Valid(readCsv(p))
    requires forall p, m | m in zipMembers(p) :: Valid(m.table)
    ensures Valid(Merged(paths, readCsv, zipMembers, toNumber))
    ensures Merged(paths, readCsv, zipMembers, toNumber).rows == AllRows(MergeFrames(paths, readCsv, zipMembers, toNumber))
    ensures |Merged(paths, readCsv, zipMembers, toNumber).rows| ==
      RowsBefore(MergeFrames(paths, readCsv, zipMembers, toNumber), |MergeFrames(paths, readCsv, zipMembers, toNumber)|)
  {
    var frames := MergeFrames(paths, readCsv, zipMembers, toNumber);
    MergeFramesValid(paths, readCsv, zipMembers, toNumber);
    AllRowsLength(frames);
    if frames != [] {
      ConcatAllSpec(frames);
    }
  }

  /** `merge_csv_files`: visit the paths in order, then stack what they produced. */
  method MergeCsvFiles(paths: seq<string>, readCsv: string -> Frame, zipMembers: string -> seq<Member>,
                       toNumber: string -> Option<real>) returns (df: Frame)
    requires forall p :: Valid(readCsv(p))
    ensures df == Merged(paths, readCsv, zipMembers, toNumber)
  {
    var frames: seq<Frame> := [];
    var i := 0;
    while i < |paths|
      invariant i <= |paths|
      invariant frames == MergeFrames(paths[..i], readCsv, zipMembers, toNumber)
    {
      var p := paths[i];
      assert paths[..i + 1][..i] == paths[..i];
      if SuffixIs(p, ".csv") {
        var f := ReadCsv(readCsv(p), toNumber);
        frames := frames + [f];
      } else if SuffixIs(p, ".zip") {
        var more := ReadFromZip(zipMembers(p));
        frames := frames + more;
      }
      i := i + 1;
    }
    assert paths[..i] == paths;
    if frames == [] {
      df := EmptyFrame();
    } else {
      df := ConcatAll(frames);
    }
  }
}
