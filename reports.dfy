/**
 * The CSV reports the tools leave behind: a table of columns and rows per
 * file, the path of the "unmapped" report derived from the change report's
 * path, and the files on disk after a sequence of writes.
 */
module Reports {
  import opened PyStr

  /** A `pandas.DataFrame` written with `to_csv(index=False)`: a header row and data rows. */
  datatype Table = Table(columns: seq<string>, rows: seq<seq<string>>)

  /** One `to_csv` call. */
  datatype CsvFile = CsvFile(path: string, table: Table)

  /** `report_file.replace(".csv", "_unmapped.csv")`. */
  function UnmappedPath(reportFile: string): string {
    ReplaceAll(reportFile, ".csv", "_unmapped.csv")
  }

  /** The first four characters of `stem + ".csv"` spell ".csv" only when the stem is empty. */
  lemma CsvNotAtStart(stem: string)
    requires stem != [] && !Contains(stem, ".csv")
    ensures (stem + ".csv")[..4] != ".csv"
  {
    var s := stem + ".csv";
    if |stem| >= 4 {
      assert s[..4] == stem[..4];
      assert !OccursAt(stem, ".csv", 0);
    } else {
      assert s[|stem|] == '.';
      assert ".csv"[|stem|] != '.';
    }
  }

  /**
   * A report path made of a stem without ".csv" followed by ".csv" gives
   * the unmapped report the stem followed by "_unmapped.csv".
   */
  lemma {:induction false} UnmappedPathOfCsv(stem: string)
    requires !Contains(stem, ".csv")
    ensures UnmappedPath(stem + ".csv") == stem + "_unmapped.csv"
    decreases |stem|
  {
    var s := stem + ".csv";
    if stem == [] {
      assert s == ".csv";
      assert s[4..] == [];
    } else {
      CsvNotAtStart(stem);
      forall i | OccursAt(stem[1..], ".csv", i) ensures OccursAt(stem, ".csv", i + 1) {
        assert stem[1..][i..i + 4] == stem[i + 1..i + 5];
      }
      assert s[1..] == stem[1..] + ".csv";
      UnmappedPathOfCsv(stem[1..]);
      assert [stem[0]] + stem[1..] == stem;
    }
  }

  /**
   * A report path without ".csv" gives the unmapped report the same path as
   * the change report.
   */
  lemma UnmappedPathWithoutCsv(reportFile: string)
    requires !Contains(reportFile, ".csv")
    ensures UnmappedPath(reportFile) == reportFile
  {
    ReplaceAllAbsent(reportFile, ".csv", "_unmapped.csv");
  }

  /** The files on disk after the writes `files`, in order: a later write to a path replaces an earlier one. */
  function OnDisk(files: seq<CsvFile>): map<string, Table> {
    if files == [] then map[]
    else OnDisk(files[..|files| - 1])[files[|files| - 1].path := files[|files| - 1].table]
  }

  /** Every written path is on disk, holding the table of the last write to it. */
  lemma {:induction false} OnDiskLastWriteWins(files: seq<CsvFile>, i: nat)
    requires i < |files|
    requires forall j :: i < j < |files| ==> files[j].path != files[i].path
    ensures files[i].path in OnDisk(files) && OnDisk(files)[files[i].path] == files[i].table
  {
    if i < |files| - 1 {
      OnDiskLastWriteWins(files[..|files| - 1], i);
    }
  }

  /** One write leaves one file. */
  lemma OnDiskOne(f: CsvFile)
    ensures OnDisk([f]) == map[f.path := f.table]
  {
    assert [f][..0] == [];
  }

  /** Two writes: the second replaces the first when the paths agree. */
  lemma OnDiskTwo(f: CsvFile, g: CsvFile)
    ensures OnDisk([f, g]) == map[f.path := f.table][g.path := g.table]
  {
    assert [f, g][..1] == [f];
    OnDiskOne(f);
  }
}
