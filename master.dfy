/** build_master: concatenate every CSV file under the CSV directory, in sorted path
    order, into one master file with a fixed six-column header. */
module Master {
  import opened Text
  import opened Sorting

  /** A file's path, as the sequence of its parts; paths compare part by part. */
  type Path = seq<string>

  /** A CSV row as csv.reader returns it: its fields. A blank line is the empty row. */
  type Row = seq<string>

  const Headers: Row := ["SETTLEMENT DATE", "CUSIP", "SYMBOL", "QUANTITY (FAILS)", "DESCRIPTION", "PRICE"]

  const Width := 6

  function Blanks(n: nat): (r: Row)
    ensures |r| == n && forall i :: 0 <= i < n ==> r[i] == ""
  {
    if n == 0 then [] else Blanks(n - 1) + [""]
  }

  /** A row cut or padded with empty fields to exactly six fields. */
  function NormalizeRow(row: Row): (r: Row)
    ensures |r| == Width
    ensures forall i :: 0 <= i < Width && i < |row| ==> r[i] == row[i]
    ensures forall i :: |row| <= i < Width ==> r[i] == ""
  {
    if |row| < Width then row + Blanks(Width - |row|)
    else if |row| > Width then row[..Width]
    else row
  }

  /** The written rows of one file: its non-empty rows, normalised, in order. */
  function FileRows(rows: seq<Row>): (r: seq<Row>)
    ensures |r| <= |rows|
  {
    if rows == [] then []
    else FileRows(rows[..|rows| - 1]) + (if rows[|rows| - 1] == [] then [] else [NormalizeRow(rows[|rows| - 1])])
  }

  /** The data rows of the master file for the given files' rows, file after file. */
  function MasterRows(contents: seq<seq<Row>>): seq<Row>
  {
    if contents == [] then []
    else MasterRows(contents[..|contents| - 1]) + FileRows(contents[|contents| - 1])
  }

  /** The rows of the files at the given paths, in that order (a path without a file has none). */
  function FileContents(csvFiles: map<Path, seq<Row>>, paths: seq<Path>): (r: seq<seq<Row>>)
    ensures |r| == |paths|
  {
    seq(|paths|, i requires 0 <= i < |paths| => if paths[i] in csvFiles then csvFiles[paths[i]] else [])
  }

  function NonEmptyCount(rows: seq<Row>): nat
  {
    if rows == [] then 0
    else NonEmptyCount(rows[..|rows| - 1]) + (if rows[|rows| - 1] == [] then 0 else 1)
  }

  function TotalNonEmpty(contents: seq<seq<Row>>): nat
  {
    if contents == [] then 0
    else TotalNonEmpty(contents[..|contents| - 1]) + NonEmptyCount(contents[|contents| - 1])
  }

  /** A row that already has six fields is written as it is. */
  lemma NormalizeRowKeepsSix(row: Row)
    requires |row| == Width
    ensures NormalizeRow(row) == row
  {
    assert forall i :: 0 <= i < Width ==> NormalizeRow(row)[i] == row[i];
  }

  /** Every written row of a file has six fields and comes from a non-empty input row. */
  lemma {:induction false} FileRowsShape(rows: seq<Row>)
    ensures |FileRows(rows)| == NonEmptyCount(rows)
    ensures forall k :: 0 <= k < |FileRows(rows)| ==> |FileRows(rows)[k]| == Width
    ensures forall k :: 0 <= k < |FileRows(rows)| ==>
      exists i :: 0 <= i < |rows| && rows[i] != [] && FileRows(rows)[k] == NormalizeRow(rows[i])
  {
    if rows != [] {
      var init := rows[..|rows| - 1];
      FileRowsShape(init);
      forall k | 0 <= k < |FileRows(init)|
        ensures exists i :: 0 <= i < |rows| && rows[i] != [] && FileRows(init)[k] == NormalizeRow(rows[i])
      {
        var i :| 0 <= i < |init| && init[i] != [] && FileRows(init)[k] == NormalizeRow(init[i]);
        assert rows[i] == init[i];
      }
    }
  }

  /** The count build_master returns is the number of non-empty rows in all its inputs,
      and every data row has six fields. */
  lemma {:induction false} MasterRowsShape(contents: seq<seq<Row>>)
    ensures |MasterRows(contents)| == TotalNonEmpty(contents)
    ensures forall k :: 0 <= k < |MasterRows(contents)| ==> |MasterRows(contents)[k]| == Width
  {
    if contents != [] {
      var init := contents[..|contents| - 1];
      MasterRowsShape(init);
      FileRowsShape(contents[|contents| - 1]);
      var a, b := MasterRows(init), FileRows(contents[|contents| - 1]);
      forall k | 0 <= k < |a + b| ensures |(a + b)[k]| == Width {
        if k >= |a| { assert (a + b)[k] == b[k - |a|]; }
      }
    }
  }

  lemma FileRowsStep(rows: seq<Row>, j: nat)
    requires j < |rows|
    ensures FileRows(rows[..j + 1]) == FileRows(rows[..j]) + (if rows[j] == [] then [] else [NormalizeRow(rows[j])])
  {
    assert rows[..j + 1][..j] == rows[..j];
  }

  lemma FileContentsStep(csvFiles: map<Path, seq<Row>>, paths: seq<Path>, k: nat)
    requires k < |paths| && paths[k] in csvFiles
    ensures MasterRows(FileContents(csvFiles, paths[..k + 1]))
      == MasterRows(FileContents(csvFiles, paths[..k])) + FileRows(csvFiles[paths[k]])
  {
    var c := FileContents(csvFiles, paths[..k + 1]);
    assert c[..k] == FileContents(csvFiles, paths[..k]);
  }

  lemma PartsLeIsTotal()
    ensures Total(PartsLe)
  {
    forall a, b ensures PartsLe(a, b) || PartsLe(b, a) { PartsLeTotal(a, b); }
  }

  /** sorted(paths): every path once, in ascending order. */
  method SortedPaths(paths: set<Path>) returns (files: seq<Path>)
    ensures SortedBy(files, PartsLe) && Distinct(files)
    ensures forall p :: p in files <==> p in paths
    ensures files == [] <==> paths == {}
  {
    PartsLeIsTotal();
    files := SortSet(paths, PartsLe);
    SetPermutationDistinct(files, paths);
  }

  /** The inner loop of build_master: write one file's rows, skipping empty ones and
      cutting or padding the rest to six fields. */
  method WriteFileRows(rows: seq<Row>, output: seq<Row>, rowsWritten: nat)
    returns (output': seq<Row>, rowsWritten': nat)
    ensures output' == output + FileRows(rows)
    ensures rowsWritten' == rowsWritten + |FileRows(rows)|
  {
    output', rowsWritten' := output, rowsWritten;
    for j := 0 to |rows|
      invariant output' == output + FileRows(rows[..j])
      invariant rowsWritten' == rowsWritten + |FileRows(rows[..j])|
    {
      FileRowsStep(rows, j);
      var row := rows[j];
      if row == [] {
        continue;
      }
      if |row| < Width {
        row := row + Blanks(Width - |row|);
      } else if |row| > Width {
        row := row[..Width];
      }
      output' := output' + [row];
      rowsWritten' := rowsWritten' + 1;
    }
    assert rows[..|rows|] == rows;
  }

  /** output is the header followed by the rows of the files taken in sorted path order. */
  ghost predicate WrittenInPathOrder(csvFiles: map<Path, seq<Row>>, output: seq<Row>)
  {
    exists paths: seq<Path> ::
      && SortedBy(paths, PartsLe) && Distinct(paths)
      && (forall p :: p in paths <==> p in csvFiles)
      && output == [Headers] + MasterRows(FileContents(csvFiles, paths))
  }

  /** The state of the outer loop after the first k files. */
  ghost predicate WrittenUpTo(csvFiles: map<Path, seq<Row>>, files: seq<Path>, k: nat, output: seq<Row>, rowsWritten: nat)
  {
    && k <= |files|
    && output == [Headers] + MasterRows(FileContents(csvFiles, files[..k]))
    && rowsWritten == |output| - 1
  }

  /** One turn of the outer loop: the next file's rows are written. */
  method WriteNextFile(csvFiles: map<Path, seq<Row>>, files: seq<Path>, k: nat, output: seq<Row>, rowsWritten: nat)
    returns (output': seq<Row>, rowsWritten': nat)
    requires k < |files| && files[k] in csvFiles
    requires WrittenUpTo(csvFiles, files, k, output, rowsWritten)
    ensures WrittenUpTo(csvFiles, files, k + 1, output', rowsWritten')
  {
    FileContentsStep(csvFiles, files, k);
    output', rowsWritten' := WriteFileRows(csvFiles[files[k]], output, rowsWritten);
  }

  /** After the last file, output is the whole master file for the sorted paths. */
  lemma MasterOutput(csvFiles: map<Path, seq<Row>>, files: seq<Path>, output: seq<Row>, rowsWritten: nat)
    requires SortedBy(files, PartsLe) && Distinct(files)
    requires forall p :: p in files <==> p in csvFiles
    requires WrittenUpTo(csvFiles, files, |files|, output, rowsWritten)
    ensures WrittenInPathOrder(csvFiles, output)
    ensures rowsWritten == |output| - 1
  {
    assert files[..|files|] == files;
  }

  /** The master file, as the rows written: the header, then every non-empty row of every
      file (files in sorted path order, rows in file order) cut or padded to six fields. */
  method BuildMaster(csvFiles: map<Path, seq<Row>>) returns (output: seq<Row>, rowsWritten: nat)
    ensures csvFiles == map[] ==> output == [Headers] && rowsWritten == 0
    ensures WrittenInPathOrder(csvFiles, output)
    ensures rowsWritten == |output| - 1
  {
    var files := SortedPaths(csvFiles.Keys);
    if files == [] {
      output := [Headers];
      rowsWritten := 0;
      MasterOutput(csvFiles, files, output, rowsWritten);
      return;
    }
    rowsWritten := 0;
    output := [Headers];
    for k := 0 to |files|
      invariant WrittenUpTo(csvFiles, files, k, output, rowsWritten)
    {
      output, rowsWritten := WriteNextFile(csvFiles, files, k, output, rowsWritten);
    }
    MasterOutput(csvFiles, files, output, rowsWritten);
  }
}
