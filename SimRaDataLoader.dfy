/**
 * The start-up import (`SimRaDataLoader`): pick the ride files under the
 * data directory that are not stored yet, parse each one, and store every
 * ride that has points. The directory walk and the file contents are given
 * as values; files are processed one after another in walk order.
 */
module SimRaDataLoader {
  import opened Wrappers
  import opened Text
  import opened Domain
  import opened SimRaFileParser

  /** A path reported by the directory walk: the full path string, its last component, and whether it is a regular file. */
  datatype FileEntry = FileEntry(path: string, fileName: string, isRegularFile: bool)

  /** The file contents as rows, or `None` when opening or reading fails with an `IOException`. */
  type FileReader = string -> Option<seq<seq<string>>>

  /**
   * Whether `rideRepository.save` throws for the ride of a file: a database
   * error, or a value the schema refuses, such as an incident description
   * over the 1000-character column.
   */
  type SaveRejects = FileEntry -> bool

  /** The filter chain of `run`: a regular, non-hidden `VM…` file on a path through `Rides`, not stored yet. */
  predicate Selected(file: FileEntry, existing: set<string>) {
    && file.isRegularFile
    && !StartsWith(file.fileName, ".")
    && Contains(file.path, "Rides")
    && StartsWith(file.fileName, "VM")
    && file.fileName !in existing
  }

  /** The files to process, in walk order. */
  function SelectFiles(files: seq<FileEntry>, existing: set<string>): (r: seq<FileEntry>)
    ensures |r| <= |files|
    ensures forall f :: f in r <==> f in files && Selected(f, existing)
    decreases |files|
  {
    if files == [] then []
    else
      var init := SelectFiles(files[..|files| - 1], existing);
      var f := files[|files| - 1];
      assert files == files[..|files| - 1] + [f];
      if Selected(f, existing) then init + [f] else init
  }

  /** Resumability: when every walked name is already stored, nothing is selected. */
  lemma NothingSelectedWhenAllStored(files: seq<FileEntry>, existing: set<string>)
    requires forall k :: 0 <= k < |files| ==> files[k].fileName in existing
    ensures SelectFiles(files, existing) == []
  {
    var r := SelectFiles(files, existing);
    forall f | f in files
      ensures !Selected(f, existing)
    {
      var k :| 0 <= k < |files| && files[k] == f;
    }
  }

  // ------------------------------------------------------------ the ride table

  /** The ride table (`RideRepository`), as the original file names of the stored rides in saving order. */
  class RideRepository {
    var savedFilenames: seq<Option<string>>

    constructor (savedFilenames: seq<Option<string>>)
      ensures this.savedFilenames == savedFilenames
    {
      this.savedFilenames := savedFilenames;
    }

    /** `findAllOriginalFilenames`, without the nulls, which no file name can match. */
    function OriginalFilenames(): (r: set<string>)
      reads this
      ensures forall n :: n in r <==> Some(n) in savedFilenames
    {
      set k | 0 <= k < |savedFilenames| && savedFilenames[k].Some? :: savedFilenames[k].value
    }

    /**
     * `save(ride)`: one more stored ride, unless the database refuses it;
     * the save is one transaction, so a refused ride leaves the table as it was.
     */
    method Save(ride: Ride, rejected: bool) returns (saved: bool)
      modifies this
      ensures saved == !rejected
      ensures savedFilenames == old(savedFilenames) + (if rejected then [] else [ride.originalFilename])
    {
      if rejected {
        return false;
      }
      savedFilenames := savedFilenames + [ride.originalFilename];
      return true;
    }
  }

  // ------------------------------------------------------------ one file

  /** Whether the file can be read; if not, `processFile` throws and the run logs the name. */
  predicate Readable(file: FileEntry, read: FileReader) {
    read(file.path).Some?
  }

  /** Whether the file is readable and its ride has points, so that `processFile` calls `save`. */
  predicate HasPoints(file: FileEntry, read: FileReader, parseDouble: DoubleParser) {
    Readable(file, read) && ParseRows(read(file.path).value, parseDouble).points != []
  }

  /** A readable file whose ride has points and is accepted by the database; only these are stored. */
  predicate Stores(file: FileEntry, read: FileReader, parseDouble: DoubleParser, rejects: SaveRejects) {
    HasPoints(file, read, parseDouble) && !rejects(file)
  }

  /** Whether `processFile` returns normally: the file is read, and its ride is skipped or saved. */
  predicate Completes(file: FileEntry, read: FileReader, parseDouble: DoubleParser, rejects: SaveRejects) {
    Readable(file, read) && (HasPoints(file, read, parseDouble) ==> !rejects(file))
  }

  /**
   * `processFile`: parse the file and store the ride unless it has no
   * points. `ok` is false exactly when reading fails or the save is
   * refused, and then nothing is stored.
   */
  method ProcessFile(repo: RideRepository, file: FileEntry, read: FileReader, parseDouble: DoubleParser,
                     rejects: SaveRejects)
    returns (ok: bool)
    modifies repo
    ensures ok <==> Completes(file, read, parseDouble, rejects)
    ensures repo.savedFilenames == old(repo.savedFilenames)
              + (if Stores(file, read, parseDouble, rejects) then [Some(file.fileName)] else [])
  {
    var rows := read(file.path);
    if rows.None? {
      return false;
    }
    var ride := Parse(rows.value, file.fileName, parseDouble);
    if ride.ridePoints == [] {
      return true;
    }
    ok := repo.Save(ride, rejects(file));
  }

  // ------------------------------------------------------------ the run

  /** What a run reports: files processed without an exception, the counts logged as progress, and the names that failed. */
  datatype ImportReport = ImportReport(count: nat, progress: seq<nat>, failures: seq<string>)

  const NoImport := ImportReport(0, [], [])

  /** Progress is logged every 500 files. */
  const ProgressInterval: nat := 500

  /** The counter values at which progress is logged, after `n` successful files. */
  function ProgressMarks(n: nat): seq<nat>
    decreases n
  {
    if n == 0 then [] else ProgressMarks(n - 1) + (if n % ProgressInterval == 0 then [n] else [])
  }

  /** Progress is logged exactly at the positive multiples of 500 up to the count, in increasing order. */
  lemma {:induction false} ProgressMarksAreMultiples(n: nat)
    ensures |ProgressMarks(n)| == n / ProgressInterval
    ensures forall k :: 0 <= k < |ProgressMarks(n)| ==> ProgressMarks(n)[k] == (k + 1) * ProgressInterval
    decreases n
  {
    if n > 0 {
      ProgressMarksAreMultiples(n - 1);
    }
  }

  /** The number of files that `processFile` finishes without an exception. */
  function CountCompleted(files: seq<FileEntry>, read: FileReader, parseDouble: DoubleParser, rejects: SaveRejects): nat
    decreases |files|
  {
    if files == [] then 0
    else CountCompleted(files[..|files| - 1], read, parseDouble, rejects)
         + (if Completes(files[|files| - 1], read, parseDouble, rejects) then 1 else 0)
  }

  /** The names of the files that fail, in processing order. */
  function FailedNames(files: seq<FileEntry>, read: FileReader, parseDouble: DoubleParser, rejects: SaveRejects): seq<string>
    decreases |files|
  {
    if files == [] then []
    else FailedNames(files[..|files| - 1], read, parseDouble, rejects)
         + (if Completes(files[|files| - 1], read, parseDouble, rejects) then [] else [files[|files| - 1].fileName])
  }

  /** The names stored, in processing order. */
  function StoredNames(files: seq<FileEntry>, read: FileReader, parseDouble: DoubleParser, rejects: SaveRejects): seq<Option<string>>
    decreases |files|
  {
    if files == [] then []
    else StoredNames(files[..|files| - 1], read, parseDouble, rejects)
         + (if Stores(files[|files| - 1], read, parseDouble, rejects) then [Some(files[|files| - 1].fileName)] else [])
  }

  /** A failure stops nothing: every file is either counted or listed as failed. */
  lemma {:induction false} EveryFileAttempted(files: seq<FileEntry>, read: FileReader, parseDouble: DoubleParser, rejects: SaveRejects)
    ensures CountCompleted(files, read, parseDouble, rejects) + |FailedNames(files, read, parseDouble, rejects)| == |files|
    decreases |files|
  {
    if files != [] {
      EveryFileAttempted(files[..|files| - 1], read, parseDouble, rejects);
    }
  }

  /** A stored name belongs to a processed file whose ride has points and was accepted. */
  lemma {:induction false} StoredNamesHavePoints(files: seq<FileEntry>, read: FileReader, parseDouble: DoubleParser, rejects: SaveRejects)
    ensures forall n :: n in StoredNames(files, read, parseDouble, rejects) <==>
              exists k :: 0 <= k < |files| && Stores(files[k], read, parseDouble, rejects) && n == Some(files[k].fileName)
    decreases |files|
  {
    if files != [] {
      var init := files[..|files| - 1];
      StoredNamesHavePoints(init, read, parseDouble, rejects);
      assert forall k :: 0 <= k < |init| ==> init[k] == files[k];
    }
  }

  lemma {:induction false} NothingStoredWithoutPoints(files: seq<FileEntry>, read: FileReader, parseDouble: DoubleParser, rejects: SaveRejects)
    requires forall k :: 0 <= k < |files| ==> !Stores(files[k], read, parseDouble, rejects)
    ensures StoredNames(files, read, parseDouble, rejects) == []
    decreases |files|
  {
    if files != [] {
      NothingStoredWithoutPoints(files[..|files| - 1], read, parseDouble, rejects);
    }
  }

  /** The report after one more file: one that finishes raises the counter, logging at multiples of 500; one that throws is listed. */
  function Tally(r: ImportReport, file: FileEntry, read: FileReader, parseDouble: DoubleParser, rejects: SaveRejects): ImportReport {
    if Completes(file, read, parseDouble, rejects) then
      var current := r.count + 1;
      r.(count := current, progress := r.progress + (if current % ProgressInterval == 0 then [current] else []))
    else r.(failures := r.failures + [file.fileName])
  }

  /** The report after the given files, in processing order. */
  function ReportAfter(files: seq<FileEntry>, read: FileReader, parseDouble: DoubleParser, rejects: SaveRejects): ImportReport
    decreases |files|
  {
    if files == [] then NoImport
    else Tally(ReportAfter(files[..|files| - 1], read, parseDouble, rejects), files[|files| - 1], read, parseDouble, rejects)
  }

  /**
   * The report counts the files that complete, logs at their multiples of
   * 500, and lists those that are unreadable or whose save is refused.
   */
  lemma {:induction false} ReportAfterCounts(files: seq<FileEntry>, read: FileReader, parseDouble: DoubleParser, rejects: SaveRejects)
    ensures ReportAfter(files, read, parseDouble, rejects).count == CountCompleted(files, read, parseDouble, rejects)
    ensures ReportAfter(files, read, parseDouble, rejects).progress == ProgressMarks(CountCompleted(files, read, parseDouble, rejects))
    ensures ReportAfter(files, read, parseDouble, rejects).failures == FailedNames(files, read, parseDouble, rejects)
    decreases |files|
  {
    if files != [] {
      ReportAfterCounts(files[..|files| - 1], read, parseDouble, rejects);
    }
  }

  /** The body of the parallel `forEach`: process one file, then count it or log its failure. */
  method ImportFile(repo: RideRepository, file: FileEntry, read: FileReader, parseDouble: DoubleParser,
                    rejects: SaveRejects, report: ImportReport)
    returns (next: ImportReport)
    modifies repo
    ensures next == Tally(report, file, read, parseDouble, rejects)
    ensures repo.savedFilenames == old(repo.savedFilenames)
              + (if Stores(file, read, parseDouble, rejects) then [Some(file.fileName)] else [])
  {
    next := report;
    var ok := ProcessFile(repo, file, read, parseDouble, rejects);
    if ok {
      var current := next.count + 1;
      next := next.(count := current);
      if current % ProgressInterval == 0 {
        next := next.(progress := next.progress + [current]);
      }
    } else {
      next := next.(failures := next.failures + [file.fileName]);
    }
  }

  /**
   * `run`: nothing happens without the data directory or when the walk
   * fails; otherwise every selected file is processed in walk order, the
   * report follows the files that finished and those that threw, and the
   * stored rides are those of the readable files with points whose save
   * the database accepts.
   */
  method Run(repo: RideRepository, dataPathExists: bool, walk: Option<seq<FileEntry>>,
             read: FileReader, parseDouble: DoubleParser, rejects: SaveRejects)
    returns (report: ImportReport)
    modifies repo
    ensures !dataPathExists || walk.None? ==> report == NoImport && repo.savedFilenames == old(repo.savedFilenames)
    ensures dataPathExists && walk.Some? ==>
              var files := SelectFiles(walk.value, old(repo.OriginalFilenames()));
              && report == ReportAfter(files, read, parseDouble, rejects)
              && repo.savedFilenames == old(repo.savedFilenames) + StoredNames(files, read, parseDouble, rejects)
  {
    if !dataPathExists {
      return NoImport;
    }
    var existing := repo.OriginalFilenames();
    if walk.None? {
      return NoImport;
    }
    var files := SelectFiles(walk.value, existing);
    report := NoImport;
    for i := 0 to |files|
      invariant report == ReportAfter(files[..i], read, parseDouble, rejects)
      invariant repo.savedFilenames == old(repo.savedFilenames) + StoredNames(files[..i], read, parseDouble, rejects)
    {
      assert files[..i + 1][..i] == files[..i];
      report := ImportFile(repo, files[i], read, parseDouble, rejects, report);
    }
    assert files[..|files|] == files;
  }

  /** A run without failures: every selected file was read and, if it had points, saved. */
  lemma {:induction false} NoFailuresMeansAllComplete(files: seq<FileEntry>, read: FileReader, parseDouble: DoubleParser, rejects: SaveRejects)
    requires FailedNames(files, read, parseDouble, rejects) == []
    ensures forall k :: 0 <= k < |files| ==> Completes(files[k], read, parseDouble, rejects)
    decreases |files|
  {
    if files != [] {
      var init := files[..|files| - 1];
      NoFailuresMeansAllComplete(init, read, parseDouble, rejects);
      assert forall k :: 0 <= k < |init| ==> init[k] == files[k];
    }
  }

  /** The stored names after a run: the names known before plus those the run stored. */
  function NamesAfter(existing: set<string>, stored: seq<Option<string>>): set<string> {
    existing + set n | n in stored && n.Some? :: n.value
  }

  /** A name the first run stored is never selected again. */
  lemma SecondRunSkipsStoredNames(files: seq<FileEntry>, existing: set<string>, read: FileReader, parseDouble: DoubleParser,
                                  rejects: SaveRejects)
    ensures var first := StoredNames(SelectFiles(files, existing), read, parseDouble, rejects);
            forall f :: f in SelectFiles(files, NamesAfter(existing, first)) ==> Some(f.fileName) !in first
  {
  }

  /**
   * The retry: a file that failed in the first run, and whose name no
   * stored ride carries, is selected again by the next run.
   */
  lemma FailedFilesAreRetried(files: seq<FileEntry>, existing: set<string>, read: FileReader, parseDouble: DoubleParser,
                              rejects: SaveRejects, f: FileEntry)
    requires f in SelectFiles(files, existing) && !Completes(f, read, parseDouble, rejects)
    requires Some(f.fileName) !in StoredNames(SelectFiles(files, existing), read, parseDouble, rejects)
    ensures f in SelectFiles(files, NamesAfter(existing, StoredNames(SelectFiles(files, existing), read, parseDouble, rejects)))
  {
  }

  /**
   * After a first run in which no file failed, a second run over the same
   * walk and the same file contents stores nothing, whatever the database
   * then does: every file the first run stored is skipped by name, and every
   * file it re-selects had no points.
   */
  lemma SecondRunStoresNothing(files: seq<FileEntry>, existing: set<string>, read: FileReader, parseDouble: DoubleParser,
                               rejects: SaveRejects, rejects2: SaveRejects)
    requires FailedNames(SelectFiles(files, existing), read, parseDouble, rejects) == []
    ensures var first := StoredNames(SelectFiles(files, existing), read, parseDouble, rejects);
            StoredNames(SelectFiles(files, NamesAfter(existing, first)), read, parseDouble, rejects2) == []
  {
    var firstFiles := SelectFiles(files, existing);
    var first := StoredNames(firstFiles, read, parseDouble, rejects);
    var secondFiles := SelectFiles(files, NamesAfter(existing, first));
    StoredNamesHavePoints(firstFiles, read, parseDouble, rejects);
    NoFailuresMeansAllComplete(firstFiles, read, parseDouble, rejects);
    forall i | 0 <= i < |secondFiles|
      ensures !Stores(secondFiles[i], read, parseDouble, rejects2)
    {
      var f := secondFiles[i];
      assert f in secondFiles && f in firstFiles;
      var k :| 0 <= k < |firstFiles| && firstFiles[k] == f;
      assert Some(f.fileName) !in first;
      assert !HasPoints(f, read, parseDouble);
    }
    NothingStoredWithoutPoints(secondFiles, read, parseDouble, rejects2);
  }
}
