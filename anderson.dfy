/**
 * 2014ApJ...786...67A, the type II supernova V-band light curves: one
 * data file per object, named after the object.
 */
module AndersonFiles {
  import opened Wrappers
  import opened Catalog
  import opened Cells

  const AndersonBib := "2014ApJ...786...67A"

  /** The objects observed in the Swope natural system. */
  const SwopeObjects: seq<string> := ["SN1999ca", "SN2003dq", "SN2008aw"]

  /** A data file: its basename and its space-separated rows. */
  datatype DataFile = DataFile(basename: string, rows: seq<Row>)

  /** The band set and photometric system of an object's light curve. */
  function BandSystem(entry: string): (string, string)
  {
    if entry in SwopeObjects then ("Swope", "Swope") else ("Johnson-Cousins", "Landolt")
  }

  /** One light-curve row, lines 220-233; a row with an empty first cell is skipped. */
  function PointRow(env: Env, entry: string, source: string, row: Row): Step<()>
  {
    if |row| == 0 then Fault([])
    else if row[0] == "" then Next([], ())
    else
      match env.decimal(row[0])
      case None => Fault([])
      case Some(jd) =>
        if |row| < 3 then Fault([])
        else
          var (bandSet, system) := BandSystem(entry);
          Next([AddPhotometry(entry, map[
            Time := Number(env.jdToMjd(jd)), UTime := Text("MJD"), Band := Text("V"),
            Magnitude := Text(row[1]), EMagnitude := Text(row[2]),
            BandSet := Text(bandSet), System := Text(system), Source := Text(source)])], ())
  }

  function PointStep(env: Env, entry: string, source: string): ((), nat, Row) -> Step<()>
  {
    (s: (), ri: nat, row: Row) => PointRow(env, entry, source, row)
  }

  /** One file, lines 201-233: its name, its registration, then its rows. */
  function FileCalls(env: Env, file: DataFile): Step<()>
  {
    match AndersonName(env, file.basename)
    case NotSupernova => Next([], ())
    case BadYear => Fault([])
    case Named(name) =>
      var entry := EntryName(env, name);
      var source := SourceOf(env, entry, AndersonBib);
      match Streamed(PointStep(env, entry, source), file.rows, 0, (), Register(env, name, AndersonBib))
      case Completed(c) => Next(c, ())
      case Aborted(c) => Fault(c)
  }

  function FileStep(env: Env): ((), nat, DataFile) -> Step<()>
  {
    (s: (), fi: nat, file: DataFile) => FileCalls(env, file)
  }

  /** All files, in the order the loop visits them, then a journal checkpoint. */
  function AndersonTable(env: Env, files: seq<DataFile>): Outcome
  {
    Dataset([], FileStep(env), files, ())
  }

  /** The two nested loops of lines 199-234. */
  method ReadAnderson(env: Env, files: seq<DataFile>) returns (out: Outcome)
    ensures out == AndersonTable(env, files)
  {
    var log: seq<Call> := [];
    var fi: nat := 0;
    while fi < |files|
      invariant fi <= |files|
      invariant Streamed(FileStep(env), files, 0, (), []) == Streamed(FileStep(env), files, fi, (), log)
      decreases |files| - fi
    {
      var file := files[fi];
      ghost var log0 := log;
      assert FileStep(env)((), fi, file) == FileCalls(env, file);
      match AndersonName(env, file.basename) {
      case NotSupernova =>
        StreamedNext(FileStep(env), files, fi, (), log, [], ());
        assert log + [] == log;
      case BadYear =>
        StreamedFault(FileStep(env), files, fi, (), log, []);
        assert log + [] == log;
        return Aborted(log);
      case Named(name) =>
        var entry := EntryName(env, name);
        var source := SourceOf(env, entry, AndersonBib);
        var inner, _ := Stream(PointStep(env, entry, source), file.rows, (), Register(env, name, AndersonBib));
        match inner {
        case Aborted(c) =>
          StreamedFault(FileStep(env), files, fi, (), log, c);
          return Aborted(log + c);
        case Completed(c) =>
          StreamedNext(FileStep(env), files, fi, (), log, c, ());
          log := log + c;
        }
      }
      fi := fi + 1;
    }
    out := Completed(log + [JournalEntries]);
  }

  /**
   * A dated row of a registered object adds one V-band record, in the Swope
   * system exactly for the three Swope objects and Landolt otherwise.
   */
  lemma PointRowSpec(env: Env, entry: string, source: string, row: Row)
    requires |row| >= 3 && row[0] != "" && env.decimal(row[0]).Some?
    ensures var r := PointRow(env, entry, source, row);
      && r.Next? && |r.calls| == 1 && r.calls[0].AddPhotometry?
      && var p := r.calls[0].photometry;
         && p[Band] == Text("V")
         && p[Time] == Number(env.jdToMjd(env.decimal(row[0]).value)) && p[UTime] == Text("MJD")
         && p[Magnitude] == Text(row[1]) && p[EMagnitude] == Text(row[2])
         && p[Source] == Text(source)
         && (p[System] == Text("Swope") <==> entry in SwopeObjects)
         && (p[System] == Text("Landolt") <==> entry !in SwopeObjects)
         && (p[BandSet] == Text("Swope") <==> entry in SwopeObjects)
  {
  }

  /** A file whose name does not start with a two-digit number is skipped entirely. */
  lemma SkippedFile(env: Env, file: DataFile)
    requires !env.isNumber(PyStr.Slice(file.basename, 0, 2))
    ensures FileCalls(env, file) == Next([], ())
  {
  }

  /** A named file's calls start with its registration and continue with its rows' records. */
  lemma FileRegisters(env: Env, file: DataFile)
    requires AndersonName(env, file.basename).Named?
    ensures var name := AndersonName(env, file.basename).name;
      Register(env, name, AndersonBib) <= FileCalls(env, file).calls
  {
    var name := AndersonName(env, file.basename).name;
    var entry := EntryName(env, name);
    StreamedExtends(PointStep(env, entry, SourceOf(env, entry, AndersonBib)), file.rows, 0, (),
                    Register(env, name, AndersonBib));
  }
}
