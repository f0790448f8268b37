/**
 * The tables whose `#` header row names the band of each later column:
 * 2015ApJ...799...51M (SN2012ap, `mag err` cells), 2016MNRAS.459.1039T
 * (LSQ13zm, `mag(err)` cells), 2012MNRAS.425.1007B, 2009MNRAS.398.1041B
 * and 2010arXiv1007.0011P (`mag±err` cells) and 2000ApJ...533..320G
 * (SN1997cy, bare magnitudes).  The captured band list is the state a
 * header row replaces; until one is seen Python has no `bands` at all.
 */
module HeaderTables {
  import opened Wrappers
  import opened PyStr
  import opened Catalog
  import opened Cells

  /** The `bands` variable: None before any header row. */
  type Bands = Option<seq<string>>

  // ---------------------------------------------------------------------
  // One record per kept cell, banded by column

  /** Column i is kept when its cell passes `keep`. */
  function KeepCell(cells: seq<string>, keep: string -> bool): nat -> bool
  {
    (i: nat) => i < |cells| && keep(cells[i])
  }

  /** The kept columns, in order. */
  function CellsKept(cells: seq<string>, keep: string -> bool): seq<nat>
  {
    Kept(KeepCell(cells, keep), 0, |cells|)
  }

  /**
   * `for mi, mag in enumerate(mags): if not keep(mag): continue; add_photometry(band=bands[mi], …)`;
   * building a record raises when `bands` is unset or too short.
   */
  function BandCells(entry: string, bands: Bands, cells: seq<string>, keep: string -> bool,
                     record: (string, string) -> Photometry): Emitted
  {
    EmitCells(KeepCell(cells, keep),
              (i: nat) => if i < |cells| && bands.Some? && i < |bands.value|
                   then Some(AddPhotometry(entry, record(cells[i], bands.value[i]))) else None,
              0, |cells|)
  }

  /**
   * With a band list covering every kept column, the row emits exactly one
   * record per kept cell, in column order, each banded by its own column.
   */
  lemma BandCellsSpec(entry: string, bands: Bands, cells: seq<string>, keep: string -> bool,
                      record: (string, string) -> Photometry)
    requires bands.Some?
    requires forall i :: 0 <= i < |cells| && keep(cells[i]) ==> i < |bands.value|
    ensures var e := BandCells(entry, bands, cells, keep, record);
      var kept := CellsKept(cells, keep);
      && e.ok
      && |e.calls| == |kept|
      && (forall k :: 0 <= k < |kept| ==>
            kept[k] < |cells| && kept[k] < |bands.value|
            && e.calls[k] == AddPhotometry(entry, record(cells[kept[k]], bands.value[kept[k]])))
      && (forall i: nat :: i < |cells| ==> (keep(cells[i]) <==> i in kept))
  {
    var keepAt := KeepCell(cells, keep);
    var emit := (i: nat) => if i < |cells| && bands.Some? && i < |bands.value|
                     then Some(AddPhotometry(entry, record(cells[i], bands.value[i]))) else None;
    assert BandCells(entry, bands, cells, keep, record) == EmitCells(keepAt, emit, 0, |cells|);
    EmitAll(keepAt, emit, 0, |cells|);
  }

  // ---------------------------------------------------------------------
  // 2015ApJ...799...51M: SN2012ap, `mag err` cells, `-` for no data

  const ApJ799Bib := "2015ApJ...799...51M"

  function KaitRecord(mag: string, err: string, band: string, time: string, source: string): Photometry
  {
    map[Magnitude := Text(mag), EMagnitude := Text(err), Telescope := Text("KAIT"),
        Band := Text(band), Time := Text(time), Source := Text(source)]
  }

  /** Data column i (cell `row[i + 1]`) is kept unless it is `-`. */
  function ApJ799Keep(row: Row): nat -> bool
  {
    (i: nat) => i + 1 < |row| && row[i + 1] != "-"
  }

  /** `mag, err = col.split()[0], col.split()[1]`, then the record; None where Python raises. */
  function ApJ799Cell(entry: string, source: string, bands: Bands, row: Row, i: nat): Option<Call>
  {
    if i + 1 >= |row| then None
    else
      var ws := Words(row[i + 1]);
      if |ws| < 2 || bands.None? || i >= |bands.value| then None
      else Some(AddPhotometry(entry, KaitRecord(ws[0], ws[1], bands.value[i], row[0], source)))
  }

  /** Lines 35-51: a header row replaces `bands`; a data row emits one record per non-`-` cell. */
  function ApJ799Row(entry: string, source: string, bands: Bands, row: Row): Step<Bands>
  {
    match IsComment(row)
    case None => Fault([])
    case Some(true) => Next([], Some(row[1..]))
    case Some(false) =>
      var e := EmitCells(ApJ799Keep(row), (i: nat) => ApJ799Cell(entry, source, bands, row, i), 0, |row| - 1);
      if e.ok then Next(e.calls, bands) else Fault(e.calls)
  }

  function ApJ799Step(env: Env): (Bands, nat, Row) -> Step<Bands>
  {
    var entry := EntryName(env, "SN2012ap");
    var source := SourceOf(env, entry, ApJ799Bib);
    (bands: Bands, ri: nat, row: Row) => ApJ799Row(entry, source, bands, row)
  }

  /** A header row emits nothing and replaces the bands; a row with an empty first cell raises. */
  lemma ApJ799HeaderRow(entry: string, source: string, bands: Bands, row: Row)
    ensures IsComment(row) == Some(true) ==> ApJ799Row(entry, source, bands, row) == Next([], Some(row[1..]))
    ensures IsComment(row) == None ==> ApJ799Row(entry, source, bands, row) == Fault([])
  {
  }

  /**
   * A data row whose non-`-` cells each hold two words and fall within the
   * bands emits one record per non-`-` cell, banded `bands[ci]`, timed
   * `row[0]`, and keeps the bands.
   */
  lemma ApJ799RowSpec(entry: string, source: string, bands: Bands, row: Row)
    requires IsComment(row) == Some(false) && bands.Some?
    requires forall i :: 1 <= i < |row| && row[i] != "-" ==> i - 1 < |bands.value| && |Words(row[i])| >= 2
    ensures var kept := Kept(ApJ799Keep(row), 0, |row| - 1);
      var r := ApJ799Row(entry, source, bands, row);
      && r.Next? && r.state == bands
      && |r.calls| == |kept|
      && (forall i: nat :: 1 <= i < |row| ==> (row[i] != "-" <==> i - 1 in kept))
      && (forall k :: 0 <= k < |kept| ==>
            var ci := kept[k];
            ci + 1 < |row| && |Words(row[ci + 1])| >= 2 && ci < |bands.value|
            && r.calls[k] == AddPhotometry(entry, KaitRecord(Words(row[ci + 1])[0], Words(row[ci + 1])[1],
                                                              bands.value[ci], row[0], source)))
  {
    var keep := ApJ799Keep(row);
    var emit := (i: nat) => ApJ799Cell(entry, source, bands, row, i);
    forall i: nat | 0 <= i < |row| - 1 && keep(i)
      ensures emit(i).Some?
    {
      assert 1 <= i + 1 < |row| && row[i + 1] != "-";
    }
    EmitAll(keep, emit, 0, |row| - 1);
    var e := EmitCells(keep, emit, 0, |row| - 1);
    assert ApJ799Row(entry, source, bands, row) == Next(e.calls, bands);
    var kept := Kept(keep, 0, |row| - 1);
    forall i: nat | 1 <= i < |row|
      ensures row[i] != "-" <==> i - 1 in kept
    {
      assert keep(i - 1) == (row[i] != "-");
    }
  }

  // ---------------------------------------------------------------------
  // 2016MNRAS.459.1039T: LSQ13zm, `mag(err)` cells with `>` limits

  const MNRAS459Bib := "2016MNRAS.459.1039T"

  /** `[xx.replace('(err)', '') for xx in row[3:-1]]`. */
  function MNRAS459Bands(row: Row): seq<string>
  {
    var cells := Slice(row, 3, -1);
    seq(|cells|, i requires 0 <= i < |cells| => Replace(cells[i], "(err)", ""))
  }

  function MNRAS459Record(mjd: string, instrument: string, source: string): (string, string) -> Photometry
  {
    (cell: string, band: string) =>
      map[Time := Text(mjd), UTime := Text("MJD"), Band := Text(band),
          Magnitude := Text(ParenMag(cell)), EMagnitude := Text(ParenErr(cell)),
          Instrument := Text(instrument),
          UpperLimit := if ParenUpper(cell) then Flag(true) else Text(""),
          Source := Text(source)]
  }

  function MNRAS459Keep(env: Env): string -> bool
  {
    cell => env.isNumber(ParenMag(cell))
  }

  /** Lines 318-339. */
  function MNRAS459Row(env: Env, entry: string, source: string, bands: Bands, row: Row): Step<Bands>
  {
    match IsComment(row)
    case None => Fault([])
    case Some(true) => Next([], Some(MNRAS459Bands(row)))
    case Some(false) =>
      if |row| < 2 then Fault([])
      else
        var e := BandCells(entry, bands, Slice(row, 3, -1), MNRAS459Keep(env),
                           MNRAS459Record(row[1], row[|row| - 1], source));
        if e.ok then Next(e.calls, bands) else Fault(e.calls)
  }

  function MNRAS459Step(env: Env): (Bands, nat, Row) -> Step<Bands>
  {
    var entry := EntryName(env, "LSQ13zm");
    var source := SourceOf(env, entry, MNRAS459Bib);
    (bands: Bands, ri: nat, row: Row) => MNRAS459Row(env, entry, source, bands, row)
  }

  /**
   * A data row with band list b emits one record per cell of `row[3:-1]`
   * whose magnitude (groups and `>` removed) is numeric, in column order,
   * each built from its own cell and band (ParenMag, ParenErr, ParenUpper).
   */
  lemma MNRAS459RowSpec(env: Env, entry: string, source: string, b: seq<string>, row: Row)
    requires IsComment(row) == Some(false) && |row| >= 2
    requires var cells := Slice(row, 3, -1);
      forall i :: 0 <= i < |cells| && env.isNumber(ParenMag(cells[i])) ==> i < |b|
    ensures var cells := Slice(row, 3, -1);
      var kept := CellsKept(cells, MNRAS459Keep(env));
      var r := MNRAS459Row(env, entry, source, Some(b), row);
      && r.Next? && r.state == Some(b)
      && |r.calls| == |kept|
      && (forall i: nat :: i < |cells| ==> (env.isNumber(ParenMag(cells[i])) <==> i in kept))
      && (forall k :: 0 <= k < |kept| ==>
            kept[k] < |cells| && kept[k] < |b|
            && r.calls[k] == AddPhotometry(entry, MNRAS459Record(row[1], row[|row| - 1], source)(cells[kept[k]], b[kept[k]])))
  {
    var cells := Slice(row, 3, -1);
    BandCellsSpec(entry, Some(b), cells, MNRAS459Keep(env), MNRAS459Record(row[1], row[|row| - 1], source));
  }

  // ---------------------------------------------------------------------
  // 2012MNRAS.425.1007B: `mag±err` cells, one journal checkpoint per data row

  const MNRAS425Bib := "2012MNRAS.425.1007B"

  /** `ins, tel, obs` by the object in the first column. */
  function MNRAS425Site(target: string): (string, string, string)
  {
    if target == "PTF09dlc" then ("HAWK-I", "VLT 8.1m", "ESO")
    else ("NIRI", "Gemini North 8.2m", "Gemini")
  }

  function PlusMinusKeep(env: Env): string -> bool
  {
    cell => env.isNumber(PlusMinusMag(cell))
  }

  function MNRAS425Record(mjd: string, site: (string, string, string), source: string): (string, string) -> Photometry
  {
    (cell: string, band: string) =>
      map[Time := Text(mjd), UTime := Text("MJD"), Band := Text(band),
          Magnitude := Text(PlusMinusMag(cell)), EMagnitude := Text(PlusMinusErr(cell)),
          Instrument := Text(site.0), Telescope := Text(site.1), Observatory := Text(site.2),
          System := Text("Natural"), Source := Text(source)]
  }

  /** Lines 442-478. */
  function MNRAS425Row(env: Env, bands: Bands, row: Row): Step<Bands>
  {
    match IsComment(row)
    case None => Fault([])
    case Some(true) => Next([], Some(Slice(row, 2, |row|)))
    case Some(false) =>
      var entry := EntryName(env, row[0]);
      var source := SourceOf(env, entry, MNRAS425Bib);
      var opening := Register(env, row[0], MNRAS425Bib);
      if |row| < 2 then Fault(opening)
      else
        var e := BandCells(entry, bands, Slice(row, 2, |row|), PlusMinusKeep(env),
                           MNRAS425Record(row[1], MNRAS425Site(row[0]), source));
        if e.ok then Next(opening + e.calls + [JournalEntries], bands) else Fault(opening + e.calls)
  }

  function MNRAS425Step(env: Env): (Bands, nat, Row) -> Step<Bands>
  {
    (bands: Bands, ri: nat, row: Row) => MNRAS425Row(env, bands, row)
  }

  /**
   * A data row registers its object, then emits exactly as many records as
   * it has cells whose `±`-magnitude is numeric, then checkpoints the journal.
   */
  lemma MNRAS425RowSpec(env: Env, b: seq<string>, row: Row)
    requires IsComment(row) == Some(false) && |row| >= 2
    requires var cells := Slice(row, 2, |row|);
      forall i :: 0 <= i < |cells| && env.isNumber(PlusMinusMag(cells[i])) ==> i < |b|
    ensures var cells := Slice(row, 2, |row|);
      var kept := CellsKept(cells, PlusMinusKeep(env));
      var r := MNRAS425Row(env, Some(b), row);
      && r.Next? && r.state == Some(b)
      && |r.calls| == 3 + |kept| + 1
      && r.calls[..3] == Register(env, row[0], MNRAS425Bib)
      && r.calls[|r.calls| - 1] == JournalEntries
      && (forall i: nat :: i < |cells| ==> (env.isNumber(PlusMinusMag(cells[i])) <==> i in kept))
      && (forall k :: 0 <= k < |kept| ==>
            var entry := EntryName(env, row[0]);
            kept[k] < |cells| && kept[k] < |b|
            && r.calls[3 + k] == AddPhotometry(entry, MNRAS425Record(row[1], MNRAS425Site(row[0]),
                   SourceOf(env, entry, MNRAS425Bib))(cells[kept[k]], b[kept[k]])))
  {
    var cells := Slice(row, 2, |row|);
    var entry := EntryName(env, row[0]);
    var source := SourceOf(env, entry, MNRAS425Bib);
    BandCellsSpec(entry, Some(b), cells, PlusMinusKeep(env), MNRAS425Record(row[1], MNRAS425Site(row[0]), source));
  }

  // ---------------------------------------------------------------------
  // 2009MNRAS.398.1041B: SN2008S, JD times, `mag±err` cells

  const MNRAS398Bib := "2009MNRAS.398.1041B"

  function MNRAS398Photometry(mjd: real, instrument: string, source: string,
                              mag: string, err: string, band: string): Photometry
  {
    map[Time := Number(mjd), UTime := Text("MJD"), Band := Text(band),
        Magnitude := Text(mag), EMagnitude := Text(err),
        Instrument := Text(instrument), Source := Text(source)]
  }

  function MNRAS398Record(mjd: real, instrument: string, source: string): (string, string) -> Photometry
  {
    (cell: string, band: string) =>
      MNRAS398Photometry(mjd, instrument, source, PlusMinusMag(cell), PlusMinusErr(cell), band)
  }

  /** Lines 558-582; the `upps` list the code computes is never passed on. */
  function MNRAS398Row(env: Env, bands: Bands, row: Row): Step<Bands>
  {
    match IsComment(row)
    case None => Fault([])
    case Some(true) => Next([], Some(Slice(row, 2, -1)))
    case Some(false) =>
      var entry := EntryName(env, "SN2008S");
      var source := SourceOf(env, entry, MNRAS398Bib);
      var opening := [NewEntry("SN2008S", MNRAS398Bib)];
      match env.decimal(row[0])
      case None => Fault(opening)
      case Some(jd) =>
        var e := BandCells(entry, bands, Slice(row, 2, |row|), PlusMinusKeep(env),
                           MNRAS398Record(env.jdToMjd(jd), row[|row| - 1], source));
        if e.ok then Next(opening + e.calls, bands) else Fault(opening + e.calls)
  }

  function MNRAS398Step(env: Env): (Bands, nat, Row) -> Step<Bands>
  {
    (bands: Bands, ri: nat, row: Row) => MNRAS398Row(env, bands, row)
  }

  /**
   * The band list is `row[2:-1]` of the header but the cells are `row[2:]`
   * of the data row, so the last column of a data row (the instrument)
   * must not be numeric: if it is, looking up its band raises.
   */
  lemma MNRAS398InstrumentColumn(env: Env, header: Row, row: Row)
    requires IsComment(header) == Some(true) && IsComment(row) == Some(false)
    requires |row| == |header| >= 3 && env.decimal(row[0]).Some?
    requires env.isNumber(PlusMinusMag(row[|row| - 1]))
    ensures var b := MNRAS398Row(env, None, header).state;
      MNRAS398Row(env, b, row).Fault?
  {
    var b := Slice(header, 2, -1);
    var cells := Slice(row, 2, |row|);
    var entry := EntryName(env, "SN2008S");
    var source := SourceOf(env, entry, MNRAS398Bib);
    var rec := MNRAS398Record(env.jdToMjd(env.decimal(row[0]).value), row[|row| - 1], source);
    assert |b| == |header| - 3 && |cells| == |row| - 2;
    assert cells[|cells| - 1] == row[|row| - 1];
    assert PlusMinusKeep(env)(cells[|cells| - 1]);
    BandCellsOutOfBands(entry, Some(b), cells, PlusMinusKeep(env), rec, |cells| - 1);
  }

  /**
   * A data row of 2009MNRAS.398.1041B creates SN2008S again, then emits one
   * record per cell of `row[2:]` whose `±` magnitude is numeric, in column
   * order, built from that cell and that column's band.
   */
  lemma MNRAS398RowSpec(env: Env, b: seq<string>, row: Row)
    requires IsComment(row) == Some(false) && env.decimal(row[0]).Some?
    requires var cells := Slice(row, 2, |row|);
      forall i :: 0 <= i < |cells| && env.isNumber(PlusMinusMag(cells[i])) ==> i < |b|
    ensures var cells := Slice(row, 2, |row|);
      var kept := CellsKept(cells, PlusMinusKeep(env));
      var entry := EntryName(env, "SN2008S");
      var r := MNRAS398Row(env, Some(b), row);
      && r.Next? && r.state == Some(b)
      && |r.calls| == 1 + |kept|
      && r.calls[0] == NewEntry("SN2008S", MNRAS398Bib)
      && (forall i: nat :: i < |cells| ==> (env.isNumber(PlusMinusMag(cells[i])) <==> i in kept))
      && (forall k :: 0 <= k < |kept| ==>
            kept[k] < |cells| && kept[k] < |b|
            && r.calls[1 + k] == AddPhotometry(entry, MNRAS398Photometry(env.jdToMjd(env.decimal(row[0]).value),
                   row[|row| - 1], SourceOf(env, entry, MNRAS398Bib),
                   PlusMinusMag(cells[kept[k]]), PlusMinusErr(cells[kept[k]]), b[kept[k]])))
  {
    var cells := Slice(row, 2, |row|);
    var entry := EntryName(env, "SN2008S");
    var source := SourceOf(env, entry, MNRAS398Bib);
    var rec := MNRAS398Record(env.jdToMjd(env.decimal(row[0]).value), row[|row| - 1], source);
    BandCellsSpec(entry, Some(b), cells, PlusMinusKeep(env), rec);
  }

  /** Each such record carries its column's band, the cell's `±` magnitude and error, and the row's instrument. */
  lemma MNRAS398RecordFields(mjd: real, instrument: string, source: string, mag: string, err: string, band: string)
    ensures var p := MNRAS398Photometry(mjd, instrument, source, mag, err, band);
      && p[Band] == Text(band) && p[Instrument] == Text(instrument)
      && p[Magnitude] == Text(mag) && p[EMagnitude] == Text(err)
      && p[Time] == Number(mjd) && p[Source] == Text(source)
  {
  }

  /** A kept cell past the end of the band list (or with no band list at all) makes the row raise. */
  lemma BandCellsOutOfBands(entry: string, bands: Bands, cells: seq<string>, keep: string -> bool,
                            record: (string, string) -> Photometry, i: nat)
    requires i < |cells| && keep(cells[i])
    requires bands.None? || i >= |bands.value|
    ensures !BandCells(entry, bands, cells, keep, record).ok
  {
    var keepAt := KeepCell(cells, keep);
    var emit := (i: nat) => if i < |cells| && bands.Some? && i < |bands.value|
                            then Some(AddPhotometry(entry, record(cells[i], bands.value[i]))) else None;
    assert BandCells(entry, bands, cells, keep, record) == EmitCells(keepAt, emit, 0, |cells|);
    assert keepAt(i) && emit(i).None?;
    if EmitCells(keepAt, emit, 0, |cells|).ok {
      EmitOkAll(keepAt, emit, 0, |cells|, i);
    }
  }

  // ---------------------------------------------------------------------
  // 2010arXiv1007.0011P: SN2008S, LBT, `mag±err` cells

  const ArXiv10070011Bib := "2010arXiv1007.0011P"

  function ArXiv10070011Record(mjd: string, source: string): (string, string) -> Photometry
  {
    (cell: string, band: string) =>
      map[Time := Text(mjd), UTime := Text("MJD"), Band := Text(band),
          Magnitude := Text(PlusMinusMag(cell)), EMagnitude := Text(PlusMinusErr(cell)),
          Instrument := Text("LBT"), Source := Text(source)]
  }

  /** Lines 592-613. */
  function ArXiv10070011Row(env: Env, bands: Bands, row: Row): Step<Bands>
  {
    match IsComment(row)
    case None => Fault([])
    case Some(true) => Next([], Some(Slice(row, 1, |row|)))
    case Some(false) =>
      var entry := EntryName(env, "SN2008S");
      var source := SourceOf(env, entry, ArXiv10070011Bib);
      var opening := [NewEntry("SN2008S", ArXiv10070011Bib)];
      var e := BandCells(entry, bands, Slice(row, 1, |row|), PlusMinusKeep(env),
                         ArXiv10070011Record(row[0], source));
      if e.ok then Next(opening + e.calls, bands) else Fault(opening + e.calls)
  }

  function ArXiv10070011Step(env: Env): (Bands, nat, Row) -> Step<Bands>
  {
    (bands: Bands, ri: nat, row: Row) => ArXiv10070011Row(env, bands, row)
  }

  /** A data row of the `±` table emits one record per numeric magnitude cell, in column order. */
  lemma ArXiv10070011RowSpec(env: Env, b: seq<string>, row: Row)
    requires IsComment(row) == Some(false)
    requires var cells := Slice(row, 1, |row|);
      forall i :: 0 <= i < |cells| && env.isNumber(PlusMinusMag(cells[i])) ==> i < |b|
    ensures var cells := Slice(row, 1, |row|);
      var kept := CellsKept(cells, PlusMinusKeep(env));
      var r := ArXiv10070011Row(env, Some(b), row);
      && r.Next? && r.state == Some(b)
      && |r.calls| == 1 + |kept|
      && (forall i: nat :: i < |cells| ==> (env.isNumber(PlusMinusMag(cells[i])) <==> i in kept))
      && (forall k :: 0 <= k < |kept| ==>
            var entry := EntryName(env, "SN2008S");
            kept[k] < |cells| && kept[k] < |b|
            && r.calls[1 + k] == AddPhotometry(entry, ArXiv10070011Record(row[0],
                   SourceOf(env, entry, ArXiv10070011Bib))(cells[kept[k]], b[kept[k]])))
  {
    var cells := Slice(row, 1, |row|);
    var entry := EntryName(env, "SN2008S");
    var source := SourceOf(env, entry, ArXiv10070011Bib);
    BandCellsSpec(entry, Some(b), cells, PlusMinusKeep(env), ArXiv10070011Record(row[0], source));
  }

  // ---------------------------------------------------------------------
  // 2000ApJ...533..320G: SN1997cy, K-corrected magnitudes

  const ApJ533Bib := "2000ApJ...533..320G"

  function ApJ533Record(mjd: real, source: string): (string, string) -> Photometry
  {
    (cell: string, band: string) =>
      map[Time := Number(mjd), UTime := Text("MJD"), Band := Text(band), Magnitude := Text(cell),
          Observatory := Text("Mount Stromlo"), Telescope := Text("MSSSO"),
          Source := Text(source), KCorrected := Flag(true)]
  }

  /** Lines 625-642: the magnitudes are `row[1:len(bands)]`. */
  function ApJ533Row(env: Env, entry: string, source: string, bands: Bands, row: Row): Step<Bands>
  {
    match IsComment(row)
    case None => Fault([])
    case Some(true) => Next([], Some(Slice(row, 1, -1)))
    case Some(false) =>
      match env.decimal(row[0])
      case None => Fault([])
      case Some(jd) =>
        if bands.None? then Fault([])
        else
          var e := BandCells(entry, bands, Slice(row, 1, |bands.value|), env.isNumber,
                             ApJ533Record(env.jdToMjd(jd), source));
          if e.ok then Next(e.calls, bands) else Fault(e.calls)
  }

  function ApJ533Step(env: Env): (Bands, nat, Row) -> Step<Bands>
  {
    var entry := EntryName(env, "SN1997cy");
    var source := SourceOf(env, entry, ApJ533Bib);
    (bands: Bands, ri: nat, row: Row) => ApJ533Row(env, entry, source, bands, row)
  }

  /**
   * Cells and bands line up (cell `row[1 + mi]` gets `bands[mi]`), but the
   * slice `row[1:len(bands)]` stops one column short: no record ever gets
   * the last band of the header.
   */
  lemma ApJ533LastBandDropped(env: Env, entry: string, source: string, b: seq<string>, row: Row)
    requires IsComment(row) == Some(false) && env.decimal(row[0]).Some? && |b| >= 1
    ensures var cells := Slice(row, 1, |b|);
      var kept := CellsKept(cells, env.isNumber);
      var r := ApJ533Row(env, entry, source, Some(b), row);
      && r.Next?
      && |r.calls| == |kept| <= |b| - 1
      && (forall k :: 0 <= k < |kept| ==>
            && kept[k] < |b| - 1
            && 1 + kept[k] < |row|
            && cells[kept[k]] == row[1 + kept[k]]
            && r.calls[k] == AddPhotometry(entry, ApJ533Record(env.jdToMjd(env.decimal(row[0]).value), source)(
                                             row[1 + kept[k]], b[kept[k]])))
  {
    var cells := Slice(row, 1, |b|);
    var mjd := env.jdToMjd(env.decimal(row[0]).value);
    BandCellsSpec(entry, Some(b), cells, env.isNumber, ApJ533Record(mjd, source));
    var kept := CellsKept(cells, env.isNumber);
    KeptLength(KeepCell(cells, env.isNumber), 0, |cells|);
    assert |cells| <= |b| - 1;
  }
}
