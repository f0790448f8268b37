/**
 * The tables read one row at a time with no band header: each row names
 * an object and gives its quantities or one photometry record.
 */
module RowTables {
  import opened Wrappers
  import opened PyStr
  import opened Catalog
  import opened Cells

  // ---------------------------------------------------------------------
  // 2013ApJ...767...57F: objects claimed as Ia-02cx

  const ApJ767Bib := "2013ApJ...767...57F"

  /** Lines 60-64. */
  function ApJ767Row(env: Env, row: Row): Step<()>
  {
    if |row| == 0 then Fault([])
    else
      var entry := EntryName(env, row[0]);
      Next([NewEntry(row[0], ApJ767Bib),
            AddQuantity(entry, Plain(ClaimedType, "Ia-02cx", SourceOf(env, entry, ApJ767Bib)))], ())
  }

  function ApJ767Step(env: Env): ((), nat, Row) -> Step<()>
  {
    (s: (), ri: nat, row: Row) => ApJ767Row(env, row)
  }

  /** Every row creates its entry from the table and claims type Ia-02cx for it; an empty row raises first. */
  lemma ApJ767RowSpec(env: Env, row: Row)
    ensures |row| == 0 <==> ApJ767Row(env, row) == Fault([])
    ensures |row| > 0 ==>
      var entry := EntryName(env, row[0]);
      ApJ767Row(env, row).calls
        == [NewEntry(row[0], ApJ767Bib), AddQuantity(entry, Plain(ClaimedType, "Ia-02cx", SourceOf(env, entry, ApJ767Bib)))]
  {
  }

  // ---------------------------------------------------------------------
  // 2015MNRAS.446.3895F: counts with zero points

  const MNRAS446Bib := "2015MNRAS.446.3895F"

  /** Lines 72-107: one entry and one counts-derived record per data row. */
  function MNRAS446Row(env: Env, row: Row): Step<()>
  {
    match IsComment(row)
    case None => Fault([])
    case Some(true) => Next([], ())
    case Some(false) =>
      var entry := EntryName(env, row[0]);
      var source := SourceOf(env, entry, MNRAS446Bib);
      var opening := [NewEntry(row[0], MNRAS446Bib)];
      if |row| < 6 then Fault(opening)
      else
        match CountsPhotometry(env, row[1], row[2], row[3], row[4], row[5], source)
        case None => Fault(opening)
        case Some(p) => Next(opening + [AddPhotometry(entry, p)], ())
  }

  function MNRAS446Step(env: Env): ((), nat, Row) -> Step<()>
  {
    (s: (), ri: nat, row: Row) => MNRAS446Row(env, row)
  }

  /**
   * A data row with readable numbers creates its entry and adds exactly one
   * record: instrument and band rejoin to `row[1]`, and the record is an
   * upper limit exactly when the stripped error exceeds the stripped counts.
   */
  lemma MNRAS446RowSpec(env: Env, row: Row)
    requires IsComment(row) == Some(false) && |row| >= 6
    requires CountsValues(env, row[3], row[4], row[5]).Some?
    ensures var r := MNRAS446Row(env, row);
      var (c, e, zp) := CountsValues(env, row[3], row[4], row[5]).value;
      && r.Next? && |r.calls| == 2
      && r.calls[0] == NewEntry(row[0], MNRAS446Bib)
      && r.calls[1].AddPhotometry? && r.calls[1].entry == EntryName(env, row[0])
      && var p := r.calls[1].photometry;
         && (UpperLimit in p <==> e > c)
         && p[Instrument].Text? && p[Band].Text?
         && p[Instrument].text + p[Band].text == row[1]
         && p[Time] == Text(row[2])
         && p == CountsPhotometry(env, row[1], row[2], row[3], row[4], row[5],
                                  SourceOf(env, EntryName(env, row[0]), MNRAS446Bib)).value
  {
    var entry := EntryName(env, row[0]);
    CountsBranch(env, row[1], row[2], row[3], row[4], row[5], SourceOf(env, entry, MNRAS446Bib));
    InstrumentBandSplit(row[1]);
  }

  // ---------------------------------------------------------------------
  // 2015arXiv150907124M: objects grouped under `#type` header lines

  const ArXiv150907124Bib := "2015arXiv150907124M"

  /** Lines 116-124: a header row sets the claimed type `ct`; each data row gets it. */
  function ArXiv150907124Row(env: Env, ct: Option<string>, row: Row): Step<Option<string>>
  {
    match IsComment(row)
    case None => Fault([])
    case Some(true) => Next([], Some(LStrip(row[0], {'#'})))
    case Some(false) =>
      var entry := EntryName(env, row[0]);
      var source := SourceOf(env, entry, ArXiv150907124Bib);
      var calls := [NewEntry(row[0], ArXiv150907124Bib)]
                   + (if |row| == 2 then [AddQuantity(entry, Plain(Alias, row[1], source))] else []);
      match ct
      case None => Fault(calls)
      case Some(t) => Next(calls + [AddQuantity(entry, Plain(ClaimedType, t, source))], ct)
  }

  function ArXiv150907124Step(env: Env): (Option<string>, nat, Row) -> Step<Option<string>>
  {
    (ct: Option<string>, ri: nat, row: Row) => ArXiv150907124Row(env, ct, row)
  }

  /**
   * A header row emits nothing and sets the type to its text without
   * leading `#`; a data row after it gets an alias only when it has exactly
   * two cells and always ends with the claimed type of the latest header.
   */
  lemma ArXiv150907124Spec(env: Env, header: Row, row: Row)
    requires IsComment(header) == Some(true) && IsComment(row) == Some(false)
    ensures var h := ArXiv150907124Row(env, None, header);
      && h == Next([], Some(LStrip(header[0], {'#'})))
      && (LStrip(header[0], {'#'}) == [] || LStrip(header[0], {'#'})[0] != '#')
    ensures var r := ArXiv150907124Row(env, Some(LStrip(header[0], {'#'})), row);
      var entry := EntryName(env, row[0]);
      && r.Next?
      && |r.calls| == (if |row| == 2 then 3 else 2)
      && r.calls[0] == NewEntry(row[0], ArXiv150907124Bib)
      && (|row| == 2 ==> r.calls[1] == AddQuantity(entry, Plain(Alias, row[1], SourceOf(env, entry, ArXiv150907124Bib))))
      && r.calls[|r.calls| - 1] == AddQuantity(entry, Plain(ClaimedType, LStrip(header[0], {'#'}),
                                                         SourceOf(env, entry, ArXiv150907124Bib)))
  {
  }

  // ---------------------------------------------------------------------
  // 2006ApJ...645..841N: SNLS objects with redshifts and discovery dates

  const ApJ645Bib := "2006ApJ...645..841N"

  /** Lines 180-191. */
  function ApJ645Row(env: Env, row: Row): Step<()>
  {
    if |row| == 0 then Fault([])
    else
      var name := "SNLS-" + row[0];
      var entry := EntryName(env, name);
      var source := SourceOf(env, entry, ApJ645Bib);
      var opening := Register(env, name, ApJ645Bib);
      if |row| < 2 then Fault(opening)
      else
        var withZ := opening + [AddQuantity(entry, Quantity(Redshift, row[1], source, None, Some("spectroscopic")))];
        if |row| < 5 then Fault(withZ)
        else
          match env.astropyDate(row[4])
          case None => Fault(withZ)
          case Some(d) => Next(withZ + [AddQuantity(entry, Plain(DiscoverDate, d, source))], ())
  }

  function ApJ645Step(env: Env): ((), nat, Row) -> Step<()>
  {
    (s: (), ri: nat, row: Row) => ApJ645Row(env, row)
  }

  /**
   * A row with a date registers `SNLS-` and its name and adds a spectroscopic
   * redshift and the discovery date; a date the converter rejects raises after the redshift.
   */
  lemma ApJ645RowSpec(env: Env, row: Row)
    requires |row| >= 5
    ensures var r := ApJ645Row(env, row);
      var entry := EntryName(env, "SNLS-" + row[0]);
      && r.calls[..3] == Register(env, "SNLS-" + row[0], ApJ645Bib)
      && |r.calls| >= 4
      && r.calls[3] == AddQuantity(entry, Quantity(Redshift, row[1], SourceOf(env, entry, ApJ645Bib), None, Some("spectroscopic")))
      && (r.Next? <==> env.astropyDate(row[4]).Some?)
      && (r.Fault? ==> |r.calls| == 4)
      && (r.Next? ==>
            |r.calls| == 5
            && r.calls[4] == AddQuantity(entry, Plain(DiscoverDate, env.astropyDate(row[4]).value, SourceOf(env, entry, ApJ645Bib))))
  {
  }

  // ---------------------------------------------------------------------
  // 2004A&A...415..863G: Stromlo light curves, (mag, e_upper, e_lower) triples

  const StromloBib := "2004A&A...415..863G"

  /** Triple ri (columns 2 + 3 ri …) is kept when its magnitude cell is non-empty. */
  function StromloKeep(row: Row): nat -> bool
  {
    (ri: nat) => 2 + 3 * ri < |row| && row[2 + 3 * ri] != ""
  }

  /** The call for triple ri; None where Python raises. */
  function StromloCall(env: Env, entry: string, source: string, mjd: real, row: Row, ri: nat): Option<Call>
  {
    var ci := 2 + 3 * ri;
    if ci + 2 >= |row| then None
    else
      match StromloTriple(env, ri, row[ci], row[ci + 1], row[ci + 2], mjd, source)
      case None => None
      case Some(p) => Some(AddPhotometry(entry, p))
  }

  function StromloCalls(env: Env, entry: string, source: string, mjd: real, row: Row): nat -> Option<Call>
  {
    (ri: nat) => StromloCall(env, entry, source, mjd, row, ri)
  }

  /** Lines 242-270. */
  function StromloRow(env: Env, row: Row): Step<()>
  {
    if |row| == 0 then Fault([])
    else
      var entry := EntryName(env, row[0]);
      var source := SourceOf(env, entry, StromloBib);
      var opening := Register(env, row[0], StromloBib);
      if |row| < 2 then Fault(opening)
      else
        match env.decimal(row[1])
        case None => Fault(opening)
        case Some(jd) =>
          var e := EmitCells(StromloKeep(row), StromloCalls(env, entry, source, env.jdToMjd(jd), row),
                             0, TripleCount(|row|));
          if e.ok then Next(opening + e.calls, ()) else Fault(opening + e.calls)
  }

  function StromloStep(env: Env): ((), nat, Row) -> Step<()>
  {
    (s: (), ri: nat, row: Row) => StromloRow(env, row)
  }

  /** Triple ri lies inside the row and its non-empty error cells are numbers. */
  predicate TripleReadable(env: Env, row: Row, ri: nat)
  {
    var ci := 2 + 3 * ri;
    && ci + 2 < |row|
    && (row[ci + 1] != "" ==> env.decimal(row[ci + 1]).Some?)
    && (row[ci + 2] != "" ==> env.decimal(row[ci + 2]).Some?)
  }

  /** A readable triple among the six named bands always yields its record. */
  lemma StromloCallSpec(env: Env, entry: string, source: string, mjd: real, row: Row, ri: nat)
    requires ri < 6 && TripleReadable(env, row, ri)
    ensures var ci := 2 + 3 * ri;
      && StromloTriple(env, ri, row[ci], row[ci + 1], row[ci + 2], mjd, source).Some?
      && StromloCall(env, entry, source, mjd, row, ri)
         == Some(AddPhotometry(entry, StromloTriple(env, ri, row[ci], row[ci + 1], row[ci + 2], mjd, source).value))
  {
    var ci := 2 + 3 * ri;
    StromloTripleSpec(env, ri, row[ci], row[ci + 1], row[ci + 2], mjd, source);
  }

  /**
   * A row of m triples, whose triples with a non-empty magnitude are among
   * the six bands and readable, registers its object and emits one record
   * per triple whose magnitude cell is non-empty, and nothing for a triple
   * whose magnitude is empty (its other cells are never read).
   */
  lemma StromloRowSpec(env: Env, row: Row, m: nat)
    requires |row| == 2 + 3 * m
    requires env.decimal(row[1]).Some?
    requires forall ri: nat :: ri < m && row[2 + 3 * ri] != "" ==> ri < 6 && TripleReadable(env, row, ri)
    ensures var kept := Kept(StromloKeep(row), 0, m);
      var r := StromloRow(env, row);
      && r.Next?
      && |r.calls| == 3 + |kept|
      && r.calls[..3] == Register(env, row[0], StromloBib)
      && (forall ri: nat :: ri < m ==> (row[2 + 3 * ri] != "" <==> ri in kept))
  {
    StromloEmitsAll(env, row, m);
    StromloKeptCells(row, m);
  }

  /** `call` adds the record of triple ri of the row, dated by the row's Julian date. */
  predicate IsTripleRecord(env: Env, row: Row, ri: nat, call: Call)
    requires |row| >= 2 && env.decimal(row[1]).Some?
  {
    var ci := 2 + 3 * ri;
    var entry := EntryName(env, row[0]);
    var p := StromloTriple(env, ri, if ci < |row| then row[ci] else "", if ci + 1 < |row| then row[ci + 1] else "",
                           if ci + 2 < |row| then row[ci + 2] else "", env.jdToMjd(env.decimal(row[1]).value),
                           SourceOf(env, entry, StromloBib));
    ci + 2 < |row| && p.Some? && call == AddPhotometry(entry, p.value)
  }

  /** In that row the call after the registration at position k records the k-th kept triple, in column order. */
  lemma StromloRowRecords(env: Env, row: Row, m: nat)
    requires |row| == 2 + 3 * m
    requires env.decimal(row[1]).Some?
    requires forall ri: nat :: ri < m && row[2 + 3 * ri] != "" ==> ri < 6 && TripleReadable(env, row, ri)
    ensures var kept := Kept(StromloKeep(row), 0, m);
      var r := StromloRow(env, row);
      && r.Next? && |r.calls| == 3 + |kept|
      && forall k :: 0 <= k < |kept| ==> IsTripleRecord(env, row, kept[k], r.calls[3 + k])
  {
    StromloEmitsAll(env, row, m);
    forall k | 0 <= k < |Kept(StromloKeep(row), 0, m)|
      ensures IsTripleRecord(env, row, Kept(StromloKeep(row), 0, m)[k], StromloRow(env, row).calls[3 + k])
    {
      StromloRecordAt(env, row, m, k);
    }
  }

  lemma StromloRecordAt(env: Env, row: Row, m: nat, k: nat)
    requires |row| == 2 + 3 * m
    requires env.decimal(row[1]).Some?
    requires forall ri: nat :: ri < m && row[2 + 3 * ri] != "" ==> ri < 6 && TripleReadable(env, row, ri)
    requires k < |Kept(StromloKeep(row), 0, m)|
    ensures |StromloRow(env, row).calls| > 3 + k
    ensures IsTripleRecord(env, row, Kept(StromloKeep(row), 0, m)[k], StromloRow(env, row).calls[3 + k])
  {
    var entry := EntryName(env, row[0]);
    var source := SourceOf(env, entry, StromloBib);
    var mjd := env.jdToMjd(env.decimal(row[1]).value);
    var emit := StromloCalls(env, entry, source, mjd, row);
    var ri := Kept(StromloKeep(row), 0, m)[k];
    StromloEmitsAll(env, row, m);
    var e := EmitCells(StromloKeep(row), emit, 0, m);
    assert emit(ri) == Some(e.calls[k]);
    StromloCallSpec(env, entry, source, mjd, row, ri);
    var opening := Register(env, row[0], StromloBib);
    assert StromloRow(env, row).calls == opening + e.calls;
    assert (opening + e.calls)[3 + k] == e.calls[k];
  }

  /** Under the same conditions the row's inner loop finishes, one call per kept triple. */
  lemma StromloEmitsAll(env: Env, row: Row, m: nat)
    requires |row| == 2 + 3 * m
    requires env.decimal(row[1]).Some?
    requires forall ri: nat :: ri < m && row[2 + 3 * ri] != "" ==> ri < 6 && TripleReadable(env, row, ri)
    ensures var entry := EntryName(env, row[0]);
      var emit := StromloCalls(env, entry, SourceOf(env, entry, StromloBib), env.jdToMjd(env.decimal(row[1]).value), row);
      var e := EmitCells(StromloKeep(row), emit, 0, m);
      && e.ok
      && |e.calls| == |Kept(StromloKeep(row), 0, m)|
      && (forall j :: 0 <= j < |Kept(StromloKeep(row), 0, m)| ==> emit(Kept(StromloKeep(row), 0, m)[j]) == Some(e.calls[j]))
      && StromloRow(env, row) == Next(Register(env, row[0], StromloBib) + e.calls, ())
  {
    var entry := EntryName(env, row[0]);
    var source := SourceOf(env, entry, StromloBib);
    var mjd := env.jdToMjd(env.decimal(row[1]).value);
    var emit := StromloCalls(env, entry, source, mjd, row);
    assert TripleCount(|row|) == m;
    forall ri: nat | ri < m && StromloKeep(row)(ri)
      ensures emit(ri).Some?
    {
      StromloCallSpec(env, entry, source, mjd, row, ri);
    }
    EmitAll(StromloKeep(row), emit, 0, m);
  }

  /** The kept triples of a row of m triples are those whose magnitude cell is non-empty. */
  lemma StromloKeptCells(row: Row, m: nat)
    requires |row| == 2 + 3 * m
    ensures forall ri: nat :: ri < m ==> (row[2 + 3 * ri] != "" <==> ri in Kept(StromloKeep(row), 0, m))
  {
    forall ri: nat | ri < m
      ensures row[2 + 3 * ri] != "" <==> ri in Kept(StromloKeep(row), 0, m)
    {
      assert StromloKeep(row)(ri) <==> row[2 + 3 * ri] != "";
    }
  }

  // ---------------------------------------------------------------------
  // 2015MNRAS.449..451W: `alias/name` objects, one magnitude each

  const MNRAS449Bib := "2015MNRAS.449..451W"

  /** Lines 282-303 (row 0 is the column header). */
  function MNRAS449Row(env: Env, ri: nat, row: Row): Step<()>
  {
    if ri == 0 then Next([], ())
    else if |row| == 0 then Fault([])
    else
      var name := SlashName(row[0]);
      var entry := EntryName(env, name);
      var source := SourceOf(env, entry, MNRAS449Bib);
      var opening := Register(env, name, MNRAS449Bib)
                     + (match SlashAlias(row[0])
                        case None => []
                        case Some(a) => [AddQuantity(entry, Plain(Alias, a, source))]);
      if |row| < 2 then Fault(opening)
      else
        var typed := opening + [AddQuantity(entry, Plain(ClaimedType, row[1], source))];
        if |row| < 5 then Fault(typed)
        else
          Next(typed + [AddPhotometry(entry, MNRAS449Record(row, source))], ())
  }

  function MNRAS449Step(env: Env): ((), nat, Row) -> Step<()>
  {
    (s: (), ri: nat, row: Row) => MNRAS449Row(env, ri, row)
  }

  /**
   * A data row `a/b` registers the object named from `b`, adds `a` as an
   * alias, its claimed type and one magnitude; without `/` it adds no alias.
   */
  lemma MNRAS449RowSpec(env: Env, ri: nat, row: Row, a: string, b: string)
    requires ri > 0 && |row| >= 5
    ensures '/' !in row[0] ==>
      var name := if StartsWith(row[0], "SN") then Replace(row[0], " ", "") else row[0];
      var r := MNRAS449Row(env, ri, row);
      && r.Next? && |r.calls| == 5
      && r.calls[..3] == Register(env, name, MNRAS449Bib)
    ensures '/' !in SlashName(row[0])
    ensures row[0] == a + "/" + b && '/' !in a && '/' !in b ==>
      var name := if StartsWith(b, "SN") then Replace(b, " ", "") else b;
      var entry := EntryName(env, name);
      var r := MNRAS449Row(env, ri, row);
      && r.Next? && |r.calls| == 6
      && r.calls[..3] == Register(env, name, MNRAS449Bib)
      && r.calls[3] == AddQuantity(entry, Plain(Alias, a, SourceOf(env, entry, MNRAS449Bib)))
  {
    SlashNameClean(row[0]);
    SlashNameSplit(row[0], a, b);
  }

  /** The record of a data row: time `row[2]` in MJD, band `row[4]` and magnitude `row[3]`. */
  function MNRAS449Record(row: Row, source: string): Photometry
    requires |row| >= 5
  {
    map[Time := Text(row[2]), UTime := Text("MJD"), Band := Text(row[4]),
        Magnitude := Text(row[3]), Source := Text(source)]
  }

  /**
   * After the registration and the optional alias, a data row adds the
   * claimed type `row[1]` and then its one record; with an alias these are
   * calls 4 and 5, without one calls 3 and 4.
   */
  lemma MNRAS449RowData(env: Env, ri: nat, row: Row)
    requires ri > 0 && |row| >= 5
    ensures var entry := EntryName(env, SlashName(row[0]));
      var source := SourceOf(env, entry, MNRAS449Bib);
      var r := MNRAS449Row(env, ri, row);
      var n := if SlashAlias(row[0]).Some? then 4 else 3;
      && r.Next? && |r.calls| == n + 2
      && r.calls[n] == AddQuantity(entry, Plain(ClaimedType, row[1], source))
      && r.calls[n + 1] == AddPhotometry(entry, MNRAS449Record(row, source))
  {
  }

  /** The fields of that record. */
  lemma MNRAS449RecordFields(row: Row, source: string)
    requires |row| >= 5
    ensures var p := MNRAS449Record(row, source);
      && p[Time] == Text(row[2]) && p[UTime] == Text("MJD") && p[Band] == Text(row[4])
      && p[Magnitude] == Text(row[3]) && p[Source] == Text(source)
  {
  }

  // ---------------------------------------------------------------------
  // 2015ApJ...804...28G: PS1-13arp, `<mag` limits

  const ApJ804Bib := "2015ApJ...804...28G"

  function ApJ804Record(env: Env, row: Row, source: string): Photometry
    requires |row| >= 6
  {
    map[Time := Text(row[1]), UTime := Text("MJD"), Band := Text(row[0]),
        Magnitude := Text(LessMag(row[3])),
        EMagnitude := Text(if env.isNumber(row[4]) then row[4] else ""),
        Instrument := Text(row[5]),
        UpperLimit := if LessUpper(row[3]) then Flag(true) else Text(""),
        Source := Text(source)]
  }

  /** Lines 354-371 (row 0 is the column header). */
  function ApJ804Row(env: Env, entry: string, source: string, ri: nat, row: Row): Step<()>
  {
    if ri == 0 then Next([], ())
    else if |row| < 6 then Fault([])
    else Next([AddPhotometry(entry, ApJ804Record(env, row, source))], ())
  }

  function ApJ804Step(env: Env): ((), nat, Row) -> Step<()>
  {
    var entry := EntryName(env, "PS1-13arp");
    var source := SourceOf(env, entry, ApJ804Bib);
    (s: (), ri: nat, row: Row) => ApJ804Row(env, entry, source, ri, row)
  }

  /**
   * A `<` in the magnitude cell marks an upper limit; the magnitude is the
   * cell with every `<` deleted; the error is `row[4]` only when it is a number.
   */
  lemma ApJ804RecordSpec(env: Env, row: Row, source: string)
    requires |row| >= 6
    ensures var p := ApJ804Record(env, row, source);
      && (p[UpperLimit] == Flag(true) <==> '<' in row[3])
      && p[Magnitude] == Text(Removed(row[3], '<'))
      && '<' !in p[Magnitude].text
      && multiset(p[Magnitude].text) == multiset(row[3])['<' := 0]
      && ('<' !in row[3] ==> p[Magnitude] == Text(row[3]))
      && p[EMagnitude] == Text(if env.isNumber(row[4]) then row[4] else "")
  {
    var p := ApJ804Record(env, row, source);
    assert p[Magnitude] == Text(Replace(row[3], "<", ""));
    ReplaceCharDeletes(row[3], '<');
    if '<' !in row[3] {
      ReplaceAbsent(row[3], '<');
    }
  }

  /** The record's time, band and instrument are the row's columns 1, 0 and 5, under the paper's source. */
  lemma ApJ804RecordColumns(env: Env, row: Row, source: string)
    requires |row| >= 6
    ensures var p := ApJ804Record(env, row, source);
      && p[Time] == Text(row[1]) && p[UTime] == Text("MJD")
      && p[Band] == Text(row[0]) && p[Instrument] == Text(row[5])
      && p[Source] == Text(source)
  {
  }

  // ---------------------------------------------------------------------
  // 2016ApJ...819...35A: positions, redshifts and discovery dates

  const ApJ819Bib := "2016ApJ...819...35A"

  /** The `YYYY/MM/DD` date made from an ISO date-time text. */
  function SlashDate(iso: string): string
  {
    Replace(Split(iso, 'T')[0], "-", "/")
  }

  /** Lines 383-396. */
  function ApJ819Row(env: Env, row: Row): Step<()>
  {
    match IsComment(row)
    case None => Fault([])
    case Some(true) => Next([], ())
    case Some(false) =>
      var entry := EntryName(env, row[0]);
      var source := SourceOf(env, entry, ApJ819Bib);
      var opening := Register(env, row[0], ApJ819Bib);
      if |row| < 2 then Fault(opening)
      else
        var c1 := opening + [AddQuantity(entry, Plain(Ra, row[1], source))];
        if |row| < 3 then Fault(c1)
        else
          var c2 := c1 + [AddQuantity(entry, Plain(Dec, row[2], source))];
          if |row| < 4 then Fault(c2)
          else
            var c3 := c2 + [AddQuantity(entry, Plain(Redshift, row[3], source))];
            if |row| < 5 then Fault(c3)
            else
              match env.isoDateTime(row[4])
              case None => Fault(c3)
              case Some(iso) => Next(c3 + [AddQuantity(entry, Plain(DiscoverDate, SlashDate(iso), source))], ())
  }

  function ApJ819Step(env: Env): ((), nat, Row) -> Step<()>
  {
    (s: (), ri: nat, row: Row) => ApJ819Row(env, row)
  }

  /** The date part before `T` keeps its length and has every `-` turned into `/`. */
  lemma SlashDateSpec(day: string, rest: string)
    requires 'T' !in day
    ensures SlashDate(day + "T" + rest) == Replace(day, "-", "/")
    ensures |SlashDate(day + "T" + rest)| == |day| && '-' !in SlashDate(day + "T" + rest)
    ensures forall i :: 0 <= i < |day| && day[i] != '-' ==> SlashDate(day + "T" + rest)[i] == day[i]
  {
    var s := day + "T" + rest;
    assert s[..|day|] == day;
    SplitPieces(s, 'T', |day|);
    ReplaceCharMaps(day, '-', '/');
  }

  /** A data row with five cells and a parsable date registers the object and adds position, redshift and date. */
  lemma ApJ819RowSpec(env: Env, row: Row)
    requires IsComment(row) == Some(false) && |row| >= 5 && env.isoDateTime(row[4]).Some?
    ensures var r := ApJ819Row(env, row);
      var entry := EntryName(env, row[0]);
      && r.Next? && |r.calls| == 7
      && r.calls[..3] == Register(env, row[0], ApJ819Bib)
      && r.calls[3] == AddQuantity(entry, Plain(Ra, row[1], SourceOf(env, entry, ApJ819Bib)))
      && r.calls[4] == AddQuantity(entry, Plain(Dec, row[2], SourceOf(env, entry, ApJ819Bib)))
      && r.calls[5] == AddQuantity(entry, Plain(Redshift, row[3], SourceOf(env, entry, ApJ819Bib)))
      && r.calls[6] == AddQuantity(entry, Plain(DiscoverDate, SlashDate(env.isoDateTime(row[4]).value),
                                                SourceOf(env, entry, ApJ819Bib)))
  {
  }

  // ---------------------------------------------------------------------
  // 2014ApJ...784..105W: WHIRC photometry

  const ApJ784Bib := "2014ApJ...784..105W"

  /** Lines 408-430. */
  function ApJ784Row(env: Env, row: Row): Step<()>
  {
    match IsComment(row)
    case None => Fault([])
    case Some(true) => Next([], ())
    case Some(false) =>
      var entry := EntryName(env, row[0]);
      var source := SourceOf(env, entry, ApJ784Bib);
      var opening := Register(env, row[0], ApJ784Bib);
      if |row| < 5 then Fault(opening)
      else
        Next(opening + [AddPhotometry(entry, map[
          Time := Text(row[1]), UTime := Text("MJD"), Band := Text(row[2]), Magnitude := Text(row[3]),
          EMagnitude := Text(row[4]), Instrument := Text("WHIRC"), Telescope := Text("WIYN 3.5 m"),
          Observatory := Text("NOAO"), BandSet := Text("Johnson-Cousins"), System := Text("WHIRC"),
          Source := Text(source)])], ())
  }

  function ApJ784Step(env: Env): ((), nat, Row) -> Step<()>
  {
    (s: (), ri: nat, row: Row) => ApJ784Row(env, row)
  }

  /** A data row registers its object and adds one WHIRC record with the row's time, band, magnitude and error. */
  lemma ApJ784RowSpec(env: Env, row: Row)
    requires IsComment(row) == Some(false) && |row| >= 5
    ensures var r := ApJ784Row(env, row);
      && r.Next? && |r.calls| == 4
      && r.calls[..3] == Register(env, row[0], ApJ784Bib)
      && r.calls[3].AddPhotometry?
      && var p := r.calls[3].photometry;
         && p[Time] == Text(row[1]) && p[Band] == Text(row[2]) && p[Magnitude] == Text(row[3])
         && p[EMagnitude] == Text(row[4]) && p[Telescope] == Text("WIYN 3.5 m") && p[System] == Text("WHIRC")
  {
  }

  /** The record goes to the row's entry, in MJD, as WHIRC at NOAO in the Johnson-Cousins band set, from the table's source. */
  lemma ApJ784RecordSite(env: Env, row: Row)
    requires IsComment(row) == Some(false) && |row| >= 5
    ensures var r := ApJ784Row(env, row);
      var entry := EntryName(env, row[0]);
      && r.Next? && |r.calls| == 4
      && r.calls[3].AddPhotometry? && r.calls[3].entry == entry
      && var p := r.calls[3].photometry;
         && p[UTime] == Text("MJD") && p[Instrument] == Text("WHIRC") && p[Observatory] == Text("NOAO")
         && p[BandSet] == Text("Johnson-Cousins") && p[Source] == Text(SourceOf(env, entry, ApJ784Bib))
  {
  }

  // ---------------------------------------------------------------------
  // 2014ApJ...783...28G: spectroscopic or photometric redshifts

  const ApJ783Bib := "2014ApJ...783...28G"

  /** The redshift quantity: `row[13]` if numeric (spectroscopic), else `row[10]` (photometric). */
  function ApJ783Redshift(env: Env, row: Row, source: string): Quantity
    requires |row| >= 14
  {
    var spz := env.isNumber(row[13]);
    Quantity(Redshift, if spz then row[13] else row[10], source, None,
             Some(if spz then "spectroscopic" else "photometric"))
  }

  /** Lines 487-502. */
  function ApJ783Row(env: Env, row: Row): Step<()>
  {
    match IsComment(row)
    case None => Fault([])
    case Some(true) => Next([], ())
    case Some(false) =>
      var entry := EntryName(env, row[0]);
      var source := SourceOf(env, entry, ApJ783Bib);
      var opening := [NewEntry(row[0], ApJ783Bib)];
      if |row| < 14 then Fault(opening)
      else
        Next(opening + [
          AddQuantity(entry, Plain(Alias, row[1], source)),
          AddQuantity(entry, Plain(DiscoverDate, "20" + Slice(row[0], 3, 5), source)),
          AddQuantity(entry, Plain(Ra, row[2], source)),
          AddQuantity(entry, Plain(Dec, row[3], source)),
          AddQuantity(entry, ApJ783Redshift(env, row, source))], ())
  }

  function ApJ783Step(env: Env): ((), nat, Row) -> Step<()>
  {
    (s: (), ri: nat, row: Row) => ApJ783Row(env, row)
  }

  /**
   * A data row creates its entry, then adds the alias `row[1]`, the
   * discovery year `20` followed by characters 3-4 of the name, RA `row[2]`,
   * Dec `row[3]` and the redshift, all to that entry from the table's source.
   * The redshift is the spectroscopic column exactly when that column is
   * numeric, else the photometric one, and its kind says which.
   */
  lemma ApJ783RowSpec(env: Env, row: Row)
    requires IsComment(row) == Some(false) && |row| >= 14
    ensures var r := ApJ783Row(env, row);
      var entry := EntryName(env, row[0]);
      var src := SourceOf(env, entry, ApJ783Bib);
      var q := r.calls[5].quantity;
      && r.Next? && |r.calls| == 6
      && r.calls[0] == NewEntry(row[0], ApJ783Bib)
      && r.calls[1] == AddQuantity(entry, Plain(Alias, row[1], src))
      && r.calls[2] == AddQuantity(entry, Plain(DiscoverDate, "20" + Slice(row[0], 3, 5), src))
      && r.calls[3] == AddQuantity(entry, Plain(Ra, row[2], src))
      && r.calls[4] == AddQuantity(entry, Plain(Dec, row[3], src))
      && r.calls[5] == AddQuantity(entry, ApJ783Redshift(env, row, src))
      && q.kind == Redshift
      && (q.derivation == Some("spectroscopic") <==> env.isNumber(row[13]))
      && (env.isNumber(row[13]) ==> q.value == row[13] && q.derivation == Some("spectroscopic"))
      && (!env.isNumber(row[13]) ==> q.value == row[10] && q.derivation == Some("photometric"))
      && (|row[0]| >= 5 ==> r.calls[2].quantity.value == "20" + row[0][3..5])
  {
  }

  // ---------------------------------------------------------------------
  // 2005ApJ...634.1190H: SNLS objects with host redshifts and types

  const ApJ634Bib := "2005ApJ...634.1190H"

  /** Lines 512-527. */
  function ApJ634Row(env: Env, row: Row): Step<()>
  {
    if |row| == 0 then Fault([])
    else
      var name := "SNLS-" + row[0];
      var entry := EntryName(env, name);
      var source := SourceOf(env, entry, ApJ634Bib);
      var c0 := [NewEntry(name, ApJ634Bib),
                 AddQuantity(entry, Plain(DiscoverDate, "20" + Slice(row[0], 0, 2), source))];
      if |row| < 2 then Fault(c0)
      else
        var c1 := c0 + [AddQuantity(entry, Plain(Ra, row[1], source))];
        if |row| < 3 then Fault(c1)
        else
          var c2 := c1 + [AddQuantity(entry, Plain(Dec, row[2], source))];
          if |row| < 7 then Fault(c2)
          else
            var c3 := c2 + [AddQuantity(entry, Quantity(Redshift, Replace(row[5], "?", ""), source,
                                                        Some(row[6]), Some("host")))];
            if |row| < 8 then Fault(c3)
            else Next(c3 + [AddQuantity(entry, Plain(ClaimedType, ClaimedTypeTrim(row[7]), source))], ())
  }

  function ApJ634Step(env: Env): ((), nat, Row) -> Step<()>
  {
    (s: (), ri: nat, row: Row) => ApJ634Row(env, row)
  }

  /** A row of eight cells or more makes six calls and completes; the first four open the entry. */
  lemma ApJ634CallsHead(env: Env, row: Row)
    requires |row| >= 8
    ensures var entry := EntryName(env, "SNLS-" + row[0]);
      var source := SourceOf(env, entry, ApJ634Bib);
      var r := ApJ634Row(env, row);
      && r.Next? && |r.calls| == 6
      && r.calls[0] == NewEntry("SNLS-" + row[0], ApJ634Bib)
      && r.calls[1] == AddQuantity(entry, Plain(DiscoverDate, "20" + Slice(row[0], 0, 2), source))
      && r.calls[2] == AddQuantity(entry, Plain(Ra, row[1], source))
      && r.calls[3] == AddQuantity(entry, Plain(Dec, row[2], source))
  {
  }

  /** The last two calls of such a row add the host redshift and the claimed type. */
  lemma ApJ634CallsTail(env: Env, row: Row)
    requires |row| >= 8
    ensures var entry := EntryName(env, "SNLS-" + row[0]);
      var source := SourceOf(env, entry, ApJ634Bib);
      var r := ApJ634Row(env, row);
      && r.Next? && |r.calls| == 6
      && r.calls[4] == AddQuantity(entry, Quantity(Redshift, Replace(row[5], "?", ""), source, Some(row[6]), Some("host")))
      && r.calls[5] == AddQuantity(entry, Plain(ClaimedType, ClaimedTypeTrim(row[7]), source))
  {
  }

  /** The entry is `SNLS-` + name, its discovery year `20` and the name's first two characters, then RA and Dec. */
  lemma ApJ634RowOpening(env: Env, row: Row)
    requires |row| >= 8
    ensures var r := ApJ634Row(env, row);
      var entry := EntryName(env, "SNLS-" + row[0]);
      var source := SourceOf(env, entry, ApJ634Bib);
      && r.Next? && |r.calls| == 6
      && r.calls[..4] == [NewEntry("SNLS-" + row[0], ApJ634Bib),
                          AddQuantity(entry, Plain(DiscoverDate, "20" + Slice(row[0], 0, 2), source)),
                          AddQuantity(entry, Plain(Ra, row[1], source)),
                          AddQuantity(entry, Plain(Dec, row[2], source))]
  {
    ApJ634CallsHead(env, row);
  }

  /**
   * The host redshift is its cell with every `?` deleted, with the error
   * column; the claimed type is trimmed of `:* ` after `replace('SN', '')`.
   */
  lemma ApJ634RowSpec(env: Env, row: Row)
    requires |row| >= 8
    ensures var r := ApJ634Row(env, row);
      && r.Next? && |r.calls| == 6
      && r.calls[4].AddQuantity? && r.calls[4].quantity.kind == Redshift
      && r.calls[4].quantity.value == Removed(row[5], '?')
      && '?' !in r.calls[4].quantity.value
      && multiset(r.calls[4].quantity.value) == multiset(row[5])['?' := 0]
      && r.calls[4].quantity.eValue == Some(row[6]) && r.calls[4].quantity.derivation == Some("host")
      && r.calls[5].AddQuantity? && r.calls[5].quantity.kind == ClaimedType
      && r.calls[5].quantity.value == ClaimedTypeTrim(row[7])
      && var t := r.calls[5].quantity.value;
         t == [] || (t[0] !in {':', '*', ' '} && t[|t| - 1] !in {':', '*', ' '})
  {
    ApJ634CallsTail(env, row);
    ReplaceCharDeletes(row[5], '?');
    ClaimedTypeTrimEnds(row[7]);
  }

  // ---------------------------------------------------------------------
  // 2014MNRAS.444.2133S: host redshifts, `SN` added to year-first names

  const MNRAS444Bib := "2014MNRAS.444.2133S"

  /** Lines 537-548. */
  function MNRAS444Row(env: Env, row: Row): Step<()>
  {
    match IsComment(row)
    case None => Fault([])
    case Some(true) => Next([], ())
    case Some(false) =>
      var name := SnPrefixed(env, row[0]);
      var entry := EntryName(env, name);
      var source := SourceOf(env, entry, MNRAS444Bib);
      var c0 := [NewEntry(name, MNRAS444Bib)];
      if |row| < 2 then Fault(c0)
      else
        var c1 := c0 + [AddQuantity(entry, Plain(Ra, row[1], source))];
        if |row| < 3 then Fault(c1)
        else
          var c2 := c1 + [AddQuantity(entry, Plain(Dec, row[2], source))];
          if |row| < 4 then Fault(c2)
          else Next(c2 + [AddQuantity(entry, Quantity(Redshift, row[3], source, None, Some("host")))], ())
  }

  function MNRAS444Step(env: Env): ((), nat, Row) -> Step<()>
  {
    (s: (), ri: nat, row: Row) => MNRAS444Row(env, row)
  }

  /** The entry is the first cell, with `SN` in front when its first four characters are a number. */
  lemma MNRAS444RowSpec(env: Env, row: Row)
    requires IsComment(row) == Some(false) && |row| >= 4
    ensures var r := MNRAS444Row(env, row);
      && r.Next? && |r.calls| == 4
      && (env.isNumber(Slice(row[0], 0, 4)) ==> r.calls[0] == NewEntry("SN" + row[0], MNRAS444Bib))
      && (!env.isNumber(Slice(row[0], 0, 4)) ==> r.calls[0] == NewEntry(row[0], MNRAS444Bib))
  {
  }

  /** After the entry come RA `row[1]`, Dec `row[2]` and the host redshift `row[3]`, all from the table's source. */
  lemma MNRAS444RowQuantities(env: Env, row: Row)
    requires IsComment(row) == Some(false) && |row| >= 4
    ensures var entry := EntryName(env, SnPrefixed(env, row[0]));
      var source := SourceOf(env, entry, MNRAS444Bib);
      var r := MNRAS444Row(env, row);
      && r.Next? && |r.calls| == 4
      && r.calls[1] == AddQuantity(entry, Plain(Ra, row[1], source))
      && r.calls[2] == AddQuantity(entry, Plain(Dec, row[2], source))
      && r.calls[3] == AddQuantity(entry, Quantity(Redshift, row[3], source, None, Some("host")))
  {
  }
}
