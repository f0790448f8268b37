/**
 * 2004ApJ...606..381L, the SN 2003dh light curve: a legend of instrument
 * codes (rows 23-38) and band codes (rows 40-43) is read into three
 * dictionaries, and every later row is a photometry point written in those
 * codes.
 */
module LegendTable {
  import opened Wrappers
  import opened PyStr
  import opened Catalog

  const ApJ606Bib := "2004ApJ...606..381L"
  const ApJ606Name := "SN2003dh"

  /** Author names that point an instrument line to its own paper. */
  const LegendBibs: seq<(string, string)> := [
    ("Uemura", "2003Natur.423..843U"),
    ("Burenin", "2003AstL...29..573B"),
    ("Bloom", "2004AJ....127..252B"),
    ("Matheson", "2003ApJ...599..394M")
  ]

  /** The three dictionaries the legend fills: instrument, band and bibcode by code. */
  datatype Legend = Legend(inst: map<string, string>, band: map<string, string>, bib: map<string, string>)

  const NoLegend := Legend(map[], map[], map[])

  /**
   * The bibcode of the last listed author named in `text`, `""` if none.
   * Defined from the end of the list: the last match is the first one seen
   * walking backwards.
   */
  function Matching(text: string, bibs: seq<(string, string)>): string
  {
    if bibs == [] then ""
    else
      var last := bibs[|bibs| - 1];
      if Contains(text, last.0) then last.1 else Matching(text, bibs[..|bibs| - 1])
  }

  /** The author matched last in list order decides the bibcode. */
  lemma {:induction false} MatchingLast(text: string, bibs: seq<(string, string)>, k: nat)
    requires k < |bibs| && Contains(text, bibs[k].0)
    requires forall k' :: k < k' < |bibs| ==> !Contains(text, bibs[k'].0)
    ensures Matching(text, bibs) == bibs[k].1
    decreases |bibs|
  {
    var n := |bibs| - 1;
    if k < n {
      var init := bibs[..n];
      assert forall j :: 0 <= j < n ==> init[j] == bibs[j];
      MatchingLast(text, init, k);
    }
  }

  /** A line naming none of the authors gets no bibcode. */
  lemma {:induction false} MatchingNone(text: string, bibs: seq<(string, string)>)
    requires forall k :: 0 <= k < |bibs| ==> !Contains(text, bibs[k].0)
    ensures Matching(text, bibs) == ""
    decreases |bibs|
  {
    if bibs != [] {
      var init := bibs[..|bibs| - 1];
      assert forall j :: 0 <= j < |init| ==> init[j] == bibs[j];
      MatchingNone(text, init);
    }
  }

  /** A line naming some author gets the bibcode of a listed author. */
  lemma {:induction false} MatchingSome(text: string, bibs: seq<(string, string)>, k: nat)
    requires k < |bibs| && Contains(text, bibs[k].0)
    ensures exists j :: 0 <= j < |bibs| && Matching(text, bibs) == bibs[j].1
    decreases |bibs|
  {
    var n := |bibs| - 1;
    if Contains(text, bibs[n].0) {
      assert Matching(text, bibs) == bibs[n].1;
    } else {
      var init := bibs[..n];
      assert init[k] == bibs[k];
      MatchingSome(text, init, k);
      var j :| 0 <= j < |init| && Matching(text, init) == init[j].1;
      assert init[j] == bibs[j];
    }
  }

  /** `for bib in bibs: if bib in text: bc = bibs[bib]`. */
  method FindBibcode(text: string) returns (bc: string)
    ensures bc == Matching(text, LegendBibs)
  {
    bc := "";
    var i := 0;
    while i < |LegendBibs|
      invariant 0 <= i <= |LegendBibs|
      invariant bc == Matching(text, LegendBibs[..i])
    {
      assert LegendBibs[..i + 1][..i] == LegendBibs[..i];
      if Contains(text, LegendBibs[i].0) {
        bc := LegendBibs[i].1;
      }
      i := i + 1;
    }
    assert LegendBibs[..i] == LegendBibs;
  }

  /** The legend line text: cells from the third on, joined, without trailing `.` or `;`. */
  function LegendText(row: Row): string
  {
    RStrip(Join(Slice(row, 2, |row|), " "), {'.', ';'})
  }

  /** The instrument is the text before the first `(`, stripped. */
  function LegendInstrument(text: string): string
  {
    Strip(Split(text, '(')[0])
  }

  /** One photometry point, lines 154-170; `lg` is the legend read so far. */
  function PointRow(env: Env, entry: string, source: string, lg: Legend, row: Row): Step<Legend>
  {
    if |row| < 4 then Fault([])
    else
      match env.astropyMjd(row[3])
      case None => Fault([])
      case Some(time) =>
        if row[0] !in lg.bib then Fault([])
        else
          var bc := lg.bib[row[0]];
          var ss := if bc != "" then SourceOf(env, entry, bc) else "";
          var pre := if bc != "" then [AddSource(entry, bc)] else [];
          if row[0] !in lg.inst || row[1] !in lg.band || |row| < 7 then Fault(pre)
          else
            Next(pre + [AddPhotometry(entry, map[
              Instrument := Text(lg.inst[row[0]]), Band := Text(lg.band[row[1]]), Time := Text(time),
              Magnitude := Text(row[4]), EMagnitude := Text(row[6]),
              Source := Text(source + (if ss != "" then "," + ss else ""))])], lg)
  }

  /** Lines 146-172: which part of the table row `ri` belongs to decides what it does. */
  function LegendRow(env: Env, entry: string, source: string, lg: Legend, ri: nat, row: Row): Step<Legend>
  {
    if |row| == 0 then Next([], lg)
    else if 23 <= ri <= 38 then
      var text := LegendText(row);
      Next([], lg.(inst := lg.inst[row[0] := LegendInstrument(text)],
                   bib := lg.bib[row[0] := Matching(text, LegendBibs)]))
    else if 40 <= ri <= 43 then
      if |row| < 3 then Fault([]) else Next([], lg.(band := lg.band[row[0] := row[2]]))
    else if ri >= 45 then PointRow(env, entry, source, lg, row)
    else Next([], lg)
  }

  function LegendStep(env: Env): (Legend, nat, Row) -> Step<Legend>
  {
    var entry := EntryName(env, ApJ606Name);
    var source := SourceOf(env, entry, ApJ606Bib);
    (lg: Legend, ri: nat, row: Row) => LegendRow(env, entry, source, lg, ri, row)
  }

  /** The whole table: `new_entry('SN2003dh')`, the rows, the journal checkpoint. */
  function ApJ606Table(env: Env, rows: seq<Row>): Outcome
  {
    Dataset([NewEntry(ApJ606Name, ApJ606Bib)], LegendStep(env), rows, NoLegend)
  }

  /** Lines 154-170 over the dictionaries as they stand. */
  method ReadPoint(env: Env, entry: string, source: string, instdict: map<string, string>,
                   banddict: map<string, string>, bibdict: map<string, string>, row: Row)
    returns (calls: seq<Call>, ok: bool)
    ensures var lg := Legend(instdict, banddict, bibdict);
      PointRow(env, entry, source, lg, row) == if ok then Next(calls, lg) else Fault(calls)
  {
    calls := [];
    if |row| < 4 {
      return [], false;
    }
    var time := env.astropyMjd(row[3]);
    if time.None? || row[0] !in bibdict {
      return [], false;
    }
    var ssource := "";
    if bibdict[row[0]] != "" {
      ssource := SourceOf(env, entry, bibdict[row[0]]);
      calls := [AddSource(entry, bibdict[row[0]])];
    }
    if row[0] !in instdict || row[1] !in banddict || |row| < 7 {
      return calls, false;
    }
    calls := calls + [AddPhotometry(entry, map[
      Instrument := Text(instdict[row[0]]), Band := Text(banddict[row[1]]), Time := Text(time.value),
      Magnitude := Text(row[4]), EMagnitude := Text(row[6]),
      Source := Text(source + (if ssource != "" then "," + ssource else ""))])];
    ok := true;
  }

  /** One pass of the loop body, lines 147-172, updating the three dictionaries. */
  method ReadRow(env: Env, entry: string, source: string, ri: nat, row: Row,
                 instdict: map<string, string>, banddict: map<string, string>, bibdict: map<string, string>)
    returns (calls: seq<Call>, ok: bool,
             instdict': map<string, string>, banddict': map<string, string>, bibdict': map<string, string>)
    ensures LegendRow(env, entry, source, Legend(instdict, banddict, bibdict), ri, row)
            == if ok then Next(calls, Legend(instdict', banddict', bibdict')) else Fault(calls)
  {
    calls, ok := [], true;
    instdict', banddict', bibdict' := instdict, banddict, bibdict;
    if |row| == 0 {
    } else if 23 <= ri <= 38 {
      var text := LegendText(row);
      var bc := FindBibcode(text);
      instdict' := instdict[row[0] := LegendInstrument(text)];
      bibdict' := bibdict[row[0] := bc];
    } else if 40 <= ri <= 43 {
      if |row| < 3 {
        ok := false;
      } else {
        banddict' := banddict[row[0] := row[2]];
      }
    } else if ri >= 45 {
      calls, ok := ReadPoint(env, entry, source, instdict, banddict, bibdict, row);
    }
  }

  /**
   * The loop of lines 146-172 over three dictionaries updated as it goes.
   */
  method ReadApJ606(env: Env, rows: seq<Row>) returns (out: Outcome)
    ensures out == ApJ606Table(env, rows)
  {
    var entry := EntryName(env, ApJ606Name);
    var source := SourceOf(env, entry, ApJ606Bib);
    var opening := [NewEntry(ApJ606Name, ApJ606Bib)];
    var instdict: map<string, string> := map[];
    var banddict: map<string, string> := map[];
    var bibdict: map<string, string> := map[];
    var log := opening;
    var ri: nat := 0;
    while ri < |rows|
      invariant ri <= |rows|
      invariant Streamed(LegendStep(env), rows, 0, NoLegend, opening)
                == Streamed(LegendStep(env), rows, ri, Legend(instdict, banddict, bibdict), log)
      decreases |rows| - ri
    {
      ghost var lg := Legend(instdict, banddict, bibdict);
      assert LegendStep(env)(lg, ri, rows[ri]) == LegendRow(env, entry, source, lg, ri, rows[ri]);
      var calls, ok;
      calls, ok, instdict, banddict, bibdict := ReadRow(env, entry, source, ri, rows[ri], instdict, banddict, bibdict);
      if !ok {
        StreamedFault(LegendStep(env), rows, ri, lg, log, calls);
        return Aborted(log + calls);
      }
      StreamedNext(LegendStep(env), rows, ri, lg, log, calls, Legend(instdict, banddict, bibdict));
      log := log + calls;
      ri := ri + 1;
    }
    out := Journaled(Completed(log));
  }

  /** A point row whose codes are all in the legend adds one record, citing the table and the instrument's paper. */
  lemma PointRowSpec(env: Env, entry: string, source: string, lg: Legend, row: Row)
    requires |row| >= 7 && env.astropyMjd(row[3]).Some?
    requires row[0] in lg.bib && row[0] in lg.inst && row[1] in lg.band
    ensures var r := PointRow(env, entry, source, lg, row);
      var bc := lg.bib[row[0]];
      && r.Next? && r.state == lg
      && |r.calls| == (if bc == "" then 1 else 2)
      && (bc != "" ==> r.calls[0] == AddSource(entry, bc))
      && var p := r.calls[|r.calls| - 1].photometry;
         && r.calls[|r.calls| - 1].AddPhotometry?
         && p[Instrument] == Text(lg.inst[row[0]]) && p[Band] == Text(lg.band[row[1]])
         && p[Time] == Text(env.astropyMjd(row[3]).value)
         && p[Magnitude] == Text(row[4]) && p[EMagnitude] == Text(row[6])
         && var ss := if bc != "" then SourceOf(env, entry, bc) else "";
            && (ss == "" ==> p[Source] == Text(source))
            && (ss != "" ==> p[Source] == Text(source + "," + ss))
  {
    var bc := lg.bib[row[0]];
    var ss := if bc != "" then SourceOf(env, entry, bc) else "";
    var pre := if bc != "" then [AddSource(entry, bc)] else [];
    var p := map[
      Instrument := Text(lg.inst[row[0]]), Band := Text(lg.band[row[1]]), Time := Text(env.astropyMjd(row[3]).value),
      Magnitude := Text(row[4]), EMagnitude := Text(row[6]),
      Source := Text(source + (if ss != "" then "," + ss else ""))];
    var r := PointRow(env, entry, source, lg, row);
    assert r == Next(pre + [AddPhotometry(entry, p)], lg);
    assert r.calls[|r.calls| - 1] == AddPhotometry(entry, p);
    if ss != "" {
      assert source + ("," + ss) == source + "," + ss;
    }
  }

  /** A point row using an instrument code the legend never defined raises, adding nothing. */
  lemma UnknownCode(env: Env, entry: string, source: string, lg: Legend, row: Row)
    requires |row| >= 4 && row[0] !in lg.bib
    ensures PointRow(env, entry, source, lg, row) == Fault([])
  {
  }

  /**
   * A legend line records the instrument text before `(` under its code,
   * and the bibcode of the last author it names, so that a later point row
   * with that code cites it.
   */
  lemma LegendLineSpec(env: Env, entry: string, source: string, lg: Legend, ri: nat, row: Row)
    requires 23 <= ri <= 38 && |row| > 0
    ensures var r := LegendRow(env, entry, source, lg, ri, row);
      && r.Next? && r.calls == []
      && r.state.inst == lg.inst[row[0] := LegendInstrument(LegendText(row))]
      && r.state.bib == lg.bib[row[0] := Matching(LegendText(row), LegendBibs)]
      && '(' !in r.state.inst[row[0]]
      && r.state.band == lg.band
      && (forall k :: 0 <= k < |LegendBibs| ==> !Contains(LegendText(row), LegendBibs[k].0))
         == (r.state.bib[row[0]] == "")
  {
    var text := LegendText(row);
    InstrumentNoParen(text);
    NoAuthorNoBibcode(text);
  }

  /** The instrument name holds no `(`. */
  lemma InstrumentNoParen(text: string)
    ensures '(' !in LegendInstrument(text)
  {
    StripInside(Split(text, '(')[0], '(');
  }

  /** A legend line gets an empty bibcode exactly when it names none of the authors. */
  lemma NoAuthorNoBibcode(text: string)
    ensures (Matching(text, LegendBibs) == "") == forall k :: 0 <= k < |LegendBibs| ==> !Contains(text, LegendBibs[k].0)
  {
    if forall k :: 0 <= k < |LegendBibs| ==> !Contains(text, LegendBibs[k].0) {
      MatchingNone(text, LegendBibs);
    } else {
      var k :| 0 <= k < |LegendBibs| && Contains(text, LegendBibs[k].0);
      MatchingSome(text, LegendBibs, k);
      var j :| 0 <= j < |LegendBibs| && Matching(text, LegendBibs) == LegendBibs[j].1;
      assert LegendBibs[j].1 != "";
    }
  }

  /** Stripping keeps only characters of the text. */
  lemma StripInside(s: string, c: char)
    requires c !in s
    ensures c !in Strip(s)
  {
    StripCharsSpec(s, Whitespace);
    var i: nat :| OccursAt(s, Strip(s), i);
  }

  /**
   * The row-index ranges: empty rows and rows outside the two legends and
   * the data emit nothing and leave the legend alone; the band legend only
   * records a band; data rows are point rows.
   */
  lemma RowRanges(env: Env, entry: string, source: string, lg: Legend, ri: nat, row: Row)
    ensures (|row| == 0 || ri < 23 || ri == 39 || ri == 44) ==> LegendRow(env, entry, source, lg, ri, row) == Next([], lg)
    ensures |row| >= 3 && 40 <= ri <= 43 ==>
              LegendRow(env, entry, source, lg, ri, row) == Next([], lg.(band := lg.band[row[0] := row[2]]))
    ensures |row| > 0 && ri >= 45 ==> LegendRow(env, entry, source, lg, ri, row) == PointRow(env, entry, source, lg, row)
  {
  }
}
