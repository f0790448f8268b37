/**
 * The cell micro-formats and name rules of tasks/ascii.py: `value±error`
 * cells, `mag(err)` cells with a `>` marker, `<mag` cells, Stromlo
 * (mag, e_upper, e_lower) triples, instrument/band tokens, the
 * counts-to-magnitude branch, and the normalisations applied to object
 * names and claimed types.
 */
module Cells {
  import opened Wrappers
  import opened PyStr
  import opened Catalog

  // ---------------------------------------------------------------------
  // `value±error` cells

  /** `x.split('±')[0].strip()`. */
  function PlusMinusMag(x: string): string
  {
    Strip(Split(x, '±')[0])
  }

  /** `x.split('±')[1].strip() if '±' in x else ''`. */
  function PlusMinusErr(x: string): string
  {
    if '±' in x then Strip(Split(x, '±')[1]) else ""
  }

  /** A cell without `±` is all magnitude and has an empty error. */
  lemma PlusMinusWithout(x: string)
    requires '±' !in x
    ensures PlusMinusMag(x) == Strip(x) && PlusMinusErr(x) == ""
  {
    SplitWithout(x, '±');
  }

  /**
   * With the first `±` at index i and the next one (or the end) at j, the
   * magnitude is the stripped text before i and the error the stripped text
   * between i and j.
   */
  lemma PlusMinusAt(x: string, i: nat, j: nat)
    requires i < j <= |x| && x[i] == '±' && '±' !in x[..i]
    requires '±' !in x[i + 1..j] && (j == |x| || x[j] == '±')
    ensures PlusMinusMag(x) == Strip(x[..i])
    ensures PlusMinusErr(x) == Strip(x[i + 1..j])
  {
    SplitPieces(x, '±', i);
    var t := x[i + 1..];
    if j == |x| {
      assert t == x[i + 1..j];
      SplitWithout(t, '±');
    } else {
      assert t[j - i - 1] == '±' && t[..j - i - 1] == x[i + 1..j];
      SplitPieces(t, '±', j - i - 1);
    }
  }

  // ---------------------------------------------------------------------
  // `mag(err)` cells

  /**
   * `re.sub(r'\([^)]*\)', '', s)`: removes every `(` that has a `)` after it,
   * through that `)`; what is left is a subsequence of the text holding no group.
   */
  function RemoveGroups(s: string): (r: string)
    ensures Subsequence(r, s)
    ensures forall c :: c in r ==> c in s
    ensures NoGroup(r)
    decreases |s|
  {
    if s == [] then []
    else if s[0] == '(' && ')' in s[1..] then
      var j := IndexOf(s[1..], ')').value;
      var r := RemoveGroups(s[j + 2..]);
      assert forall c :: c in s[j + 2..] ==> c in s;
      SubsequenceDrop(r, s, j + 2);
      r
    else
      var rest := RemoveGroups(s[1..]);
      var r := [s[0]] + rest;
      assert forall c :: c in s[1..] ==> c in s;
      assert forall j :: 0 < j < |r| ==> r[j] == rest[j - 1];
      assert r[1..] == rest;
      r
  }

  /** Text without parentheses before the rest passes through group removal unchanged. */
  lemma {:induction false} RemoveGroupsPlain(m: string, t: string)
    requires '(' !in m
    ensures RemoveGroups(m + t) == m + RemoveGroups(t)
    decreases |m|
  {
    if m != [] {
      assert (m + t)[0] == m[0];
      assert (m + t)[1..] == m[1..] + t;
      RemoveGroupsPlain(m[1..], t);
      assert m == [m[0]] + m[1..];
    } else {
      assert m + t == t;
    }
  }

  /** A leading group is removed whole, through its first `)`. */
  lemma RemoveGroupsOpen(g: string, t: string)
    requires ')' !in g
    ensures RemoveGroups("(" + g + ")" + t) == RemoveGroups(t)
  {
    var x := "(" + g + ")" + t;
    var y := g + [')'] + t;
    assert x[0] == '(' && x[1..] == y;
    IndexOfJoin(g, ')', t);
    assert y[|g|] == ')';
    assert x[|g| + 2..] == t;
  }

  /** A group after a `(`-free prefix is removed whole; the prefix stays and the rest is scanned on. */
  lemma RemoveGroupsSkip(p: string, g: string, t: string)
    requires '(' !in p && ')' !in g
    ensures RemoveGroups(p + "(" + g + ")" + t) == p + RemoveGroups(t)
  {
    var x := "(" + g + ")" + t;
    assert p + "(" + g + ")" + t == p + x;
    RemoveGroupsPlain(p, x);
    RemoveGroupsOpen(g, t);
  }

  /** The magnitude: groups removed, then every `>` removed. */
  function ParenMag(x: string): string
  {
    Replace(RemoveGroups(x), ">", "")
  }

  /** The upper-limit marker: a `>` survives group removal. */
  predicate ParenUpper(x: string)
  {
    '>' in RemoveGroups(x)
  }

  /** `x[x.find('(') + 1:x.find(')')] if '(' in x else ''`. */
  function ParenErr(x: string): string
  {
    if '(' in x then Slice(x, Find(x, '(') + 1, Find(x, ')')) else ""
  }

  /** No `(` is followed, anywhere later, by a `)`: the text holds no group. */
  predicate NoGroup(s: string)
  {
    forall i, j :: 0 <= i < j < |s| && s[i] == '(' ==> s[j] != ')'
  }

  /** Deleting a character never creates a group. */
  lemma {:induction false} NoGroupDelete(s: string, c: char)
    requires NoGroup(s)
    ensures NoGroup(Replace(s, [c], []))
    decreases |s|
  {
    if s != [] {
      var t := s[1..];
      assert NoGroup(t) by {
        forall i, j | 0 <= i < j < |t| && t[i] == '('
          ensures t[j] != ')'
        {
          assert s[i + 1] == '(' && s[j + 1] == t[j];
        }
      }
      NoGroupDelete(t, c);
      var r := Replace(t, [c], []);
      assert s[..1] == [s[0]];
      if s[0] != c {
        if s[0] == '(' {
          assert ')' !in t by {
            forall j | 0 <= j < |t| ensures t[j] != ')' { assert s[j + 1] == t[j]; }
          }
          ReplaceCharDeletes(t, c);
          assert ')' !in multiset(t);
          assert ')' !in r by { assert ')' !in multiset(r); }
        }
        var out := [s[0]] + r;
        forall i, j | 0 <= i < j < |out| && out[i] == '('
          ensures out[j] != ')'
        {
          assert out[j] == r[j - 1];
          if i > 0 {
            assert out[i] == r[i - 1];
          } else {
            assert r[j - 1] in r;
          }
        }
      }
    }
  }

  /** The magnitude keeps no `>` and no group; the marker needs a `>` in the cell. */
  lemma ParenMagClean(x: string)
    ensures '>' !in ParenMag(x)
    ensures NoGroup(ParenMag(x))
    ensures ParenUpper(x) ==> '>' in x
  {
    var g := RemoveGroups(x);
    ReplaceCharDeletes(g, '>');
    NoGroupDelete(g, '>');
  }

  /** A single group `(e)` is removed entirely. */
  lemma RemoveOneGroup(e: string)
    requires ')' !in e
    ensures RemoveGroups("(" + e + ")") == []
  {
    var g := "(" + e + ")";
    assert g[1..] == e + [')'];
    IndexOfJoin(e, ')', []);
    assert e + [')'] + [] == g[1..];
    assert g[|e| + 2..] == [];
  }

  /** Where the first `(` and the first `)` of a well-formed `m(e)` cell are. */
  lemma ParenPositions(m: string, e: string, x: string)
    requires '(' !in m && ')' !in m && ')' !in e
    requires x == m + "(" + e + ")"
    ensures Find(x, '(') == |m|
    ensures Find(x, ')') == |m| + 1 + |e|
  {
    IndexOfJoin(m, '(', e + ")");
    assert x == m + ['('] + (e + ")");
    var me := m + "(" + e;
    assert ')' !in me by {
      assert me == m + ['('] + e;
    }
    IndexOfJoin(me, ')', []);
    assert x == me + [')'] + [];
  }

  /** A well-formed `m(e)` cell gives back `m` (without `>`) as magnitude and `e` as error. */
  lemma ParenRoundTrip(m: string, e: string)
    requires '(' !in m && ')' !in m && ')' !in e
    ensures ParenMag(m + "(" + e + ")") == ParenMag(m)
    ensures ParenErr(m + "(" + e + ")") == e
    ensures ParenUpper(m + "(" + e + ")") <==> '>' in m
  {
    var x := m + "(" + e + ")";
    var g := "(" + e + ")";
    assert x == m + g;
    RemoveOneGroup(e);
    RemoveGroupsPlain(m, g);
    RemoveGroupsPlain(m, []);
    assert m + [] == m;
    assert RemoveGroups(x) == RemoveGroups(m);
    ParenPositions(m, e, x);
    assert '(' in x by { assert x[|m|] == '('; }
    assert ParenErr(x) == Slice(x, |m| + 1, |m| + 1 + |e|);
    assert x[|m| + 1..|m| + 1 + |e|] == e;
  }

  // ---------------------------------------------------------------------
  // `<mag` cells

  /** `'<' in mag`. */
  predicate LessUpper(x: string)
  {
    '<' in x
  }

  /** `mag.replace('<', '')`. */
  function LessMag(x: string): string
  {
    Replace(x, "<", "")
  }

  // ---------------------------------------------------------------------
  // Stromlo (mag, e_upper, e_lower) triples

  const StromloBands: seq<string> := ["B", "V", "R", "I", "VM", "RM"]

  function Abs(x: real): (r: real)
    ensures r >= 0.0 && (r == x || r == -x)
  {
    if x < 0.0 then -x else x
  }

  /** `str(abs(Decimal(e))) if e else ''`; None where Decimal raises. */
  function StromloError(env: Env, e: string): Option<Val>
  {
    if e == "" then Some(Text(""))
    else
      match env.decimal(e)
      case None => None
      case Some(v) => Some(Number(Abs(v)))
  }

  /**
   * The record of triple `ri` of a Stromlo row whose magnitude cell is non-empty;
   * None where `stromlobands[ri]` or a Decimal conversion raises.
   */
  function StromloTriple(env: Env, ri: nat, mag: string, eUpper: string, eLower: string,
                         mjd: real, source: string): Option<Photometry>
  {
    if ri >= |StromloBands| then None
    else
      var band := StromloBands[ri];
      var macho := band == "VM" || band == "RM";
      match (StromloError(env, eUpper), StromloError(env, eLower))
      case (Some(u), Some(l)) =>
        Some(map[Time := Number(mjd), UTime := Text("MJD"), Band := Text(band),
                 Magnitude := Text(mag), EUpperMagnitude := u, ELowerMagnitude := l,
                 UpperLimit := Flag(eUpper == "" && eLower != ""),
                 Telescope := Text(if macho then "MSSSO 1.3m" else "CTIO"),
                 Instrument := Text(if macho then "MaCHO" else ""),
                 Source := Text(source)])
      case _ => None
  }

  /**
   * A triple is an upper limit exactly when its upper error is empty and its
   * lower error is not; non-empty errors are stored as absolute values; the
   * MACHO bands carry the Mount Stromlo telescope and instrument, the others CTIO.
   */
  lemma StromloTripleSpec(env: Env, ri: nat, mag: string, eUpper: string, eLower: string,
                          mjd: real, source: string)
    requires ri < 6
    requires eUpper != "" ==> env.decimal(eUpper).Some?
    requires eLower != "" ==> env.decimal(eLower).Some?
    ensures var p := StromloTriple(env, ri, mag, eUpper, eLower, mjd, source);
      && p.Some?
      && p.value[Band] == Text(StromloBands[ri])
      && p.value[Magnitude] == Text(mag)
      && (p.value[UpperLimit] == Flag(true) <==> eUpper == "" && eLower != "")
      && (eUpper == "" ==> p.value[EUpperMagnitude] == Text(""))
      && (eUpper != "" ==> p.value[EUpperMagnitude] == Number(Abs(env.decimal(eUpper).value)))
      && (eLower == "" ==> p.value[ELowerMagnitude] == Text(""))
      && (eLower != "" ==> p.value[ELowerMagnitude] == Number(Abs(env.decimal(eLower).value)))
      && p.value[Time] == Number(mjd) && p.value[UTime] == Text("MJD")
      && p.value[Source] == Text(source)
      && p.value[Instrument] == Text(if ri >= 4 then "MaCHO" else "")
      && p.value[Telescope] == Text(if ri >= 4 then "MSSSO 1.3m" else "CTIO")
      && (ri >= 4 <==> p.value[Telescope] == Text("MSSSO 1.3m"))
      && (ri >= 4 <==> p.value[Instrument] == Text("MaCHO"))
      && (ri < 4 <==> p.value[Telescope] == Text("CTIO"))
  {
  }

  /** A Stromlo row with n cells holds the triples starting at columns 2, 5, 8, … below n. */
  function TripleCount(n: nat): (k: nat)
    ensures forall ri: nat :: ri < k <==> 2 + 3 * ri < n
  {
    if n <= 2 then 0 else (n - 2 + 2) / 3
  }

  // ---------------------------------------------------------------------
  // Instrument and band tokens

  /** `row[1][:-off]` and `row[1][-off:]`, with `off` 2 for `LSQ…` tokens and 1 otherwise. */
  function InstrumentBand(token: string): (string, string)
  {
    var off := if StartsWith(token, "LSQ") then 2 else 1;
    (Slice(token, 0, -off), Slice(token, -off, |token|))
  }

  /** Instrument and band put back together are the token; the band is its last 2 (LSQ) or last 1 characters. */
  lemma InstrumentBandSplit(token: string)
    ensures InstrumentBand(token).0 + InstrumentBand(token).1 == token
    ensures StartsWith(token, "LSQ") ==> InstrumentBand(token).1 == token[|token| - 2..]
    ensures !StartsWith(token, "LSQ") && token != [] ==> InstrumentBand(token).1 == [token[|token| - 1]]
    ensures token == [] ==> InstrumentBand(token) == ([], [])
  {
    var off: nat := if StartsWith(token, "LSQ") then 2 else 1;
    SliceFromEnd(token, off);
  }

  // ---------------------------------------------------------------------
  // Counts to magnitude

  /**
   * The photometry of a counts row (token, time, counts, e_counts, zero point):
   * trailing `0`s are stripped from the three numbers; if the error exceeds the
   * counts the record is a 3-sigma upper limit, otherwise a detection with
   * asymmetric errors.  None where a conversion raises.
   */
  function CountsPhotometry(env: Env, token: string, time: string, countsCell: string,
                            eCountsCell: string, zpCell: string, source: string): Option<Photometry>
  {
    var counts := RStrip(countsCell, {'0'});
    var eCounts := RStrip(eCountsCell, {'0'});
    var zpText := RStrip(zpCell, {'0'});
    var (instrument, band) := InstrumentBand(token);
    var base := map[Instrument := Text(instrument), Band := Text(band), Time := Text(time),
                    Counts := Text(counts), ECounts := Text(eCounts), Source := Text(source)];
    match (env.decimal(counts), env.decimal(eCounts), env.decimal(zpText))
    case (Some(c), Some(e), Some(zp)) =>
      if e > c then
        Some(base[UpperLimit := Flag(true)][Magnitude := Number(zp - 2.5 * env.log10(3.0 * e))])
      else
        Some(base[Magnitude := Number(zp - 2.5 * env.log10(c))]
                 [EUpperMagnitude := Number(2.5 * (env.log10(c + e) - env.log10(c)))]
                 [ELowerMagnitude := Number(2.5 * (env.log10(c) - env.log10(c - e)))])
    case _ => None
  }

  /** The numbers of a counts row after trailing zeros are stripped. */
  function CountsValues(env: Env, countsCell: string, eCountsCell: string, zpCell: string): Option<(real, real, real)>
  {
    match (env.decimal(RStrip(countsCell, {'0'})), env.decimal(RStrip(eCountsCell, {'0'})),
           env.decimal(RStrip(zpCell, {'0'})))
    case (Some(c), Some(e), Some(zp)) => Some((c, e, zp))
    case _ => None
  }

  /**
   * Error above counts: an upper limit at the zero point less 2.5 log10 of
   * three sigma, with no magnitude errors.
   */
  lemma CountsUpperLimit(env: Env, token: string, time: string, countsCell: string,
                         eCountsCell: string, zpCell: string, source: string)
    requires CountsValues(env, countsCell, eCountsCell, zpCell).Some?
    requires CountsValues(env, countsCell, eCountsCell, zpCell).value.1 > CountsValues(env, countsCell, eCountsCell, zpCell).value.0
    ensures var (c, e, zp) := CountsValues(env, countsCell, eCountsCell, zpCell).value;
      var p := CountsPhotometry(env, token, time, countsCell, eCountsCell, zpCell, source);
      && p.Some?
      && p.value[UpperLimit] == Flag(true)
      && p.value[Magnitude] == Number(zp - 2.5 * env.log10(3.0 * e))
      && EUpperMagnitude !in p.value && ELowerMagnitude !in p.value
      && p.value[Counts] == Text(RStrip(countsCell, {'0'}))
      && p.value[Band] == Text(InstrumentBand(token).1)
  {
  }

  /**
   * Error not above counts: no upper-limit flag, the magnitude from the
   * counts and both asymmetric errors.
   */
  lemma CountsDetection(env: Env, token: string, time: string, countsCell: string,
                        eCountsCell: string, zpCell: string, source: string)
    requires CountsValues(env, countsCell, eCountsCell, zpCell).Some?
    requires CountsValues(env, countsCell, eCountsCell, zpCell).value.1 <= CountsValues(env, countsCell, eCountsCell, zpCell).value.0
    ensures var (c, e, zp) := CountsValues(env, countsCell, eCountsCell, zpCell).value;
      var p := CountsPhotometry(env, token, time, countsCell, eCountsCell, zpCell, source);
      && p.Some?
      && UpperLimit !in p.value
      && p.value[Magnitude] == Number(zp - 2.5 * env.log10(c))
      && p.value[EUpperMagnitude] == Number(2.5 * (env.log10(c + e) - env.log10(c)))
      && p.value[ELowerMagnitude] == Number(2.5 * (env.log10(c) - env.log10(c - e)))
      && p.value[Counts] == Text(RStrip(countsCell, {'0'}))
      && p.value[Band] == Text(InstrumentBand(token).1)
  {
    var (c, e, zp) := CountsValues(env, countsCell, eCountsCell, zpCell).value;
    var (instrument, band) := InstrumentBand(token);
    var base := map[Instrument := Text(instrument), Band := Text(band), Time := Text(time),
                    Counts := Text(RStrip(countsCell, {'0'})), ECounts := Text(RStrip(eCountsCell, {'0'})),
                    Source := Text(source)];
    var up := 2.5 * (env.log10(c + e) - env.log10(c));
    var low := 2.5 * (env.log10(c) - env.log10(c - e));
    var q := base[Magnitude := Number(zp - 2.5 * env.log10(c))][EUpperMagnitude := Number(up)][ELowerMagnitude := Number(low)];
    assert CountsPhotometry(env, token, time, countsCell, eCountsCell, zpCell, source) == Some(q);
  }

  /** With an increasing log10 and 0 < sigma < counts, both magnitude errors of a detection are positive. */
  lemma CountsErrorsPositive(env: Env, token: string, time: string, countsCell: string,
                             eCountsCell: string, zpCell: string, source: string)
    requires IncreasingLog10(env)
    requires CountsValues(env, countsCell, eCountsCell, zpCell).Some?
    requires 0.0 < CountsValues(env, countsCell, eCountsCell, zpCell).value.1 < CountsValues(env, countsCell, eCountsCell, zpCell).value.0
    ensures var p := CountsPhotometry(env, token, time, countsCell, eCountsCell, zpCell, source);
      && p.Some? && EUpperMagnitude in p.value && ELowerMagnitude in p.value
      && p.value[EUpperMagnitude].Number? && p.value[EUpperMagnitude].number > 0.0
      && p.value[ELowerMagnitude].Number? && p.value[ELowerMagnitude].number > 0.0
  {
    var (c, e, zp) := CountsValues(env, countsCell, eCountsCell, zpCell).value;
    CountsDetection(env, token, time, countsCell, eCountsCell, zpCell, source);
    assert env.log10(c) < env.log10(c + e);
    assert env.log10(c - e) < env.log10(c);
  }

  /** Readable counts always give a record; it is an upper limit exactly when the error exceeds the counts. */
  lemma CountsBranch(env: Env, token: string, time: string, countsCell: string,
                     eCountsCell: string, zpCell: string, source: string)
    requires CountsValues(env, countsCell, eCountsCell, zpCell).Some?
    ensures var (c, e, zp) := CountsValues(env, countsCell, eCountsCell, zpCell).value;
      var p := CountsPhotometry(env, token, time, countsCell, eCountsCell, zpCell, source);
      && p.Some?
      && (UpperLimit in p.value <==> e > c)
      && p.value[Counts] == Text(RStrip(countsCell, {'0'}))
      && p.value[Band] == Text(InstrumentBand(token).1)
  {
    var (c, e, zp) := CountsValues(env, countsCell, eCountsCell, zpCell).value;
    if e > c {
      CountsUpperLimit(env, token, time, countsCell, eCountsCell, zpCell, source);
    } else {
      CountsDetection(env, token, time, countsCell, eCountsCell, zpCell, source);
    }
  }

  /** Trailing-zero stripping also hits integer literals: a counts cell "100" is read as "1". */
  lemma StripZerosInteger()
    ensures RStrip("100", {'0'}) == "1"
    ensures RStrip("123.4500", {'0'}) == "123.45"
  {
    assert RStrip("1", {'0'}) == "1";
    assert RStrip("123.45", {'0'}) == "123.45";
  }

  // ---------------------------------------------------------------------
  // Names and claimed types

  /** What the Anderson 2014 file-name rule decides. */
  datatype FileName = NotSupernova | Named(name: string) | BadYear

  /**
   * A basename whose first two characters are not numeric is skipped;
   * `0210_V.dat` is SN0210; otherwise the text before the first `_` gets
   * `SN20` when its two-digit year is below 50 and `SN19` otherwise
   * (BadYear where `int()` raises).
   */
  function AndersonName(env: Env, basename: string): FileName
  {
    var year := Slice(basename, 0, 2);
    if !env.isNumber(year) then NotSupernova
    else if basename == "0210_V.dat" then Named("SN0210")
    else
      match ParseInt(year)
      case None => BadYear
      case Some(n) => Named((if n < 50 then "SN20" else "SN19") + Split(basename, '_')[0])
  }

  /** Two leading digits give the century by the below-50 rule, prefixed to the text before the first `_`. */
  lemma AndersonNameSpec(env: Env, basename: string, i: nat)
    requires |basename| >= 2 && IsDigit(basename[0]) && IsDigit(basename[1])
    requires env.isNumber(basename[..2]) && basename != "0210_V.dat"
    requires i <= |basename| && '_' !in basename[..i] && (i == |basename| || basename[i] == '_')
    ensures var yy := (basename[0] as int - '0' as int) * 10 + (basename[1] as int - '0' as int);
      AndersonName(env, basename) == Named((if yy < 50 then "SN20" else "SN19") + basename[..i])
  {
    assert Slice(basename, 0, 2) == basename[..2];
    ParseTwoDigits(basename[..2]);
    if i == |basename| {
      assert basename[..i] == basename;
      SplitWithout(basename, '_');
    } else {
      SplitPieces(basename, '_', i);
    }
  }

  /** The file `0210_V.dat` is named SN0210 whenever its first two characters count as a number. */
  lemma AndersonName0210(env: Env)
    requires env.isNumber("02")
    ensures AndersonName(env, "0210_V.dat") == Named("SN0210")
  {
    assert Slice("0210_V.dat", 0, 2) == "02";
  }

  /** A name whose first four characters are numeric is prefixed with `SN`. */
  function SnPrefixed(env: Env, name: string): string
  {
    if env.isNumber(Slice(name, 0, 4)) then "SN" + name else name
  }

  /** `namesplit = cell.split('/')`: the name is the last piece, blanks removed when it starts with `SN`. */
  function SlashName(cell: string): string
  {
    var raw := Split(cell, '/')[|Split(cell, '/')| - 1];
    if StartsWith(raw, "SN") then Replace(raw, " ", "") else raw
  }

  /** The extra alias: the first piece when there is more than one. */
  function SlashAlias(cell: string): Option<string>
  {
    var parts := Split(cell, '/');
    if |parts| > 1 then Some(parts[0]) else None
  }

  /** The name has no `/`, and no blank when it starts with `SN`. */
  lemma SlashNameClean(cell: string)
    ensures '/' !in SlashName(cell)
    ensures var raw := Split(cell, '/')[|Split(cell, '/')| - 1];
      StartsWith(raw, "SN") ==> ' ' !in SlashName(cell)
  {
    var parts := Split(cell, '/');
    var raw := parts[|parts| - 1];
    assert '/' !in raw;
    if StartsWith(raw, "SN") {
      var name := Replace(raw, " ", "");
      assert SlashName(cell) == name;
      ReplaceCharDeletes(raw, ' ');
      assert '/' !in multiset(raw);
      assert '/' !in multiset(name);
    } else {
      assert SlashName(cell) == raw;
    }
  }

  /** `a/b` gives the name from `b` and the alias `a`; a cell without `/` gives no alias. */
  lemma SlashNameSplit(cell: string, a: string, b: string)
    ensures '/' !in cell ==>
      SlashAlias(cell) == None && SlashName(cell) == (if StartsWith(cell, "SN") then Replace(cell, " ", "") else cell)
    ensures cell == a + "/" + b && '/' !in a && '/' !in b ==>
      SlashAlias(cell) == Some(a) && SlashName(cell) == (if StartsWith(b, "SN") then Replace(b, " ", "") else b)
  {
    if '/' !in cell {
      SplitWithout(cell, '/');
    }
    if cell == a + "/" + b && '/' !in a && '/' !in b {
      assert Join([a, b], "/") == cell;
      SplitJoin([a, b], '/');
    }
  }

  /** `x.replace('SN', '').strip(':* ')`. */
  function ClaimedTypeTrim(x: string): string
  {
    StripChars(Replace(x, "SN", ""), {':', '*', ' '})
  }

  /**
   * `replace('SN', '')` scans once from the left: a leading `SN` is
   * dropped, and a text in which `SN` does not occur is only trimmed.
   */
  lemma ClaimedTypeDropsSN(t: string)
    requires !Contains(t, "SN")
    ensures ClaimedTypeTrim("SN" + t) == StripChars(t, {':', '*', ' '})
    ensures ClaimedTypeTrim(t) == StripChars(t, {':', '*', ' '})
  {
    ReplaceLeading("SN", t, "");
    ReplaceNoOccurrence(t, "SN", "");
    assert "" + t == t;
  }

  /** The trimmed claimed type neither starts nor ends with `:`, `*` or a blank. */
  lemma ClaimedTypeTrimEnds(x: string)
    ensures var t := ClaimedTypeTrim(x);
      t == [] || (t[0] !in {':', '*', ' '} && t[|t| - 1] !in {':', '*', ' '})
  {
    StripCharsSpec(Replace(x, "SN", ""), {':', '*', ' '});
  }
}
