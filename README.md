# do_ascii: ASCII-table ingestion for the supernova catalog

`do_ascii` in `tasks/ascii.py` reads about twenty tables taken from published
papers. Most are LaTeX tables turned into text, a few are journal
supplementary files. Every row goes into the catalog as entries,
sources, quantities (aliases, claimed types, redshifts, coordinates,
discovery dates) and photometry records.

This project models in Dafny what `do_ascii` does with a table that has
already been split into cells: the per-row and per-cell transforms, and
the loops that carry header state from row to row.

The catalog belongs to a library whose code is not part of this model.
It is therefore modelled as an append-only log of the calls made to it:
`new_entry`, `add_entry`, `add_source`, `add_quantity`, `add_photometry`
and `journal_entries`. The names and source aliases those calls return
are answers of fixed functions.

Python can raise in the middle of a table: a missing cell, a missing
dictionary key, an unset variable, an unparsable number. The model
captures this as a run that stops; the calls already made stay in the
log.

## Layout

- `wrappers.dfy`: `Option`.
- `pystr.dfy`: Python string semantics used by the code:
  - slicing with negative and clamped bounds;
  - `find`, `in`, `split(c)`, `split()`, `join`;
  - `strip`, `lstrip`, `rstrip` with character sets;
  - `replace` and `int()`.
- `catalog.dfy`:
  - the call log and the photometry record keys;
  - the `Env` of foreign helpers;
  - the generic row fold: the `Streamed` function and the `Stream` method, its loop;
  - the inner loop "emit one call per kept cell": `EmitCells` and `Kept`.
- `cells.dfy`: the cell micro-formats and name rules:
  - `value±error` cells;
  - `mag(err)` cells with a `>` marker, and `<mag` cells;
  - Stromlo triples;
  - the `LSQ` instrument/band split and the counts-to-magnitude branch;
  - Anderson file names, `SN` prefixing, `alias/name` cells and claimed-type trimming.
- `headers.dfy`: the tables whose `#` row sets the band list (2015ApJ...799...51M, 2016MNRAS.459.1039T, 2012MNRAS.425.1007B, 2009MNRAS.398.1041B, 2010arXiv1007.0011P, 2000ApJ...533..320G).
- `rows.dfy`: the tables read one row at a time.
- `legend.dfy`: the SN 2003dh table (2004ApJ...606..381L). It has an instrument legend and a band legend, read into three dictionaries.
- `anderson.dfy`: the per-object files of 2014ApJ...786...67A.
- `ascii.dfy`: `DoAscii`, all tables in source order.

How the model maps the source:

- **Foreign helpers.** `is_number`, `Decimal(...)`, `log10`, `jd_to_mjd`, the astropy Julian-date conversions and `datetime.strptime(...).isoformat()` are fields of `Env`. The model uses them as given functions. Where Python would raise, they return `None`. The one property assumed of `log10` is that it strictly increases on positive numbers (`IncreasingLog10`). Only the lemma that needs it requires it.
- **Header state.** `bands` is a single variable of `do_ascii` that outlives each loop. `AsciiRun` therefore starts each header-driven table from the bands the previous one left. `FinalState` computes that state, and `Stream` returns it.

**Trailing zeros.** Before any number is read, the code strips trailing `0` characters from the counts, error and zero-point cells of 2015MNRAS.446.3895F (`tasks/ascii.py` lines 77-78 and 91). A counts cell `100` is therefore read as `1`. `Cells.StripZerosInteger` states this.

## Model

| member | source | states |
|---|---|---|
| PyStr.RStrip | tasks/ascii.py:77-78 | `rstrip(cs)` returns a prefix of the text. Everything it removed is in `cs`, and what it keeps does not end in `cs`. |
| PyStr.LStrip | tasks/ascii.py:118 | Everything `lstrip(cs)` removed is in `cs`, and what it keeps does not start with `cs`. |
| PyStr.LStripSuffix | tasks/ascii.py:118 | What `lstrip(cs)` keeps is a suffix of the text. |
| PyStr.StripCharsSpec | tasks/ascii.py:526 | `strip(cs)` keeps a contiguous piece of the text whose two ends are not in `cs`. A text whose ends are already clean is unchanged. |
| PyStr.Split | tasks/ascii.py:451 | `split(c)` gives at least one piece. No piece contains `c`, joining the pieces with `c` gives back the text, and the text contains `c` exactly when there are at least two pieces. |
| PyStr.SplitJoin | tasks/ascii.py:285 | Splitting pieces that were joined with `c`, none containing `c`, gives back the pieces. |
| PyStr.SplitPieces | tasks/ascii.py:207 | With the first `c` at index i, the first piece is the text before i, and the second piece is the first piece of the rest. |
| PyStr.Words | tasks/ascii.py:42 | `split()` gives non-empty pieces with no whitespace in them. Their concatenation is the text with its whitespace removed, and there are no pieces exactly when the text is all whitespace. |
| PyStr.WordsOfJoin | tasks/ascii.py:42 | `split()` of whitespace-free words joined by blanks gives back the words. |
| PyStr.WordsRun | tasks/ascii.py:42 | Pieces break exactly at whitespace: after leading whitespace, a run of non-whitespace that ends at whitespace or at the end is one whole piece, and splitting goes on in what follows. |
| PyStr.ContainsAt | tasks/ascii.py:152 | `sub in s` holds exactly when `sub` occurs at some index of `s`. |
| PyStr.ReplaceCharDeletes | tasks/ascii.py:521 | `replace(c, '')` is the text filtered of `c`: the other characters in their order (`Removed`). No `c` is left, and every other character keeps its multiplicity. |
| PyStr.RemovedCounts | tasks/ascii.py:521 | Filtering out `c` leaves no `c` and keeps the count of every other character. |
| PyStr.ReplaceAbsent | tasks/ascii.py:359 | `replace(c, '')` on a text without `c` returns the text. |
| PyStr.ReplaceCharMaps | tasks/ascii.py:394 | `replace(c, d)` keeps the length and rewrites exactly the positions holding `c`. |
| PyStr.ReplaceNoOccurrence | tasks/ascii.py:526 | `replace(pat, rep)` on a text in which `pat` does not occur returns the text. |
| PyStr.ReplaceLeading | tasks/ascii.py:526 | A text that starts with `pat` has that occurrence replaced, and the scan goes on after it. |
| PyStr.ParseTwoDigits | tasks/ascii.py:206 | `int()` of two digits is their decimal value. |
| Catalog.Stream | tasks/ascii.py:35-50 | The row loop returns the fold of the step over the rows. It stops at the first row that raises, and also returns the header state the rows leave. |
| Catalog.StreamedExtends | tasks/ascii.py:35-50 | Calls already made are never undone: the log of a fold extends the log it started from. |
| Catalog.StreamedSkip | tasks/ascii.py:36-38 | A row that calls nothing and keeps the state (`continue`) does not change the outcome. |
| Catalog.StreamedNext | tasks/ascii.py:35-50 | A row that completes appends its calls and moves the loop on with its new state. |
| Catalog.StreamedFault | tasks/ascii.py:35-50 | A row that raises ends the loop with the calls made so far plus that row's own. |
| Catalog.AndThen | tasks/ascii.py:21-645 | A later table keeps the earlier log, and the run completes only if both parts do. |
| Catalog.Kept | tasks/ascii.py:39-41 | The kept column indices are in range, pass the test, increase, and include every column that passes. |
| Catalog.EmitAll | tasks/ascii.py:39-50 | When no kept cell raises, the inner loop finishes with one call per kept column, in order. |
| Catalog.EmitRaised | tasks/ascii.py:39-50 | An inner loop that raised met a kept cell whose call could not be built. |
| Catalog.EmitOkAll | tasks/ascii.py:39-50 | A finished inner loop means every kept cell produced its call. |
| Catalog.KeptLength | tasks/ascii.py:39-41 | There are no more kept columns than columns. |
| Cells.PlusMinusWithout | tasks/ascii.py:451-453 | A cell without `±` is all magnitude (stripped), and its error is empty. |
| Cells.PlusMinusAt | tasks/ascii.py:451-453 | With the first `±` at i and the next one (or the end) at j, the magnitude is the stripped text before i and the error the stripped text between i and j. |
| Cells.RemoveGroups | tasks/ascii.py:323 | Removing `(...)` groups gives a subsequence of the text: characters are only deleted, never reordered or added. No `(` with a `)` after it is left. |
| Cells.RemoveGroupsPlain | tasks/ascii.py:323 | Text without `(` passes through group removal unchanged. |
| Cells.RemoveGroupsOpen | tasks/ascii.py:323 | A leading `(`, the text up to the first `)`, and that `)` are removed together. |
| Cells.RemoveGroupsSkip | tasks/ascii.py:323 | In `p` + `(g)` + `t` with no `(` in `p` and no `)` in `g`, the prefix `p` stays, the group goes, and `t` is scanned on its own. |
| Cells.ParenMagClean | tasks/ascii.py:323-325 | The magnitude keeps no `>` and no group. The upper-limit marker needs a `>` in the cell. |
| Cells.ParenRoundTrip | tasks/ascii.py:323-327 | A cell `m(e)` gives back `m` without `>` as magnitude and `e` as error. It is an upper limit exactly when `m` holds `>`. |
| Cells.Abs | tasks/ascii.py:254-257 | `abs` is non-negative and equals the value or its negation. |
| Cells.StromloTripleSpec | tasks/ascii.py:252-270 | Triple ri gets band `stromlobands[ri]`, the row's magnitude, time as MJD and the table's source. It is an upper limit exactly when e_upper is empty and e_lower is not. Non-empty errors are stored as absolute values. VM/RM get telescope `MSSSO 1.3m` and instrument `MaCHO`; the other bands get telescope `CTIO` and an empty instrument. |
| Cells.TripleCount | tasks/ascii.py:249 | `range(2, len(row), 3)` visits triple ri exactly when column 2+3ri exists. |
| Cells.InstrumentBandSplit | tasks/ascii.py:79-85 | Instrument and band put back together are the token. The band is the last two characters for `LSQ` tokens and the last one otherwise. |
| Cells.CountsUpperLimit | tasks/ascii.py:77-97 | When the stripped error exceeds the stripped counts, the record is an upper limit at zp − 2.5·log10(3σ) with no magnitude errors. It keeps the stripped counts cell and the band of the token. |
| Cells.CountsDetection | tasks/ascii.py:98-106 | Otherwise the record has no upper-limit flag and magnitude zp − 2.5·log10(counts). Its e_upper is 2.5·(log10(counts+σ) − log10(counts)) and its e_lower 2.5·(log10(counts) − log10(counts−σ)). |
| Cells.CountsErrorsPositive | tasks/ascii.py:101-106 | With an increasing log10 and 0 < σ < counts, both magnitude errors of a detection are positive. |
| Cells.CountsBranch | tasks/ascii.py:77-106 | Readable counts, error and zero point always give a record. It is an upper limit exactly when the stripped error exceeds the stripped counts. |
| Cells.StripZerosInteger | tasks/ascii.py:77-78 | Stripping trailing zeros turns the counts cell `100` into `1`, and `123.4500` into `123.45`. |
| Cells.AndersonNameSpec | tasks/ascii.py:201-207 | Two leading digits give `SN20` below 50 and `SN19` otherwise, followed by the text before the first `_`. |
| Cells.AndersonName0210 | tasks/ascii.py:203-204 | The file `0210_V.dat` is named `SN0210`, not by the century rule. |
| Cells.SlashNameClean | tasks/ascii.py:285-288 | The name from an `alias/name` cell has no `/`, and no blank when it starts with `SN`. |
| Cells.SlashNameSplit | tasks/ascii.py:285-294 | `a/b` gives the alias `a` and the name from `b`. A cell without `/` gives no alias, and its name is the cell itself, with its blanks removed when it starts with `SN`. |
| Cells.ClaimedTypeTrimEnds | tasks/ascii.py:526 | After `replace('SN', '')`, the trimmed claimed type neither starts nor ends with `:`, `*` or a blank. |
| Cells.ClaimedTypeDropsSN | tasks/ascii.py:526 | When `SN` does not occur in `t`, both `SN` + `t` and `t` itself give `t` stripped of `:`, `*` and blanks. |
| HeaderTables.BandCellsSpec | tasks/ascii.py:463-477 | With bands for every kept column, a row emits exactly one record per kept cell, in column order. Each record is built from its own cell and its own column's band, and a cell is kept exactly when it passes the test. |
| HeaderTables.BandCellsOutOfBands | tasks/ascii.py:463-469 | A kept cell past the end of the band list, or before any header, makes the row raise. |
| HeaderTables.ApJ799HeaderRow | tasks/ascii.py:36-38 | A `#` row emits nothing and replaces the bands with the rest of the row. A row with an empty first cell raises before any call. |
| HeaderTables.ApJ799RowSpec | tasks/ascii.py:39-50 | Once a header has set the bands, a data row emits one KAIT record per non-`-` cell, in column order. Each record has band `bands[ci]`, time `row[0]`, and the cell's two words as magnitude and error. The row keeps the bands. |
| HeaderTables.MNRAS459RowSpec | tasks/ascii.py:318-339 | When every numeric cell has a band, a data row emits one record per cell of `row[3:-1]` whose group-free magnitude is numeric, in column order. Each record uses its own cell's magnitude, error and marker and its own band, with the instrument `row[-1]`. |
| HeaderTables.MNRAS425RowSpec | tasks/ascii.py:442-478 | When every numeric cell has a band, a data row registers its object (entry, source, alias), emits one record per cell whose `±` magnitude is numeric, then checkpoints the journal. |
| HeaderTables.MNRAS398InstrumentColumn | tasks/ascii.py:558-582 | The header's bands are `row[2:-1]` while the data cells are `row[2:]`, so a numeric last column makes the row raise. |
| HeaderTables.MNRAS398RowSpec | tasks/ascii.py:555-582 | When every numeric cell has a band, a data row creates SN2008S again and emits one record per cell of `row[2:]` whose `±` magnitude is numeric, in column order. Each record has its own cell's magnitude and error, its column's band, the row's time and the instrument `row[-1]`. |
| HeaderTables.MNRAS398RecordFields | tasks/ascii.py:574-581 | Such a record carries the band, magnitude, error, time, instrument and source it was built from. |
| HeaderTables.ArXiv10070011RowSpec | tasks/ascii.py:592-613 | When every numeric cell has a band, a data row creates SN2008S again, then emits one LBT record per numeric `±` magnitude, in column order. |
| HeaderTables.ApJ533LastBandDropped | tasks/ascii.py:625-643 | Cell `row[1+mi]` gets `bands[mi]`, but `row[1:len(bands)]` stops one short, so no record gets the header's last band. |
| RowTables.ApJ767RowSpec | tasks/ascii.py:60-64 | Each row creates its entry and claims type Ia-02cx for it. An empty row raises before any call. |
| RowTables.MNRAS446RowSpec | tasks/ascii.py:72-107 | A data row creates one entry and adds to it one record, the counts-to-magnitude record of its token, time, counts, error and zero-point cells. The record's instrument and band rejoin to `row[1]`, and it is an upper limit exactly when the stripped error exceeds the stripped counts. |
| RowTables.ArXiv150907124Spec | tasks/ascii.py:116-124 | A `#` row emits nothing and sets the type to its text without leading `#`. A later data row creates its entry from `row[0]`. It adds `row[1]` as an alias exactly when it has two cells, and always ends with that claimed type. |
| RowTables.ApJ645RowSpec | tasks/ascii.py:180-191 | A row registers `SNLS-`+name and adds a spectroscopic redshift to that entry. It then adds the discovery date to the same entry exactly when the date converts; otherwise it raises right after the redshift, with no further call. |
| RowTables.StromloCallSpec | tasks/ascii.py:252-270 | A readable triple among the six bands always yields its record. |
| RowTables.StromloEmitsAll | tasks/ascii.py:249-270 | For a row whose triples with a non-empty magnitude are among the six bands and readable, the inner loop over triples finishes, with one call per kept triple, after the row's registration. Triples with an empty magnitude may hold anything, and there may be any number of them. |
| RowTables.StromloKeptCells | tasks/ascii.py:250-251 | A triple is kept exactly when its magnitude cell is non-empty. |
| RowTables.StromloRowSpec | tasks/ascii.py:242-270 | A row whose triples with a non-empty magnitude are among the six bands and readable registers its object and emits one record per triple with a non-empty magnitude, in column order, and none for an empty one, whatever that triple's other cells hold. |
| RowTables.StromloRowRecords | tasks/ascii.py:249-270 | In such a row, the call after the registration at position k is the record of the k-th kept triple, built from that triple's own three cells and the row's time. |
| RowTables.MNRAS449RowSpec | tasks/ascii.py:283-294 | A row `a/b` registers the name from `b` and adds `a` as an alias; the name holds no `/`. A row without `/` registers the cell itself (blanks removed when it starts with `SN`) and makes one call fewer. |
| RowTables.MNRAS449RowData | tasks/ascii.py:295-302 | After the registration and the optional alias, a data row adds the claimed type `row[1]` and then its one record, both from the table's source. |
| RowTables.MNRAS449RecordFields | tasks/ascii.py:297-302 | That record has time `row[2]` in MJD, band `row[4]`, magnitude `row[3]` and the table's source. |
| RowTables.ApJ804RecordSpec | tasks/ascii.py:357-371 | The record is an upper limit exactly when the magnitude cell holds `<`. The magnitude is that cell filtered of `<`, keeping the other characters' counts, and is the cell itself when there was none. The error is `row[4]` when it is a number and empty otherwise. |
| RowTables.ApJ804RecordColumns | tasks/ascii.py:357-371 | The record's time is `row[1]` in MJD, its band `row[0]`, its instrument `row[5]`, and its source the table's. |
| RowTables.SlashDateSpec | tasks/ascii.py:393-394 | The date part before `T` keeps its length and has every `-` turned into `/`. |
| RowTables.ApJ819RowSpec | tasks/ascii.py:383-396 | A data row registers its object, then adds to its entry, from the table's source, RA `row[1]`, Dec `row[2]`, redshift `row[3]` and the `/`-separated discovery date, in that order. |
| RowTables.ApJ784RowSpec | tasks/ascii.py:408-430 | A data row registers its object and adds one record with the row's time, band, magnitude and error, telescope `WIYN 3.5 m` and system `WHIRC`. |
| RowTables.ApJ784RecordSite | tasks/ascii.py:419-430 | That record goes to the row's entry, in MJD, with instrument `WHIRC`, observatory `NOAO`, band set `Johnson-Cousins` and the table's source. |
| RowTables.ApJ783RowSpec | tasks/ascii.py:487-502 | A data row creates its entry, then adds to that entry, from the table's source and in this order: alias `row[1]`, discovery year `20` followed by characters 3-4 of the name, RA `row[2]`, Dec `row[3]` and the redshift. The redshift is `row[13]` with kind `spectroscopic` when `row[13]` is numeric, and `row[10]` with kind `photometric` otherwise. |
| RowTables.ApJ634RowSpec | tasks/ascii.py:519-527 | The host redshift is `row[5]` filtered of `?`, keeping the other characters' counts, with error `row[6]` and kind `host`. The claimed type is `row[7]` after `replace('SN', '')` and `strip(':* ')`, and its ends are clean. |
| RowTables.ApJ634RowOpening | tasks/ascii.py:512-518 | The row creates `SNLS-` + name, adds the discovery date `20` + the name's first two characters, then RA and Dec. |
| RowTables.MNRAS444RowSpec | tasks/ascii.py:537-545 | The entry is the first cell, with `SN` in front exactly when its first four characters are a number. |
| RowTables.MNRAS444RowQuantities | tasks/ascii.py:546-548 | After the entry come RA `row[1]`, Dec `row[2]` and the host redshift `row[3]`, in that order. |
| LegendTable.MatchingLast | tasks/ascii.py:150-153 | When author k is named in the text and no later listed author is, the bibcode is author k's. |
| LegendTable.MatchingNone | tasks/ascii.py:150-153 | A text naming none of the authors gets the empty bibcode. |
| LegendTable.MatchingSome | tasks/ascii.py:150-153 | A text naming some author gets the bibcode of one of the listed authors. |
| LegendTable.NoAuthorNoBibcode | tasks/ascii.py:150-154 | With the four listed authors, the bibcode is empty exactly when the line names none of them. |
| LegendTable.InstrumentNoParen | tasks/ascii.py:149 | The instrument text taken before the first `(` holds no `(`. |
| LegendTable.FindBibcode | tasks/ascii.py:150-153 | The loop over the author list finds the last match. |
| LegendTable.ReadPoint | tasks/ascii.py:157-171 | A data row's calls agree with the point-row function on the dictionaries as they stand. |
| LegendTable.ReadRow | tasks/ascii.py:145-173 | One pass of the loop body agrees with the row function, including the dictionary updates. |
| LegendTable.ReadApJ606 | tasks/ascii.py:133-174 | The loop over the three dictionaries equals the table's specification. |
| LegendTable.PointRowSpec | tasks/ascii.py:157-171 | A point row whose codes are all in the legend adds one record with magnitude `row[4]` and error `row[6]`. It is preceded by `add_source` when the legend had a bibcode. Its source is the table's, plus `,` and the secondary alias only when there is one. |
| LegendTable.UnknownCode | tasks/ascii.py:160 | A point row whose instrument code the legend never defined raises before any call. |
| LegendTable.LegendLineSpec | tasks/ascii.py:147-154 | A legend line emits nothing. Under its code, it sets the instrument to the text before `(` (which holds no `(`) and the bibcode to the last author match, and leaves every other code and the band dictionary as they were. The bibcode is empty exactly when no author is named. |
| LegendTable.StripInside | tasks/ascii.py:149 | Stripping adds no character. |
| LegendTable.RowRanges | tasks/ascii.py:144-173 | Empty rows and rows outside 23-38, 40-43 and ≥45 emit nothing and keep the legend. Rows 40-43 record only a band. Rows from 45 are point rows. |
| AndersonFiles.ReadAnderson | tasks/ascii.py:199-235 | The nested loops over files and rows equal the table's specification. |
| AndersonFiles.PointRowSpec | tasks/ascii.py:222-234 | A dated row adds one V-band record in MJD, with magnitude `row[1]`, error `row[2]` and the file's source. Its system is Swope exactly for the three Swope objects and Landolt otherwise. |
| AndersonFiles.SkippedFile | tasks/ascii.py:201-202 | A file whose name does not start with a number makes no call. |
| AndersonFiles.FileRegisters | tasks/ascii.py:208-234 | A named file's calls start with its registration. |
| Ascii.DoAscii | tasks/ascii.py:21-645 | The tables run in source order and the first raise stops the run. Each table is followed by one journal checkpoint, except 2013ApJ...767...57F, which has none, and 2012MNRAS.425.1007B, which checkpoints after every data row instead. |
| Ascii.RunStartsWithSN2012ap | tasks/ascii.py:33-34 | Every run starts by creating SN 2012ap from its paper. |
| Ascii.RunEndsWithCheckpoint | tasks/ascii.py:644 | A run that never raises ends with a journal checkpoint. |

## Left out

- Text is modelled as decoded characters (`seq<char>`), not as Python 2 byte strings. `'±'` is therefore one character here, where Python 2 splits on its two UTF-8 bytes; the pieces are the same.
- I/O is not modelled: opening files, `csv.reader` tokenisation, `glob`, `os.path` and the progress bars. The model starts from tokenised rows and from files given as (basename, rows) in the order the loop visits them; which order `pbar_strings` yields is not part of this model.
- The catalog's own behaviour is not modelled: merging, de-duplication and what `add_entry`, `new_entry` and `add_source` return. The returned names and aliases are fixed functions in `Env`, so an answer that depends on what the catalog already holds is not captured.
- `Decimal` arithmetic, binary floats and `str()` of numbers are not modelled: values are kept as mathematical reals. Quantities the code formats as text are stored as numbers.
- The Decimal behaviour of `log10` on non-positive values is not modelled, and neither are its digits.
- `is_number`, `jd_to_mjd`, the astropy date conversions and `strptime` are given functions, not models of those libraries.
- `Cells.CountsDetection`: does not state that e_upper differs from e_lower, because that needs the concavity of log10, which is not assumed.
- `LegendTable.FindBibcode`: walks the author dictionary in its written order. Under Python 2 that order is not defined, so which author wins on a line naming two is not settled by the code.
- `PyStr.ParseInt`: strips surrounding whitespace and accepts an optional sign followed by ASCII decimal digits. It does not cover non-ASCII digits, which `int()` accepts in a unicode string.
- `Cells.ParenErr`: a cell with `(` but no `)` makes `find(')')` return -1, so the error slice drops the last character. The model reproduces this through `Slice`; no lemma is stated about that case.
- `HeaderTables.MNRAS398Row`: the `upps` list of 2009MNRAS.398.1041B is computed but never used, so the model leaves it out.
