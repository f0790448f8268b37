/**
 * The catalog collaborator as the ingestion code sees it.  Its own merge
 * and de-duplication logic is outside this model, so the catalog is an
 * append-only log of the calls made to it (`Call`), and whatever it
 * answers (the canonical name of an entry, the alias of a registered
 * source) is a fixed function supplied in `Env`, next to the numeric
 * helpers the code imports.
 *
 * Every per-dataset loop has the same shape: rows are read in file order,
 * a header row may replace some captured state, other rows turn into
 * catalog calls, and a Python exception ends the whole ingestion with the
 * calls already made left in place.  `Streamed` states that fold, `Stream`
 * runs it with a loop.
 */
module Catalog {
  import opened Wrappers

  /** One tokenised line of a table. */
  type Row = seq<string>

  /** The photometry keys `add_photometry` receives. */
  datatype Key =
    | Time | UTime | Band | Magnitude | EMagnitude | EUpperMagnitude | ELowerMagnitude
    | Counts | ECounts | UpperLimit | Instrument | Telescope | Observatory
    | BandSet | System | Source | KCorrected

  /** A photometry value: text cell, Python boolean, or a Decimal the code computed. */
  datatype Val = Text(text: string) | Flag(flag: bool) | Number(number: real)

  type Photometry = map<Key, Val>

  datatype QuantityKind = Alias | ClaimedType | Redshift | Ra | Dec | DiscoverDate

  /** The arguments of one `add_quantity` call; `derivation` is its `kind=` option. */
  datatype Quantity = Quantity(
    kind: QuantityKind, value: string, source: string,
    eValue: Option<string>, derivation: Option<string>)

  /** One call into the catalog. */
  datatype Call =
    | NewEntry(name: string, bibcode: string)
    | AddEntry(name: string)
    | AddSource(entry: string, bibcode: string)
    | AddQuantity(entry: string, quantity: Quantity)
    | AddPhotometry(entry: string, photometry: Photometry)
    | JournalEntries

  /**
   * The helpers the code calls but does not define, as total functions.
   * `decimal` is `Decimal(text)` (and `float(text)`), None where it raises;
   * `astropyMjd` is the `astrotime(float(x) + 2450000., format='jd').mjd` text,
   * `astropyDate` the date string made from `astrotime(...).datetime`,
   * `isoDateTime` the `datetime.strptime(x, '%Y %b %d').isoformat()` text.
   */
  datatype Env = Env(
    isNumber: string -> bool,
    decimal: string -> Option<real>,
    log10: real -> real,
    jdToMjd: real -> real,
    canonical: string -> string,
    sourceAlias: (string, string) -> string,
    astropyMjd: string -> Option<string>,
    astropyDate: string -> Option<string>,
    isoDateTime: string -> Option<string>)

  /** `log10` is strictly increasing on the positive reals. */
  ghost predicate IncreasingLog10(env: Env)
  {
    forall x: real, y: real :: 0.0 < x < y ==> env.log10(x) < env.log10(y)
  }

  /** The name `add_entry` / `new_entry` answers. */
  function EntryName(env: Env, name: string): string
  {
    env.canonical(name)
  }

  /** The source alias `new_entry(name, bibcode)` or `add_source(bibcode)` answers for an entry. */
  function SourceOf(env: Env, entry: string, bibcode: string): string
  {
    env.sourceAlias(entry, bibcode)
  }

  /** `add_quantity(kind, value, source)` with no options. */
  function Plain(kind: QuantityKind, value: string, source: string): Quantity
  {
    Quantity(kind, value, source, None, None)
  }

  /** The opening calls `add_entry(name)`, `add_source(bibcode)`, `add_quantity(ALIAS, name)`. */
  function Register(env: Env, name: string, bibcode: string): seq<Call>
  {
    var entry := EntryName(env, name);
    [AddEntry(name), AddSource(entry, bibcode), AddQuantity(entry, Plain(Alias, entry, SourceOf(env, entry, bibcode)))]
  }

  /** `row[0][0] == '#'`; None where Python raises IndexError (empty row or empty first cell). */
  function IsComment(row: Row): (r: Option<bool>)
    ensures r == None <==> (|row| == 0 || |row[0]| == 0)
    ensures r == Some(true) <==> |row| > 0 && |row[0]| > 0 && row[0][0] == '#'
  {
    if |row| == 0 || |row[0]| == 0 then None else Some(row[0][0] == '#')
  }

  // ---------------------------------------------------------------------
  // Streaming over rows

  /** What one row does: calls made and the state carried on, or calls made before an exception. */
  datatype Step<S> = Next(calls: seq<Call>, state: S) | Fault(calls: seq<Call>)

  /** What a dataset (or the whole ingestion) does: all its calls, or the calls made before it raised. */
  datatype Outcome = Completed(calls: seq<Call>) | Aborted(calls: seq<Call>)

  /** The rows from index `i` on, folded from state `s` after the calls `log`. */
  function Streamed<S, R>(step: (S, nat, R) -> Step<S>, rows: seq<R>, i: nat, s: S, log: seq<Call>): Outcome
    requires i <= |rows|
    decreases |rows| - i
  {
    if i == |rows| then Completed(log)
    else
      match step(s, i, rows[i])
      case Fault(c) => Aborted(log + c)
      case Next(c, s') => Streamed(step, rows, i + 1, s', log + c)
  }

  /** `journal_entries()` after a loop that finished. */
  function Journaled(o: Outcome): (r: Outcome)
    ensures r.Completed? <==> o.Completed?
    ensures r.Completed? ==> r.calls == o.calls + [JournalEntries]
    ensures r.Aborted? ==> r == o
  {
    match o
    case Completed(c) => Completed(c + [JournalEntries])
    case Aborted(_) => o
  }

  /** A dataset is its opening calls, its rows, and a journal checkpoint if nothing raised. */
  function Dataset<S, R>(opening: seq<Call>, step: (S, nat, R) -> Step<S>, rows: seq<R>, init: S): Outcome
  {
    Journaled(Streamed(step, rows, 0, init, opening))
  }

  /** Runs `b` after `a` unless `a` raised. */
  function AndThen(a: Outcome, b: Outcome): (r: Outcome)
    ensures a.calls <= r.calls
    ensures r.Completed? <==> a.Completed? && b.Completed?
    ensures a.Completed? ==> r.calls == a.calls + b.calls
  {
    match a
    case Aborted(_) => a
    case Completed(c) =>
      match b
      case Completed(d) => Completed(c + d)
      case Aborted(d) => Aborted(c + d)
  }

  /** The streamed log only ever grows: each row appends to what came before. */
  lemma {:induction false} StreamedExtends<S, R>(step: (S, nat, R) -> Step<S>, rows: seq<R>, i: nat, s: S, log: seq<Call>)
    requires i <= |rows|
    ensures log <= Streamed(step, rows, i, s, log).calls
    decreases |rows| - i
  {
    if i < |rows| {
      match step(s, i, rows[i])
      case Fault(c) =>
      case Next(c, s') =>
        StreamedExtends(step, rows, i + 1, s', log + c);
    }
  }

  /** A row that neither calls nor changes the state is invisible to the fold. */
  lemma StreamedSkip<S, R>(step: (S, nat, R) -> Step<S>, rows: seq<R>, i: nat, s: S, log: seq<Call>)
    requires i < |rows|
    requires step(s, i, rows[i]) == Next([], s)
    ensures Streamed(step, rows, i, s, log) == Streamed(step, rows, i + 1, s, log)
  {
    assert log + [] == log;
  }

  /** A row that completes moves the fold one row on. */
  lemma StreamedNext<S, R>(step: (S, nat, R) -> Step<S>, rows: seq<R>, i: nat, s: S, log: seq<Call>, c: seq<Call>, s': S)
    requires i < |rows|
    requires step(s, i, rows[i]) == Next(c, s')
    ensures Streamed(step, rows, i, s, log) == Streamed(step, rows, i + 1, s', log + c)
  {
  }

  /** A row that raises ends the fold with the calls made so far. */
  lemma StreamedFault<S, R>(step: (S, nat, R) -> Step<S>, rows: seq<R>, i: nat, s: S, log: seq<Call>, c: seq<Call>)
    requires i < |rows|
    requires step(s, i, rows[i]) == Fault(c)
    ensures Streamed(step, rows, i, s, log) == Aborted(log + c)
  {
  }

  /**
   * The state the rows leave behind, which the code carries into the next
   * table (the `bands` variable outlives its loop); meaningless after a fault.
   */
  function FinalState<S, R>(step: (S, nat, R) -> Step<S>, rows: seq<R>, i: nat, s: S): S
    requires i <= |rows|
    decreases |rows| - i
  {
    if i == |rows| then s
    else
      match step(s, i, rows[i])
      case Fault(_) => s
      case Next(_, s') => FinalState(step, rows, i + 1, s')
  }

  /** The loop every dataset runs: reads rows in order, threading the captured state. */
  method Stream<S, R>(step: (S, nat, R) -> Step<S>, rows: seq<R>, init: S, opening: seq<Call>)
    returns (out: Outcome, final: S)
    ensures out == Streamed(step, rows, 0, init, opening)
    ensures final == FinalState(step, rows, 0, init)
  {
    var i: nat := 0;
    var state := init;
    var log := opening;
    while i < |rows|
      invariant i <= |rows|
      invariant Streamed(step, rows, 0, init, opening) == Streamed(step, rows, i, state, log)
      invariant FinalState(step, rows, 0, init) == FinalState(step, rows, i, state)
      decreases |rows| - i
    {
      match step(state, i, rows[i])
      case Fault(c) =>
        return Aborted(log + c), state;
      case Next(c, s') =>
        log := log + c;
        state := s';
        i := i + 1;
    }
    out := Completed(log);
    final := state;
  }

  // ---------------------------------------------------------------------
  // Emitting one call per kept cell

  /** The calls of an inner loop, and whether it finished without an exception. */
  datatype Emitted = Emitted(calls: seq<Call>, ok: bool)

  /**
   * `for i in range(k, n): if not keep(i): continue; <call emit(i)>` where
   * `emit(i)` is None when building the call raises.
   */
  function EmitCells(keep: nat -> bool, emit: nat -> Option<Call>, k: nat, n: nat): Emitted
    decreases n - k
  {
    if k >= n then Emitted([], true)
    else if !keep(k) then EmitCells(keep, emit, k + 1, n)
    else
      match emit(k)
      case None => Emitted([], false)
      case Some(c) =>
        var rest := EmitCells(keep, emit, k + 1, n);
        Emitted([c] + rest.calls, rest.ok)
  }

  /** The indices in [k, n) that `keep` selects, in increasing order. */
  function Kept(keep: nat -> bool, k: nat, n: nat): (r: seq<nat>)
    ensures forall j :: 0 <= j < |r| ==> k <= r[j] < n && keep(r[j])
    ensures forall j, j' :: 0 <= j < j' < |r| ==> r[j] < r[j']
    ensures forall i: nat :: k <= i < n && keep(i) ==> i in r
    decreases n - k
  {
    if k >= n then []
    else if keep(k) then [k] + Kept(keep, k + 1, n)
    else Kept(keep, k + 1, n)
  }

  /** When no kept cell raises, the loop emits exactly one call per kept index, in order. */
  lemma {:induction false} EmitAll(keep: nat -> bool, emit: nat -> Option<Call>, k: nat, n: nat)
    requires forall i: nat :: k <= i < n && keep(i) ==> emit(i).Some?
    ensures EmitCells(keep, emit, k, n).ok
    ensures |EmitCells(keep, emit, k, n).calls| == |Kept(keep, k, n)|
    ensures forall j :: 0 <= j < |Kept(keep, k, n)| ==>
      emit(Kept(keep, k, n)[j]) == Some(EmitCells(keep, emit, k, n).calls[j])
    decreases n - k
  {
    if k < n {
      EmitAll(keep, emit, k + 1, n);
    }
  }

  /** An inner loop that raised met a kept cell whose call could not be built. */
  lemma {:induction false} EmitRaised(keep: nat -> bool, emit: nat -> Option<Call>, k: nat, n: nat)
    requires !EmitCells(keep, emit, k, n).ok
    ensures exists i: nat :: k <= i < n && keep(i) && emit(i).None?
    decreases n - k
  {
    if keep(k) && emit(k).None? {
    } else {
      var rest := EmitCells(keep, emit, k + 1, n);
      assert !rest.ok;
      EmitRaised(keep, emit, k + 1, n);
    }
  }

  /** A finished inner loop built every kept cell's call. */
  lemma {:induction false} EmitOkAll(keep: nat -> bool, emit: nat -> Option<Call>, k: nat, n: nat, i: nat)
    requires EmitCells(keep, emit, k, n).ok
    requires k <= i < n && keep(i)
    ensures emit(i).Some?
    decreases n - k
  {
    if k < i {
      EmitOkAll(keep, emit, k + 1, n, i);
    }
  }

  /** At most one kept index per position. */
  lemma {:induction false} KeptLength(keep: nat -> bool, k: nat, n: nat)
    ensures |Kept(keep, k, n)| <= if k <= n then n - k else 0
    decreases n - k
  {
    if k < n {
      KeptLength(keep, k + 1, n);
    }
  }
}
