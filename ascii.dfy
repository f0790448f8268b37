/**
 * `do_ascii`: the tables read in the order the code lists them, each
 * followed by a journal checkpoint except where noted; an exception in any
 * table ends the whole run.
 */
module Ascii {
  import opened Wrappers
  import opened Catalog
  import opened HeaderTables
  import opened RowTables
  import opened LegendTable
  import opened AndersonFiles

  /** The rows of every input file, as the csv reader gives them. */
  datatype Tables = Tables(
    apj799: seq<Row>, apj767: seq<Row>, mnras446: seq<Row>, arxiv150907124: seq<Row>,
    apj606: seq<Row>, apj645: seq<Row>, anderson: seq<DataFile>, stromlo: seq<Row>,
    mnras449: seq<Row>, mnras459: seq<Row>, apj804: seq<Row>, apj819: seq<Row>,
    apj784: seq<Row>, mnras425: seq<Row>, apj783: seq<Row>, apj634: seq<Row>,
    mnras444: seq<Row>, mnras398: seq<Row>, arxiv10070011: seq<Row>, apj533: seq<Row>)

  /**
   * The calls of the whole task.  The band list `bands` is one variable
   * that outlives each header table's loop, so each such table starts from
   * the bands the previous one left.
   */
  function AsciiRun(env: Env, t: Tables): Outcome
  {
    var b1 := FinalState(ApJ799Step(env), t.apj799, 0, None);
    var b2 := FinalState(MNRAS459Step(env), t.mnras459, 0, b1);
    var b3 := FinalState(MNRAS425Step(env), t.mnras425, 0, b2);
    var b4 := FinalState(MNRAS398Step(env), t.mnras398, 0, b3);
    var b5 := FinalState(ArXiv10070011Step(env), t.arxiv10070011, 0, b4);
    var r1 := Dataset([NewEntry("SN2012ap", ApJ799Bib)], ApJ799Step(env), t.apj799, None);
    // no checkpoint after 2013ApJ...767...57F
    var r2 := AndThen(r1, Streamed(ApJ767Step(env), t.apj767, 0, (), []));
    var r3 := AndThen(r2, Dataset([], MNRAS446Step(env), t.mnras446, ()));
    var r4 := AndThen(r3, Dataset([], ArXiv150907124Step(env), t.arxiv150907124, None));
    var r5 := AndThen(r4, ApJ606Table(env, t.apj606));
    var r6 := AndThen(r5, Dataset([], ApJ645Step(env), t.apj645, ()));
    var r7 := AndThen(r6, AndersonTable(env, t.anderson));
    var r8 := AndThen(r7, Dataset([], StromloStep(env), t.stromlo, ()));
    var r9 := AndThen(r8, Dataset([], MNRAS449Step(env), t.mnras449, ()));
    var r10 := AndThen(r9, Dataset(Register(env, "LSQ13zm", MNRAS459Bib), MNRAS459Step(env), t.mnras459, b1));
    var r11 := AndThen(r10, Dataset(Register(env, "PS1-13arp", ApJ804Bib), ApJ804Step(env), t.apj804, ()));
    var r12 := AndThen(r11, Dataset([], ApJ819Step(env), t.apj819, ()));
    var r13 := AndThen(r12, Dataset([], ApJ784Step(env), t.apj784, ()));
    // 2012MNRAS.425.1007B checkpoints after every data row instead
    var r14 := AndThen(r13, Streamed(MNRAS425Step(env), t.mnras425, 0, b2, []));
    var r15 := AndThen(r14, Dataset([], ApJ783Step(env), t.apj783, ()));
    var r16 := AndThen(r15, Dataset([], ApJ634Step(env), t.apj634, ()));
    var r17 := AndThen(r16, Dataset([], MNRAS444Step(env), t.mnras444, ()));
    var r18 := AndThen(r17, Dataset([], MNRAS398Step(env), t.mnras398, b3));
    var r19 := AndThen(r18, Dataset([], ArXiv10070011Step(env), t.arxiv10070011, b4));
    AndThen(r19, Dataset([NewEntry("SN1997cy", ApJ533Bib)], ApJ533Step(env), t.apj533, b5))
  }

  /** Lines 21-644, one table after another; the first exception stops the run. */
  method DoAscii(env: Env, t: Tables) returns (out: Outcome)
    ensures out == AsciiRun(env, t)
  {
    var o, b1 := Stream(ApJ799Step(env), t.apj799, None, [NewEntry("SN2012ap", ApJ799Bib)]);
    out := Journaled(o);
    if out.Aborted? { return; }
    var u;
    o, u := Stream(ApJ767Step(env), t.apj767, (), []);
    out := AndThen(out, o);
    if out.Aborted? { return; }
    o, u := Stream(MNRAS446Step(env), t.mnras446, (), []);
    out := AndThen(out, Journaled(o));
    if out.Aborted? { return; }
    var ct;
    o, ct := Stream(ArXiv150907124Step(env), t.arxiv150907124, None, []);
    out := AndThen(out, Journaled(o));
    if out.Aborted? { return; }
    o := ReadApJ606(env, t.apj606);
    out := AndThen(out, o);
    if out.Aborted? { return; }
    o, u := Stream(ApJ645Step(env), t.apj645, (), []);
    out := AndThen(out, Journaled(o));
    if out.Aborted? { return; }
    o := ReadAnderson(env, t.anderson);
    out := AndThen(out, o);
    if out.Aborted? { return; }
    o, u := Stream(StromloStep(env), t.stromlo, (), []);
    out := AndThen(out, Journaled(o));
    if out.Aborted? { return; }
    o, u := Stream(MNRAS449Step(env), t.mnras449, (), []);
    out := AndThen(out, Journaled(o));
    if out.Aborted? { return; }
    var b2;
    o, b2 := Stream(MNRAS459Step(env), t.mnras459, b1, Register(env, "LSQ13zm", MNRAS459Bib));
    out := AndThen(out, Journaled(o));
    if out.Aborted? { return; }
    o, u := Stream(ApJ804Step(env), t.apj804, (), Register(env, "PS1-13arp", ApJ804Bib));
    out := AndThen(out, Journaled(o));
    if out.Aborted? { return; }
    o, u := Stream(ApJ819Step(env), t.apj819, (), []);
    out := AndThen(out, Journaled(o));
    if out.Aborted? { return; }
    o, u := Stream(ApJ784Step(env), t.apj784, (), []);
    out := AndThen(out, Journaled(o));
    if out.Aborted? { return; }
    var b3;
    o, b3 := Stream(MNRAS425Step(env), t.mnras425, b2, []);
    out := AndThen(out, o);
    if out.Aborted? { return; }
    o, u := Stream(ApJ783Step(env), t.apj783, (), []);
    out := AndThen(out, Journaled(o));
    if out.Aborted? { return; }
    o, u := Stream(ApJ634Step(env), t.apj634, (), []);
    out := AndThen(out, Journaled(o));
    if out.Aborted? { return; }
    o, u := Stream(MNRAS444Step(env), t.mnras444, (), []);
    out := AndThen(out, Journaled(o));
    if out.Aborted? { return; }
    var b4;
    o, b4 := Stream(MNRAS398Step(env), t.mnras398, b3, []);
    out := AndThen(out, Journaled(o));
    if out.Aborted? { return; }
    var b5;
    o, b5 := Stream(ArXiv10070011Step(env), t.arxiv10070011, b4, []);
    out := AndThen(out, Journaled(o));
    if out.Aborted? { return; }
    o, b5 := Stream(ApJ533Step(env), t.apj533, b5, [NewEntry("SN1997cy", ApJ533Bib)]);
    out := AndThen(out, Journaled(o));
  }

  /** Whatever happens later, the run starts by creating SN 2012ap from its paper. */
  lemma RunStartsWithSN2012ap(env: Env, t: Tables)
    ensures |AsciiRun(env, t).calls| > 0
    ensures AsciiRun(env, t).calls[0] == NewEntry("SN2012ap", ApJ799Bib)
  {
    var first := NewEntry("SN2012ap", ApJ799Bib);
    StreamedExtends(ApJ799Step(env), t.apj799, 0, None, [first]);
    var b1 := FinalState(ApJ799Step(env), t.apj799, 0, None);
    var b2 := FinalState(MNRAS459Step(env), t.mnras459, 0, b1);
    var b3 := FinalState(MNRAS425Step(env), t.mnras425, 0, b2);
    var b4 := FinalState(MNRAS398Step(env), t.mnras398, 0, b3);
    var b5 := FinalState(ArXiv10070011Step(env), t.arxiv10070011, 0, b4);
    var r1 := Dataset([NewEntry("SN2012ap", ApJ799Bib)], ApJ799Step(env), t.apj799, None);
    var r2 := AndThen(r1, Streamed(ApJ767Step(env), t.apj767, 0, (), []));
    var r3 := AndThen(r2, Dataset([], MNRAS446Step(env), t.mnras446, ()));
    var r4 := AndThen(r3, Dataset([], ArXiv150907124Step(env), t.arxiv150907124, None));
    var r5 := AndThen(r4, ApJ606Table(env, t.apj606));
    var r6 := AndThen(r5, Dataset([], ApJ645Step(env), t.apj645, ()));
    var r7 := AndThen(r6, AndersonTable(env, t.anderson));
    var r8 := AndThen(r7, Dataset([], StromloStep(env), t.stromlo, ()));
    var r9 := AndThen(r8, Dataset([], MNRAS449Step(env), t.mnras449, ()));
    var r10 := AndThen(r9, Dataset(Register(env, "LSQ13zm", MNRAS459Bib), MNRAS459Step(env), t.mnras459, b1));
    var r11 := AndThen(r10, Dataset(Register(env, "PS1-13arp", ApJ804Bib), ApJ804Step(env), t.apj804, ()));
    var r12 := AndThen(r11, Dataset([], ApJ819Step(env), t.apj819, ()));
    var r13 := AndThen(r12, Dataset([], ApJ784Step(env), t.apj784, ()));
    var r14 := AndThen(r13, Streamed(MNRAS425Step(env), t.mnras425, 0, b2, []));
    var r15 := AndThen(r14, Dataset([], ApJ783Step(env), t.apj783, ()));
    var r16 := AndThen(r15, Dataset([], ApJ634Step(env), t.apj634, ()));
    var r17 := AndThen(r16, Dataset([], MNRAS444Step(env), t.mnras444, ()));
    var r18 := AndThen(r17, Dataset([], MNRAS398Step(env), t.mnras398, b3));
    var r19 := AndThen(r18, Dataset([], ArXiv10070011Step(env), t.arxiv10070011, b4));
    var r20 := AndThen(r19, Dataset([NewEntry("SN1997cy", ApJ533Bib)], ApJ533Step(env), t.apj533, b5));
    assert AsciiRun(env, t) == r20;
    // each table after the first only appends to the calls before it
    assert r1.calls[0] == first;
    assert r2.calls[0] == first;
    assert r3.calls[0] == first;
    assert r4.calls[0] == first;
    assert r5.calls[0] == first;
    assert r6.calls[0] == first;
    assert r7.calls[0] == first;
    assert r8.calls[0] == first;
    assert r9.calls[0] == first;
    assert r10.calls[0] == first;
    assert r11.calls[0] == first;
    assert r12.calls[0] == first;
    assert r13.calls[0] == first;
    assert r14.calls[0] == first;
    assert r15.calls[0] == first;
    assert r16.calls[0] == first;
    assert r17.calls[0] == first;
    assert r18.calls[0] == first;
    assert r19.calls[0] == first;
    assert r20.calls[0] == first;
  }

  /** A run that raises nowhere ends with a journal checkpoint. */
  lemma RunEndsWithCheckpoint(env: Env, t: Tables)
    requires AsciiRun(env, t).Completed?
    ensures AsciiRun(env, t).calls[|AsciiRun(env, t).calls| - 1] == JournalEntries
  {
  }
}
