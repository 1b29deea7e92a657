/** A deployment's log: the buffered writer, the table it is stored in, and a reader that pages
    through it while it grows. */
module BuildLogs {
  datatype Stream = Build | System | Run

  datatype Line = Line(stream: Stream, text: string)

  /** A line with its sequence number. */
  datatype Entry = Entry(number: nat, line: Line)

  /** The stored lines of one deployment by sequence number, which is unique there. */
  type Stored = map<nat, Line>

  const MAX_BUFFERED: nat := 40
  const MAX_DELAY_SECONDS := 0.4
  const MAX_LINE: nat := 4000

  function Cut(text: string): string {
    if |text| <= MAX_LINE then text else text[..MAX_LINE]
  }

  predicate Gapless(stored: Stored, n: nat) {
    && (forall k | 1 <= k <= n :: k in stored)
    && (forall k | k in stored :: 1 <= k <= n)
  }

  /** The stored rows are the first of the lines, in order and numbered from 1, and `pending` is
      the rest of them, numbered on from there. */
  ghost predicate Consistent(lines: seq<Line>, stored: Stored, pending: seq<Entry>) {
    && |pending| <= |lines|
    && Gapless(stored, |lines| - |pending|)
    && (forall k | 1 <= k <= |lines| - |pending| :: stored[k] == lines[k - 1])
    && (forall i | 0 <= i < |pending| :: pending[i] == Entry(|lines| - |pending| + i + 1, lines[|lines| - |pending| + i]))
  }

  /** An insert that leaves a number already there as it is. */
  function Inserted(stored: Stored, e: Entry): Stored {
    if e.number in stored then stored else stored[e.number := e.line]
  }

  lemma InsertKeeps(lines: seq<Line>, stored: Stored, pending: seq<Entry>)
    requires Consistent(lines, stored, pending) && pending != []
    ensures Consistent(lines, Inserted(stored, pending[0]), pending[1..])
  {
  }

  lemma WriteKeeps(lines: seq<Line>, stored: Stored, pending: seq<Entry>, line: Line)
    requires Consistent(lines, stored, pending)
    ensures Consistent(lines + [line], stored, pending + [Entry(|lines| + 1, line)])
  {
  }

  class LogTable {
    var rows: Stored

    constructor ()
      ensures rows == map[]
    {
      rows := map[];
    }

    method AppendLogs(entries: seq<Entry>, ghost lines: seq<Line>)
      requires Consistent(lines, rows, entries)
      modifies this
      ensures Consistent(lines, rows, [])
    {
      for i := 0 to |entries|
        invariant Consistent(lines, rows, entries[i..])
      {
        InsertKeeps(lines, rows, entries[i..]);
        assert entries[i..][1..] == entries[i + 1..];
        rows := Inserted(rows, entries[i]);
      }
    }

    /** The highest number stored, or 0. */
    method LastLogSeq() returns (last: nat)
      ensures last == 0 || last in rows
      ensures forall k | k in rows :: k <= last
    {
      last := 0;
      var rest := rows.Keys;
      while rest != {}
        invariant rest <= rows.Keys
        invariant last == 0 || last in rows
        invariant forall k | k in rows && k !in rest :: k <= last
        decreases |rest|
      {
        var k :| k in rest;
        last := if last < k then k else last;
        rest := rest - {k};
      }
    }
  }

  class LogWriter {
    const table: LogTable
    var number: nat
    var buffer: seq<Entry>
    var lastFlush: real
    ghost var lines: seq<Line>    // stored when it resumed, then everything written

    ghost predicate Valid()
      reads this, table
    {
      number == |lines| && Consistent(lines, table.rows, buffer)
    }

    constructor Start(table: LogTable, start: nat, now: real, ghost stored: seq<Line>)
      requires Consistent(stored, table.rows, []) && start == |stored|
      ensures this.table == table && Valid() && lines == stored && buffer == []
    {
      this.table := table;
      number := start;
      buffer := [];
      lastFlush := now;
      lines := stored;
    }

    /** Numbers the line, cut to length, and stores the buffer once it is long or old enough. */
    method Write(line: string, stream: Stream, now: real)
      requires Valid() && |buffer| < MAX_BUFFERED
      modifies this, table
      ensures Valid() && |lines| == |old(lines)| + 1 && old(lines) <= lines && lines[|old(lines)|].stream == stream
      ensures lines[|old(lines)|].text <= line && |lines[|old(lines)|].text| == if |line| <= 4000 then |line| else 4000
      ensures |buffer| < 40
      ensures buffer == [] <==> |old(buffer)| + 1 == 40 || now - old(lastFlush) >= 0.4
      ensures buffer != [] ==> table.rows == old(table.rows) && lastFlush == old(lastFlush)
    {
      WriteKeeps(lines, table.rows, buffer, Line(stream, Cut(line)));
      number := number + 1;
      buffer := buffer + [Entry(number, Line(stream, Cut(line)))];
      lines := lines + [Line(stream, Cut(line))];
      if |buffer| >= MAX_BUFFERED || now - lastFlush >= MAX_DELAY_SECONDS {
        Flush(now);
      }
    }

    method Flush(now: real)
      requires Valid()
      modifies this, table
      ensures Valid() && lines == old(lines) && buffer == [] && lastFlush == now
      ensures Gapless(table.rows, |lines|) && forall k | 1 <= k <= |lines| :: table.rows[k] == lines[k - 1]
    {
      var pending := buffer;
      buffer := [];
      lastFlush := now;
      if pending != [] {
        table.AppendLogs(pending, lines);
      }
    }
  }

  /** A new writer on a log: it numbers on from what is stored. */
  method Resume(table: LogTable, now: real, ghost stored: seq<Line>) returns (writer: LogWriter)
    requires Consistent(stored, table.rows, [])
    ensures fresh(writer) && writer.table == table && writer.Valid() && writer.lines == stored && writer.buffer == []
  {
    var last := table.LastLogSeq();
    if stored != [] {
      assert |stored| in table.rows;
    }
    writer := new LogWriter.Start(table, last, now, stored);
  }

  // A reader beside it

  /** The rows numbered above `after`, in order, `limit` of them at most. */
  ghost predicate IsPage(stored: Stored, after: nat, limit: nat, page: seq<Entry>) {
    && |page| <= limit
    && (forall i, j | 0 <= i < j < |page| :: page[i].number < page[j].number)
    && (forall i | 0 <= i < |page| :: after < page[i].number && page[i].number in stored && stored[page[i].number] == page[i].line)
    && (forall k | k in stored && after < k && (forall i | 0 <= i < |page| :: page[i].number != k) ::
          |page| == limit && forall i | 0 <= i < |page| :: page[i].number < k)
  }

  datatype State = State(
    lines: seq<Line>,
    stored: Stored,
    storing: seq<Entry>,      // taken from the buffer, being inserted one row at a time
    buffer: seq<Entry>,
    received: seq<Line>,      // what the reader has been given
    cursor: nat)

  datatype Step =
    | Write(line: Line)
    | TakeBuffer
    | InsertRow
    | Crash                   // of the writer: what is not stored is gone, and another resumes
    | Read(limit: nat, page: seq<Entry>)

  ghost predicate Enabled(s: State, step: Step) {
    match step
    case Write(_) => s.storing == []
    case TakeBuffer => s.storing == []
    case InsertRow => s.storing != []
    case Crash => true
    case Read(limit, page) => IsPage(s.stored, s.cursor, limit, page)
  }

  function LinesOf(entries: seq<Entry>): (lines: seq<Line>)
    ensures |lines| == |entries| && forall i | 0 <= i < |lines| :: lines[i] == entries[i].line
  {
    seq(|entries|, i requires 0 <= i < |entries| => entries[i].line)
  }

  /** All the lines but those held in memory. */
  function Kept(lines: seq<Line>, held: nat): seq<Line> {
    if held <= |lines| then lines[..|lines| - held] else []
  }

  ghost function Apply(s: State, step: Step): State
    requires Enabled(s, step)
  {
    match step
    case Write(line) => s.(lines := s.lines + [line], buffer := s.buffer + [Entry(|s.lines| + 1, line)])
    case TakeBuffer => s.(storing := s.buffer, buffer := [])
    case InsertRow => s.(stored := Inserted(s.stored, s.storing[0]), storing := s.storing[1..])
    case Crash => s.(lines := Kept(s.lines, |s.storing + s.buffer|), storing := [], buffer := [])
    case Read(_, page) =>
      s.(received := s.received + LinesOf(page), cursor := if page == [] then s.cursor else page[|page| - 1].number)
  }

  ghost predicate Inv(s: State) {
    && Consistent(s.lines, s.stored, s.storing + s.buffer)
    && s.cursor <= |s.lines| - |s.storing + s.buffer|
    && s.received == s.lines[..s.cursor]
  }

  /** A page of a log without gaps is the stretch that follows the cursor. */
  lemma {:induction false} PageFollows(stored: Stored, n: nat, after: nat, limit: nat, page: seq<Entry>, i: nat)
    requires Gapless(stored, n) && after <= n && IsPage(stored, after, limit, page) && i < |page|
    ensures page[i].number == after + i + 1
    decreases i
  {
    if 0 < i {
      PageFollows(stored, n, after, limit, page, i - 1);
    }
    var k := after + i + 1;
    if page[i].number != k {
      assert k < page[i].number && k in stored;
      forall j | 0 <= j < |page| ensures page[j].number != k {
        if j < i {
          PageFollows(stored, n, after, limit, page, j);
        }
      }
      assert false;
    }
  }

  lemma PageLength(stored: Stored, n: nat, after: nat, limit: nat, page: seq<Entry>)
    requires Gapless(stored, n) && after <= n && IsPage(stored, after, limit, page)
    ensures |page| == if n - after <= limit then n - after else limit
  {
    forall i | 0 <= i < |page| ensures page[i].number == after + i + 1 {
      PageFollows(stored, n, after, limit, page, i);
    }
    if |page| > n - after {
      PageFollows(stored, n, after, limit, page, n - after);
      assert false;
    }
    if |page| < n - after {
      assert after + |page| + 1 in stored;
    }
  }

  /** What a page holds is what comes next in the log. */
  lemma PageIsNext(lines: seq<Line>, stored: Stored, pending: seq<Entry>, after: nat, limit: nat, page: seq<Entry>)
    requires Consistent(lines, stored, pending) && after <= |lines| - |pending| && IsPage(stored, after, limit, page)
    ensures after + |page| <= |lines| - |pending| && lines[..after] + LinesOf(page) == lines[..after + |page|]
    ensures page != [] ==> page[|page| - 1].number == after + |page|
  {
    var n := |lines| - |pending|;
    PageLength(stored, n, after, limit, page);
    forall i | 0 <= i < |page| ensures page[i].number == after + i + 1 && page[i].line == lines[after + i] {
      PageLine(lines, stored, pending, after, limit, page, i);
    }
    hide Consistent, IsPage;
    assert LinesOf(page) == lines[after..after + |page|];
    assert lines[..after] + lines[after..after + |page|] == lines[..after + |page|];
  }

  lemma PageLine(lines: seq<Line>, stored: Stored, pending: seq<Entry>, after: nat, limit: nat, page: seq<Entry>, i: nat)
    requires Consistent(lines, stored, pending) && after <= |lines| - |pending| && IsPage(stored, after, limit, page)
    requires i < |page|
    ensures page[i].number == after + i + 1 <= |lines| - |pending| && page[i].line == lines[after + i]
  {
    PageFollows(stored, |lines| - |pending|, after, limit, page, i);
  }

  lemma WriteStepKeeps(s: State, line: Line)
    requires Inv(s) && Enabled(s, Write(line))
    ensures Inv(Apply(s, Write(line)))
  {
    assert s.storing + s.buffer == s.buffer;
    WriteKeeps(s.lines, s.stored, s.buffer, line);
    hide Consistent;
    assert [] + (s.buffer + [Entry(|s.lines| + 1, line)]) == s.buffer + [Entry(|s.lines| + 1, line)];
    assert (s.lines + [line])[..s.cursor] == s.lines[..s.cursor];
  }

  lemma StoreStepKeeps(s: State, step: Step)
    requires Inv(s) && Enabled(s, step) && (step == TakeBuffer || step == InsertRow)
    ensures Inv(Apply(s, step))
  {
    if step == InsertRow {
      InsertKeeps(s.lines, s.stored, s.storing + s.buffer);
      hide Consistent;
      assert s.storing[1..] + s.buffer == (s.storing + s.buffer)[1..] && s.storing[0] == (s.storing + s.buffer)[0];
    } else {
      hide Consistent;
      assert s.buffer + [] == s.storing + s.buffer;
    }
  }

  lemma CrashKeeps(s: State)
    requires Inv(s)
    ensures Inv(Apply(s, Crash))
  {
    var held := |s.storing + s.buffer|;
    assert s.lines[..|s.lines| - held][..s.cursor] == s.lines[..s.cursor];
  }

  lemma ReadKeeps(s: State, limit: nat, page: seq<Entry>)
    requires Inv(s) && Enabled(s, Read(limit, page))
    ensures Inv(Apply(s, Read(limit, page)))
  {
    hide Consistent, IsPage, LinesOf;
    PageIsNext(s.lines, s.stored, s.storing + s.buffer, s.cursor, limit, page);
  }

  lemma StepKeeps(s: State, step: Step)
    requires Inv(s) && Enabled(s, step)
    ensures Inv(Apply(s, step))
  {
    hide Inv, Apply;
    match step
    case Write(line) => WriteStepKeeps(s, line);
    case TakeBuffer => StoreStepKeeps(s, step);
    case InsertRow => StoreStepKeeps(s, step);
    case Crash => CrashKeeps(s);
    case Read(limit, page) => ReadKeeps(s, limit, page);
  }

  ghost predicate Run(states: seq<State>, steps: seq<Step>) {
    && |states| == |steps| + 1
    && states[0] == State([], map[], [], [], [], 0)
    && forall i | 0 <= i < |steps| ::
      Enabled(states[i], steps[i]) && states[i + 1] == Apply(states[i], steps[i])
  }

  /** Over every run, with rows stored one at a time between reads, and writers that crash and
      resume: what the reader was given is exactly the first lines of the log, each once and in
      order, and the stored rows followed by those still held are exactly the lines written. */
  lemma {:induction false} ReaderGetsPrefix(states: seq<State>, steps: seq<Step>, k: nat)
    requires Run(states, steps) && k < |states|
    ensures Inv(states[k])
    ensures states[k].received <= states[k].lines
  {
    if 0 < k {
      ReaderGetsPrefix(states, steps, k - 1);
      StepKeeps(states[k - 1], steps[k - 1]);
    }
  }

  /** A read that may return a row returns one whenever a row is stored that was not read, so
      repeated reads reach the end of what is stored. */
  lemma ReadAdvances(s: State, limit: nat, page: seq<Entry>)
    requires Inv(s) && Enabled(s, Read(limit, page))
    ensures var n := |s.lines| - |s.storing + s.buffer|;
            Apply(s, Read(limit, page)).cursor == if n - s.cursor <= limit then n else s.cursor + limit
  {
    var n := |s.lines| - |s.storing + s.buffer|;
    PageLength(s.stored, n, s.cursor, limit, page);
    if page != [] {
      PageFollows(s.stored, n, s.cursor, limit, page, |page| - 1);
    }
  }

  /** The log is what was written, less what a crash loses: exactly the lines not stored by then. */
  lemma LogIs(s: State, step: Step, n: nat)
    requires Inv(s) && Enabled(s, step) && 1 <= n
    ensures var lines := Apply(s, step).lines;
            && (step.Write? ==> lines == s.lines + [step.line])
            && (step.Crash? ==> lines <= s.lines && (n <= |lines| <==> n in s.stored))
            && (!step.Write? && !step.Crash? ==> lines == s.lines)
  {
    assert |s.storing + s.buffer| <= |s.lines|;
  }

  /** The rest of a flush under way. */
  ghost function AllInserted(s: State): State
    decreases |s.storing|
  {
    if s.storing == [] then s else AllInserted(Apply(s, InsertRow))
  }

  lemma {:induction false} InsertsEnd(s: State)
    requires Inv(s)
    ensures var t := AllInserted(s);
            && Inv(t) && t.storing == [] && t.buffer == s.buffer && t.lines == s.lines
            && t.received == s.received && t.cursor == s.cursor
    decreases |s.storing|
  {
    if s.storing != [] {
      StoreStepKeeps(s, InsertRow);
      InsertsEnd(Apply(s, InsertRow));
    }
  }

  /** Whatever was written, lost and read before: one flush that nothing interrupts stores the whole
      log, and one read large enough gives the reader all of it. */
  lemma FlushThenReadIsAll(s: State, limit: nat, page: seq<Entry>)
    requires Inv(s) && s.storing == []
    requires IsPage(AllInserted(Apply(s, TakeBuffer)).stored, s.cursor, limit, page) && |s.lines| - s.cursor <= limit
    ensures var t := AllInserted(Apply(s, TakeBuffer));
            && t.storing == t.buffer == [] && t.lines == s.lines && Enabled(t, Read(limit, page))
            && (forall n: nat :: n in t.stored <==> 1 <= n <= |s.lines|)
            && (forall n | 1 <= n <= |s.lines| :: t.stored[n] == s.lines[n - 1])
            && Apply(t, Read(limit, page)).received == s.lines
  {
    StoreStepKeeps(s, TakeBuffer);
    InsertsEnd(Apply(s, TakeBuffer));
    var t := AllInserted(Apply(s, TakeBuffer));
    hide AllInserted, IsPage;
    assert t.storing + t.buffer == [];
    ReadAdvances(t, limit, page);
    ReadKeeps(t, limit, page);
    assert s.lines[..|s.lines|] == s.lines;
  }
}
