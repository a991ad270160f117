/** The receive loop: one pass per line read from the serial port, which
    parses the line, inserts the reading, and reconnects to the database
    after losing it. The port, the database driver and the clock are
    oracles: the lines are given as a sequence, and each insert's outcome
    and each reconnection's failed attempts are parameters. */
module Ingestion {
  import opened Text
  import opened Telemetry

  /** The `water_log` table: whether it exists, and its rows in id order.
      The auto-increment id and the insertion timestamp are assigned by the
      store and are not modelled. */
  datatype Table = Table(created: bool, rows: seq<Reading>)

  /** A table that does not exist holds no rows. */
  predicate Consistent(t: Table)
  {
    !t.created ==> t.rows == []
  }

  /** `CREATE TABLE IF NOT EXISTS water_log (...)`: afterwards the table
      exists and holds the rows it held before. */
  function CreateIfNotExists(t: Table): (r: Table)
    ensures r.created && Consistent(r)
    ensures r.rows == t.rows
  {
    Table(true, t.rows)
  }

  /** Creating the table when it may already exist loses no row, leaves a
      table that exists, and a second call changes nothing. */
  lemma CreateIsIdempotent(t: Table)
    requires Consistent(t)
    ensures CreateIfNotExists(t).created && CreateIfNotExists(t).rows == t.rows
    ensures CreateIfNotExists(CreateIfNotExists(t)) == CreateIfNotExists(t)
    ensures !t.created ==> CreateIfNotExists(t).rows == []
  {
  }

  /** What the driver reports for one `INSERT` and its commit: success, an
      `Error` with the connection still live, or an `Error` after which
      `is_connected()` is false, with the number of connection attempts that
      fail before the next one succeeds. */
  datatype InsertOutcome = Committed | Rejected | ConnectionLost(failedConnects: nat)

  /** What one pass of the loop did with a line, as it logs it. */
  datatype Event =
    | Skipped
    | Unparsable(error: ParseError)
    | Stored(reading: Reading)
    | InsertFailed(reconnected: bool)

  /** One pass of the loop for a line read from the port: strip it, skip it
      when nothing is left, parse it, and insert the reading. */
  function Handle(line: string, outcome: InsertOutcome): (e: Event)
    ensures e == Skipped <==> AllSpace(line)
    ensures e.Unparsable? ==> ParseLine(Strip(line)) == Failed(e.error)
    ensures !AllSpace(line) ==> (e.Unparsable? <==> ParseLine(Strip(line)).Failed?)
    ensures e.Stored? ==> outcome == Committed && ParseLine(Strip(line)) == Parsed(e.reading)
    ensures e.InsertFailed? ==> ParseLine(Strip(line)).Parsed? && outcome != Committed
    ensures e.InsertFailed? ==> (e.reconnected <==> outcome.ConnectionLost?)
  {
    var text := Strip(line);
    if text == [] then Skipped else Deliver(text, outcome)
  }

  /** Parse a non-blank line, dropping it when it does not parse, and insert
      its reading. */
  function Deliver(text: string, outcome: InsertOutcome): (e: Event)
    ensures e != Skipped
    ensures e.Unparsable? <==> ParseLine(text).Failed?
    ensures e.Unparsable? ==> e.error == ParseLine(text).error
    ensures e.Stored? <==> ParseLine(text).Parsed? && outcome == Committed
    ensures e.Stored? ==> ParseLine(text) == Parsed(e.reading)
    ensures e.InsertFailed? ==> (e.reconnected <==> outcome.ConnectionLost?)
  {
    match ParseLine(text)
    case Failed(e) => Unparsable(e)
    case Parsed(r) => Insert(r, outcome)
  }

  /** The `try` around the insert of a parsed reading. */
  function Insert(r: Reading, outcome: InsertOutcome): (e: Event)
    ensures e.Stored? <==> outcome == Committed
    ensures e.Stored? ==> e.reading == r
    ensures e.InsertFailed? <==> outcome != Committed
    ensures e.InsertFailed? ==> (e.reconnected <==> outcome.ConnectionLost?)
  {
    match outcome
    case Committed => Stored(r)
    case Rejected => InsertFailed(false)
    case ConnectionLost(_) => InsertFailed(true)
  }

  /** `f` applied to corresponding elements of `xs` and `ys`, in order. */
  function Map2<A, B, C>(f: (A, B) -> C, xs: seq<A>, ys: seq<B>): (zs: seq<C>)
    requires |xs| == |ys|
    ensures |zs| == |xs|
  {
    if xs == [] then []
    else
      var n := |xs| - 1;
      Map2(f, xs[..n], ys[..n]) + [f(xs[n], ys[n])]
  }

  lemma {:induction false} Map2At<A, B, C>(f: (A, B) -> C, xs: seq<A>, ys: seq<B>, k: nat)
    requires |xs| == |ys| && k < |xs|
    ensures Map2(f, xs, ys)[k] == f(xs[k], ys[k])
  {
    var n := |xs| - 1;
    if k < n {
      Map2At(f, xs[..n], ys[..n], k);
      assert xs[..n][k] == xs[k] && ys[..n][k] == ys[k];
    }
  }

  lemma Map2Snoc<A, B, C>(f: (A, B) -> C, xs: seq<A>, ys: seq<B>, i: nat)
    requires |xs| == |ys| && i < |xs|
    ensures Map2(f, xs[..i + 1], ys[..i + 1]) == Map2(f, xs[..i], ys[..i]) + [f(xs[i], ys[i])]
  {
    assert xs[..i + 1][..i] == xs[..i] && ys[..i + 1][..i] == ys[..i];
  }

  /** The passes of the loop over a sequence of lines: pass k handles line k
      with the outcome of its insert. */
  lemma PassesInOrder(lines: seq<string>, outcomes: seq<InsertOutcome>, k: nat)
    requires |lines| == |outcomes| && k < |lines|
    ensures Map2(Handle, lines, outcomes)[k] == Handle(lines[k], outcomes[k])
  {
    Map2At(Handle, lines, outcomes, k);
  }

  /** The rows a pass adds to the table. */
  function Persisted(e: Event): seq<Reading>
  {
    if e.Stored? then [e.reading] else []
  }

  /** The rows a run of the loop adds, given what each pass did; a pass
      that inserts nothing contributes nothing, so no line is stored twice. */
  function Rows(events: seq<Event>): (rows: seq<Reading>)
    ensures |rows| <= |events|
  {
    if events == [] then [] else Persisted(events[0]) + Rows(events[1..])
  }

  /** A line is stored exactly when it is not blank, parses, and its insert
      commits; what is stored is the parsed reading. */
  lemma HandleStores(line: string, outcome: InsertOutcome)
    ensures Handle(line, outcome).Stored?
        <==> !AllSpace(line) && ParseLine(Strip(line)).Parsed? && outcome == Committed
    ensures Handle(line, outcome).Stored?
        ==> Handle(line, outcome).reading == ParseLine(Strip(line)).reading
    ensures Handle(line, outcome) == Skipped <==> AllSpace(line)
  {
  }

  /** Running the loop over two stretches of input stores the rows of the
      first stretch, then those of the second: rows are never reordered and
      earlier rows are never touched. */
  lemma {:induction false} RowsAppend(e1: seq<Event>, e2: seq<Event>)
    ensures Rows(e1 + e2) == Rows(e1) + Rows(e2)
  {
    if e1 != [] {
      assert (e1 + e2)[1..] == e1[1..] + e2;
      RowsAppend(e1[1..], e2);
    } else {
      assert e1 + e2 == e2;
    }
  }

  /** One more pass adds its own rows at the end. */
  lemma RowsSnoc(events: seq<Event>, e: Event)
    ensures Rows(events + [e]) == Rows(events) + Persisted(e)
  {
    RowsAppend(events, [e]);
    assert [e][1..] == [];
  }

  /** A pass that stores nothing (a blank or unparsable line, or an insert
      that fails, with or without a reconnection) drops its line without
      retrying it, and the passes around it store what they would have
      stored had the line never arrived. */
  lemma DroppedLine(pre: seq<Event>, e: Event, post: seq<Event>)
    requires !e.Stored?
    ensures Rows(pre + [e] + post) == Rows(pre) + Rows(post)
  {
    RowsSnoc(pre, e);
    assert Rows(pre + [e]) == Rows(pre);
    RowsAppend(pre + [e], post);
  }

  /** When every pass stores its line, the table receives one row per line,
      in the order the lines arrived. */
  lemma {:induction false} AllStored(events: seq<Event>)
    requires forall i :: 0 <= i < |events| ==> events[i].Stored?
    ensures |Rows(events)| == |events|
    ensures forall i :: 0 <= i < |events| ==> Rows(events)[i] == events[i].reading
  {
    if events != [] {
      AllStored(events[1..]);
      assert Rows(events) == [events[0].reading] + Rows(events[1..]);
      forall i | 0 < i < |events|
        ensures Rows(events)[i] == events[i].reading
      {
        assert events[1..][i - 1] == events[i];
      }
    }
  }

  /** A pass that stores a reading puts it right after the rows of the passes
      before it and before the rows of the passes after it. */
  lemma StoredLine(pre: seq<Event>, r: Reading, post: seq<Event>)
    ensures Rows(pre + [Stored(r)] + post) == Rows(pre) + [r] + Rows(post)
  {
    RowsSnoc(pre, Stored(r));
    RowsAppend(pre + [Stored(r)], post);
  }

  /** The table receives a reading exactly when some pass stored it. */
  lemma {:induction false} RowsComeFromStoredPasses(events: seq<Event>, r: Reading)
    ensures r in Rows(events) <==> Stored(r) in events
  {
    if events != [] {
      RowsComeFromStoredPasses(events[1..], r);
      assert events == [events[0]] + events[1..];
      assert Rows(events) == Persisted(events[0]) + Rows(events[1..]);
    }
  }


  /** `get_db_connection`: attempt to connect until an attempt yields a live
      connection, never giving up and never reporting an error. Attempt `i`
      (counting from 0) succeeds when `succeeds(i)`; the loop ends because
      some attempt, `eventually`, does. The result is the first successful
      attempt. The five-second pause after a failure is not modelled. */
  method ConnectWithRetry(succeeds: nat -> bool, ghost eventually: nat) returns (attempt: nat)
    requires succeeds(eventually)
    ensures succeeds(attempt) && attempt <= eventually
    ensures forall j: nat :: j < attempt ==> !succeeds(j)
  {
    attempt := 0;
    while !succeeds(attempt)
      invariant attempt <= eventually
      invariant forall j: nat :: j < attempt ==> !succeeds(j)
      decreases eventually - attempt
    {
      attempt := attempt + 1;
    }
  }

  /** The state the receive loop owns: the database connection, and the
      table it writes through it. */
  class Receiver {
    var table: Table
    var connected: bool

    /** Between passes the connection is live and the table exists. */
    ghost predicate Ready()
      reads this
    {
      connected && table.created
    }

    /** Start-up: connect (retrying as long as it takes), ensure the table,
      and commit. Rows already in the table are kept. */
    constructor (existing: Table, failedConnects: nat)
      requires Consistent(existing)
      ensures Ready() && table.rows == existing.rows
    {
      table := existing;
      connected := false;
      new;
      var attempts := Connect(failedConnects);
      EnsureTable();
    }

    /** Open a fresh connection through `get_db_connection`, whose first
        `failedConnects` attempts fail. */
    method Connect(failedConnects: nat) returns (attempts: nat)
      modifies this
      ensures connected && table == old(table)
      ensures attempts == failedConnects + 1
    {
      var first := ConnectWithRetry((i: nat) => i >= failedConnects, failedConnects);
      attempts := first + 1;
      connected := true;
    }

    /** `ensure_table` followed by a commit. */
    method EnsureTable()
      requires connected
      modifies this
      ensures connected && table == CreateIfNotExists(old(table))
    {
      table := CreateIfNotExists(table);
    }

    /** One pass of the loop over a line read from the port. A failed insert
        appends nothing; when the connection is gone, the loop reconnects and
        ensures the table again, and the line is not retried. */
    method Step(line: string, outcome: InsertOutcome) returns (e: Event)
      requires Ready()
      modifies this
      ensures Ready()
      ensures e == Handle(line, outcome)
      ensures table.rows == old(table.rows) + Persisted(e)
    {
      var text := Strip(line);
      if text == [] {
        e := Skipped;
      } else {
        e := ParseAndInsert(text, outcome);
      }
    }

    /** Parse a non-blank line and insert its reading; a line that does not
        parse is dropped. */
    method ParseAndInsert(text: string, outcome: InsertOutcome) returns (e: Event)
      requires Ready()
      modifies this
      ensures Ready()
      ensures e == Deliver(text, outcome)
      ensures table.rows == old(table.rows) + Persisted(e)
    {
      var parsed := ParseLine(text);
      if parsed.Failed? {
        e := Unparsable(parsed.error);
        assert table.rows == old(table.rows) + [];
      } else {
        e := TryInsert(parsed.reading, outcome);
      }
    }

    /** Insert a reading and commit; on a database error, reconnect and
        ensure the table if the connection is gone. */
    method TryInsert(reading: Reading, outcome: InsertOutcome) returns (e: Event)
      requires Ready()
      modifies this
      ensures Ready()
      ensures e == Insert(reading, outcome)
      ensures table.rows == old(table.rows) + Persisted(e)
    {
      match outcome
      case Committed =>
        table := table.(rows := table.rows + [reading]);
        e := Stored(reading);
      case Rejected =>
        e := InsertFailed(false);
        assert table.rows == old(table.rows) + [];
      case ConnectionLost(failedConnects) =>
        connected := false;
        var attempts := Connect(failedConnects);
        EnsureTable();
        e := InsertFailed(true);
        assert table.rows == old(table.rows) + [];
    }

    /** The loop over the lines read before the operator stops it; `outcomes[i]`
        is what the database reports if line `i` reaches the insert. */
    method Run(lines: seq<string>, outcomes: seq<InsertOutcome>) returns (events: seq<Event>)
      requires Ready() && |lines| == |outcomes|
      modifies this
      ensures Ready()
      ensures |events| == |lines|
      ensures events == Map2(Handle, lines, outcomes)
      ensures table.rows == old(table.rows) + Rows(events)
    {
      events := [];
      var i := 0;
      while i < |lines|
        invariant 0 <= i <= |lines|
        invariant Ready()
        invariant |events| == i
        invariant events == Map2(Handle, lines[..i], outcomes[..i])
        invariant table.rows == old(table.rows) + Rows(events)
      {
        var e := Step(lines[i], outcomes[i]);
        RowsSnoc(events, e);
        Associative(old(table.rows), Rows(events), Persisted(e));
        Map2Snoc(Handle, lines, outcomes, i);
        events := events + [e];
        i := i + 1;
      }
      assert lines[..i] == lines && outcomes[..i] == outcomes;
    }
  }
}
