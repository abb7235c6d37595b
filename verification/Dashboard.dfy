/** How the dashboard hands logs from its intake queue to the page. Requests append to the
    queue at any time; a tick drains it, records what it drained, and rebuilds the rows.
    The steps of a tick are separate, so requests may fall between them. */
module Dashboard {
  import opened Common

  datatype Log = Log(kind: string, content: string, timestamp: string, location: string)

  // A row of the page: a separator, or a log beside a cluster snapshot.
  datatype PageRow<S> = SplitLine | LogRow(log: Log, snapshot: S)

  function RowOf<S>(log: Log, snapshot: S): PageRow<S> {
    if log.kind == "SPLIT" then SplitLine else LogRow(log, snapshot)
  }

  // Where the tick that holds the state lock stands.
  datatype Tick<S> =
    | Idle
    | Collected(snapshot: S)
    | Drained(snapshot: S, batch: seq<Log>)
    | Recorded(snapshot: S, batch: seq<Log>)

  datatype Board<S> = Board(
    queue: seq<Log>, logHistory: seq<Log>, historyRows: seq<PageRow<S>>,
    latestLog: Option<Log>, latestSnapshot: Option<S>, tick: Tick<S>)

  datatype Step<S> =
    | Receive(log: Log)
    | Begin(snapshot: S)   // takes the state lock and collects the cluster state
    | SkipTick             // the lock is held: nothing happens
    | Drain                // one critical section of the queue lock
    | Record
    | Render

  predicate Enabled<S>(b: Board<S>, step: Step<S>) {
    match step
    case Receive(_) => true
    case Begin(_) => b.tick.Idle?
    case SkipTick => !b.tick.Idle?
    case Drain => b.tick.Collected?
    case Record => b.tick.Drained?
    case Render => b.tick.Recorded?
  }

  function RowsOf<S>(logs: seq<Log>, snapshot: S): seq<PageRow<S>> {
    if logs == [] then [] else RowsOf(logs[..|logs| - 1], snapshot) + [RowOf(logs[|logs| - 1], snapshot)]
  }

  // The update of the rows: the previous latest log and all but the newest of the batch go
  // to the history, each with the snapshot of its own batch.
  function Rendered<S>(b: Board<S>, snapshot: S, batch: seq<Log>): Board<S> {
    if batch == [] then b.(tick := Idle)
    else
      var previous := if b.latestLog.Some? && b.latestSnapshot.Some?
                      then [RowOf(b.latestLog.value, b.latestSnapshot.value)] else [];
      b.(historyRows := b.historyRows + previous + RowsOf(batch[..|batch| - 1], snapshot),
         latestLog := Some(batch[|batch| - 1]), latestSnapshot := Some(snapshot), tick := Idle)
  }

  function After<S>(b: Board<S>, step: Step<S>): Board<S>
    requires Enabled(b, step)
  {
    match step
    case Receive(log) => b.(queue := b.queue + [log])
    case Begin(snapshot) => b.(tick := Collected(snapshot))
    case SkipTick => b
    case Drain => b.(queue := [], tick := Drained(b.tick.snapshot, b.queue))
    case Record => b.(logHistory := b.logHistory + b.tick.batch, tick := Recorded(b.tick.snapshot, b.tick.batch))
    case Render => Rendered(b, b.tick.snapshot, b.tick.batch)
  }

  // ------------------------------------------------ runs and their account

  predicate IsRun<S>(b: Board<S>, steps: seq<Step<S>>)
    decreases |steps|
  {
    steps != [] ==> Enabled(b, steps[0]) && IsRun(After(b, steps[0]), steps[1..])
  }

  function Final<S>(b: Board<S>, steps: seq<Step<S>>): Board<S>
    requires IsRun(b, steps)
    decreases |steps|
  {
    if steps == [] then b else Final(After(b, steps[0]), steps[1..])
  }

  // The logs received during a run, in order of arrival.
  function Received<S>(steps: seq<Step<S>>): seq<Log> {
    if steps == [] then []
    else (if steps[0].Receive? then [steps[0].log] else []) + Received(steps[1..])
  }

  // Every rendered log with the snapshot of the tick that drained it, in order.
  function Shown<S>(b: Board<S>, steps: seq<Step<S>>): seq<(Log, S)>
    requires IsRun(b, steps)
    decreases |steps|
  {
    if steps == [] then []
    else
      (if steps[0].Render? then Tagged(b.tick.batch, b.tick.snapshot) else []) + Shown(After(b, steps[0]), steps[1..])
  }

  function Tagged<S>(logs: seq<Log>, snapshot: S): seq<(Log, S)> {
    if logs == [] then [] else Tagged(logs[..|logs| - 1], snapshot) + [(logs[|logs| - 1], snapshot)]
  }

  // What the tick in progress has drained but not recorded, and not rendered.
  function Unrecorded<S>(t: Tick<S>): seq<Log> {
    match t case Drained(_, batch) => batch case _ => []
  }

  function Unrendered<S>(t: Tick<S>): seq<Log> {
    match t case Recorded(_, batch) => batch case _ => []
  }

  function LogsOf<S>(tagged: seq<(Log, S)>): seq<Log> {
    if tagged == [] then [] else LogsOf(tagged[..|tagged| - 1]) + [tagged[|tagged| - 1].0]
  }

  function TaggedRows<S>(tagged: seq<(Log, S)>): seq<PageRow<S>> {
    if tagged == [] then []
    else TaggedRows(tagged[..|tagged| - 1]) + [RowOf(tagged[|tagged| - 1].0, tagged[|tagged| - 1].1)]
  }

  // The page shows exactly these logs: all but the last in the history, the last as latest.
  ghost predicate Shows<S>(b: Board<S>, tagged: seq<(Log, S)>) {
    if tagged == [] then b.historyRows == [] && b.latestLog == None && b.latestSnapshot == None
    else
      var last := tagged[|tagged| - 1];
      && b.historyRows == TaggedRows(tagged[..|tagged| - 1])
      && b.latestLog == Some(last.0) && b.latestSnapshot == Some(last.1)
  }

  // The account of a board: `received` logs came in and `shown` were rendered so far.
  ghost predicate Accounts<S>(b: Board<S>, received: seq<Log>, shown: seq<(Log, S)>) {
    && received == b.logHistory + Unrecorded(b.tick) + b.queue
    && b.logHistory == LogsOf(shown) + Unrendered(b.tick)
    && Shows(b, shown)
  }

  lemma {:induction false} TaggedIs<S>(logs: seq<Log>, snapshot: S)
    ensures |Tagged(logs, snapshot)| == |logs|
    ensures logs != [] ==> Tagged(logs, snapshot)[..|logs| - 1] == Tagged(logs[..|logs| - 1], snapshot)
    ensures logs != [] ==> Tagged(logs, snapshot)[|logs| - 1] == (logs[|logs| - 1], snapshot)
    ensures LogsOf(Tagged(logs, snapshot)) == logs
    ensures TaggedRows(Tagged(logs, snapshot)) == RowsOf(logs, snapshot)
  {
    if logs == [] {
    } else {
      TaggedIs(logs[..|logs| - 1], snapshot);
      var t := Tagged(logs, snapshot);
      assert t[..|t| - 1] == Tagged(logs[..|logs| - 1], snapshot);
    }
  }

  lemma {:induction false} LogsConcat<S>(a: seq<(Log, S)>, b: seq<(Log, S)>)
    ensures LogsOf(a + b) == LogsOf(a) + LogsOf(b)
    ensures TaggedRows(a + b) == TaggedRows(a) + TaggedRows(b)
  {
    if b == [] {
      assert a + b == a;
    } else {
      var init := b[..|b| - 1];
      LogsConcat(a, init);
      assert (a + b)[..|a + b| - 1] == a + init;
      assert (a + b)[|a + b| - 1] == b[|b| - 1];
    }
  }

  // Rendering a batch shows what was shown before and then the batch.
  lemma RenderShows<S>(b: Board<S>, shown: seq<(Log, S)>, snapshot: S, batch: seq<Log>)
    requires Shows(b, shown)
    ensures Shows(Rendered(b, snapshot, batch), shown + Tagged(batch, snapshot))
  {
    hide Tagged, RowsOf, LogsOf;
    var more := Tagged(batch, snapshot);
    TaggedIs(batch, snapshot);
    if batch == [] {
      assert shown + more == shown;
    } else {
      var all := shown + more;
      assert all[..|all| - 1] == shown + more[..|more| - 1];
      LogsConcat(shown, more[..|more| - 1]);
      TaggedIs(batch[..|batch| - 1], snapshot);
      assert all[|all| - 1] == (batch[|batch| - 1], snapshot);
      if shown == [] {
        assert TaggedRows(shown) == [];
      } else {
        assert TaggedRows(shown) == b.historyRows + [RowOf(b.latestLog.value, b.latestSnapshot.value)];
      }
    }
  }

  lemma ShowsSame<S>(b: Board<S>, c: Board<S>, shown: seq<(Log, S)>)
    requires Shows(b, shown)
    requires (c.historyRows, c.latestLog, c.latestSnapshot) == (b.historyRows, b.latestLog, b.latestSnapshot)
    ensures Shows(c, shown)
  {
  }

  lemma StepAccounts<S>(b: Board<S>, step: Step<S>, received: seq<Log>, shown: seq<(Log, S)>)
    requires Accounts(b, received, shown) && Enabled(b, step)
    ensures Accounts(After(b, step),
                     received + (if step.Receive? then [step.log] else []),
                     shown + (if step.Render? then Tagged(b.tick.batch, b.tick.snapshot) else []))
  {
    hide Shows, LogsOf, TaggedRows, Tagged;
    assert received + [] == received && shown + [] == shown;
    if !step.Render? {
      ShowsSame(b, After(b, step), shown);
    } else {
      RenderShows(b, shown, b.tick.snapshot, b.tick.batch);
      TaggedIs(b.tick.batch, b.tick.snapshot);
      LogsConcat(shown, Tagged(b.tick.batch, b.tick.snapshot));
    }
  }

  lemma AppendTwice<T>(a: seq<T>, b: seq<T>, c: seq<T>)
    ensures a + b + c == a + (b + c)
  {
  }

  lemma {:induction false} RunAccounts<S>(b: Board<S>, steps: seq<Step<S>>, received: seq<Log>, shown: seq<(Log, S)>)
    requires Accounts(b, received, shown) && IsRun(b, steps)
    ensures Accounts(Final(b, steps), received + Received(steps), shown + Shown(b, steps))
    decreases |steps|
  {
    if steps == [] {
      assert received + [] == received && shown + [] == shown;
    } else {
      hide Accounts, After, Tagged;
      var step, rest := steps[0], steps[1..];
      var next := After(b, step);
      var r := if step.Receive? then [step.log] else [];
      var s := if step.Render? then Tagged(b.tick.batch, b.tick.snapshot) else [];
      StepAccounts(b, step, received, shown);
      RunAccounts(next, rest, received + r, shown + s);
      AppendTwice(received, r, Received(rest));
      AppendTwice(shown, s, Shown(next, rest));
    }
  }

  // Over every interleaving, every received log is in the history, in the batch being
  // recorded, or in the queue, in that order; and whenever no tick is running the page shows
  // every recorded log exactly once, in order of arrival, beside its batch's snapshot.
  lemma LogsConserved<S>(steps: seq<Step<S>>)
    requires IsRun(Board([], [], [], None, None, Idle), steps)
    ensures var start: Board<S> := Board([], [], [], None, None, Idle);
            var b := Final(start, steps);
            && Received(steps) == b.logHistory + Unrecorded(b.tick) + b.queue
            && (b.tick.Idle? ==> LogsOf(Shown(start, steps)) == b.logHistory && Shows(b, Shown(start, steps)))
  {
    var start: Board<S> := Board([], [], [], None, None, Idle);
    RunAccounts(start, steps, [], []);
    assert [] + Received(steps) == Received(steps);
    assert [] + Shown(start, steps) == Shown(start, steps);
  }

  // The page after a run: one row for each recorded log, in order of arrival. The last shows
  // its log beside the current state; before it a separator log is a line, and any other log
  // stands beside the state collected with it.
  lemma PageIs<S>(b: Board<S>, shown: seq<(Log, S)>, realtime: S)
    requires Shows(b, shown)
    ensures |Page(b, realtime)| == |shown|
    ensures forall i :: 0 <= i < |shown| ==>
              Page(b, realtime)[i]
              == if i == |shown| - 1 then LogRow(shown[i].0, realtime)
                 else if shown[i].0.kind == "SPLIT" then SplitLine
                 else LogRow(shown[i].0, shown[i].1)
  {
    if shown != [] {
      TaggedRowsIndex(shown[..|shown| - 1]);
    }
  }

  lemma {:induction false} TaggedRowsIndex<S>(tagged: seq<(Log, S)>)
    ensures |TaggedRows(tagged)| == |tagged|
    ensures forall i :: 0 <= i < |tagged| ==> TaggedRows(tagged)[i] == RowOf(tagged[i].0, tagged[i].1)
  {
    if tagged == [] {
    } else {
      TaggedRowsIndex(tagged[..|tagged| - 1]);
    }
  }

  // So between ticks the page of every run has the recorded logs in their rows.
  lemma PageOfRun<S>(steps: seq<Step<S>>, realtime: S)
    requires IsRun(Board([], [], [], None, None, Idle), steps)
    requires Final(Board([], [], [], None, None, Idle), steps).tick.Idle?
    ensures var start: Board<S> := Board([], [], [], None, None, Idle);
            var b := Final(start, steps);
            var page, shown := Page(b, realtime), Shown(start, steps);
            && |page| == |b.logHistory| == |shown|
            && forall i :: 0 <= i < |page| ==>
                 if i == |page| - 1 then page[i] == LogRow(b.logHistory[i], realtime)
                 else if b.logHistory[i].kind == "SPLIT" then page[i] == SplitLine
                 else page[i] == LogRow(b.logHistory[i], shown[i].1)
  {
    var start: Board<S> := Board([], [], [], None, None, Idle);
    var b := Final(start, steps);
    var shown := Shown(start, steps);
    LogsConserved(steps);
    LogsIndex(shown);
    PageIs(b, shown, realtime);
  }

  lemma {:induction false} LogsIndex<S>(tagged: seq<(Log, S)>)
    ensures |LogsOf(tagged)| == |tagged|
    ensures forall i :: 0 <= i < |tagged| ==> LogsOf(tagged)[i] == tagged[i].0
  {
    if tagged == [] {
    } else {
      LogsIndex(tagged[..|tagged| - 1]);
    }
  }

  // ------------------------------------------------ the server object

  // What a request's body carries.
  type Request = map<string, string>

  function Field(data: Request, name: string, default: string): string {
    if name in data then data[name] else default
  }

  // The live page: the history and, last, the latest log beside the current state.
  function Page<S>(b: Board<S>, realtime: S): seq<PageRow<S>> {
    b.historyRows + match b.latestLog case Some(log) => [LogRow(log, realtime)] case None => []
  }

  class Server<S> {
    var externalLogQueue: seq<Log>
    var logHistory: seq<Log>
    var historyRows: seq<PageRow<S>>
    var latestLog: Option<Log>
    var latestCkptState: Option<S>

    function State(): Board<S>
      reads this
    {
      Board(externalLogQueue, logHistory, historyRows, latestLog, latestCkptState, Idle)
    }

    constructor ()
      ensures State() == Board([], [], [], None, None, Idle)
    {
      externalLogQueue, logHistory, historyRows := [], [], [];
      latestLog, latestCkptState := None, None;
    }

    // A request without a body, or with an empty one, leaves the queue alone; fields that are
    // not given have defaults.
    method ReceiveLog(data: Option<Request>)
      modifies this
      ensures data.None? || data.value == map[] ==> State() == old(State())
      ensures data.Some? && data.value != map[] ==>
                exists log ::
                  && State() == After(old(State()), Receive(log))
                  && log.kind == (if "sort" in data.value then data.value["sort"] else "DUMMY")
                  && log.content == (if "content" in data.value then data.value["content"] else "")
                  && log.timestamp
                     == (if "timestamp" in data.value then data.value["timestamp"] else "Fault Extract Timestamp")
                  && log.location == (if "location" in data.value then data.value["location"] else "")
    {
      if data.Some? && data.value != map[] {
        var log := Log(Field(data.value, "sort", "DUMMY"), Field(data.value, "content", ""),
                       Field(data.value, "timestamp", "Fault Extract Timestamp"), Field(data.value, "location", ""));
        externalLogQueue := externalLogQueue + [log];
        assert State() == After(old(State()), Receive(log));
      }
    }

    method DrainLogQueue() returns (drained: seq<Log>)
      modifies this
      ensures drained == old(externalLogQueue)
      ensures State() == old(State()).(queue := [], logHistory := old(logHistory) + drained)
    {
      drained := [];
      while externalLogQueue != []
        invariant drained + externalLogQueue == old(externalLogQueue)
        invariant State() == old(State()).(queue := externalLogQueue)
        decreases |externalLogQueue|
      {
        drained := drained + [externalLogQueue[0]];
        externalLogQueue := externalLogQueue[1..];
      }
      if drained != [] {
        logHistory := logHistory + drained;
      }
    }

    // One undisturbed tick: its four steps in a row, the page afterwards, and whether there was
    // a new log.
    method UpdateRows(realtime: S) returns (page: seq<PageRow<S>>, newLog: bool)
      modifies this
      ensures newLog <==> old(externalLogQueue) != []
      ensures IsRun(old(State()), [Begin(realtime), Drain, Record, Render])
      ensures State() == Final(old(State()), [Begin(realtime), Drain, Record, Render])
      ensures page == Page(State(), realtime)
    {
      TickIs(State(), realtime);
      var newLogs := DrainLogQueue();
      if newLogs == [] {
        return Page(State(), realtime), false;
      }
      if latestLog.Some? && latestCkptState.Some? {
        historyRows := historyRows + [RowOf(latestLog.value, latestCkptState.value)];
      }
      ghost var rows := historyRows;
      var older := newLogs[..|newLogs| - 1];
      for i := 0 to |older|
        invariant historyRows == rows + RowsOf(older[..i], realtime)
        invariant externalLogQueue == [] && logHistory == old(logHistory) + newLogs
        invariant latestLog == old(latestLog) && latestCkptState == old(latestCkptState)
      {
        assert older[..i + 1][..i] == older[..i];
        historyRows := historyRows + [RowOf(older[i], realtime)];
      }
      assert older[..|older|] == older;
      latestLog := Some(newLogs[|newLogs| - 1]);
      latestCkptState := Some(realtime);
      return Page(State(), realtime), true;
    }
  }

  lemma TickIs<S>(b: Board<S>, snapshot: S)
    requires b.tick.Idle?
    ensures var steps := [Begin(snapshot), Drain, Record, Render];
            && IsRun(b, steps)
            && Final(b, steps) == Rendered(b.(queue := [], logHistory := b.logHistory + b.queue), snapshot, b.queue)
  {
    var s4: seq<Step<S>> := [Render];
    var s3: seq<Step<S>> := [Record, Render];
    var s2: seq<Step<S>> := [Drain, Record, Render];
    var steps := [Begin(snapshot), Drain, Record, Render];
    assert s4[1..] == [] && s3[1..] == s4 && s2[1..] == s3 && steps[1..] == s2;
    var b1 := After(b, Begin(snapshot));
    var b2 := After(b1, Drain);
    var b3 := After(b2, Record);
    assert IsRun(b3, s4) && Final(b3, s4) == After(b3, Render);
    assert IsRun(b2, s3) && Final(b2, s3) == Final(b3, s4);
    assert IsRun(b1, s2) && Final(b1, s2) == Final(b2, s3);
  }
}
