/** What became of a recipient and of the call made for it, at the end of a run: the status it ends with, whatever
    other sessions do afterwards, and what the run's two counts count. */
module Outcomes {
  import opened Prelude
  import opened Consent
  import opened CampaignTables
  import opened Staging
  import opened Dispatch
  import opened Campaign
  import Delivery

  // ------------------------------------------------------------------ a recipient's turn

  /** The pass, stopped in front of row `j`. */
  function Reached(run: Run, i: nat, j: nat, env: Env, cfg: Config): Run
    decreases j - i
  {
    if i >= j || i >= |run.t.rows| || run.paused || run.aborted then run
    else if run.t.rows[i].status == Eligible then Reached(Step(run, i, env, cfg), i + 1, j, env, cfg)
    else Reached(run, i + 1, j, env, cfg)
  }

  /** The pass goes on from there. */
  lemma {:induction false} PassFrom(run: Run, i: nat, j: nat, env: Env, cfg: Config)
    requires i <= j
    ensures SinglePass(run, i, env, cfg) == SinglePass(Reached(run, i, j, env, cfg), j, env, cfg)
    decreases j - i
  {
    hide Step;
    if i < j && i < |run.t.rows| && !run.paused && !run.aborted {
      if run.t.rows[i].status == Eligible {
        PassStep(run, i, env, cfg);
        PassFrom(Step(run, i, env, cfg), i + 1, j, env, cfg);
      } else {
        PassSkips(run, i, i + 1, env, cfg);
        PassFrom(run, i + 1, j, env, cfg);
      }
    } else if i < j {
      PassStops(run, i, env, cfg);
      PassStops(run, j, env, cfg);
    }
  }

  /** The state of a run when the turn comes to row `j`. */
  function TurnOf(s: State, cfg: Config, env: Env, j: nat): Run { Reached(Start(s.t, s.counters, env, cfg), 0, j, env, cfg) }

  /** The turn comes to row `j`: it waits and the run is not over. */
  predicate HasTurn(turn: Run, j: nat) {
    j < |turn.t.rows| && turn.t.rows[j].status == Eligible && !turn.paused && !turn.aborted
  }

  // ------------------------------------------------------------------ what is settled stays

  /** Row `j` is as this run left it, with the calls made for it: the committed view still has it waiting. */
  ghost predicate SettledAs(run: Run, j: nat, row: Recipient, calls: seq<Call>) {
    && Sane(run) && j < |run.t.rows| && run.t.rows[j] == row && run.saved[j].status == Eligible
    && CallsFor(run.calls, j) == calls
  }

  /** The calls for row `j`, in order. */
  function CallsFor(calls: seq<Call>, j: nat): seq<Call> {
    if calls == [] then []
    else CallsFor(calls[..|calls|-1], j) + if calls[|calls|-1].row == j then [calls[|calls|-1]] else []
  }

  lemma DisturbKeepsSettled(run: Run, j: nat, row: Recipient, calls: seq<Call>, o: Other, cfg: Config)
    requires SettledAs(run, j, row, calls)
    ensures SettledAs(Disturb(run, o, cfg), j, row, calls)
  {
    hide Import, CountersOf, Apply, AfterFailure, FindMeta, CallsFor, Sane, MirrorRow;
    DisturbSpares(run, o, cfg);
    DisturbLooks(run, o, cfg);
    SaneViews(run);
    match o
    case ConsentChange(e) =>
    case Imported(rows, now) =>
      ImportGrows(run.t, rows, now, cfg);
      var t := Import(run.t, rows, now, cfg);
      assert t.rows[..|run.t.rows|][j] == t.rows[j];
    case StatusReport(metaId, status, code) =>
      FindMetaFinds(run.saved, metaId);
  }

  lemma SaneViews(run: Run)
    requires Sane(run)
    ensures |run.saved| == |run.t.rows| && EligibleUnsent(run.saved)
  {
  }

  lemma {:induction false} DisturbAllKeepsSettled(run: Run, j: nat, row: Recipient, calls: seq<Call>, os: seq<Other>, cfg: Config)
    requires SettledAs(run, j, row, calls)
    ensures SettledAs(DisturbAll(run, os, cfg), j, row, calls)
    decreases |os|
  {
    hide SettledAs, Disturb;
    if os != [] {
      DisturbKeepsSettled(run, j, row, calls, os[0], cfg);
      DisturbAllKeepsSettled(Disturb(run, os[0], cfg), j, row, calls, os[1..], cfg);
    }
  }

  /** One more call, or none, and it is for the row whose turn it is. */
  lemma ProcessCallsOnce(run: Run, i: nat, outcome: Outcome, rate: real)
    requires i < |run.t.rows|
    ensures var r := ProcessOne(run, i, outcome, rate);
            r.calls == run.calls || (|r.calls| == |run.calls| + 1 && r.calls[..|run.calls|] == run.calls && r.calls[|run.calls|].row == i)
  {
  }

  lemma ProcessKeepsSettled(run: Run, j: nat, row: Recipient, calls: seq<Call>, i: nat, outcome: Outcome, rate: real)
    requires SettledAs(run, j, row, calls) && i < |run.t.rows| && i != j
    ensures SettledAs(ProcessOne(run, i, outcome, rate), j, row, calls)
  {
    hide ProcessOne, Sane;
    ProcessTouchesOneRow(run, i, outcome, rate);
    ProcessKeepsSane(run, i, outcome, rate);
    ProcessCallsOnce(run, i, outcome, rate);
  }

  /** Whatever comes after it, a row the run has settled stays as it is. */
  lemma {:induction false} PassKeepsSettled(run: Run, j: nat, row: Recipient, calls: seq<Call>, i: nat, env: Env, cfg: Config)
    requires SettledAs(run, j, row, calls) && j < i
    ensures SettledAs(SinglePass(run, i, env, cfg), j, row, calls)
    decreases Left(run, env), if i <= |run.t.rows| then |run.t.rows| - i else 0
  {
    hide SettledAs, ProcessOne, DisturbAll;
    if i < |run.t.rows| && !run.paused && !run.aborted {
      if run.t.rows[i].status == Eligible {
        var outcome := env.outcomes(run.looked);
        var p := ProcessOne(run, i, outcome, cfg.maxFailureRate);
        ProcessKeepsSettled(run, j, row, calls, i, outcome, cfg.maxFailureRate);
        DisturbAllKeepsSettled(p, j, row, calls, OthersAt(env, p.looked), cfg);
        StepShrinks(run, i, env, cfg);
        PassKeepsSettled(Step(run, i, env, cfg), j, row, calls, i + 1, env, cfg);
      } else {
        PassKeepsSettled(run, j, row, calls, i + 1, env, cfg);
      }
    }
  }

  // ------------------------------------------------------------------ before the turn

  /** No call has been made for the rows from `i` on. */
  ghost predicate NoCallsFrom(run: Run, i: nat) { forall k | 0 <= k < |run.calls| :: run.calls[k].row < i }

  lemma {:induction false} NoCallsFor(calls: seq<Call>, j: nat)
    requires forall k | 0 <= k < |calls| :: calls[k].row < j
    ensures CallsFor(calls, j) == []
    decreases |calls|
  {
    if calls != [] { NoCallsFor(calls[..|calls|-1], j); }
  }

  lemma StepBefore(run: Run, i: nat, env: Env, cfg: Config)
    requires i < |run.t.rows| && Sane(run) && NoCallsFrom(run, i)
    ensures Sane(Step(run, i, env, cfg)) && NoCallsFrom(Step(run, i, env, cfg), i + 1)
  {
    hide ProcessOne, DisturbAll, Sane;
    var outcome := env.outcomes(run.looked);
    var p := ProcessOne(run, i, outcome, cfg.maxFailureRate);
    ProcessKeepsSane(run, i, outcome, cfg.maxFailureRate);
    ProcessCallsOnce(run, i, outcome, cfg.maxFailureRate);
    DisturbAllSpares(p, OthersAt(env, p.looked), cfg);
    forall k | 0 <= k < |p.calls| ensures p.calls[k].row < i + 1 {
      if k < |run.calls| { assert p.calls[..|run.calls|][k] == run.calls[k]; }
    }
    DisturbAllLooks(p, OthersAt(env, p.looked), cfg);
  }

  lemma {:induction false} ReachedIsSane(run: Run, i: nat, j: nat, env: Env, cfg: Config)
    requires Sane(run) && NoCallsFrom(run, i) && i <= j
    ensures Sane(Reached(run, i, j, env, cfg)) && NoCallsFrom(Reached(run, i, j, env, cfg), j)
    decreases j - i
  {
    hide Step, Sane;
    if i < j && i < |run.t.rows| && !run.paused && !run.aborted {
      if run.t.rows[i].status == Eligible {
        StepBefore(run, i, env, cfg);
        ReachedIsSane(Step(run, i, env, cfg), i + 1, j, env, cfg);
      } else {
        ReachedIsSane(run, i + 1, j, env, cfg);
      }
    }
  }

  lemma TurnIsSane(s: State, cfg: Config, env: Env, j: nat)
    requires EligibleUnsent(s.t.rows)
    ensures Sane(TurnOf(s, cfg, env, j)) && CallsFor(TurnOf(s, cfg, env, j).calls, j) == []
    ensures SinglePass(Start(s.t, s.counters, env, cfg), 0, env, cfg) == SinglePass(TurnOf(s, cfg, env, j), j, env, cfg)
  {
    hide DisturbAll, Sane, SinglePass, Reached;
    StartIsSane(s.t, s.counters, env, cfg);
    ReachedIsSane(Start(s.t, s.counters, env, cfg), 0, j, env, cfg);
    PassFrom(Start(s.t, s.counters, env, cfg), 0, j, env, cfg);
    NoCallsFor(TurnOf(s, cfg, env, j).calls, j);
  }

  // ------------------------------------------------------------------ the turn

  /** What the turn leaves is what the run ends with. */
  lemma TurnIsKept(s: State, cfg: Config, env: Env, j: nat, row: Recipient, calls: seq<Call>)
    requires EligibleUnsent(s.t.rows) && HasTurn(TurnOf(s, cfg, env, j), j)
    requires var turn := TurnOf(s, cfg, env, j);
             SettledAs(ProcessOne(turn, j, env.outcomes(turn.looked), cfg.maxFailureRate), j, row, calls)
    ensures SettledAs(Ended(s, cfg, env), j, row, calls)
  {
    hide DisturbAll, SettledAs, SinglePass, Reached, ProcessOne, Sane;
    var turn := TurnOf(s, cfg, env, j);
    var p := ProcessOne(turn, j, env.outcomes(turn.looked), cfg.maxFailureRate);
    TurnIsSane(s, cfg, env, j);
    DisturbAllKeepsSettled(p, j, row, calls, OthersAt(env, p.looked), cfg);
    PassStep(turn, j, env, cfg);
    PassKeepsSettled(Step(turn, j, env, cfg), j, row, calls, j + 1, env, cfg);
    DisturbAllKeepsSettled(SinglePass(Start(s.t, s.counters, env, cfg), 0, env, cfg), j, row, calls, env.closing, cfg);
  }

  lemma TurnIsSettled(turn: Run, j: nat, outcome: Outcome, rate: real)
    requires Sane(turn) && HasTurn(turn, j)
    ensures var p := ProcessOne(turn, j, outcome, rate);
            && Sane(p) && p.saved == turn.saved && j < |p.t.rows| == |p.saved| && p.saved[j].status == Eligible
  {
    hide ProcessOne;
    ProcessKeepsSane(turn, j, outcome, rate);
    ProcessTouchesOneRow(turn, j, outcome, rate);
  }

  lemma OneCall(calls: seq<Call>, c: Call)
    ensures CallsFor(calls + [c], c.row) == CallsFor(calls, c.row) + [c]
  {
    assert (calls + [c])[..|calls|] == calls;
  }

  /** The recipient can be called when its turn comes. */
  predicate Callable(turn: Run, j: nat) {
    HasTurn(turn, j) && Known(turn.t.book, turn.t.rows[j].contact) &&
    var c := turn.t.book.contacts[turn.t.rows[j].contact];
    c.hash !in turn.t.book.suppressed && c.readable
  }

  /** The suppression list and the stored number are looked at when the turn comes. A recipient whose number is
      suppressed by then ends REJECTED as suppressed in mid-campaign and one whose number does not decrypt ends FAILED;
      neither is called. One whose contact is gone is left as it was. */
  lemma NotCalled(s: State, cfg: Config, env: Env, j: nat)
    requires EligibleUnsent(s.t.rows) && HasTurn(TurnOf(s, cfg, env, j), j) && !Callable(TurnOf(s, cfg, env, j), j)
    ensures var turn, end := TurnOf(s, cfg, env, j), Ended(s, cfg, env);
            var row := turn.t.rows[j];
            && j < |end.t.rows|
            && (!Known(turn.t.book, row.contact) ==> end.t.rows[j] == row && CallsFor(end.calls, j) == [])
            && (Known(turn.t.book, row.contact) ==>
                  var c := turn.t.book.contacts[row.contact];
                  && (c.hash in turn.t.book.suppressed ==>
                        end.t.rows[j] == row.(status := Rejected, reason := SuppressedMidCampaign) && CallsFor(end.calls, j) == [])
                  && (c.hash !in turn.t.book.suppressed && !c.readable ==>
                        end.t.rows[j] == row.(status := Failed, errorCode := 0) && CallsFor(end.calls, j) == []))
  {
    hide TurnOf, Ended, Sane, CallsFor;
    var turn := TurnOf(s, cfg, env, j);
    var outcome := env.outcomes(turn.looked);
    TurnIsSane(s, cfg, env, j);
    TurnIsSettled(turn, j, outcome, cfg.maxFailureRate);
    var p := ProcessOne(turn, j, outcome, cfg.maxFailureRate);
    assert p.calls == turn.calls;
    TurnIsKept(s, cfg, env, j, p.t.rows[j], []);
  }

  /** Every other recipient whose turn comes is called exactly once, with its own variables, and what comes back decides:
      accepted, it ends SENT with the message's id; refused by the API, FAILED with the error's code. */
  lemma CallDecides(s: State, cfg: Config, env: Env, j: nat)
    requires EligibleUnsent(s.t.rows) && Callable(TurnOf(s, cfg, env, j), j) && !Ended(s, cfg, env).aborted
    ensures var turn, end := TurnOf(s, cfg, env, j), Ended(s, cfg, env);
            var row, outcome := turn.t.rows[j], env.outcomes(turn.looked);
            && j < |end.t.rows| && CallsFor(end.calls, j) == [Call(j, row.contact, row.variables, outcome.Accepted?)]
            && (outcome.Accepted? ==> end.t.rows[j] == row.(status := Sent, metaId := Some(outcome.metaId)))
            && (outcome.ApiError? ==> end.t.rows[j] == row.(status := Failed, errorCode := outcome.code))
            && !outcome.CircuitOpen?
  {
    hide TurnOf, Ended, Sane, CallsFor, Brake;
    var turn := TurnOf(s, cfg, env, j);
    var outcome := env.outcomes(turn.looked);
    TurnIsSane(s, cfg, env, j);
    TurnIsSettled(turn, j, outcome, cfg.maxFailureRate);
    var p := ProcessOne(turn, j, outcome, cfg.maxFailureRate);
    var c := Call(j, turn.t.rows[j].contact, turn.t.rows[j].variables, outcome.Accepted?);
    OneCall(turn.calls, c);
    assert p.calls == turn.calls + [c] && [] + [c] == [c];
    TurnIsKept(s, cfg, env, j, p.t.rows[j], [c]);
    if p.aborted { AbortStays(s, cfg, env, j); }
  }

  /** A run that aborts at a turn ends aborted. */
  lemma AbortStays(s: State, cfg: Config, env: Env, j: nat)
    requires EligibleUnsent(s.t.rows) && HasTurn(TurnOf(s, cfg, env, j), j)
    requires var turn := TurnOf(s, cfg, env, j); ProcessOne(turn, j, env.outcomes(turn.looked), cfg.maxFailureRate).aborted
    ensures Ended(s, cfg, env).aborted
  {
    hide TurnOf, ProcessOne, DisturbAll, Sane, SinglePass;
    var turn := TurnOf(s, cfg, env, j);
    TurnIsSane(s, cfg, env, j);
    PassStep(turn, j, env, cfg);
    PassStops(Step(turn, j, env, cfg), j + 1, env, cfg);
    DisturbAllLooks(SinglePass(Start(s.t, s.counters, env, cfg), 0, env, cfg), env.closing, cfg);
  }

  /** A run that is rolled back leaves every recipient whose turn came waiting, as it was; what other sessions did stays. */
  lemma RolledBackRowsWait(s: State, cfg: Config, env: Env, j: nat)
    requires EligibleUnsent(s.t.rows) && MayRun(s, cfg) && Ended(s, cfg, env).aborted && HasTurn(TurnOf(s, cfg, env, j), j)
    ensures var s' := Live(s, cfg, env);
            && j < |s'.t.rows| && s'.t.rows[j] == TurnOf(s, cfg, env, j).t.rows[j]
            && s'.status == s.status && s'.committed == s.committed
  {
    hide TurnOf, Ended;
    SavedTurnIsKept(s, cfg, env, j, TurnOf(s, cfg, env, j).t.rows[j]);
  }

  lemma SavedIsTheRow(run: Run, j: nat)
    requires Sane(run) && j < |run.t.rows| && run.t.rows[j].status == Eligible
    ensures j < |run.saved| && run.saved[j] == run.t.rows[j]
  {
  }

  /** A row that waits in the committed view stays as it is there. */
  lemma {:induction false} DisturbAllKeepsWaiting(run: Run, j: nat, row: Recipient, os: seq<Other>, cfg: Config)
    requires Sane(run) && j < |run.saved| && run.saved[j] == row && row.status == Eligible
    ensures var r := DisturbAll(run, os, cfg); Sane(r) && j < |r.saved| && r.saved[j] == row
    decreases |os|
  {
    hide Disturb, Sane;
    if os != [] {
      DisturbSpares(run, os[0], cfg);
      DisturbKeepsWaiting(run, j, row, os[0], cfg);
      DisturbAllKeepsWaiting(Disturb(run, os[0], cfg), j, row, os[1..], cfg);
    }
  }

  lemma DisturbKeepsWaiting(run: Run, j: nat, row: Recipient, o: Other, cfg: Config)
    requires Sane(run) && j < |run.saved| && run.saved[j] == row && row.status == Eligible
    ensures var r := Disturb(run, o, cfg); j < |r.saved| && r.saved[j] == row
  {
    hide Import, CountersOf, Apply, AfterFailure, FindMeta, MirrorRow;
    match o
    case Imported(rows, now) => ImportGrows(run.t, rows, now, cfg);
    case StatusReport(metaId, status, code) => FindMetaFinds(run.saved, metaId);
    case _ =>
  }

  lemma {:induction false} PassKeepsWaiting(run: Run, j: nat, row: Recipient, i: nat, env: Env, cfg: Config)
    requires Sane(run) && j < |run.saved| && run.saved[j] == row && row.status == Eligible
    ensures var r := SinglePass(run, i, env, cfg); Sane(r) && j < |r.saved| && r.saved[j] == row
    decreases Left(run, env), if i <= |run.t.rows| then |run.t.rows| - i else 0
  {
    hide Sane, ProcessOne, DisturbAll;
    if i < |run.t.rows| && !run.paused && !run.aborted {
      if run.t.rows[i].status == Eligible {
        var outcome := env.outcomes(run.looked);
        var p := ProcessOne(run, i, outcome, cfg.maxFailureRate);
        ProcessTouchesOneRow(run, i, outcome, cfg.maxFailureRate);
        ProcessKeepsSane(run, i, outcome, cfg.maxFailureRate);
        DisturbAllKeepsWaiting(p, j, row, OthersAt(env, p.looked), cfg);
        StepShrinks(run, i, env, cfg);
        PassKeepsWaiting(Step(run, i, env, cfg), j, row, i + 1, env, cfg);
      } else {
        PassKeepsWaiting(run, j, row, i + 1, env, cfg);
      }
    }
  }

  lemma SavedTurnIsKept(s: State, cfg: Config, env: Env, j: nat, row: Recipient)
    requires EligibleUnsent(s.t.rows) && HasTurn(TurnOf(s, cfg, env, j), j)
    requires TurnOf(s, cfg, env, j).t.rows[j] == row
    ensures j < |Ended(s, cfg, env).saved| && Ended(s, cfg, env).saved[j] == row
  {
    hide TurnOf, Sane, DisturbAll, SinglePass;
    var turn := TurnOf(s, cfg, env, j);
    TurnIsSane(s, cfg, env, j);
    SavedIsTheRow(turn, j);
    PassKeepsWaiting(turn, j, row, j, env, cfg);
    DisturbAllKeepsWaiting(SinglePass(Start(s.t, s.counters, env, cfg), 0, env, cfg), j, row, env.closing, cfg);
  }

  // ------------------------------------------------------------------ the message of an accepted call

  /** The run has stored this message under this id and nobody else has seen it. */
  ghost predicate Stored(run: Run, id: string, m: Message) { id in run.own && id in run.t.messages && run.t.messages[id] == m }

  lemma DisturbKeepsStored(run: Run, id: string, m: Message, o: Other, cfg: Config)
    requires Stored(run, id, m)
    ensures Stored(Disturb(run, o, cfg), id, m)
  {
    hide Import, CountersOf, Apply, AfterFailure, FindMeta, Mirrored;
    match o
    case Imported(rows, now) => ImportGrows(run.t, rows, now, cfg);
    case _ =>
  }

  lemma {:induction false} DisturbAllKeepsStored(run: Run, id: string, m: Message, os: seq<Other>, cfg: Config)
    requires Stored(run, id, m)
    ensures Stored(DisturbAll(run, os, cfg), id, m)
    decreases |os|
  {
    hide Stored, Disturb;
    if os != [] {
      DisturbKeepsStored(run, id, m, os[0], cfg);
      DisturbAllKeepsStored(Disturb(run, os[0], cfg), id, m, os[1..], cfg);
    }
  }

  lemma ProcessKeepsStored(run: Run, id: string, m: Message, i: nat, outcome: Outcome, rate: real)
    requires Stored(run, id, m) && i < |run.t.rows|
    ensures Stored(ProcessOne(run, i, outcome, rate), id, m)
  {
    hide Brake;
  }

  lemma {:induction false} PassKeepsStored(run: Run, id: string, m: Message, i: nat, env: Env, cfg: Config)
    requires Stored(run, id, m)
    ensures Stored(SinglePass(run, i, env, cfg), id, m)
    decreases Left(run, env), if i <= |run.t.rows| then |run.t.rows| - i else 0
  {
    hide Stored, ProcessOne, DisturbAll;
    if i < |run.t.rows| && !run.paused && !run.aborted {
      if run.t.rows[i].status == Eligible {
        var outcome := env.outcomes(run.looked);
        var p := ProcessOne(run, i, outcome, cfg.maxFailureRate);
        ProcessKeepsStored(run, id, m, i, outcome, cfg.maxFailureRate);
        DisturbAllKeepsStored(p, id, m, OthersAt(env, p.looked), cfg);
        StepShrinks(run, i, env, cfg);
        PassKeepsStored(Step(run, i, env, cfg), id, m, i + 1, env, cfg);
      } else {
        PassKeepsStored(run, id, m, i + 1, env, cfg);
      }
    }
  }

  /** An accepted call leaves a stored message for its contact, as sent, under the accepted id. */
  lemma AcceptedIsStored(s: State, cfg: Config, env: Env, j: nat)
    requires EligibleUnsent(s.t.rows) && Callable(TurnOf(s, cfg, env, j), j) && !Ended(s, cfg, env).aborted
    requires env.outcomes(TurnOf(s, cfg, env, j).looked).Accepted?
    ensures var turn, end := TurnOf(s, cfg, env, j), Ended(s, cfg, env);
            Stored(end, env.outcomes(turn.looked).metaId, Message(turn.t.rows[j].contact, Delivery.Sent))
  {
    hide TurnOf, Sane, DisturbAll, SinglePass, Brake, Stored;
    var turn := TurnOf(s, cfg, env, j);
    var outcome := env.outcomes(turn.looked);
    var m := Message(turn.t.rows[j].contact, Delivery.Sent);
    TurnIsSane(s, cfg, env, j);
    var p := ProcessOne(turn, j, outcome, cfg.maxFailureRate);
    if outcome.metaId in turn.t.messages {
      AbortStays(s, cfg, env, j);
    } else {
      NewlyStored(p, outcome.metaId, m);
      DisturbAllKeepsStored(p, outcome.metaId, m, OthersAt(env, p.looked), cfg);
      PassStep(turn, j, env, cfg);
      PassKeepsStored(Step(turn, j, env, cfg), outcome.metaId, m, j + 1, env, cfg);
      DisturbAllKeepsStored(SinglePass(Start(s.t, s.counters, env, cfg), 0, env, cfg), outcome.metaId, m, env.closing, cfg);
    }
  }

  lemma NewlyStored(p: Run, id: string, m: Message)
    requires id in p.own && id in p.t.messages && p.t.messages[id] == m
    ensures Stored(p, id, m)
  {
  }

  // ------------------------------------------------------------------ the run's own counts

  /** The rows that wait in the committed view and that this run has given the status. */
  function Turned(run: Run, status: RecipientStatus): set<nat> {
    set k: nat | k < |run.t.rows| && k < |run.saved| && run.saved[k].status == Eligible && run.t.rows[k].status == status
  }

  /** The counts are those of the rows. */
  ghost predicate Counted(run: Run) {
    Sane(run) && run.sent == |Turned(run, Sent)| && run.failed == |Turned(run, Failed)|
  }

  lemma DisturbTurns(run: Run, o: Other, cfg: Config, status: RecipientStatus)
    requires Sane(run) && (status == Sent || status == Failed)
    ensures Turned(Disturb(run, o, cfg), status) == Turned(run, status)
  {
    hide Import, CountersOf, Apply, AfterFailure, FindMeta;
    match o
    case ConsentChange(e) =>
    case Imported(rows, now) =>
      ImportGrows(run.t, rows, now, cfg);
      if Sendable(cfg) { AppendedTurnsNothing(run, Disturb(run, o, cfg), Import(run.t, rows, now, cfg), status); }
    case StatusReport(metaId, st, code) =>
      FindMetaFinds(run.saved, metaId);
  }

  lemma AppendedTurnsNothing(run: Run, after: Run, t: Tables, status: RecipientStatus)
    requires Sane(run) && Grown(run.t, t) && (status == Sent || status == Failed)
    requires after.t.rows == t.rows && after.saved == run.saved + t.rows[|run.t.rows|..]
    ensures Turned(after, status) == Turned(run, status)
  {
    forall k: nat | k < |run.t.rows| ensures t.rows[k] == run.t.rows[k] { assert t.rows[..|run.t.rows|][k] == t.rows[k]; }
  }

  lemma {:induction false} DisturbAllCounts(run: Run, os: seq<Other>, cfg: Config)
    requires Counted(run)
    ensures Counted(DisturbAll(run, os, cfg))
    decreases |os|
  {
    hide Disturb, Turned, Sane;
    if os != [] {
      DisturbTurns(run, os[0], cfg, Sent);
      DisturbTurns(run, os[0], cfg, Failed);
      DisturbSpares(run, os[0], cfg);
      DisturbAllCounts(Disturb(run, os[0], cfg), os[1..], cfg);
    }
  }

  lemma TurnsOne(run: Run, after: Run, i: nat, status: RecipientStatus)
    requires Sane(run) && i < |run.t.rows| && run.t.rows[i].status == Eligible && status != Eligible
    requires after.saved == run.saved && |after.t.rows| == |run.t.rows|
    requires forall k | 0 <= k < |run.t.rows| && k != i :: after.t.rows[k] == run.t.rows[k]
    ensures |Turned(after, status)| == |Turned(run, status)| + if after.t.rows[i].status == status then 1 else 0
  {
    hide Turned, Sane;
    NotYetTurned(run, i, status);
    TurnedSet(run, after, i, status);
  }

  lemma NotYetTurned(run: Run, i: nat, status: RecipientStatus)
    requires i < |run.t.rows| && run.t.rows[i].status == Eligible && status != Eligible
    ensures i !in Turned(run, status)
  {
  }

  lemma TurnedSet(run: Run, after: Run, i: nat, status: RecipientStatus)
    requires Sane(run) && i < |run.t.rows| && run.t.rows[i].status == Eligible && status != Eligible
    requires after.saved == run.saved && |after.t.rows| == |run.t.rows|
    requires forall k | 0 <= k < |run.t.rows| && k != i :: after.t.rows[k] == run.t.rows[k]
    ensures Turned(after, status) == Turned(run, status) + if after.t.rows[i].status == status then {i} else {}
  {
  }

  /** What one recipient adds to the counts. */
  lemma ProcessAdds(run: Run, i: nat, outcome: Outcome, rate: real)
    requires i < |run.t.rows| && run.t.rows[i].status == Eligible
    ensures var r := ProcessOne(run, i, outcome, rate);
            && r.sent == run.sent + (if r.t.rows[i].status == Sent then 1 else 0)
            && r.failed == run.failed + (if r.t.rows[i].status == Failed then 1 else 0)
  {
    hide Brake;
  }

  lemma ProcessCounts(run: Run, i: nat, outcome: Outcome, rate: real)
    requires Counted(run) && i < |run.t.rows| && run.t.rows[i].status == Eligible
    ensures Counted(ProcessOne(run, i, outcome, rate))
  {
    hide ProcessOne, Turned, Sane;
    ProcessTouchesOneRow(run, i, outcome, rate);
    ProcessKeepsSane(run, i, outcome, rate);
    ProcessAdds(run, i, outcome, rate);
    TurnsOne(run, ProcessOne(run, i, outcome, rate), i, Sent);
    TurnsOne(run, ProcessOne(run, i, outcome, rate), i, Failed);
  }

  lemma {:induction false} PassCounts(run: Run, i: nat, env: Env, cfg: Config)
    requires Counted(run)
    ensures Counted(SinglePass(run, i, env, cfg))
    decreases Left(run, env), if i <= |run.t.rows| then |run.t.rows| - i else 0
  {
    hide Counted, ProcessOne, DisturbAll;
    if i < |run.t.rows| && !run.paused && !run.aborted {
      if run.t.rows[i].status == Eligible {
        var outcome := env.outcomes(run.looked);
        var p := ProcessOne(run, i, outcome, cfg.maxFailureRate);
        ProcessCounts(run, i, outcome, cfg.maxFailureRate);
        DisturbAllCounts(p, OthersAt(env, p.looked), cfg);
        StepShrinks(run, i, env, cfg);
        PassCounts(Step(run, i, env, cfg), i + 1, env, cfg);
      } else {
        PassCounts(run, i + 1, env, cfg);
      }
    }
  }

  lemma FirstIsCounted(t: Tables, counters: Counters)
    requires EligibleUnsent(t.rows)
    ensures Counted(First(t, counters))
  {
    assert Turned(First(t, counters), Sent) == {} && Turned(First(t, counters), Failed) == {};
  }

  /** The run's counts, which the brake looks at, are the numbers of recipients the run turned SENT and FAILED, whatever
      happens during the run. */
  lemma CountsAreOfRows(s: State, cfg: Config, env: Env)
    requires EligibleUnsent(s.t.rows)
    ensures var end := Ended(s, cfg, env);
            end.sent == |Turned(end, Sent)| && end.failed == |Turned(end, Failed)|
  {
    hide DisturbAll, SinglePass, Turned, Sane;
    FirstIsCounted(s.t, s.counters);
    DisturbAllCounts(First(s.t, s.counters), OthersAt(env, 0), cfg);
    PassCounts(Start(s.t, s.counters, env, cfg), 0, env, cfg);
    DisturbAllCounts(SinglePass(Start(s.t, s.counters, env, cfg), 0, env, cfg), env.closing, cfg);
  }

  /** What a run that is not rolled back commits is what it ended with, and the stored counters are the numbers of
      recipients with each status. */
  lemma CommittedRunIsCounted(s: State, cfg: Config, env: Env)
    requires MayRun(s, cfg) && !Ended(s, cfg, env).aborted
    ensures var end, s' := Ended(s, cfg, env), Live(s, cfg, env);
            && s'.t == end.t && s'.committed == s.committed + end.calls && s'.lost == s.lost
            && s'.counters.sent == |With(end.t.rows, Sent)| && s'.counters.failed == |With(end.t.rows, Failed)|
            && s'.counters.rejected == |With(end.t.rows, Rejected)| && s'.counters.total == |end.t.rows|
  {
    hide Ended, With, CountersOf;
    CountersAreSizes(Ended(s, cfg, env).t.rows);
    CountersAddUp(Ended(s, cfg, env).t.rows);
  }
}
