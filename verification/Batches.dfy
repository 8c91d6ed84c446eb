/** The batched loop as the code has it, round by round, and exactly when it completes. */
module Batches {
  import opened CampaignTables
  import opened Dispatch

  predicate InTable(pending: seq<nat>, rows: seq<Recipient>) { forall k | 0 <= k < |pending| :: pending[k] < |rows| }

  /** The inner loop over one fetched batch. */
  function ProcessBatch(run: Run, pending: seq<nat>, env: Env, cfg: Config): Run
    requires InTable(pending, run.t.rows)
    decreases |pending|
  {
    if pending == [] || run.paused || run.aborted then run
    else
      StepShrinks(run, pending[0], env, cfg);
      ProcessBatch(Step(run, pending[0], env, cfg), pending[1..], env, cfg)
  }

  lemma {:induction false} ListInRange(rows: seq<Recipient>, from: nat, limit: nat)
    ensures InTable(ListEligible(rows, from, limit), rows)
    decreases |rows| - from
  {
    if from < |rows| && limit > 0 {
      ListInRange(rows, from + 1, if rows[from].status == Eligible then limit - 1 else limit);
    }
  }

  /** One round of the outer loop: fetch a batch and work through it. */
  function Round(run: Run, batch: nat, env: Env, cfg: Config): Run {
    ListInRange(run.t.rows, 0, batch);
    ProcessBatch(run, ListEligible(run.t.rows, 0, batch), env, cfg)
  }

  function Rounds(run: Run, n: nat, batch: nat, env: Env, cfg: Config): Run
    decreases n
  {
    if n == 0 || run.paused || run.aborted then run else Rounds(Round(run, batch, env, cfg), n - 1, batch, env, cfg)
  }

  predicate Stopped(run: Run) { run.paused || run.aborted }

  /** After `n` rounds the next fetch is empty. */
  predicate DoneAfter(run: Run, n: nat, batch: nat, env: Env, cfg: Config) {
    var r := Rounds(run, n, batch, env, cfg);
    !Stopped(r) && ListEligible(r.t.rows, 0, batch) == []
  }

  ghost predicate Completes(run: Run, batch: nat, env: Env, cfg: Config) {
    exists n: nat :: DoneAfter(run, n, batch, env, cfg)
  }

  ghost predicate NeverStopped(run: Run, batch: nat, env: Env, cfg: Config) {
    forall n: nat :: !Stopped(Rounds(run, n, batch, env, cfg))
  }

  // ------------------------------------------------------------------ a missing contact

  /** A recipient that waits and whose contact is gone. */
  predicate StuckRow(t: Tables, m: nat) { m < |t.rows| && t.rows[m].status == Eligible && t.rows[m].contact < 0 }

  lemma StepKeepsStuckRow(run: Run, i: nat, env: Env, cfg: Config, m: nat)
    requires i < |run.t.rows| && Sane(run) && StuckRow(run.t, m)
    ensures Sane(Step(run, i, env, cfg)) && StuckRow(Step(run, i, env, cfg).t, m)
  {
    hide ProcessOne, DisturbAll;
    var p := ProcessOne(run, i, env.outcomes(run.looked), cfg.maxFailureRate);
    ProcessTouchesOneRow(run, i, env.outcomes(run.looked), cfg.maxFailureRate);
    ProcessKeepsSane(run, i, env.outcomes(run.looked), cfg.maxFailureRate);
    if !p.paused && !p.aborted { DisturbAllSpares(p, OthersAt(env, p.looked), cfg); }
  }

  lemma {:induction false} BatchKeepsStuckRow(run: Run, pending: seq<nat>, env: Env, cfg: Config, m: nat)
    requires InTable(pending, run.t.rows) && Sane(run) && StuckRow(run.t, m)
    ensures Sane(ProcessBatch(run, pending, env, cfg)) && StuckRow(ProcessBatch(run, pending, env, cfg).t, m)
    decreases |pending|
  {
    hide Step, Sane;
    if pending != [] && !run.paused && !run.aborted {
      StepShrinks(run, pending[0], env, cfg);
      StepKeepsStuckRow(run, pending[0], env, cfg, m);
      BatchKeepsStuckRow(Step(run, pending[0], env, cfg), pending[1..], env, cfg, m);
    }
  }

  /** A recipient whose contact is gone stays ELIGIBLE, so after any number of rounds the loop has either been
      stopped or has a non-empty batch to go on with. */
  lemma {:induction false} MissingContactNeverCompletes(run: Run, n: nat, batch: nat, env: Env, cfg: Config, m: nat)
    requires batch >= 1 && Sane(run) && StuckRow(run.t, m)
    ensures var r := Rounds(run, n, batch, env, cfg);
            StuckRow(r.t, m) && ListEligible(r.t.rows, 0, batch) != []
    decreases n
  {
    hide ProcessBatch, Sane;
    ListHead(run.t.rows, 0, batch);
    if n > 0 && !Stopped(run) {
      ListInRange(run.t.rows, 0, batch);
      BatchKeepsStuckRow(run, ListEligible(run.t.rows, 0, batch), env, cfg, m);
      MissingContactNeverCompletes(Round(run, batch, env, cfg), n - 1, batch, env, cfg, m);
    }
  }

  // ------------------------------------------------------------------ otherwise the rounds are the pass

  /** Working through a batch is part of the pass. */
  lemma {:induction false} BatchIsPartOfPass(run: Run, pos: nat, limit: nat, pending: seq<nat>, env: Env, cfg: Config)
      returns (pos': nat)
    requires Sane(run) && EligibleContactsExist(run.t) && InTable(pending, run.t.rows)
    requires |pending| <= limit && (!Stopped(run) ==> pending <= ListEligible(run.t.rows, pos, limit))
    requires pos <= |run.t.rows| && (!run.aborted ==> forall k | 0 <= k < pos :: run.t.rows[k].status != Eligible)
    ensures var r := ProcessBatch(run, pending, env, cfg);
            && SinglePass(run, pos, env, cfg) == SinglePass(r, pos', env, cfg)
            && Sane(r) && EligibleContactsExist(r.t) && pos' <= |r.t.rows|
            && (!r.aborted ==> forall k | 0 <= k < pos' :: r.t.rows[k].status != Eligible)
            && (pending != [] && !Stopped(run) ==>
                  Left(r, env) < Left(run, env) || (Left(r, env) == Left(run, env) == 0 && |r.t.rows| == |run.t.rows| && pos' > pos))
            && (Left(r, env) < Left(run, env) ||
                (Left(r, env) == Left(run, env) && (Left(run, env) == 0 ==> |r.t.rows| == |run.t.rows| && pos' >= pos)))
    decreases |pending|
  {
    hide Step, Sane, EligibleContactsExist;
    pos' := pos;
    if pending != [] && !Stopped(run) {
      NextOfBatch(run, pos, limit, pending, env, cfg);
      StepShrinks(run, pending[0], env, cfg);
      var next := Step(run, pending[0], env, cfg);
      pos' := BatchIsPartOfPass(next, pending[0] + 1, limit - 1, pending[1..], env, cfg);
    }
  }

  /** One round is part of the pass, and brings it nearer its end. */
  lemma RoundIsPartOfPass(run: Run, pos: nat, batch: nat, env: Env, cfg: Config) returns (pos': nat)
    requires batch >= 1 && Sane(run) && EligibleContactsExist(run.t) && !Stopped(run) && pos <= |run.t.rows|
    requires forall k | 0 <= k < pos :: run.t.rows[k].status != Eligible
    requires ListEligible(run.t.rows, 0, batch) != []
    ensures var r := Round(run, batch, env, cfg);
            && SinglePass(run, pos, env, cfg) == SinglePass(r, pos', env, cfg)
            && Sane(r) && EligibleContactsExist(r.t) && pos' <= |r.t.rows|
            && (!r.aborted ==> forall k | 0 <= k < pos' :: r.t.rows[k].status != Eligible)
            && (Left(r, env) < Left(run, env) || (Left(r, env) == Left(run, env) == 0 && |r.t.rows| == |run.t.rows| && pos' > pos))
  {
    hide ProcessBatch, Sane, EligibleContactsExist;
    ListInRange(run.t.rows, 0, batch);
    ListSkips(run.t.rows, 0, pos, batch);
    ListIsShort(run.t.rows, 0, batch);
    pos' := BatchIsPartOfPass(run, pos, batch, ListEligible(run.t.rows, 0, batch), env, cfg);
  }

  lemma {:induction false} ListIsShort(rows: seq<Recipient>, from: nat, limit: nat)
    ensures |ListEligible(rows, from, limit)| <= limit
    decreases |rows| - from
  {
    if from < |rows| && limit > 0 {
      ListIsShort(rows, from + 1, if rows[from].status == Eligible then limit - 1 else limit);
    }
  }

  /** With every waiting contact present the rounds come to an end, where the pass ends. */
  lemma {:induction false} RoundsEnd(run: Run, pos: nat, batch: nat, env: Env, cfg: Config) returns (n: nat)
    requires batch >= 1 && Sane(run) && EligibleContactsExist(run.t) && pos <= |run.t.rows|
    requires !run.aborted ==> forall k | 0 <= k < pos :: run.t.rows[k].status != Eligible
    ensures var r := SinglePass(run, pos, env, cfg);
            Rounds(run, n, batch, env, cfg) == r && (Stopped(r) || ListEligible(r.t.rows, 0, batch) == [])
    decreases Left(run, env), |run.t.rows| - pos
  {
    hide Round, Sane, EligibleContactsExist;
    n := 0;
    if Stopped(run) {
      PassStops(run, pos, env, cfg);
    } else if ListEligible(run.t.rows, 0, batch) == [] {
      ListSkips(run.t.rows, 0, pos, batch);
      BatchesDone(run, pos, batch, env, cfg);
    } else {
      var pos' := RoundIsPartOfPass(run, pos, batch, env, cfg);
      n := RoundsEnd(Round(run, batch, env, cfg), pos', batch, env, cfg);
      n := n + 1;
    }
  }

  lemma {:induction false} RoundsStay(run: Run, n: nat, pos: nat, batch: nat, env: Env, cfg: Config) returns (pos': nat)
    requires batch >= 1 && Sane(run) && EligibleContactsExist(run.t) && pos <= |run.t.rows|
    requires !run.aborted ==> forall k | 0 <= k < pos :: run.t.rows[k].status != Eligible
    ensures var r := Rounds(run, n, batch, env, cfg);
            && SinglePass(run, pos, env, cfg) == SinglePass(r, pos', env, cfg) && pos' <= |r.t.rows|
            && (!r.aborted ==> forall k | 0 <= k < pos' :: r.t.rows[k].status != Eligible)
    decreases n
  {
    hide Round, Sane, EligibleContactsExist;
    pos' := pos;
    if n > 0 && !Stopped(run) {
      if ListEligible(run.t.rows, 0, batch) == [] {
        NothingFetched(run, batch, env, cfg);
        pos' := RoundsStay(Round(run, batch, env, cfg), n - 1, pos, batch, env, cfg);
      } else {
        pos' := RoundIsPartOfPass(run, pos, batch, env, cfg);
        pos' := RoundsStay(Round(run, batch, env, cfg), n - 1, pos', batch, env, cfg);
      }
    }
  }

  lemma NothingFetched(run: Run, batch: nat, env: Env, cfg: Config)
    requires ListEligible(run.t.rows, 0, batch) == []
    ensures Round(run, batch, env, cfg) == run
  {
  }

  lemma SomeoneIsStuck(t: Tables) returns (m: nat)
    requires RefsOk(t) && !EligibleContactsExist(t)
    ensures StuckRow(t, m)
  {
    m :| m < |t.rows| && t.rows[m].status == Eligible && !Known(t.book, t.rows[m].contact);
  }

  /** The loop completes, that is, comes to an empty fetch, exactly when no waiting recipient has lost the contact
      and the pass is neither stopped by the brake nor aborted; so a run that is never stopped completes exactly
      when no waiting recipient has lost the contact. */
  lemma CompletesExactlyWhen(run: Run, batch: nat, env: Env, cfg: Config)
    requires batch >= 1 && Sane(run) && RefsOk(run.t) && !Stopped(run)
    ensures Completes(run, batch, env, cfg) <==>
            EligibleContactsExist(run.t) && !Stopped(SinglePass(run, 0, env, cfg))
    ensures NeverStopped(run, batch, env, cfg) ==> (Completes(run, batch, env, cfg) <==> EligibleContactsExist(run.t))
  {
    hide Rounds, SinglePass, Sane;
    if EligibleContactsExist(run.t) {
      var n := RoundsEnd(run, 0, batch, env, cfg);
      if Stopped(SinglePass(run, 0, env, cfg)) {
        forall n' ensures !DoneAfter(run, n', batch, env, cfg) {
          var pos' := RoundsStay(run, n', 0, batch, env, cfg);
          var r := Rounds(run, n', batch, env, cfg);
          if DoneAfter(run, n', batch, env, cfg) {
            ListSkips(r.t.rows, 0, pos', batch);
            BatchesDone(r, pos', batch, env, cfg);
          }
        }
      } else {
        assert DoneAfter(run, n, batch, env, cfg);
      }
    } else {
      var m := SomeoneIsStuck(run.t);
      forall n ensures !DoneAfter(run, n, batch, env, cfg) {
        MissingContactNeverCompletes(run, n, batch, env, cfg, m);
      }
    }
  }

  /** The same from the table a run starts with. */
  lemma RunCompletesExactlyWhen(t: Tables, counters: Counters, batch: nat, env: Env, cfg: Config)
    requires batch >= 1 && EligibleUnsent(t.rows) && RefsOk(t)
    ensures var run := Start(t, counters, env, cfg);
            && (Completes(run, batch, env, cfg) <==> EligibleContactsExist(t) && !Stopped(SinglePass(run, 0, env, cfg)))
            && (NeverStopped(run, batch, env, cfg) ==> (Completes(run, batch, env, cfg) <==> EligibleContactsExist(t)))
  {
    hide Completes, NeverStopped, SinglePass, DisturbAll, Sane;
    var run := Start(t, counters, env, cfg);
    var first := First(t, counters);
    StartIsSane(t, counters, env, cfg);
    FirstIsSane(t, counters);
    DisturbAllSpares(first, OthersAt(env, 0), cfg);
    SparedRefs(first, run);
    CompletesExactlyWhen(run, batch, env, cfg);
  }

  lemma SparedRefs(a: Run, b: Run)
    requires Spared(a, b) && RefsOk(a.t)
    ensures RefsOk(b.t) && (EligibleContactsExist(b.t) ==> EligibleContactsExist(a.t))
  {
    if EligibleContactsExist(b.t) {
      forall k | 0 <= k < |a.t.rows| && a.t.rows[k].status == Eligible ensures Known(a.t.book, a.t.rows[k].contact) {
        assert b.t.rows[k] == a.t.rows[k];
      }
    }
  }
}
