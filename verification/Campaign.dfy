/** One campaign over its whole life: staging, dry runs, live runs, status webhooks and the consent events
    of everyone else, in any order, and between any two recipients of a live run. */
module Campaign {
  import opened Prelude
  import opened Consent
  import opened CampaignTables
  import opened Staging
  import opened Dispatch
  import opened Eligibility
  import Delivery

  datatype CampaignStatus =
    Draft | Validated | InQueue | Running | Paused | Completed | FailedCampaign | Cancelled

  /** What is committed. `committed` are the template calls of runs that were committed, `lost` those of runs that
      were rolled back after the calls had been made. */
  datatype State = State(t: Tables, status: CampaignStatus, counters: Counters,
                         committed: seq<Call>, lost: seq<Call>)

  // ------------------------------------------------------------------ live runs

  predicate MayRun(s: State, cfg: Config) { s.status !in {Completed, Cancelled, Running} && Sendable(cfg) }

  /** A live run up to the end of its transaction, in terms of the single pass. */
  function Ended(s: State, cfg: Config, env: Env): Run {
    DisturbAll(SinglePass(Start(s.t, s.counters, env, cfg), 0, env, cfg), env.closing, cfg)
  }

  /** A live run. An escaping error rolls the run's own writes back; what other sessions did, and the calls
      already made, stay. */
  function Live(s: State, cfg: Config, env: Env): State {
    if !MayRun(s, cfg) then s
    else
      var end := Ended(s, cfg, env);
      if end.aborted then s.(t := Committed(end), counters := end.counters, lost := s.lost + end.calls)
      else
        State(end.t, if end.paused || ListEligible(end.t.rows, 0, 1) != [] then Paused else Completed,
              CountersOf(end.t.rows), s.committed + end.calls, s.lost)
  }

  /** With every waiting contact present, a run that is committed and not stopped has left nobody ELIGIBLE whom
      it could see; it ends COMPLETED, and is not PAUSED, exactly when the brake did not stop it and nobody was
      staged between its last fetch and its end. */
  lemma FinalStatus(s: State, cfg: Config, env: Env)
    requires MayRun(s, cfg) && EligibleContactsExist(s.t) && EligibleUnsent(s.t.rows)
    requires !Ended(s, cfg, env).aborted
    ensures var r, end, s' := SinglePass(Start(s.t, s.counters, env, cfg), 0, env, cfg), Ended(s, cfg, env), Live(s, cfg, env);
            && (s'.status == Completed <==> s'.status != Paused) && |r.t.rows| <= |end.t.rows|
            && (s'.status == Completed <==>
                  !r.paused && forall k | |r.t.rows| <= k < |end.t.rows| :: end.t.rows[k].status != Eligible)
            && (!r.paused ==> forall k | 0 <= k < |r.t.rows| :: end.t.rows[k].status != Eligible)
            && (env.closing == [] ==> (s'.status == Completed <==> !r.paused))
  {
    hide SinglePass, DisturbAll, Sane;
    StartIsSane(s.t, s.counters, env, cfg);
    PassEnds(Start(s.t, s.counters, env, cfg), 0, env, cfg);
    var r := SinglePass(Start(s.t, s.counters, env, cfg), 0, env, cfg);
    DisturbAllSpares(r, env.closing, cfg);
    NobodyDisturbs(r, cfg);
    var end := Ended(s, cfg, env);
    ListHead(end.t.rows, 0, 1);
    if ListEligible(end.t.rows, 0, 1) != [] { assert end.t.rows[ListEligible(end.t.rows, 0, 1)[0]].status == Eligible; }
  }

  // ------------------------------------------------------------------ every action in the life of a campaign

  /** What a session that is no live run does: it sees all that is committed. */
  function Whole(s: State): Run { First(s.t, s.counters) }

  function Commit(s: State, o: Other, cfg: Config): State {
    var r := Disturb(Whole(s), o, cfg);
    s.(t := r.t, counters := r.counters)
  }

  datatype Action =
    | OtherAction(o: Other)
    | DryRunAction
    | LiveAction(env: Env)

  function Do(s: State, a: Action, cfg: Config): State {
    match a
    case OtherAction(o) => Commit(s, o, cfg)
    case DryRunAction => s.(counters := CountersOf(s.t.rows))
    case LiveAction(env) => Live(s, cfg, env)
  }

  function DoAll(s: State, actions: seq<Action>, cfg: Config): State
    decreases |actions|
  {
    if actions == [] then s else DoAll(Do(s, actions[0], cfg), actions[1..], cfg)
  }

  /** Other sessions see the committed tables and nothing else: what one of them does in the middle of a run is
      what it would do to those tables alone. */
  lemma OthersSeeCommittedTables(run: Run, o: Other, cfg: Config, s: State)
    requires SameContacts(run.saved, run.t.rows) && s.t == Committed(run) && s.counters == run.counters
    ensures var after := Disturb(run, o, cfg);
            Committed(after) == Commit(s, o, cfg).t && after.counters == Commit(s, o, cfg).counters
    ensures SameContacts(Disturb(run, o, cfg).saved, Disturb(run, o, cfg).t.rows)
  {
    hide Import, CountersOf, Apply, AfterFailure, FindMeta, Mirrored;
    match o
    case ConsentChange(e) =>
    case Imported(rows, now) =>
      ImportAlike(run.t, s.t, rows, now, cfg);
      ImportGrows(run.t, rows, now, cfg);
      ImportGrows(s.t, rows, now, cfg);
      if Sendable(cfg) { AppendedIsSuffix(run, s, rows, now, cfg); }
    case StatusReport(metaId, status, code) =>
      var k := FindMeta(run.saved, metaId);
      MirrorKeepsContact(run.t.rows, k, status, code);
      MirrorKeepsContact(run.saved, k, status, code);
      if metaId in run.t.messages && metaId !in run.own {
        var m := run.t.messages[metaId];
        var now := m.(status := Delivery.Update(m.status, status));
        assert (run.t.messages - run.own)[metaId := now] == run.t.messages[metaId := now] - run.own;
      }
  }

  lemma AppendedIsSuffix(run: Run, s: State, rows: seq<ImportRow>, now: int, cfg: Config)
    requires Sendable(cfg) && SameContacts(run.saved, run.t.rows) && s.t == Committed(run)
    ensures var t, u := Import(run.t, rows, now, cfg), Import(s.t, rows, now, cfg);
            && |run.t.rows| <= |t.rows| && |s.t.rows| <= |u.rows|
            && u.rows == s.t.rows + u.rows[|s.t.rows|..] && u.rows == run.saved + t.rows[|run.t.rows|..]
            && u.book == t.book && u.messages == run.t.messages - run.own && t.messages == run.t.messages
  {
    hide Import;
    ImportAlike(run.t, s.t, rows, now, cfg);
    ImportGrows(run.t, rows, now, cfg);
    ImportGrows(s.t, rows, now, cfg);
  }

  // ------------------------------------------------------------------ the invariant

  ghost predicate UniqueContacts(rows: seq<Recipient>) {
    forall j, k | 0 <= j < k < |rows| :: rows[j].contact != rows[k].contact
  }

  ghost predicate RowsOk(rows: seq<Recipient>) {
    forall k | 0 <= k < |rows| ::
      && rows[k].status in {Eligible, Rejected, Sent, Delivered, Read, Failed}
      && (rows[k].status == Eligible ==> rows[k].metaId == None)
  }

  /** Calls were made for distinct rows, none of which is ELIGIBLE any more. */
  ghost predicate CallsOk(rows: seq<Recipient>, calls: seq<Call>) {
    && (forall k | 0 <= k < |calls| ::
          && calls[k].row < |rows|
          && calls[k].contact == rows[calls[k].row].contact
          && rows[calls[k].row].status != Eligible)
    && (forall j, k | 0 <= j < k < |calls| :: calls[j].row != calls[k].row)
  }

  ghost predicate MessagesOk(t: Tables) { forall id | id in t.messages :: t.messages[id].contact < |t.book.contacts| }

  ghost predicate TablesOk(t: Tables) {
    Consent.Invariant(t.book) && RefsOk(t) && UniqueContacts(t.rows) && RowsOk(t.rows) && MessagesOk(t)
  }

  ghost predicate Invariant(s: State) {
    TablesOk(s.t) && CallsOk(s.t.rows, s.committed) && forall k | 0 <= k < |s.lost| :: s.lost[k].row < |s.t.rows|
  }

  ghost predicate AtMostOncePerContact(calls: seq<Call>) {
    forall j, k | 0 <= j < k < |calls| :: calls[j].contact != calls[k].contact
  }

  /** Row `m` waits, with a contact that has a number. */
  predicate Reachable(b: Book, rows: seq<Recipient>, m: nat) {
    m < |rows| && rows[m].status == Eligible && Known(b, rows[m].contact) && b.contacts[rows[m].contact].readable
  }

  /** A run in progress: both views are in order, and its own calls are for rows that still wait in the committed
      view. */
  ghost predicate RunOk(run: Run, committed: seq<Call>) {
    && TablesOk(run.t) && Sane(run) && RowsOk(run.saved) && SameContacts(run.saved, run.t.rows)
    && (run.aborted || CallsOk(run.t.rows, committed + run.calls))
    && CallsOk(run.saved, committed)
    && forall k | 0 <= k < |run.calls| :: Reachable(run.t.book, run.saved, run.calls[k].row)
  }

  lemma EmptyCampaignOk(c: CampaignStatus)
    ensures Invariant(State(Tables(Book([], {}, [], []), [], map[]), c, CountersOf([]), [], []))
  {
  }

  // ------------------------------------------------------------------ other sessions keep it

  lemma StageOneKeeps(t: Tables, rep: Report, row: ImportRow, normalise: string -> Option<string>,
      template: Template, now: int, s: Settings)
    requires TablesOk(t)
    ensures TablesOk(StageOne(t, rep, row, normalise, template, now, s).0)
  {
    hide CheckEligibility;
    if row.phone != "" && normalise(row.phone).Some? {
      FindHashFinds(t.book.contacts, normalise(row.phone).value);
      GetOrCreateKeeps(t, normalise(row.phone).value);
    }
  }

  lemma GetOrCreateKeeps(t: Tables, hash: string)
    requires TablesOk(t)
    ensures TablesOk(GetOrCreate(t, hash)) && GetOrCreate(t, hash).rows == t.rows
  {
    FindHashFinds(t.book.contacts, hash);
  }

  lemma {:induction false} StageAllKeeps(t: Tables, rep: Report, rows: seq<ImportRow>, normalise: string -> Option<string>,
      template: Template, now: int, s: Settings)
    requires TablesOk(t)
    ensures TablesOk(StageAll(t, rep, rows, normalise, template, now, s).0)
    decreases |rows|
  {
    hide TablesOk;
    if rows != [] {
      StageOneKeeps(t, rep, rows[0], normalise, template, now, s);
      var (t1, rep1) := StageOne(t, rep, rows[0], normalise, template, now, s);
      StageAllKeeps(t1, rep1, rows[1..], normalise, template, now, s);
    }
  }

  lemma CallsStay(rows: seq<Recipient>, rows': seq<Recipient>, calls: seq<Call>)
    requires CallsOk(rows, calls) && |rows| <= |rows'|
    requires forall k | 0 <= k < |rows| ::
               rows'[k].contact == rows[k].contact && (rows[k].status != Eligible ==> rows'[k].status != Eligible)
    ensures CallsOk(rows', calls)
  {
  }

  lemma ImportKeeps(run: Run, rows: seq<ImportRow>, now: int, cfg: Config, committed: seq<Call>)
    requires RunOk(run, committed)
    ensures RunOk(Disturb(run, Imported(rows, now), cfg), committed)
  {
    hide Import, CountersOf, CallsOk, Consent.Invariant, UniqueContacts, Sane;
    if Sendable(cfg) {
      var after := Disturb(run, Imported(rows, now), cfg);
      ImportSpares(run, rows, now, cfg);
      ImportGrows(run.t, rows, now, cfg);
      ImportKeepsTables(run.t, rows, now, cfg);
      forall k | 0 <= k < |run.t.rows| ensures after.t.rows[k] == run.t.rows[k] {
        assert after.t.rows[..|run.t.rows|][k] == after.t.rows[k];
      }
      forall k | 0 <= k < |run.t.book.contacts| ensures after.t.book.contacts[k] == run.t.book.contacts[k] {
        assert after.t.book.contacts[..|run.t.book.contacts|][k] == after.t.book.contacts[k];
      }
      if !run.aborted { CallsStay(run.t.rows, after.t.rows, committed + run.calls); }
      CallsStay(run.saved, after.saved, committed);
    }
  }

  lemma ImportKeepsTables(t: Tables, rows: seq<ImportRow>, now: int, cfg: Config)
    requires TablesOk(t)
    ensures TablesOk(Import(t, rows, now, cfg))
  {
    hide StageAll, TablesOk;
    if Sendable(cfg) { StageAllKeeps(t, EMPTY_REPORT, rows, cfg.normalise, cfg.template.value, now, cfg.settings); }
  }

  lemma ReportKeeps(run: Run, metaId: string, status: Delivery.DeliveryStatus, code: int, cfg: Config, committed: seq<Call>)
    requires RunOk(run, committed)
    ensures RunOk(Disturb(run, StatusReport(metaId, status, code), cfg), committed)
  {
    hide AfterFailure, FindMeta, CallsOk, Consent.Invariant, Sane, Mirrored;
    if metaId in run.t.messages && metaId !in run.own {
      var after := Disturb(run, StatusReport(metaId, status, code), cfg);
      var k := FindMeta(run.saved, metaId);
      ReportSpares(run, metaId, status, code, cfg);
      SaneMeans(run, metaId);
      MirrorKeepsContact(run.t.rows, k, status, code);
      MirrorKeepsContact(run.saved, k, status, code);
      MirrorKeepsRows(run.t.rows, k, status, code);
      MirrorKeepsRows(run.saved, k, status, code);
      FailureKeepsContacts(run.t.book, run.t.messages[metaId], status, code);
      FailureKeepsBook(run.t.book, run.t.messages[metaId], status, code);
      if !run.aborted { CallsStay(run.t.rows, after.t.rows, committed + run.calls); }
      CallsStay(run.saved, after.saved, committed);
    }
  }

  /** The row a visible message belongs to waits in neither view. */
  lemma SaneMeans(run: Run, metaId: string)
    requires Sane(run)
    ensures FindMeta(run.saved, metaId) < |run.saved| ==>
              run.saved[FindMeta(run.saved, metaId)].status != Eligible && run.t.rows[FindMeta(run.saved, metaId)].status != Eligible
  {
    FindMetaFinds(run.saved, metaId);
  }

  lemma MirrorKeepsRows(rows: seq<Recipient>, k: nat, status: Delivery.DeliveryStatus, code: int)
    requires RowsOk(rows) && (k < |rows| ==> rows[k].status != Eligible)
    ensures RowsOk(Mirrored(rows, k, status, code))
  {
  }

  lemma FailureKeepsBook(book: Book, m: Message, status: Delivery.DeliveryStatus, code: int)
    requires Consent.Invariant(book)
    ensures Consent.Invariant(AfterFailure(book, m, status, code))
  {
    hide Consent.Invariant;
    EventKeepsInvariant(book, SuppressEvent(m.contact));
  }

  lemma ChangeKeeps(run: Run, e: Event, cfg: Config, committed: seq<Call>)
    requires RunOk(run, committed)
    ensures RunOk(Disturb(run, ConsentChange(e), cfg), committed)
  {
    hide Apply, CallsOk, Consent.Invariant, UniqueContacts;
    EventKeepsInvariant(run.t.book, e);
    EventKeepsContacts(run.t.book, e);
  }

  /** What another session does between two recipients keeps both views in order. */
  lemma DisturbKeeps(run: Run, o: Other, cfg: Config, committed: seq<Call>)
    requires RunOk(run, committed)
    ensures RunOk(Disturb(run, o, cfg), committed)
  {
    hide RunOk, Disturb;
    match o
    case ConsentChange(e) => ChangeKeeps(run, e, cfg, committed);
    case Imported(rows, now) => ImportKeeps(run, rows, now, cfg, committed);
    case StatusReport(metaId, status, code) => ReportKeeps(run, metaId, status, code, cfg, committed);
  }

  lemma {:induction false} DisturbAllKeeps(run: Run, os: seq<Other>, cfg: Config, committed: seq<Call>)
    requires RunOk(run, committed)
    ensures RunOk(DisturbAll(run, os, cfg), committed)
    decreases |os|
  {
    hide RunOk, Disturb;
    if os != [] {
      DisturbKeeps(run, os[0], cfg, committed);
      DisturbAllKeeps(Disturb(run, os[0], cfg), os[1..], cfg, committed);
    }
  }

  // ------------------------------------------------------------------ the run keeps it

  lemma ProcessKeepsBook(run: Run, i: nat, outcome: Outcome, rate: real)
    requires i < |run.t.rows| && Consent.Invariant(run.t.book)
    ensures Consent.Invariant(ProcessOne(run, i, outcome, rate).t.book)
  {
    hide Consent.Invariant;
    if Known(run.t.book, run.t.rows[i].contact) {
      var hash := run.t.book.contacts[run.t.rows[i].contact].hash;
      if hash !in run.t.book.suppressed { CallKeepsInvariant(run.t.book, hash); }
    }
  }

  /** The row and the call a step leaves. */
  lemma ProcessCalls(run: Run, i: nat, outcome: Outcome, rate: real)
    requires i < |run.t.rows| && run.t.rows[i].status == Eligible && !run.aborted
    ensures var r := ProcessOne(run, i, outcome, rate);
            && (r.calls == run.calls ||
                (r.calls == run.calls + [Call(i, run.t.rows[i].contact, run.t.rows[i].variables, outcome.Accepted?)] &&
                 Reachable(run.t.book, run.t.rows, i) && (r.aborted || r.t.rows[i].status != Eligible)))
            && (r.t.rows[i] == run.t.rows[i] || r.t.rows[i].status in {Rejected, Sent, Failed})
            && (forall id | id in r.t.messages :: id in run.t.messages || r.t.messages[id].contact == run.t.rows[i].contact)
            && (forall id | id in run.t.messages :: id in r.t.messages && r.t.messages[id] == run.t.messages[id])
            && (r.t.messages != run.t.messages ==> Known(run.t.book, run.t.rows[i].contact))
  {
  }

  /** One recipient. */
  lemma ProcessKeeps(run: Run, i: nat, outcome: Outcome, rate: real, committed: seq<Call>)
    requires i < |run.t.rows| && run.t.rows[i].status == Eligible && !run.aborted && RunOk(run, committed)
    ensures RunOk(ProcessOne(run, i, outcome, rate), committed)
  {
    hide ProcessOne, Consent.Invariant;
    var r := ProcessOne(run, i, outcome, rate);
    ProcessKeepsBook(run, i, outcome, rate);
    ProcessTouchesOneRow(run, i, outcome, rate);
    ProcessCalls(run, i, outcome, rate);
    ProcessKeepsSane(run, i, outcome, rate);
    if !r.aborted { CallsExtend(run.t.rows, r.t.rows, run.calls, i, r.calls, committed); }
  }

  lemma CallsExtend(rows: seq<Recipient>, rows': seq<Recipient>, calls: seq<Call>, i: nat, calls': seq<Call>, committed: seq<Call>)
    requires CallsOk(rows, committed + calls) && i < |rows| == |rows'| && rows[i].status == Eligible
    requires rows'[i].contact == rows[i].contact
    requires forall k | 0 <= k < |rows| && k != i :: rows'[k] == rows[k]
    requires calls' == calls ||
             (exists c: Call :: calls' == calls + [c] && c.row == i && c.contact == rows[i].contact && rows'[i].status != Eligible)
    ensures CallsOk(rows', committed + calls')
  {
    if calls' != calls {
      var c :| calls' == calls + [c] && c.row == i && c.contact == rows[i].contact && rows'[i].status != Eligible;
      assert committed + calls' == committed + calls + [c];
    }
  }

  lemma StepKeepsRun(run: Run, i: nat, env: Env, cfg: Config, committed: seq<Call>)
    requires i < |run.t.rows| && run.t.rows[i].status == Eligible && !run.aborted && RunOk(run, committed)
    ensures RunOk(Step(run, i, env, cfg), committed)
  {
    hide ProcessOne, DisturbAll, RunOk;
    ProcessKeeps(run, i, env.outcomes(run.looked), cfg.maxFailureRate, committed);
    var p := ProcessOne(run, i, env.outcomes(run.looked), cfg.maxFailureRate);
    DisturbAllKeeps(p, OthersAt(env, p.looked), cfg, committed);
  }

  lemma {:induction false} PassKeeps(run: Run, i: nat, env: Env, cfg: Config, committed: seq<Call>)
    requires RunOk(run, committed)
    ensures RunOk(SinglePass(run, i, env, cfg), committed)
    decreases Left(run, env), if i <= |run.t.rows| then |run.t.rows| - i else 0
  {
    hide RunOk, Step;
    if i < |run.t.rows| && !run.paused && !run.aborted {
      if run.t.rows[i].status == Eligible {
        StepShrinks(run, i, env, cfg);
        StepKeepsRun(run, i, env, cfg, committed);
        PassKeeps(Step(run, i, env, cfg), i + 1, env, cfg, committed);
      } else {
        PassKeeps(run, i + 1, env, cfg, committed);
      }
    }
  }

  lemma WholeIsOk(s: State)
    requires Invariant(s)
    ensures RunOk(Whole(s), s.committed)
  {
    assert s.committed + [] == s.committed;
  }

  lemma EndedIsOk(s: State, cfg: Config, env: Env)
    requires Invariant(s)
    ensures RunOk(Ended(s, cfg, env), s.committed)
  {
    hide RunOk, Invariant, DisturbAll, SinglePass;
    WholeIsOk(s);
    DisturbAllKeeps(Whole(s), OthersAt(env, 0), cfg, s.committed);
    PassKeeps(Start(s.t, s.counters, env, cfg), 0, env, cfg, s.committed);
    DisturbAllKeeps(SinglePass(Start(s.t, s.counters, env, cfg), 0, env, cfg), env.closing, cfg, s.committed);
  }

  /** How the committed tables can change under a run: rows are added, and those that wait keep waiting. */
  ghost predicate Later(a: Tables, b: Tables) {
    && |a.rows| <= |b.rows| && |a.book.contacts| <= |b.book.contacts|
    && (forall k | 0 <= k < |a.rows| ::
          (a.rows[k].status == Eligible <==> b.rows[k].status == Eligible) && b.rows[k].contact == a.rows[k].contact)
    && (forall k | 0 <= k < |a.book.contacts| :: b.book.contacts[k].readable == a.book.contacts[k].readable)
  }

  lemma DisturbIsLater(run: Run, o: Other, cfg: Config)
    requires Sane(run)
    ensures Later(Committed(run), Committed(Disturb(run, o, cfg))) && Sane(Disturb(run, o, cfg))
  {
    hide Apply, Import, CountersOf, AfterFailure, FindMeta, Mirrored;
    DisturbSpares(run, o, cfg);
    match o
    case ConsentChange(e) => EventKeepsContacts(run.t.book, e);
    case Imported(rows, now) => ImportGrows(run.t, rows, now, cfg);
    case StatusReport(metaId, status, code) =>
      var k := FindMeta(run.saved, metaId);
      SaneMeans(run, metaId);
      MirrorKeepsContact(run.saved, k, status, code);
  }

  lemma LaterStill(a: Tables, b: Tables, c: Tables)
    requires Later(a, b) && Later(b, c)
    ensures Later(a, c)
  {
  }

  lemma LaterNot(a: Tables)
    ensures Later(a, a)
  {
  }

  lemma {:induction false} DisturbAllIsLater(run: Run, os: seq<Other>, cfg: Config)
    requires Sane(run)
    ensures Later(Committed(run), Committed(DisturbAll(run, os, cfg))) && Sane(DisturbAll(run, os, cfg))
    decreases |os|
  {
    hide Disturb, Later, Sane;
    LaterNot(Committed(run));
    if os != [] {
      DisturbIsLater(run, os[0], cfg);
      DisturbAllIsLater(Disturb(run, os[0], cfg), os[1..], cfg);
      LaterStill(Committed(run), Committed(Disturb(run, os[0], cfg)), Committed(DisturbAll(run, os, cfg)));
    }
  }

  lemma StepIsLater(run: Run, i: nat, env: Env, cfg: Config)
    requires i < |run.t.rows| && Sane(run)
    ensures Later(Committed(run), Committed(Step(run, i, env, cfg))) && Sane(Step(run, i, env, cfg))
  {
    hide ProcessOne, DisturbAll, Sane;
    var p := ProcessOne(run, i, env.outcomes(run.looked), cfg.maxFailureRate);
    ProcessTouchesOneRow(run, i, env.outcomes(run.looked), cfg.maxFailureRate);
    ProcessKeepsSane(run, i, env.outcomes(run.looked), cfg.maxFailureRate);
    DisturbAllIsLater(p, OthersAt(env, p.looked), cfg);
  }

  lemma {:induction false} PassIsLater(run: Run, i: nat, env: Env, cfg: Config)
    requires Sane(run)
    ensures Later(Committed(run), Committed(SinglePass(run, i, env, cfg))) && Sane(SinglePass(run, i, env, cfg))
    decreases Left(run, env), if i <= |run.t.rows| then |run.t.rows| - i else 0
  {
    hide Later, Sane, Step, Committed;
    LaterNot(Committed(run));
    if i < |run.t.rows| && !run.paused && !run.aborted {
      if run.t.rows[i].status == Eligible {
        StepShrinks(run, i, env, cfg);
        StepIsLater(run, i, env, cfg);
        PassIsLater(Step(run, i, env, cfg), i + 1, env, cfg);
        LaterStill(Committed(run), Committed(Step(run, i, env, cfg)), Committed(SinglePass(run, i, env, cfg)));
      } else {
        PassIsLater(run, i + 1, env, cfg);
      }
    }
  }

  lemma EndedIsLater(s: State, cfg: Config, env: Env)
    requires EligibleUnsent(s.t.rows)
    ensures Later(s.t, Committed(Ended(s, cfg, env)))
  {
    hide Later, DisturbAll, SinglePass, Sane;
    WholeIsSane(s);
    DisturbAllIsLater(Whole(s), OthersAt(env, 0), cfg);
    var r0 := Start(s.t, s.counters, env, cfg);
    PassIsLater(r0, 0, env, cfg);
    var r := SinglePass(r0, 0, env, cfg);
    DisturbAllIsLater(r, env.closing, cfg);
    LaterStill(s.t, Committed(r0), Committed(r));
    LaterStill(s.t, Committed(r), Committed(Ended(s, cfg, env)));
  }

  lemma WholeIsSane(s: State)
    requires EligibleUnsent(s.t.rows)
    ensures Sane(Whole(s)) && Committed(Whole(s)) == s.t
  {
    assert s.t.messages - {} == s.t.messages;
  }

  lemma RowsOkUnsent(rows: seq<Recipient>)
    requires RowsOk(rows)
    ensures EligibleUnsent(rows)
  {
  }

  lemma LiveKeeps(s: State, cfg: Config, env: Env)
    requires Invariant(s)
    ensures Invariant(Live(s, cfg, env))
  {
    hide Ended, CallsOk, Consent.Invariant;
    if MayRun(s, cfg) {
      EndedIsOk(s, cfg, env);
      RowsOkUnsent(s.t.rows);
      EndedIsLater(s, cfg, env);
      EndedIsSized(Ended(s, cfg, env), s.committed);
    }
  }

  lemma EndedIsSized(run: Run, committed: seq<Call>)
    requires RunOk(run, committed)
    ensures |run.saved| == |run.t.rows| && TablesOk(Committed(run))
  {
  }

  lemma CommitKeeps(s: State, o: Other, cfg: Config)
    requires Invariant(s)
    ensures Invariant(Commit(s, o, cfg))
  {
    hide Disturb, RunOk;
    WholeIsOk(s);
    DisturbKeeps(Whole(s), o, cfg, s.committed);
    DisturbLooks(Whole(s), o, cfg);
    RunOkMeans(Disturb(Whole(s), o, cfg), s.committed);
    assert s.committed + [] == s.committed;
  }

  lemma RunOkMeans(run: Run, committed: seq<Call>)
    requires RunOk(run, committed)
    ensures TablesOk(run.t) && (run.aborted || CallsOk(run.t.rows, committed + run.calls))
  {
  }

  /** Every action keeps the invariant. */
  lemma DoKeeps(s: State, a: Action, cfg: Config)
    requires Invariant(s)
    ensures Invariant(Do(s, a, cfg))
  {
    hide Live, Commit;
    match a
    case OtherAction(o) => CommitKeeps(s, o, cfg);
    case DryRunAction =>
    case LiveAction(env) => LiveKeeps(s, cfg, env);
  }

  /** Whatever happens, in whatever order, between runs and between any two recipients of a run: no template call
      reaches a hash between one of its suppression events and its next opt-in, an opted-out or suppressed contact
      has an entry, committed runs call each contact at most once, and refreshed counters add up. */
  lemma {:induction false} WholeLife(s: State, actions: seq<Action>, cfg: Config)
    requires Invariant(s)
    ensures var s' := DoAll(s, actions, cfg);
            && Invariant(s')
            && Safe(s'.t.book.history)
            && StatusImpliesEntry(s'.t.book)
            && AtMostOncePerContact(s'.committed)
            && var c := CountersOf(s'.t.rows);
               c.total == |s'.t.rows| == c.eligible + c.rejected + c.sent + c.delivered + c.read + c.failed
    decreases |actions|
  {
    hide Do;
    if actions == [] {
      CountersAddUp(s.t.rows);
      forall j, k | 0 <= j < k < |s.committed| ensures s.committed[j].contact != s.committed[k].contact {
        assert s.committed[j].row != s.committed[k].row;
      }
    } else {
      DoKeeps(s, actions[0], cfg);
      WholeLife(Do(s, actions[0], cfg), actions[1..], cfg);
    }
  }

  /** The same in the middle of a run: after any disturbances and any number of recipients nothing that was said of
      the history or the statuses is violated, and the calls of the run and of all committed runs are for different
      contacts. */
  lemma EvenMidRun(run: Run, committed: seq<Call>)
    requires RunOk(run, committed) && !run.aborted
    ensures Safe(run.t.book.history) && StatusImpliesEntry(run.t.book) && AtMostOncePerContact(committed + run.calls)
  {
    var calls := committed + run.calls;
    forall j, k | 0 <= j < k < |calls| ensures calls[j].contact != calls[k].contact {
      assert calls[j].row != calls[k].row;
    }
  }

  // ------------------------------------------------------------------ hard bounces

  /** A permanent failure leaves the number suppressed exactly when it was suppressed before or the message is
      visible to the session that handles the report: a report for a message of a run that has not been committed
      is dropped. */
  lemma FailureSuppressesExactlyWhen(run: Run, metaId: string, code: int, cfg: Config)
    requires TablesOk(run.t) && metaId in run.t.messages && Undeliverable(code)
    ensures var after := Disturb(run, StatusReport(metaId, Delivery.Failed, code), cfg);
            var hash := run.t.book.contacts[run.t.messages[metaId].contact].hash;
            && (hash in after.t.book.suppressed <==> hash in run.t.book.suppressed || metaId !in run.own)
            && (metaId in run.own ==> after == run)
  {
  }

  /** A report suppresses a number that was not suppressed exactly when it says FAILED with one of the two codes for
      numbers that cannot be reached, and its message is visible; it suppresses no other number. */
  lemma ReportSuppressesExactlyWhen(run: Run, metaId: string, status: Delivery.DeliveryStatus, code: int, cfg: Config, hash: string)
    requires TablesOk(run.t) && hash !in run.t.book.suppressed
    ensures hash in Disturb(run, StatusReport(metaId, status, code), cfg).t.book.suppressed <==>
              && status == Delivery.Failed && (code == 131026 || code == 131047)
              && metaId in run.t.messages && metaId !in run.own
              && run.t.book.contacts[run.t.messages[metaId].contact].hash == hash
  {
    hide FindMeta, Mirrored;
  }

  /** Between runs every stored message is visible, so the number of an undeliverable one is suppressed, whether or
      not the handler had to add it; a report for an unknown message changes nothing. */
  lemma UndeliverableNumbersAreSuppressed(s: State, metaId: string, code: int, cfg: Config)
    requires Invariant(s) && Undeliverable(code)
    ensures var s' := Do(s, OtherAction(StatusReport(metaId, Delivery.Failed, code)), cfg);
            if metaId in s.t.messages
            then s'.t.book.contacts[s.t.messages[metaId].contact].hash in s'.t.book.suppressed
            else s' == s
  {
    if metaId in s.t.messages { FailureSuppressesExactlyWhen(Whole(s), metaId, code, cfg); }
  }

  const ONE_ROW := [Recipient(0, [], Eligible, NoReason, None, 0)]
  const ONE_CONTACT := Book([Contact("a", OptedIn, true)], {}, [], [])
  const LONE_CAMPAIGN := State(Tables(ONE_CONTACT, ONE_ROW, map[]), Draft, CountersOf([]), [], [])

  /** The bounce of the only message arrives before the run that sent it is committed. */
  const EARLY_BOUNCE := Env([[], [StatusReport("m", Delivery.Failed, 131026)]], (k: nat) => Accepted("m"), [])

  /** Such a bounce is lost: the run is committed with the message as sent and the number not suppressed. */
  lemma EarlyBounceIsLost(s: State, cfg: Config)
    requires s.t.rows == ONE_ROW && s.t.messages == map[] && s.t.book == ONE_CONTACT
    requires MayRun(s, cfg) && cfg.maxFailureRate > 0.0
    ensures var s' := Live(s, cfg, EARLY_BOUNCE);
            && s'.t.messages == map["m" := Message(0, Delivery.Sent)]
            && s'.t.rows == [Recipient(0, [], Sent, NoReason, Some("m"), 0)] && "a" !in s'.t.book.suppressed
  {
    hide SinglePass;
    var run := Start(s.t, s.counters, EARLY_BOUNCE, cfg);
    assert run == Run(s.t, ONE_ROW, {}, s.counters, 0, 0, 0, [], false, false);
    var p := ProcessOne(run, 0, Accepted("m"), cfg.maxFailureRate);
    var os := OthersAt(EARLY_BOUNCE, 1);
    assert Disturb(p, os[0], cfg) == p;
    assert os[1..] == [];
    assert DisturbAll(p, os, cfg) == p;
    PassStep(run, 0, EARLY_BOUNCE, cfg);
    PassStops(p, 1, EARLY_BOUNCE, cfg);
    NobodyDisturbs(p, cfg);
  }

  // ------------------------------------------------------------------ runs that are rolled back

  const TWO_ROWS := [Recipient(0, [], Eligible, NoReason, None, 0), Recipient(1, [], Eligible, NoReason, None, 0)]
  const TWO_CONTACTS := Book([Contact("a", OptedIn, true), Contact("b", OptedIn, true)], {}, [], [])
  const FRESH_CAMPAIGN := State(Tables(TWO_CONTACTS, TWO_ROWS, map[]), Draft, CountersOf([]), [], [])

  /** The first call is accepted and every later one meets the open breaker. */
  const BREAKER_OPENS := Env([], (k: nat) => if k == 0 then Accepted("m") else CircuitOpen, [])

  const TWO_CALLS := [Call(0, 0, [], true), Call(1, 1, [], false)]

  lemma FreshCampaignOk()
    ensures Invariant(FRESH_CAMPAIGN) && Invariant(LONE_CAMPAIGN)
  {
  }

  lemma BreaksAfterOne(s: State, cfg: Config)
    requires s.t.rows == TWO_ROWS && s.t.messages == map[]
    requires s.t.book.contacts == TWO_CONTACTS.contacts && s.t.book.suppressed == {} && cfg.maxFailureRate > 0.0
    ensures var end := Ended(s, cfg, BREAKER_OPENS);
            && end.aborted && end.calls == TWO_CALLS && end.saved == TWO_ROWS
            && Committed(end).messages == map[]
            && end.t.book.contacts == s.t.book.contacts && end.t.book.suppressed == {}
  {
    hide SinglePass;
    var env := BREAKER_OPENS;
    var run := Whole(s);
    NobodyDisturbs(run, cfg);
    var a := ProcessOne(run, 0, env.outcomes(0), cfg.maxFailureRate);
    NobodyDisturbs(a, cfg);
    assert Step(run, 0, env, cfg) == a;
    var b := ProcessOne(a, 1, env.outcomes(1), cfg.maxFailureRate);
    assert Step(a, 1, env, cfg) == b;
    PassStep(run, 0, env, cfg);
    PassStep(a, 1, env, cfg);
    PassStops(b, 2, env, cfg);
    NobodyDisturbs(b, cfg);
    assert b.t.messages - b.own == map[];
  }

  /** A rolled-back run forgets its calls: two recipients, the breaker opens on the second, and the first, whose
      message was accepted, is still ELIGIBLE; the next run sends it again. */
  lemma RolledBackRunRepeatsACall(cfg: Config)
    requires Sendable(cfg) && cfg.maxFailureRate > 0.0
    ensures var s1 := Live(FRESH_CAMPAIGN, cfg, BREAKER_OPENS);
            var s2 := Live(s1, cfg, BREAKER_OPENS);
            s1.lost == TWO_CALLS && s2.lost == TWO_CALLS + TWO_CALLS && TWO_CALLS[0].accepted
  {
    hide Ended;
    BreaksAfterOne(FRESH_CAMPAIGN, cfg);
    var s1 := Live(FRESH_CAMPAIGN, cfg, BREAKER_OPENS);
    assert s1.lost == TWO_CALLS;
    BreaksAfterOne(s1, cfg);
  }

  function RunCalls(s: State, cfg: Config, env: Env): seq<Call> { Ended(s, cfg, env).calls }

  /** Somebody whose message a rolled-back run got accepted gets another one accepted in this live run. */
  ghost predicate Repeats(s: State, cfg: Config, env: Env) {
    exists j, k | 0 <= j < |RunCalls(s, cfg, env)| && 0 <= k < |s.lost| ::
      RunCalls(s, cfg, env)[j].row == s.lost[k].row && RunCalls(s, cfg, env)[j].accepted && s.lost[k].accepted
  }

  /** Row `m` can still be called, and a rolled-back run got its message accepted. */
  ghost predicate Exposed(s: State, m: nat) {
    Reachable(s.t.book, s.t.rows, m) && exists k | 0 <= k < |s.lost| :: s.lost[k].row == m && s.lost[k].accepted
  }

  /** A run only calls rows that wait, with readable numbers, in what is committed. */
  lemma CallsReachableRows(s: State, cfg: Config, env: Env, j: nat)
    requires Invariant(s) && j < |RunCalls(s, cfg, env)| && RunCalls(s, cfg, env)[j].row < |s.t.rows|
    ensures Reachable(s.t.book, s.t.rows, RunCalls(s, cfg, env)[j].row)
  {
    hide Ended, Sane, CallsOk, Consent.Invariant;
    EndedIsOk(s, cfg, env);
    RowsOkUnsent(s.t.rows);
    EndedIsLater(s, cfg, env);
    var end := Ended(s, cfg, env);
    assert Reachable(end.t.book, end.saved, end.calls[j].row);
    assert Committed(end).rows == end.saved && Committed(end).book == end.t.book;
  }

  /** Everybody is suppressed by an operator, and then one contact opts in. */
  function OnlyOneLeft(cs: seq<Contact>, c: nat): seq<Event> {
    if cs == [] then [OptInEvent(c, Marketing, 0, 0)] else [OperatorEvent(cs[0].hash)] + OnlyOneLeft(cs[1..], c)
  }

  lemma {:induction false} OnlyOneStays(b: Book, cs: seq<Contact>, c: nat)
    requires c < |b.contacts|
    ensures var b' := ApplyAll(b, OnlyOneLeft(cs, c));
            && b.contacts[c].hash !in b'.suppressed
            && (forall k | 0 <= k < |cs| && cs[k].hash != b.contacts[c].hash :: cs[k].hash in b'.suppressed)
            && (forall h | h in b.suppressed && h != b.contacts[c].hash :: h in b'.suppressed)
    decreases |cs|
  {
    var es := OnlyOneLeft(cs, c);
    if cs == [] {
      assert ApplyAll(Apply(b, es[0]), es[1..]) == Apply(b, es[0]);
    } else {
      assert es[1..] == OnlyOneLeft(cs[1..], c);
      OnlyOneStays(Apply(b, es[0]), cs[1..], c);
      assert forall k | 1 <= k < |cs| :: cs[k] == cs[1..][k-1];
    }
  }

  /** Everybody but contact `c` is suppressed. */
  ghost predicate OnlyOne(b: Book, c: int) {
    Known(b, c) && b.contacts[c].hash !in b.suppressed && b.contacts[c].readable &&
    forall k | 0 <= k < |b.contacts| && k != c :: b.contacts[k].hash in b.suppressed
  }

  /** Everybody but one is suppressed before the first recipient, and every call is accepted. */
  function OneLeftEnv(b: Book, c: nat): Env { Env([Changes(OnlyOneLeft(b.contacts, c))], (k: nat) => Accepted("m"), []) }

  lemma {:induction false} PassReaches(run: Run, i: nat, m: nat, env: Env, cfg: Config)
    requires i <= m < |run.t.rows| && !run.paused && !run.aborted && run.sent == run.failed == 0
    requires run.t.rows[m].status == Eligible && UniqueContacts(run.t.rows) && OnlyOne(run.t.book, run.t.rows[m].contact)
    requires |env.others| <= 1 && forall k :: env.outcomes(k).Accepted?
    ensures var r := SinglePass(run, i, env, cfg);
            exists j | 0 <= j < |r.calls| :: r.calls[j].row == m && r.calls[j].accepted
    decreases m - i
  {
    hide SinglePass;
    if run.t.rows[i].status != Eligible {
      PassSkips(run, i, i + 1, env, cfg);
      PassReaches(run, i + 1, m, env, cfg);
    } else {
      var outcome := env.outcomes(run.looked);
      var next := ProcessOne(run, i, outcome, cfg.maxFailureRate);
      NobodyDisturbs(next, cfg);
      assert Step(run, i, env, cfg) == next;
      PassStep(run, i, env, cfg);
      if i == m {
        var n := |run.calls|;
        assert next.calls[n].row == m && next.calls[n].accepted;
        PassOnlyAddsCalls(next, i + 1, env, cfg);
        assert SinglePass(next, i + 1, env, cfg).calls[n] == next.calls[n];
      } else {
        assert run.t.rows[i].contact != run.t.rows[m].contact;
        PassReaches(next, i + 1, m, env, cfg);
      }
    }
  }

  lemma {:induction false} PassOnlyAddsCalls(run: Run, i: nat, env: Env, cfg: Config)
    ensures run.calls <= SinglePass(run, i, env, cfg).calls
    decreases Left(run, env), if i <= |run.t.rows| then |run.t.rows| - i else 0
  {
    if i < |run.t.rows| && !run.paused && !run.aborted {
      if run.t.rows[i].status == Eligible {
        StepShrinks(run, i, env, cfg);
        StepOnlyAddsCalls(run, i, env, cfg);
        PassOnlyAddsCalls(Step(run, i, env, cfg), i + 1, env, cfg);
      } else {
        PassOnlyAddsCalls(run, i + 1, env, cfg);
      }
    }
  }

  lemma StepOnlyAddsCalls(run: Run, i: nat, env: Env, cfg: Config)
    requires i < |run.t.rows|
    ensures run.calls <= Step(run, i, env, cfg).calls
  {
    hide DisturbAll;
    var p := ProcessOne(run, i, env.outcomes(run.looked), cfg.maxFailureRate);
    DisturbAllLooks(p, OthersAt(env, p.looked), cfg);
  }

  lemma ExposedIsReached(s: State, cfg: Config, m: nat)
    requires Invariant(s) && Reachable(s.t.book, s.t.rows, m)
    ensures var env := OneLeftEnv(s.t.book, s.t.rows[m].contact);
            exists j | 0 <= j < |RunCalls(s, cfg, env)| :: RunCalls(s, cfg, env)[j].row == m && RunCalls(s, cfg, env)[j].accepted
  {
    hide SinglePass, ApplyAll;
    var c: nat := s.t.rows[m].contact;
    var env := OneLeftEnv(s.t.book, c);
    var es := OnlyOneLeft(s.t.book.contacts, c);
    DisturbByChanges(Whole(s), es, cfg);
    OnlyOneStays(s.t.book, s.t.book.contacts, c);
    EventsKeepContacts(s.t.book, es);
    var run := Start(s.t, s.counters, env, cfg);
    assert run == Whole(s).(t := s.t.(book := ApplyAll(s.t.book, es)));
    assert OnlyOne(run.t.book, c);
    PassReaches(run, 0, m, env, cfg);
    NobodyDisturbs(SinglePass(run, 0, env, cfg), cfg);
    assert RunCalls(s, cfg, env) == SinglePass(run, 0, env, cfg).calls;
  }

  /** Whether a retry can message somebody twice is visible before it starts: no live run, whatever happens during
      it, gets a second message accepted exactly when no row whose message a rolled-back run got accepted is still
      ELIGIBLE with a readable number. */
  lemma RetryIsSafeExactlyWhen(s: State, cfg: Config)
    requires Invariant(s) && MayRun(s, cfg)
    ensures (forall env :: !Repeats(s, cfg, env)) <==> (forall m :: !Exposed(s, m))
  {
    hide RunCalls, CallsOk, Consent.Invariant;
    forall env | Repeats(s, cfg, env) ensures exists m :: Exposed(s, m) {
      var calls := RunCalls(s, cfg, env);
      var j, k :| 0 <= j < |calls| && 0 <= k < |s.lost| && calls[j].row == s.lost[k].row && calls[j].accepted && s.lost[k].accepted;
      CallsReachableRows(s, cfg, env, j);
      assert Exposed(s, s.lost[k].row);
    }
    forall m: nat | Exposed(s, m) ensures exists env :: Repeats(s, cfg, env) {
      var env := OneLeftEnv(s.t.book, s.t.rows[m].contact);
      ExposedIsReached(s, cfg, m);
      var j :| 0 <= j < |RunCalls(s, cfg, env)| && RunCalls(s, cfg, env)[j].row == m && RunCalls(s, cfg, env)[j].accepted;
      var k :| 0 <= k < |s.lost| && s.lost[k].row == m && s.lost[k].accepted;
      assert Repeats(s, cfg, env);
    }
  }

  /** A first rolled-back run leaves somebody who can be messaged twice exactly when one of its calls had been
      accepted; calls that the breaker refused do no harm. */
  lemma RollbackExposesExactlyWhen(s: State, cfg: Config, env: Env)
    requires Invariant(s) && MayRun(s, cfg) && s.lost == [] && Ended(s, cfg, env).aborted
    ensures (exists m :: Exposed(Live(s, cfg, env), m)) <==>
            (exists k | 0 <= k < |RunCalls(s, cfg, env)| :: RunCalls(s, cfg, env)[k].accepted)
  {
    hide Ended, RunOk, Invariant, Reachable, Committed;
    EndedIsOk(s, cfg, env);
    var end, s' := Ended(s, cfg, env), Live(s, cfg, env);
    RolledBack(s, cfg, env);
    assert RunCalls(s, cfg, env) == end.calls;
    forall k | 0 <= k < |end.calls| && end.calls[k].accepted ensures exists m :: Exposed(s', m) {
      OwnCallsWait(end, s.committed, k);
      assert s'.lost[k].row == end.calls[k].row;
      assert Exposed(s', end.calls[k].row);
    }
    forall m | Exposed(s', m) ensures exists k | 0 <= k < |end.calls| :: end.calls[k].accepted {
      var k :| 0 <= k < |s'.lost| && s'.lost[k].row == m && s'.lost[k].accepted;
      assert end.calls[k].accepted;
    }
  }

  lemma RolledBack(s: State, cfg: Config, env: Env)
    requires MayRun(s, cfg) && s.lost == [] && Ended(s, cfg, env).aborted
    ensures var end, s' := Ended(s, cfg, env), Live(s, cfg, env);
            s'.lost == end.calls && s'.t.rows == end.saved && s'.t.book == end.t.book
  {
    hide Ended;
  }

  lemma OwnCallsWait(run: Run, committed: seq<Call>, k: nat)
    requires RunOk(run, committed) && k < |run.calls|
    ensures Reachable(run.t.book, run.saved, run.calls[k].row)
  {
    hide TablesOk, Sane, CallsOk;
  }
}
