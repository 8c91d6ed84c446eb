/** The campaign service over its tables: the loops of staging and of batched dispatch, proved against the
    single pass and the other specification functions. */
module CampaignServices {
  import opened Prelude
  import opened Consent
  import opened CampaignTables
  import opened Staging
  import opened Dispatch
  import opened Eligibility
  import opened Campaign
  import Delivery

  /** What a run reports; the two refusals raise before anything is sent, an abort re-raises the error. */
  datatype Summary =
    | Ran(status: CampaignStatus, total: nat, sent: nat, failed: nat, autoPaused: bool)
    | AlreadyRun
    | TemplateProblem
    | AbortedRun

  class CampaignService {
    const cfg: Config
    const consent: ConsentService
    /** The tables as this session sees them, and what of them other sessions see: the recipients as committed, and
        the ids of messages that are not. */
    var rows: seq<Recipient>
    var messages: map<string, Message>
    var saved: seq<Recipient>
    var own: set<string>
    var status: CampaignStatus
    var counters: Counters
    ghost var committed: seq<Call>
    ghost var lost: seq<Call>
    ghost var running: seq<Call>

    ghost function CurrentTables(): Tables
      reads this, consent
    {
      Tables(consent.Value(), rows, messages)
    }

    ghost function Value(): State
      reads this, consent
    {
      State(CurrentTables(), status, counters, committed, lost)
    }

    /** Between transactions everything is committed; a recipient that waits has no message. */
    ghost predicate Valid()
      reads this
    {
      saved == rows && own == {} && EligibleUnsent(rows)
    }

    ghost function RunValue(looked: nat, sent: nat, failed: nat, paused: bool, aborted: bool): Run
      reads this, consent
    {
      Run(CurrentTables(), saved, own, counters, looked, sent, failed, running, paused, aborted)
    }

    constructor (cfg: Config, consent: ConsentService)
      ensures this.cfg == cfg && this.consent == consent && Valid()
      ensures Value() == State(Tables(consent.Value(), [], map[]), Draft, CountersOf([]), [], [])
    {
      this.cfg, this.consent := cfg, consent;
      rows, messages, saved, own, status, counters := [], map[], [], {}, Draft, Counters(0, 0, 0, 0, 0, 0, 0);
      committed, lost, running := [], [], [];
    }

    method RefreshCounters(rs: seq<Recipient>)
      modifies this`counters
      ensures counters == CountersOf(rs)
    {
      hide Count;
      var pending := CountRows(rs, RecipientStatus.Pending);
      var eligible := CountRows(rs, Eligible);
      var rejected := CountRows(rs, Rejected);
      var queued := CountRows(rs, Queued);
      var sent := CountRows(rs, Sent);
      var delivered := CountRows(rs, Delivered);
      var read := CountRows(rs, Read);
      var failed := CountRows(rs, Failed);
      var skipped := CountRows(rs, Skipped);
      var total := pending + eligible + rejected + queued + sent + delivered + read + failed + skipped;
      counters := Counters(total, eligible + queued, rejected, sent, delivered, read, failed);
    }

    method CountRows(rs: seq<Recipient>, st: RecipientStatus) returns (n: nat)
      ensures n == Count(rs, st)
    {
      n := 0;
      var k := 0;
      while k < |rs|
        invariant k <= |rs|
        invariant n == Count(rs[..k], st)
      {
        assert rs[..k+1][..k] == rs[..k];
        if rs[k].status == st { n := n + 1; }
        k := k + 1;
      }
      assert rs[..k] == rs;
    }

    method ListByStatus(limit: nat) returns (l: seq<nat>)
      ensures l == ListEligible(rows, 0, limit) && |l| <= limit
    {
      l := [];
      var k := 0;
      while k < |rows| && |l| < limit
        invariant k <= |rows| && |l| <= limit
        invariant l + ListEligible(rows, k, limit - |l|) == ListEligible(rows, 0, limit)
      {
        if rows[k].status == Eligible {
          assert l + ([k] + ListEligible(rows, k + 1, limit - |l| - 1)) == l + [k] + ListEligible(rows, k + 1, limit - |l| - 1);
          l := l + [k];
        }
        k := k + 1;
      }
      assert ListEligible(rows, k, limit - |l|) == [];
    }

    // ---------------------------------------------------------------- staging

    /** Imported rows, one after the other; nothing is staged for a template that may not be sent. */
    method StageRecipients(imported: seq<ImportRow>, now: int) returns (report: Option<Staging.Report>)
      requires Valid()
      modifies this, consent
      ensures Valid() && Value() == old(Commit(Value(), Imported(imported, now), cfg))
      ensures report.Some? <==> Sendable(cfg)
      ensures report.Some? ==> report.value == old(StageAll(CurrentTables(), EMPTY_REPORT, imported, cfg.normalise,
                cfg.template.value, now, cfg.settings).1).(total := |imported|)
    {
      hide StageAll, Count, CountersOf;
      if !Sendable(cfg) { return None; }
      ghost var before := CurrentTables();
      ImportGrows(before, imported, now, cfg);
      var rep := StageRows(imported, now);
      assert rows == before.rows + rows[|before.rows|..];
      saved := rows;
      RefreshCounters(saved);
      report := Some(rep.(total := |imported|));
      forall k | 0 <= k < |before.rows| ensures rows[k] == before.rows[k] { assert rows[..|before.rows|][k] == rows[k]; }
    }

    method StageRows(imported: seq<ImportRow>, now: int) returns (rep: Staging.Report)
      requires Sendable(cfg)
      modifies this`rows, consent
      ensures (CurrentTables(), rep) == old(StageAll(CurrentTables(), EMPTY_REPORT, imported, cfg.normalise,
                cfg.template.value, now, cfg.settings))
    {
      hide CheckEligibility, StageOne;
      var template := cfg.template.value;
      rep := EMPTY_REPORT;
      var k := 0;
      ghost var goal := StageAll(CurrentTables(), EMPTY_REPORT, imported, cfg.normalise, template, now, cfg.settings);
      assert imported[0..] == imported;
      while k < |imported|
        invariant k <= |imported|
        invariant StageAll(CurrentTables(), rep, imported[k..], cfg.normalise, template, now, cfg.settings) == goal
      {
        assert imported[k..][1..] == imported[k+1..];
        rep := StageRow(imported[k], template, now, rep);
        k := k + 1;
      }
    }

    method StageRow(row: ImportRow, template: Template, now: int, rep: Staging.Report) returns (rep': Staging.Report)
      modifies this`rows, consent
      ensures (CurrentTables(), rep') == StageOne(old(CurrentTables()), rep, row, cfg.normalise, template, now, cfg.settings)
    {
      hide CheckEligibility;
      if row.phone == "" { return Reject(rep, MissingPhone); }
      var phone := cfg.normalise(row.phone);
      if phone.None? { return Reject(rep, InvalidPhone); }
      var id := FindHash(consent.contacts, phone.value);
      FindHashFinds(consent.contacts, phone.value);
      if id == |consent.contacts| {
        consent.contacts := consent.contacts + [Contact(phone.value, Unknown, true)];
      }
      if InCampaign(rows, id) { return Reject(rep, AlreadyInCampaign); }
      var code := CheckEligibility(Book(consent.contacts, consent.suppressed, consent.log, []), id, Some(template), now,
                                   false, cfg.settings);
      assert code == CheckEligibility(consent.Value(), id, Some(template), now, false, cfg.settings) by {
        HistoryIsNotConsulted(consent.Value(), id, Some(template), now, cfg.settings);
      }
      if code == Ok {
        rows := rows + [Recipient(id, row.variables, Eligible, NoReason, None, 0)];
        rep' := rep.(eligible := rep.eligible + 1);
      } else {
        rows := rows + [Recipient(id, row.variables, Rejected, GateReason(code), None, 0)];
        rep' := Reject(rep, Gate(code));
      }
    }

    lemma HistoryIsNotConsulted(b: Book, id: nat, template: Option<Template>, now: int, s: Settings)
      requires id < |b.contacts|
      ensures CheckEligibility(b.(history := []), id, template, now, false, s) == CheckEligibility(b, id, template, now, false, s)
    {
    }

    // ---------------------------------------------------------------- status webhooks

    /** A delivery status: the stored message, its recipient, and after a permanent failure the number. */
    method HandleStatus(metaId: string, st: Delivery.DeliveryStatus, code: int)
      requires Valid()
      modifies this, consent
      ensures Valid() && Value() == old(Commit(Value(), StatusReport(metaId, st, code), cfg))
    {
      hide FindMeta;
      ghost var before := rows;
      ApplyStatus(metaId, st, code, 0, 0, 0, false, false);
      FindMetaFinds(before, metaId);
    }

    /** What another session's report does to the tables; this session's own messages are invisible to it. */
    method ApplyStatus(metaId: string, st: Delivery.DeliveryStatus, code: int,
        ghost looked: nat, ghost sent: nat, ghost failed: nat, ghost paused: bool, ghost aborted: bool)
      modifies this`rows, this`saved, this`messages, consent
      ensures RunValue(looked, sent, failed, paused, aborted) ==
              Disturb(old(RunValue(looked, sent, failed, paused, aborted)), StatusReport(metaId, st, code), cfg)
    {
      hide FindMeta, MirrorRow;
      if metaId !in messages || metaId in own { return; }
      var m := messages[metaId];
      messages := messages[metaId := m.(status := Delivery.Update(m.status, st))];
      var k := FindMeta(saved, metaId);
      if k < |rows| { rows := rows[k := MirrorRow(rows[k], st, code)]; }
      if k < |saved| { saved := saved[k := MirrorRow(saved[k], st, code)]; }
      if st == Delivery.Failed && Undeliverable(code) && m.contact < |consent.contacts| {
        if consent.contacts[m.contact].consent != OptedOut {
          consent.Suppress(m.contact);
        }
      }
    }

    /** Other sessions' committed actions, one after the other. */
    method Absorb(os: seq<Other>, ghost looked: nat, ghost sent: nat, ghost failed: nat, ghost paused: bool, ghost aborted: bool)
      modifies this`rows, this`saved, this`messages, this`counters, consent
      ensures RunValue(looked, sent, failed, paused, aborted) ==
              DisturbAll(old(RunValue(looked, sent, failed, paused, aborted)), os, cfg)
    {
      hide Disturb;
      var k := 0;
      assert os[0..] == os;
      while k < |os|
        invariant k <= |os|
        invariant DisturbAll(RunValue(looked, sent, failed, paused, aborted), os[k..], cfg) ==
                  DisturbAll(old(RunValue(looked, sent, failed, paused, aborted)), os, cfg)
      {
        assert os[k..][1..] == os[k+1..];
        AbsorbOne(os[k], looked, sent, failed, paused, aborted);
        k := k + 1;
      }
    }

    method AbsorbOne(o: Other, ghost looked: nat, ghost sent: nat, ghost failed: nat, ghost paused: bool, ghost aborted: bool)
      modifies this`rows, this`saved, this`messages, this`counters, consent
      ensures RunValue(looked, sent, failed, paused, aborted) ==
              Disturb(old(RunValue(looked, sent, failed, paused, aborted)), o, cfg)
    {
      hide StageAll, CountersOf, Apply;
      match o {
        case ConsentChange(e) =>
          consent.Absorb([e]);
          OneEvent(old(consent.Value()), e);
        case Imported(imported, now) =>
          if Sendable(cfg) {
            var n := |rows|;
            ImportGrows(CurrentTables(), imported, now, cfg);
            var _ := StageRows(imported, now);
            saved := saved + rows[n..];
            RefreshCounters(saved);
          }
        case StatusReport(metaId, st, code) =>
          ApplyStatus(metaId, st, code, looked, sent, failed, paused, aborted);
      }
    }

    lemma OneEvent(b: Book, e: Event)
      ensures ApplyAll(b, [e]) == Apply(b, e)
    {
      assert [e][1..] == [];
    }

    // ---------------------------------------------------------------- live runs

    /** The loop body for the recipient in row `i`. */
    method DispatchOne(i: nat, outcome: Outcome, ghost looked: nat, sent: nat, failed: nat)
      returns (sent': nat, failed': nat, paused: bool, aborted: bool)
      requires i < |rows|
      modifies this`rows, this`messages, this`own, this`running, consent
      ensures RunValue(looked + 1, sent', failed', paused, aborted)
           == ProcessOne(old(RunValue(looked, sent, failed, false, false)), i, outcome, cfg.maxFailureRate)
    {
      sent', failed', paused, aborted := sent, failed, false, false;
      var row := rows[i];
      if !(0 <= row.contact < |consent.contacts|) { return; }
      var suppressed := consent.IsSuppressed(row.contact);
      if suppressed {
        rows := rows[i := row.(status := Rejected, reason := SuppressedMidCampaign)];
        return;
      }
      if !consent.contacts[row.contact].readable {
        rows := rows[i := FailedRow(row, 0)];
        failed' := failed + 1;
        return;
      }
      running := running + [Call(i, row.contact, row.variables, outcome.Accepted?)];
      consent.history := consent.history + [Called(consent.contacts[row.contact].hash)];
      match outcome {
        case Accepted(id) =>
          if id in messages { aborted := true; return; }
          rows := rows[i := row.(status := Sent, metaId := Some(id))];
          messages := messages[id := Message(row.contact, Delivery.Sent)];
          own := own + {id};
          sent' := sent + 1;
        case ApiError(code) =>
          rows := rows[i := FailedRow(row, code)];
          failed' := failed + 1;
        case CircuitOpen =>
          aborted := true;
          return;
      }
      var attempted := sent' + failed';
      if attempted >= 10 {
        var rate := (failed' as real / attempted as real) * 100.0;
        if rate >= cfg.maxFailureRate * 100.0 { paused := true; }
      }
    }

    /** One recipient and what others do after it. */
    method DispatchNext(i: nat, env: Env, looked: nat, sent: nat, failed: nat)
      returns (sent': nat, failed': nat, paused: bool, aborted: bool)
      requires i < |rows|
      modifies this`rows, this`messages, this`own, this`running, this`saved, this`counters, consent
      ensures RunValue(looked + 1, sent', failed', paused, aborted)
           == Step(old(RunValue(looked, sent, failed, false, false)), i, env, cfg)
    {
      hide ProcessOne, DisturbAll;
      sent', failed', paused, aborted := DispatchOne(i, env.outcomes(looked), looked, sent, failed);
      if !paused && !aborted {
        Absorb(OthersAt(env, looked + 1), looked + 1, sent', failed', paused, aborted);
      }
    }

    /** A dry run only recounts. A live run, whatever its batch size and whatever other sessions commit between its
        recipients, does what one pass over the ELIGIBLE recipients in id order does. */
    method ExecuteCampaign(dryRun: bool, env: Env) returns (r: Summary)
      requires Valid() && EligibleContactsExist(CurrentTables())
      modifies this, consent
      ensures Valid()
      ensures dryRun ==> Value() == old(Value()).(counters := CountersOf(rows))
      ensures !dryRun ==> Value() == Live(old(Value()), cfg, env)
      ensures r.Ran? ==> r.status == status && r.total == counters.total && r.sent == counters.sent && r.failed == counters.failed
      ensures !dryRun ==> (r.AbortedRun? <==> old(MayRun(Value(), cfg) && Ended(Value(), cfg, env).aborted))
      ensures !dryRun && r.Ran? ==> r.autoPaused == old(Ended(Value(), cfg, env).paused)
    {
      hide Ended, CountersOf;
      if dryRun {
        RefreshCounters(rows);
        return Ran(status, counters.total, counters.sent, counters.failed, false);
      }
      if status in {Completed, Cancelled, Running} { return AlreadyRun; }
      var status0 := status;
      status := Running;
      if !Sendable(cfg) {
        status := status0;
        return TemplateProblem;
      }
      running := [];
      var autoPaused, aborted, _, _, _ := RunTransaction(env, old(Value()));
      if aborted {
        rows, messages, own, status := saved, messages - own, {}, status0;
        lost := lost + running;
        return AbortedRun;
      }
      if autoPaused {
        status := Paused;
      } else {
        var remaining := ListByStatus(1);
        status := if remaining != [] then Paused else Completed;
      }
      committed := committed + running;
      saved, own := rows, {};
      RefreshCounters(rows);
      r := Ran(status, counters.total, counters.sent, counters.failed, autoPaused);
    }

    /** Everything between the start of the run's loop and the end of its transaction. */
    method RunTransaction(env: Env, ghost s: State)
      returns (autoPaused: bool, aborted: bool, ghost looked: nat, ghost sent: nat, ghost failed: nat)
      requires Valid() && EligibleContactsExist(CurrentTables()) && running == []
      requires s.t == CurrentTables() && s.counters == counters
      modifies this`rows, this`messages, this`own, this`running, this`saved, this`counters, consent
      ensures RunValue(looked, sent, failed, autoPaused, aborted) == Ended(s, cfg, env)
      ensures EligibleUnsent(rows) && EligibleUnsent(saved)
    {
      hide SinglePass, DisturbAll, Sane;
      StartIsSane(CurrentTables(), counters, env, cfg);
      Absorb(OthersAt(env, 0), 0, 0, 0, false, false);
      ghost var start := RunValue(0, 0, 0, false, false);
      assert start == Start(s.t, s.counters, env, cfg);
      PassEnds(start, 0, env, cfg);
      autoPaused, aborted, looked, sent, failed := RunBatches(env, start);
      ghost var pass := RunValue(looked, sent, failed, autoPaused, aborted);
      Absorb(env.closing, looked, sent, failed, autoPaused, aborted);
      DisturbAllSpares(pass, env.closing, cfg);
      SaneIsUnsent(RunValue(looked, sent, failed, autoPaused, aborted));
    }

    lemma SaneIsUnsent(run: Run)
      requires Sane(run)
      ensures EligibleUnsent(run.t.rows) && EligibleUnsent(run.saved)
    {
    }

    /** The batched loop. */
    method RunBatches(env: Env, ghost start: Run)
      returns (autoPaused: bool, aborted: bool, ghost looked': nat, ghost sent': nat, ghost failed': nat)
      requires start == RunValue(0, 0, 0, false, false) && Sane(start) && EligibleContactsExist(start.t)
      modifies this`rows, this`messages, this`own, this`running, this`saved, this`counters, consent
      ensures RunValue(looked', sent', failed', autoPaused, aborted) == SinglePass(start, 0, env, cfg)
    {
      hide Step, SinglePass, ListEligible, Sane, EligibleContactsExist;
      var batchSize := if cfg.batchSize > 1 then cfg.batchSize else 1;
      var looked, sent, failed := 0, 0, 0;
      autoPaused, aborted := false, false;
      var pending := ListByStatus(batchSize);
      ghost var pos := 0;
      while pending != [] && !aborted && !autoPaused
        invariant |pending| <= batchSize
        invariant 0 <= pos <= |rows|
        invariant Sane(RunValue(looked, sent, failed, autoPaused, aborted)) && EligibleContactsExist(CurrentTables())
        invariant SinglePass(RunValue(looked, sent, failed, autoPaused, aborted), pos, env, cfg) == SinglePass(start, 0, env, cfg)
        invariant !autoPaused && !aborted ==> pending == ListEligible(rows, pos, batchSize)
        invariant !autoPaused && !aborted ==> forall k | 0 <= k < pos :: rows[k].status != Eligible
        decreases if autoPaused || aborted then 0 else 1, if looked < |env.others| then |env.others| - looked else 0, |rows| - pos
      {
        ghost var pos0, looked0, n0 := pos, looked, |rows|;
        var j := 0;
        while j < |pending| && !aborted && !autoPaused
          invariant 0 <= j <= |pending| <= batchSize && 0 <= pos <= |rows| && n0 <= |rows|
          invariant j > 0 ==> looked > looked0
          invariant looked >= looked0
          invariant looked0 >= |env.others| ==> |rows| == n0 && (if j > 0 then pos > pos0 else pos == pos0)
          invariant Sane(RunValue(looked, sent, failed, autoPaused, aborted)) && EligibleContactsExist(CurrentTables())
          invariant SinglePass(RunValue(looked, sent, failed, autoPaused, aborted), pos, env, cfg) == SinglePass(start, 0, env, cfg)
          invariant !autoPaused && !aborted ==> pending[j..] <= ListEligible(rows, pos, batchSize - j)
          invariant !autoPaused && !aborted ==> forall k | 0 <= k < pos :: rows[k].status != Eligible
        {
          ghost var now := RunValue(looked, sent, failed, false, false);
          assert pending[j..] != [];
          NextOfBatch(now, pos, batchSize - j, pending[j..], env, cfg);
          var i := pending[j];
          assert i == pending[j..][0] && pending[j..][1..] == pending[j+1..];
          StepShrinks(now, i, env, cfg);
          sent, failed, autoPaused, aborted := DispatchNext(i, env, looked, sent, failed);
          looked := looked + 1;
          pos := i + 1;
          j := j + 1;
        }
        if !aborted && !autoPaused {
          pending := ListByStatus(batchSize);
          ListSkips(rows, 0, pos, batchSize);
        }
      }
      ghost var run := RunValue(looked, sent, failed, autoPaused, aborted);
      if autoPaused || aborted {
        PassStops(run, pos, env, cfg);
      } else {
        BatchesDone(run, pos, batchSize, env, cfg);
      }
      looked', sent', failed' := looked, sent, failed;
    }
  }
}
