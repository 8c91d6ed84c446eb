/** Campaign dispatch: the batched loop with its failure-rate brake, and the single pass it refines.

    A live run is one transaction. What it writes is invisible to other sessions until it commits; what they
    commit between two recipients is visible to it. The outcomes of its calls and everything the other
    sessions do are arbitrary. */
module Dispatch {
  import opened Prelude
  import opened Consent
  import opened CampaignTables
  import opened Staging
  import Delivery

  /** One call of `send_template`, whatever became of it; `accepted` if it came back with a message id. */
  datatype Call = Call(row: nat, contact: int, variables: seq<string>, accepted: bool)

  /** The call succeeds with a message id, fails with an API error, or is refused by the open breaker. */
  datatype Outcome = Accepted(metaId: string) | ApiError(code: int) | CircuitOpen

  /** What another session can commit while the run is under way. */
  datatype Other =
    | ConsentChange(e: Event)
    | Imported(rows: seq<ImportRow>, now: int)
    | StatusReport(metaId: string, status: Delivery.DeliveryStatus, code: int)

  /** The surroundings of a run: what others do before the first recipient is fetched and after each one that is
      looked at, how the calls turn out, and what others do between the end of the loop and the end of the
      transaction. */
  datatype Env = Env(others: seq<seq<Other>>, outcomes: nat -> Outcome, closing: seq<Other>)

  function OthersAt(env: Env, k: nat): seq<Other> { if k < |env.others| then env.others[k] else [] }

  /** A live run: the tables as it sees them, the recipients as they are committed, the ids of its own messages,
      which nobody else sees, the stored counters, and its local variables and calls. */
  datatype Run = Run(
    t: Tables, saved: seq<Recipient>, own: set<string>, counters: Counters,
    looked: nat, sent: nat, failed: nat, calls: seq<Call>, paused: bool, aborted: bool)

  /** What every other session sees. */
  function Committed(run: Run): Tables { Tables(run.t.book, run.saved, run.t.messages - run.own) }

  // ------------------------------------------------------------------ other sessions

  /** A permanent failure suppresses the message's contact, unless it opted out, which has an entry already. */
  function AfterFailure(book: Book, m: Message, status: Delivery.DeliveryStatus, code: int): Book {
    if status == Delivery.Failed && Undeliverable(code) && m.contact < |book.contacts| &&
       book.contacts[m.contact].consent != OptedOut
    then SuppressBook(book, m.contact) else book
  }

  function Mirrored(rows: seq<Recipient>, k: nat, status: Delivery.DeliveryStatus, code: int): seq<Recipient> {
    if k < |rows| then rows[k := MirrorRow(rows[k], status, code)] else rows
  }

  /** One committed action of another session. It does not see the run's own messages: a status report for one
      of them finds nothing and is dropped. */
  function Disturb(run: Run, o: Other, cfg: Config): Run {
    match o
    case ConsentChange(e) => run.(t := run.t.(book := Apply(run.t.book, e)))
    case Imported(rows, now) =>
      if !Sendable(cfg) then run
      else
        var t := Import(run.t, rows, now, cfg);
        ImportGrows(run.t, rows, now, cfg);
        var saved := run.saved + t.rows[|run.t.rows|..];
        run.(t := t, saved := saved, counters := CountersOf(saved))
    case StatusReport(metaId, status, code) =>
      if metaId !in run.t.messages || metaId in run.own then run
      else
        var m := run.t.messages[metaId];
        var k := FindMeta(run.saved, metaId);
        run.(t := Tables(AfterFailure(run.t.book, m, status, code), Mirrored(run.t.rows, k, status, code),
                         run.t.messages[metaId := m.(status := Delivery.Update(m.status, status))]),
             saved := Mirrored(run.saved, k, status, code))
  }

  function DisturbAll(run: Run, os: seq<Other>, cfg: Config): Run
    decreases |os|
  {
    if os == [] then run else DisturbAll(Disturb(run, os[0], cfg), os[1..], cfg)
  }

  // ------------------------------------------------------------------ one recipient

  predicate Brake(sent: nat, failed: nat, rate: real) {
    var attempted := sent + failed;
    attempted >= 10 && (failed as real / attempted as real) * 100.0 >= rate * 100.0
  }

  function SetRow(run: Run, i: nat, row: Recipient): Run
    requires i < |run.t.rows|
  {
    run.(t := run.t.(rows := run.t.rows[i := row]))
  }

  function Checked(run: Run, rate: real): Run {
    run.(paused := Brake(run.sent, run.failed, rate))
  }

  /** What the loop body does with the recipient in row `i`. */
  function ProcessOne(run: Run, i: nat, outcome: Outcome, rate: real): Run
    requires i < |run.t.rows|
  {
    var book := run.t.book;
    var r0 := run.(looked := run.looked + 1);
    var row := run.t.rows[i];
    if !Known(book, row.contact) then r0
    else
      var c := book.contacts[row.contact];
      if c.hash in book.suppressed then
        SetRow(r0, i, row.(status := Rejected, reason := SuppressedMidCampaign))
      else if !c.readable then
        SetRow(r0, i, FailedRow(row, 0)).(failed := run.failed + 1)
      else
        var r1 := r0.(t := r0.t.(book := CallBook(book, c.hash)),
                      calls := run.calls + [Call(i, row.contact, row.variables, outcome.Accepted?)]);
        match outcome
        case Accepted(id) =>
          if id in run.t.messages then r1.(aborted := true)
          else
            var t := r1.t.(rows := r1.t.rows[i := row.(status := Sent, metaId := Some(id))],
                           messages := r1.t.messages[id := Message(row.contact, Delivery.Sent)]);
            Checked(r1.(t := t, own := run.own + {id}, sent := run.sent + 1), rate)
        case ApiError(code) =>
          Checked(SetRow(r1, i, FailedRow(row, code)).(failed := run.failed + 1), rate)
        case CircuitOpen => r1.(aborted := true)
  }

  /** One recipient, and then whatever the others do, unless the loop is over. */
  function Step(run: Run, i: nat, env: Env, cfg: Config): Run
    requires i < |run.t.rows|
  {
    var p := ProcessOne(run, i, env.outcomes(run.looked), cfg.maxFailureRate);
    if p.paused || p.aborted then p else DisturbAll(p, OthersAt(env, p.looked), cfg)
  }

  /** Looks the others can still disturb. */
  function Left(run: Run, env: Env): nat { if run.looked < |env.others| then |env.others| - run.looked else 0 }

  /** The reference: look at every row once, in id order, those staged meanwhile included, and stop at the brake
      or an escaping error. */
  function SinglePass(run: Run, i: nat, env: Env, cfg: Config): Run
    decreases Left(run, env), if i <= |run.t.rows| then |run.t.rows| - i else 0
  {
    if i >= |run.t.rows| || run.paused || run.aborted then run
    else if run.t.rows[i].status == Eligible then
      StepShrinks(run, i, env, cfg);
      SinglePass(Step(run, i, env, cfg), i + 1, env, cfg)
    else SinglePass(run, i + 1, env, cfg)
  }

  /** A run that has seen nothing yet. */
  function First(t: Tables, counters: Counters): Run { Run(t, t.rows, {}, counters, 0, 0, 0, [], false, false) }

  lemma FirstIsSane(t: Tables, counters: Counters)
    requires EligibleUnsent(t.rows)
    ensures Sane(First(t, counters))
  {
  }

  /** A fresh run, after what others do before the first recipient is fetched. */
  function Start(t: Tables, counters: Counters, env: Env, cfg: Config): Run {
    DisturbAll(First(t, counters), OthersAt(env, 0), cfg)
  }

  /** `list_by_status`: the first `limit` rows, in id order, that are ELIGIBLE. */
  function ListEligible(rows: seq<Recipient>, from: nat, limit: nat): seq<nat>
    decreases |rows| - from
  {
    if from >= |rows| || limit == 0 then []
    else if rows[from].status == Eligible then [from] + ListEligible(rows, from + 1, limit - 1)
    else ListEligible(rows, from + 1, limit)
  }

  // ------------------------------------------------------------------ what a disturbance leaves alone

  /** The local variables and calls of a run. */
  predicate SameLocals(a: Run, b: Run) {
    && a.own == b.own && a.looked == b.looked && a.sent == b.sent && a.failed == b.failed && a.calls == b.calls
    && a.paused == b.paused && a.aborted == b.aborted
  }

  /** A row that waits in the run's view waits in the committed one, and has no message. */
  ghost predicate Sane(run: Run) {
    && |run.saved| == |run.t.rows| && EligibleUnsent(run.saved)
    && forall k | 0 <= k < |run.saved| && run.t.rows[k].status == Eligible :: run.saved[k] == run.t.rows[k]
  }

  /** Rows that wait keep waiting, others do not start to; rows are only added, with contacts that exist; contacts
      keep their hash and number. */
  ghost predicate Spared(a: Run, b: Run) {
    && SameLocals(a, b)
    && |a.t.rows| <= |b.t.rows|
    && (forall k | 0 <= k < |a.t.rows| ::
          && (a.t.rows[k].status == Eligible ==> b.t.rows[k] == a.t.rows[k])
          && (a.t.rows[k].status != Eligible ==> b.t.rows[k].status != Eligible)
          && b.t.rows[k].contact == a.t.rows[k].contact)
    && (forall k | |a.t.rows| <= k < |b.t.rows| :: Known(b.t.book, b.t.rows[k].contact))
    && |a.t.book.contacts| <= |b.t.book.contacts|
    && (forall k | 0 <= k < |a.t.book.contacts| ::
          && b.t.book.contacts[k].hash == a.t.book.contacts[k].hash
          && b.t.book.contacts[k].readable == a.t.book.contacts[k].readable)
    && (forall k | |a.t.book.contacts| <= k < |b.t.book.contacts| :: b.t.book.contacts[k].readable)
  }

  lemma SparedAgain(a: Run, b: Run, c: Run)
    requires Spared(a, b) && Spared(b, c)
    ensures Spared(a, c)
  {
  }

  lemma MirrorKeepsContact(rows: seq<Recipient>, k: nat, status: Delivery.DeliveryStatus, code: int)
    ensures SameContacts(rows, Mirrored(rows, k, status, code))
    ensures forall j | 0 <= j < |rows| && j != k :: Mirrored(rows, k, status, code)[j] == rows[j]
    ensures k < |rows| && rows[k].status != Eligible ==> Mirrored(rows, k, status, code)[k].status != Eligible
    ensures k < |rows| ==> Mirrored(rows, k, status, code)[k].metaId == rows[k].metaId
  {
  }

  lemma FailureKeepsContacts(book: Book, m: Message, status: Delivery.DeliveryStatus, code: int)
    ensures var b := AfterFailure(book, m, status, code);
            && |b.contacts| == |book.contacts|
            && forall k | 0 <= k < |book.contacts| ::
                 b.contacts[k].hash == book.contacts[k].hash && b.contacts[k].readable == book.contacts[k].readable
  {
  }

  lemma EventKeepsContacts(b: Book, e: Event)
    ensures |Apply(b, e).contacts| == |b.contacts|
    ensures forall k | 0 <= k < |b.contacts| ::
              Apply(b, e).contacts[k].hash == b.contacts[k].hash && Apply(b, e).contacts[k].readable == b.contacts[k].readable
  {
  }

  lemma ImportSpares(run: Run, rows: seq<ImportRow>, now: int, cfg: Config)
    requires Sane(run)
    ensures Sane(Disturb(run, Imported(rows, now), cfg)) && Spared(run, Disturb(run, Imported(rows, now), cfg))
  {
    hide Import, CountersOf;
    if Sendable(cfg) {
      ImportGrows(run.t, rows, now, cfg);
      var t := Import(run.t, rows, now, cfg);
      forall k | 0 <= k < |run.t.rows| ensures t.rows[k] == run.t.rows[k] { assert t.rows[..|run.t.rows|][k] == t.rows[k]; }
      forall k | 0 <= k < |run.t.book.contacts| ensures t.book.contacts[k] == run.t.book.contacts[k] {
        assert t.book.contacts[..|run.t.book.contacts|][k] == t.book.contacts[k];
      }
    }
  }

  lemma ReportSpares(run: Run, metaId: string, status: Delivery.DeliveryStatus, code: int, cfg: Config)
    requires Sane(run)
    ensures var r := Disturb(run, StatusReport(metaId, status, code), cfg); Sane(r) && Spared(run, r)
  {
    hide AfterFailure, Mirrored, FindMeta;
    if metaId in run.t.messages && metaId !in run.own {
      var k := FindMeta(run.saved, metaId);
      FindMetaFinds(run.saved, metaId);
      MirrorKeepsContact(run.t.rows, k, status, code);
      MirrorKeepsContact(run.saved, k, status, code);
      FailureKeepsContacts(run.t.book, run.t.messages[metaId], status, code);
    }
  }

  /** A report for a visible message moves that message's status by the rank rule and its recipient, in both views, as the
      mirror does; no other message and no other recipient changes. */
  lemma ReportReaches(run: Run, metaId: string, status: Delivery.DeliveryStatus, code: int, cfg: Config)
    requires |run.saved| == |run.t.rows| && metaId in run.t.messages && metaId !in run.own
    ensures var r, m := Disturb(run, StatusReport(metaId, status, code), cfg), run.t.messages[metaId];
            && r.t.messages.Keys == run.t.messages.Keys && r.t.messages[metaId].contact == m.contact
            && r.t.messages[metaId].status == Delivery.Fold(m.status, [status])
            && (forall id | id in run.t.messages && id != metaId :: r.t.messages[id] == run.t.messages[id])
            && |r.saved| == |run.saved| && |r.t.rows| == |run.t.rows|
            && forall j | 0 <= j < |run.saved| ::
                 if run.saved[j].metaId == Some(metaId) && forall l | 0 <= l < j :: run.saved[l].metaId != Some(metaId)
                 then r.saved[j] == MirrorRow(run.saved[j], status, code) && r.t.rows[j] == MirrorRow(run.t.rows[j], status, code)
                 else r.saved[j] == run.saved[j] && r.t.rows[j] == run.t.rows[j]
  {
    hide AfterFailure, MirrorRow, FindMeta;
    FindMetaIsFirst(run.saved, metaId);
    FindMetaFinds(run.saved, metaId);
    assert [status][..0] == [];
  }

  lemma {:induction false} FindMetaIsFirst(rows: seq<Recipient>, metaId: string)
    ensures forall l | 0 <= l < FindMeta(rows, metaId) && l < |rows| :: rows[l].metaId != Some(metaId)
    decreases |rows|
  {
    if rows != [] && rows[0].metaId != Some(metaId) {
      FindMetaIsFirst(rows[1..], metaId);
      assert forall l | 1 <= l < |rows| :: rows[l] == rows[1..][l-1];
    }
  }

  lemma DisturbSpares(run: Run, o: Other, cfg: Config)
    requires Sane(run)
    ensures Sane(Disturb(run, o, cfg)) && Spared(run, Disturb(run, o, cfg))
  {
    hide Sane, Spared;
    match o
    case ConsentChange(e) => ChangeSpares(run, e, cfg);
    case Imported(rows, now) => ImportSpares(run, rows, now, cfg);
    case StatusReport(metaId, status, code) => ReportSpares(run, metaId, status, code, cfg);
  }

  lemma ChangeSpares(run: Run, e: Event, cfg: Config)
    requires Sane(run)
    ensures Sane(Disturb(run, ConsentChange(e), cfg)) && Spared(run, Disturb(run, ConsentChange(e), cfg))
  {
    hide Apply;
    EventKeepsContacts(run.t.book, e);
  }

  lemma {:induction false} DisturbAllSpares(run: Run, os: seq<Other>, cfg: Config)
    requires Sane(run)
    ensures Sane(DisturbAll(run, os, cfg)) && Spared(run, DisturbAll(run, os, cfg))
    decreases |os|
  {
    hide Sane, Spared, Disturb;
    if os == [] {
      SparedNot(run);
    } else {
      DisturbSpares(run, os[0], cfg);
      DisturbAllSpares(Disturb(run, os[0], cfg), os[1..], cfg);
      SparedAgain(run, Disturb(run, os[0], cfg), DisturbAll(run, os, cfg));
    }
  }

  lemma SparedNot(run: Run)
    ensures Spared(run, run)
  {
  }

  /** Nobody can make a disturbance shrink the table or count as a look. */
  lemma DisturbLooks(run: Run, o: Other, cfg: Config)
    ensures SameLocals(run, Disturb(run, o, cfg)) && |run.t.rows| <= |Disturb(run, o, cfg).t.rows|
  {
    hide Import, CountersOf, Apply, AfterFailure;
    match o
    case Imported(rows, now) => ImportGrows(run.t, rows, now, cfg);
    case _ =>
  }

  lemma {:induction false} DisturbAllLooks(run: Run, os: seq<Other>, cfg: Config)
    ensures SameLocals(run, DisturbAll(run, os, cfg)) && |run.t.rows| <= |DisturbAll(run, os, cfg).t.rows|
    decreases |os|
  {
    hide Disturb;
    if os != [] {
      DisturbLooks(run, os[0], cfg);
      DisturbAllLooks(Disturb(run, os[0], cfg), os[1..], cfg);
    }
  }

  lemma StepShrinks(run: Run, i: nat, env: Env, cfg: Config)
    requires i < |run.t.rows|
    ensures var next := Step(run, i, env, cfg);
            && next.looked == run.looked + 1 && |run.t.rows| <= |next.t.rows|
            && (Left(next, env) < Left(run, env) || (Left(next, env) == Left(run, env) == 0 && |next.t.rows| == |run.t.rows|))
  {
    hide DisturbAll;
    var p := ProcessOne(run, i, env.outcomes(run.looked), cfg.maxFailureRate);
    DisturbAllLooks(p, OthersAt(env, p.looked), cfg);
    NobodyDisturbs(p, cfg);
  }

  lemma NobodyDisturbs(run: Run, cfg: Config)
    ensures DisturbAll(run, [], cfg) == run
  {
  }

  predicate NoImports(os: seq<Other>) { forall j | 0 <= j < |os| :: !os[j].Imported? }

  /** Consent events alone, one after the other. */
  function Changes(es: seq<Event>): seq<Other> { if es == [] then [] else [ConsentChange(es[0])] + Changes(es[1..]) }

  lemma {:induction false} DisturbByChanges(run: Run, es: seq<Event>, cfg: Config)
    ensures DisturbAll(run, Changes(es), cfg) == run.(t := run.t.(book := ApplyAll(run.t.book, es)))
    ensures NoImports(Changes(es))
    decreases |es|
  {
    hide Apply;
    if es != [] {
      var next := run.(t := run.t.(book := Apply(run.t.book, es[0])));
      assert Changes(es)[1..] == Changes(es[1..]);
      assert Disturb(run, Changes(es)[0], cfg) == next;
      DisturbByChanges(next, es[1..], cfg);
    }
  }

  // ------------------------------------------------------------------ facts about the list and the pass

  lemma {:induction false} ListHead(rows: seq<Recipient>, from: nat, limit: nat)
    requires limit > 0
    ensures var l := ListEligible(rows, from, limit);
            (l == [] ==> forall k | from <= k < |rows| :: rows[k].status != Eligible) &&
            (l != [] ==>
              && from <= l[0] < |rows| && rows[l[0]].status == Eligible
              && (forall k | from <= k < l[0] :: rows[k].status != Eligible)
              && l[1..] == ListEligible(rows, l[0] + 1, limit - 1))
    decreases |rows| - from
  {
    if from < |rows| && rows[from].status != Eligible {
      ListHead(rows, from + 1, limit);
    }
  }

  /** Rows before `to` that are not ELIGIBLE do not matter. */
  lemma {:induction false} ListSkips(rows: seq<Recipient>, from: nat, to: nat, limit: nat)
    requires from <= to <= |rows|
    requires forall k | from <= k < to :: rows[k].status != Eligible
    ensures ListEligible(rows, from, limit) == ListEligible(rows, to, limit)
    decreases |rows| - from
  {
    if from < to { ListSkips(rows, from + 1, to, limit); }
  }

  /** Changes to rows before `from` do not matter, and rows added at the end come last. */
  lemma {:induction false} ListGrows(rows: seq<Recipient>, rows': seq<Recipient>, from: nat, limit: nat)
    requires |rows| <= |rows'|
    requires forall k | from <= k < |rows| :: rows[k].status == Eligible <==> rows'[k].status == Eligible
    ensures ListEligible(rows, from, limit) <= ListEligible(rows', from, limit)
    decreases |rows| - from
  {
    if from < |rows| && limit > 0 {
      ListGrows(rows, rows', from + 1, if rows[from].status == Eligible then limit - 1 else limit);
    }
  }

  lemma {:induction false} PassSkips(run: Run, from: nat, to: nat, env: Env, cfg: Config)
    requires from <= to <= |run.t.rows|
    requires forall k | from <= k < to :: run.t.rows[k].status != Eligible
    ensures SinglePass(run, from, env, cfg) == SinglePass(run, to, env, cfg)
    decreases |run.t.rows| - from
  {
    if from < to { PassSkips(run, from + 1, to, env, cfg); }
  }

  lemma PassStep(run: Run, i: nat, env: Env, cfg: Config)
    requires i < |run.t.rows| && run.t.rows[i].status == Eligible && !run.paused && !run.aborted
    ensures SinglePass(run, i, env, cfg) == SinglePass(Step(run, i, env, cfg), i + 1, env, cfg)
  {
    StepShrinks(run, i, env, cfg);
  }

  lemma PassStops(run: Run, i: nat, env: Env, cfg: Config)
    requires run.paused || run.aborted || i >= |run.t.rows|
    ensures SinglePass(run, i, env, cfg) == run
  {
  }

  /** Processing touches its own row only, and leaves it no longer ELIGIBLE if its contact exists and no
      error escapes. */
  lemma ProcessTouchesOneRow(run: Run, i: nat, outcome: Outcome, rate: real)
    requires i < |run.t.rows|
    ensures var r := ProcessOne(run, i, outcome, rate);
            && |r.t.rows| == |run.t.rows| && r.saved == run.saved
            && (forall k | 0 <= k < |run.t.rows| && k != i :: r.t.rows[k] == run.t.rows[k])
            && r.t.rows[i].contact == run.t.rows[i].contact
            && r.t.rows[i].variables == run.t.rows[i].variables
            && r.t.book.contacts == run.t.book.contacts
            && r.looked == run.looked + 1
            && (r.aborted && !run.aborted ==> r.t.rows == run.t.rows && r.t.messages == run.t.messages && r.own == run.own)
            && (Known(run.t.book, run.t.rows[i].contact) && !r.aborted ==> r.t.rows[i].status in {Rejected, Sent, Failed})
            && (!Known(run.t.book, run.t.rows[i].contact) ==> r.t == run.t && r == run.(looked := run.looked + 1))
  {
    hide Brake;
  }

  /** Consent is none of a run's business: all it adds is the observer's note of a call. */
  lemma ProcessSparesConsent(run: Run, i: nat, outcome: Outcome, rate: real)
    requires i < |run.t.rows|
    ensures var after := ProcessOne(run, i, outcome, rate).t.book;
            after.contacts == run.t.book.contacts && after.suppressed == run.t.book.suppressed && after.log == run.t.book.log
  {
    hide Brake;
  }

  lemma ProcessKeepsSane(run: Run, i: nat, outcome: Outcome, rate: real)
    requires i < |run.t.rows| && Sane(run)
    ensures Sane(ProcessOne(run, i, outcome, rate))
  {
    hide ProcessOne;
    ProcessTouchesOneRow(run, i, outcome, rate);
    ProcessedRow(run, i, outcome, rate);
  }

  lemma ProcessedRow(run: Run, i: nat, outcome: Outcome, rate: real)
    requires i < |run.t.rows|
    ensures var r := ProcessOne(run, i, outcome, rate);
            |r.t.rows| == |run.t.rows| && (r.t.rows[i].status == Eligible ==> r.t.rows[i] == run.t.rows[i])
  {
  }

  /** What a step leaves for the rest of the pass. */
  lemma StepKeeps(run: Run, i: nat, env: Env, cfg: Config)
    requires i < |run.t.rows| && Sane(run) && EligibleContactsExist(run.t) && run.t.rows[i].status == Eligible && !run.aborted
    ensures var next := Step(run, i, env, cfg);
            && |run.t.rows| <= |next.t.rows| && next.looked == run.looked + 1
            && |run.t.book.contacts| <= |next.t.book.contacts|
            && Sane(next) && EligibleContactsExist(next.t)
            && (!next.aborted ==> next.t.rows[i].status != Eligible)
            && (forall k | 0 <= k < |run.t.rows| && k != i ::
                  && (run.t.rows[k].status == Eligible <==> next.t.rows[k].status == Eligible)
                  && (run.t.rows[k].status == Eligible ==> next.t.rows[k] == run.t.rows[k]))
  {
    hide ProcessOne, DisturbAll;
    var p := ProcessOne(run, i, env.outcomes(run.looked), cfg.maxFailureRate);
    ProcessTouchesOneRow(run, i, env.outcomes(run.looked), cfg.maxFailureRate);
    ProcessKeepsSane(run, i, env.outcomes(run.looked), cfg.maxFailureRate);
    if !p.paused && !p.aborted { DisturbAllSpares(p, OthersAt(env, p.looked), cfg); }
  }

  /** One step of the batched loop: the first recipient left in the batch is the next one of the pass, and the
      rest of the batch still begins the list from behind it, whoever was staged meanwhile. */
  lemma NextOfBatch(run: Run, pos: nat, limit: nat, rest: seq<nat>, env: Env, cfg: Config)
    requires pos <= |run.t.rows| && limit > 0 && Sane(run) && EligibleContactsExist(run.t) && !run.paused && !run.aborted
    requires forall k | 0 <= k < pos :: run.t.rows[k].status != Eligible
    requires rest != [] && rest <= ListEligible(run.t.rows, pos, limit)
    ensures var i := rest[0];
            && pos <= i < |run.t.rows|
            && var next := Step(run, i, env, cfg);
               && SinglePass(run, pos, env, cfg) == SinglePass(next, i + 1, env, cfg)
               && |run.t.rows| <= |next.t.rows| && Sane(next) && EligibleContactsExist(next.t)
               && next.looked == run.looked + 1
               && (!next.aborted ==>
                     && rest[1..] <= ListEligible(next.t.rows, i + 1, limit - 1)
                     && forall k | 0 <= k < i + 1 :: next.t.rows[k].status != Eligible)
  {
    hide Step;
    ListHead(run.t.rows, pos, limit);
    var i := ListEligible(run.t.rows, pos, limit)[0];
    PassSkips(run, pos, i, env, cfg);
    PassStep(run, i, env, cfg);
    StepKeeps(run, i, env, cfg);
    ListGrows(run.t.rows, Step(run, i, env, cfg).t.rows, i + 1, limit - 1);
  }

  lemma BatchesDone(run: Run, pos: nat, limit: nat, env: Env, cfg: Config)
    requires pos <= |run.t.rows| && limit > 0 && ListEligible(run.t.rows, pos, limit) == []
    ensures SinglePass(run, pos, env, cfg) == run
  {
    ListHead(run.t.rows, pos, limit);
    PassSkips(run, pos, |run.t.rows|, env, cfg);
    PassStops(run, |run.t.rows|, env, cfg);
  }

  // ------------------------------------------------------------------ where a pass ends

  /** With every waiting contact present, a pass that is neither stopped nor aborted leaves no ELIGIBLE row. */
  lemma {:induction false} PassEnds(run: Run, i: nat, env: Env, cfg: Config)
    requires Sane(run) && EligibleContactsExist(run.t)
    requires forall k | 0 <= k < i && k < |run.t.rows| :: run.t.rows[k].status != Eligible
    ensures var r := SinglePass(run, i, env, cfg);
            && Sane(r) && EligibleContactsExist(r.t)
            && (!r.paused && !r.aborted ==> forall k | 0 <= k < |r.t.rows| :: r.t.rows[k].status != Eligible)
    decreases Left(run, env), if i <= |run.t.rows| then |run.t.rows| - i else 0
  {
    hide Step, Sane, EligibleContactsExist;
    if i < |run.t.rows| && !run.paused && !run.aborted {
      if run.t.rows[i].status == Eligible {
        var next := Step(run, i, env, cfg);
        StepShrinks(run, i, env, cfg);
        StepKeeps(run, i, env, cfg);
        if next.aborted {
          PassStops(next, i + 1, env, cfg);
        } else {
          PassEnds(next, i + 1, env, cfg);
        }
      } else {
        PassEnds(run, i + 1, env, cfg);
      }
    }
  }

  lemma StartIsSane(t: Tables, counters: Counters, env: Env, cfg: Config)
    requires EligibleUnsent(t.rows)
    ensures var run := Start(t, counters, env, cfg);
            && Sane(run) && !run.paused && !run.aborted && run.calls == [] && run.own == {}
            && run.looked == run.sent == run.failed == 0
            && (EligibleContactsExist(t) ==> EligibleContactsExist(run.t))
            && |t.rows| <= |run.t.rows|
            && (forall k | 0 <= k < |t.rows| && t.rows[k].status == Eligible :: run.t.rows[k] == t.rows[k])
  {
    hide DisturbAll;
    var run := First(t, counters);
    DisturbAllSpares(run, OthersAt(env, 0), cfg);
  }
}
