/** The failure-rate brake over whole runs: when a run is stopped exactly if its final counts are at the limit. */
module FailureBrake {
  import opened Prelude
  import opened Consent
  import opened CampaignTables
  import opened Dispatch

  /** The brake in whole numbers: at least ten attempts and a failed share of at least the limit. */
  lemma BrakeInWholeNumbers(sent: nat, failed: nat, rate: real)
    ensures Brake(sent, failed, rate) <==> sent + failed >= 10 && failed as real >= rate * (sent + failed) as real
  {
    var n, f := (sent + failed) as real, failed as real;
    if sent + failed >= 10 {
      var q := f / n;
      assert q * n == f;
      if q * 100.0 >= rate * 100.0 {
        assert q >= rate;
        assert q * n >= rate * n;
      } else {
        assert q < rate;
        assert q * n < rate * n;
      }
    }
  }

  /** The run is stopped exactly when its final counts are at or over the limit. */
  predicate StoppedAtTheLimit(r: Run, rate: real) { !r.aborted ==> (r.paused <==> Brake(r.sent, r.failed, rate)) }

  function LiveRun(t: Tables, counters: Counters, env: Env, cfg: Config): Run {
    SinglePass(Start(t, counters, env, cfg), 0, env, cfg)
  }

  // ------------------------------------------------------------------ readable numbers

  predicate AllReadable(b: Book) { forall k | 0 <= k < |b.contacts| :: b.contacts[k].readable }

  lemma SparedStaysReadable(a: Run, b: Run)
    requires Spared(a, b) && AllReadable(a.t.book)
    ensures AllReadable(b.t.book)
  {
  }

  lemma {:induction false} ReadablePass(run: Run, i: nat, env: Env, cfg: Config)
    requires AllReadable(run.t.book) && Sane(run) && EligibleContactsExist(run.t) && !run.aborted
    requires run.paused == Brake(run.sent, run.failed, cfg.maxFailureRate)
    ensures StoppedAtTheLimit(SinglePass(run, i, env, cfg), cfg.maxFailureRate)
    decreases Left(run, env), if i <= |run.t.rows| then |run.t.rows| - i else 0
  {
    hide Brake, Sane, Spared, DisturbAll, EligibleContactsExist;
    if i < |run.t.rows| && !run.paused {
      if run.t.rows[i].status == Eligible {
        var p := ProcessOne(run, i, env.outcomes(run.looked), cfg.maxFailureRate);
        var next := Step(run, i, env, cfg);
        StepShrinks(run, i, env, cfg);
        StepKeeps(run, i, env, cfg);
        ReadableStep(run, i, env, cfg);
        if next.aborted { PassStops(next, i + 1, env, cfg); } else { ReadablePass(next, i + 1, env, cfg); }
      } else {
        ReadablePass(run, i + 1, env, cfg);
      }
    }
  }

  lemma ReadableStep(run: Run, i: nat, env: Env, cfg: Config)
    requires i < |run.t.rows| && run.t.rows[i].status == Eligible && Sane(run) && EligibleContactsExist(run.t)
    requires AllReadable(run.t.book) && !run.aborted && !run.paused && !Brake(run.sent, run.failed, cfg.maxFailureRate)
    ensures var next := Step(run, i, env, cfg);
            && AllReadable(next.t.book)
            && (!next.aborted ==> next.paused == Brake(next.sent, next.failed, cfg.maxFailureRate))
  {
    hide Brake, Spared, DisturbAll;
    var p := ProcessOne(run, i, env.outcomes(run.looked), cfg.maxFailureRate);
    DisturbAllSpares(p, OthersAt(env, p.looked), cfg);
    DisturbAllLooks(p, OthersAt(env, p.looked), cfg);
    assert AllReadable(p.t.book);
    SparedStaysReadable(p, DisturbAll(p, OthersAt(env, p.looked), cfg));
  }

  /** When every number decrypts, a run that is not aborted is stopped exactly when its final counts are at or over
      the limit, whatever the other sessions do and whomever they stage. */
  lemma ReadableNumbersMeetTheLimit(t: Tables, counters: Counters, env: Env, cfg: Config)
    requires AllReadable(t.book) && EligibleUnsent(t.rows) && EligibleContactsExist(t)
    ensures StoppedAtTheLimit(LiveRun(t, counters, env, cfg), cfg.maxFailureRate)
  {
    hide SinglePass, DisturbAll, Sane, Spared, EligibleContactsExist;
    StartIsSane(t, counters, env, cfg);
    var run := First(t, counters);
    FirstIsSane(t, counters);
    DisturbAllSpares(run, OthersAt(env, 0), cfg);
    SparedStaysReadable(run, Start(t, counters, env, cfg));
    ReadablePass(Start(t, counters, env, cfg), 0, env, cfg);
  }

  // ------------------------------------------------------------------ unreadable numbers

  /** How many of the first `n` recipients wait. */
  function Waiting(rows: seq<Recipient>, n: nat): nat
    requires n <= |rows|
  {
    if n == 0 then 0 else Waiting(rows, n - 1) + if rows[n-1].status == Eligible then 1 else 0
  }

  predicate Unreadable(t: Tables, p: nat) {
    p < |t.rows| && t.rows[p].status == Eligible && Known(t.book, t.rows[p].contact) &&
    !t.book.contacts[t.rows[p].contact].readable
  }

  /** Some recipient with an unreadable number waits behind at least nine others. */
  predicate LateUnreadable(t: Tables) { exists p | 0 <= p < |t.rows| :: Unreadable(t, p) && Waiting(t.rows, p) >= 9 }

  /** Nobody is staged while the run is under way. */
  ghost predicate NobodyStaged(env: Env) { forall k | 0 <= k < |env.others| :: NoImports(env.others[k]) }

  /** The run is about to look at row `i` of what was `t`, and everything from there on is as it was. */
  ghost predicate Behind(run: Run, i: nat, t: Tables) {
    && Sane(run) && i <= |t.rows| == |run.t.rows| && run.looked == Waiting(t.rows, i)
    && (forall k | i <= k < |t.rows| ::
          (run.t.rows[k].status == Eligible <==> t.rows[k].status == Eligible) && run.t.rows[k].contact == t.rows[k].contact)
    && SameNumbers(run.t.book, t.book)
  }

  predicate SameNumbers(a: Book, b: Book) {
    |a.contacts| == |b.contacts| &&
    forall k | 0 <= k < |a.contacts| :: a.contacts[k].readable == b.contacts[k].readable && a.contacts[k].hash == b.contacts[k].hash
  }

  lemma {:induction false} NoImportsKeepSize(run: Run, os: seq<Other>, cfg: Config)
    requires NoImports(os)
    ensures var r := DisturbAll(run, os, cfg); |r.t.rows| == |run.t.rows| && |r.t.book.contacts| == |run.t.book.contacts|
    decreases |os|
  {
    hide Apply, AfterFailure, FindMeta;
    if os != [] {
      match os[0]
      case ConsentChange(e) => EventKeepsContacts(run.t.book, e);
        NoImportsKeepSize(Disturb(run, os[0], cfg), os[1..], cfg);
      case StatusReport(metaId, status, code) =>
        if metaId in run.t.messages { FailureKeepsContacts(run.t.book, run.t.messages[metaId], status, code); }
        NoImportsKeepSize(Disturb(run, os[0], cfg), os[1..], cfg);
    }
  }

  lemma DisturbedStaysBehind(run: Run, i: nat, t: Tables, os: seq<Other>, cfg: Config)
    requires Behind(run, i, t) && NoImports(os)
    ensures Behind(DisturbAll(run, os, cfg), i, t)
  {
    hide DisturbAll, Sane;
    NoImportsKeepSize(run, os, cfg);
    DisturbAllSpares(run, os, cfg);
  }

  lemma ProcessedIsBehind(run: Run, i: nat, t: Tables, outcome: Outcome, rate: real)
    requires Behind(run, i, t) && i < |t.rows| && run.t.rows[i].status == Eligible
    ensures Behind(ProcessOne(run, i, outcome, rate), i + 1, t)
  {
    hide ProcessOne;
    ProcessTouchesOneRow(run, i, outcome, rate);
    ProcessKeepsSane(run, i, outcome, rate);
  }

  lemma StepIsBehind(run: Run, i: nat, t: Tables, env: Env, cfg: Config)
    requires Behind(run, i, t) && i < |t.rows| && run.t.rows[i].status == Eligible && NobodyStaged(env)
    ensures Behind(Step(run, i, env, cfg), i + 1, t)
  {
    hide ProcessOne, DisturbAll, Behind;
    BehindMeans(run, i, t);
    ProcessedIsBehind(run, i, t, env.outcomes(run.looked), cfg.maxFailureRate);
    var p := ProcessOne(run, i, env.outcomes(run.looked), cfg.maxFailureRate);
    DisturbedStaysBehind(p, i + 1, t, OthersAt(env, p.looked), cfg);
  }

  lemma BehindMeans(run: Run, i: nat, t: Tables)
    requires Behind(run, i, t)
    ensures Sane(run) && i <= |t.rows| == |run.t.rows| && run.looked == Waiting(t.rows, i)
    ensures i < |t.rows| ==> (run.t.rows[i].status == Eligible <==> t.rows[i].status == Eligible) &&
                             run.t.rows[i].contact == t.rows[i].contact
    ensures SameNumbers(run.t.book, t.book)
  {
  }

  lemma SkippedIsBehind(run: Run, i: nat, t: Tables)
    requires Behind(run, i, t) && i < |t.rows| && run.t.rows[i].status != Eligible
    ensures Behind(run, i + 1, t)
  {
  }

  lemma StartIsBehind(t: Tables, counters: Counters, env: Env, cfg: Config)
    requires EligibleUnsent(t.rows) && NobodyStaged(env)
    ensures Behind(Start(t, counters, env, cfg), 0, t)
  {
    hide DisturbAll;
    FirstIsSane(t, counters);
    DisturbedStaysBehind(First(t, counters), 0, t, OthersAt(env, 0), cfg);
  }

  /** Only a number without a check can leave the counts over the limit unseen, and only as the tenth attempt. */
  lemma EarlyUnreadableStep(run: Run, i: nat, t: Tables, env: Env, cfg: Config)
    requires Behind(run, i, t) && i < |t.rows| && run.t.rows[i].status == Eligible && !LateUnreadable(t)
    requires run.sent + run.failed <= run.looked && !run.aborted && !run.paused
    requires !Brake(run.sent, run.failed, cfg.maxFailureRate)
    ensures var next := Step(run, i, env, cfg);
            && next.sent + next.failed <= next.looked
            && (!next.aborted ==> next.paused == Brake(next.sent, next.failed, cfg.maxFailureRate))
  {
    hide DisturbAll, Behind, LateUnreadable;
    BehindMeans(run, i, t);
    var p := ProcessOne(run, i, env.outcomes(run.looked), cfg.maxFailureRate);
    DisturbAllLooks(p, OthersAt(env, p.looked), cfg);
    if Unreadable(t, i) { NotLate(t, i); }
  }

  lemma NotLate(t: Tables, p: nat)
    requires Unreadable(t, p) && !LateUnreadable(t)
    ensures Waiting(t.rows, p) < 9
  {
  }

  lemma {:induction false} EarlyUnreadablePass(run: Run, i: nat, t: Tables, env: Env, cfg: Config)
    requires Behind(run, i, t) && !LateUnreadable(t) && NobodyStaged(env)
    requires run.sent + run.failed <= run.looked && !run.aborted
    requires run.paused == Brake(run.sent, run.failed, cfg.maxFailureRate)
    ensures StoppedAtTheLimit(SinglePass(run, i, env, cfg), cfg.maxFailureRate)
    decreases |t.rows| - i
  {
    hide Brake, Behind, LateUnreadable, Step;
    BehindMeans(run, i, t);
    if i < |run.t.rows| && !run.paused {
      if run.t.rows[i].status == Eligible {
        var next := Step(run, i, env, cfg);
        StepShrinks(run, i, env, cfg);
        StepIsBehind(run, i, t, env, cfg);
        EarlyUnreadableStep(run, i, t, env, cfg);
        if next.aborted { PassStops(next, i + 1, env, cfg); } else { EarlyUnreadablePass(next, i + 1, t, env, cfg); }
      } else {
        SkippedIsBehind(run, i, t);
        EarlyUnreadablePass(run, i + 1, t, env, cfg);
      }
    }
  }

  // ------------------------------------------------------------------ how a late one slips through

  /** An operator suppresses every number. */
  function SuppressEverybody(cs: seq<Contact>): seq<Event> {
    if cs == [] then [] else [OperatorEvent(cs[0].hash)] + SuppressEverybody(cs[1..])
  }

  /** The contacts from `k` on opt in. */
  function OptInFrom(k: nat, n: nat): seq<Event>
    decreases n - k
  {
    if k >= n then [] else [OptInEvent(k, Marketing, 0, 0)] + OptInFrom(k + 1, n)
  }

  predicate AllSuppressed(b: Book) { forall k | 0 <= k < |b.contacts| :: b.contacts[k].hash in b.suppressed }

  predicate NoneSuppressed(b: Book) { forall k | 0 <= k < |b.contacts| :: b.contacts[k].hash !in b.suppressed }

  lemma {:induction false} EverybodyIsSuppressed(b: Book, cs: seq<Contact>)
    ensures var b' := ApplyAll(b, SuppressEverybody(cs));
            && b'.contacts == b.contacts && b.suppressed <= b'.suppressed
            && forall k | 0 <= k < |cs| :: cs[k].hash in b'.suppressed
    decreases |cs|
  {
    if cs != [] {
      assert SuppressEverybody(cs)[1..] == SuppressEverybody(cs[1..]);
      EverybodyIsSuppressed(SuppressHashBook(b, cs[0].hash), cs[1..]);
      assert forall k | 1 <= k < |cs| :: cs[k] == cs[1..][k-1];
    }
  }

  lemma {:induction false} EverybodyHasOptedIn(b: Book, k: nat)
    ensures var b' := ApplyAll(b, OptInFrom(k, |b.contacts|));
            && SameNumbers(b', b) && b'.suppressed <= b.suppressed
            && forall j | k <= j < |b.contacts| :: b.contacts[j].hash !in b'.suppressed
    decreases |b.contacts| - k
  {
    if k < |b.contacts| {
      assert OptInFrom(k, |b.contacts|)[1..] == OptInFrom(k + 1, |b.contacts|);
      EverybodyHasOptedIn(OptInBook(b, k, Marketing, 0), k + 1);
    }
  }

  /** Nine failures in a row, then the unreadable number as the tenth, and everybody else suppressed. */
  function SlippingEvents(t: Tables, q: nat, k: nat): seq<Event> {
    if q <= k + 9 && k <= q then OptInFrom(0, |t.book.contacts|) else SuppressEverybody(t.book.contacts)
  }

  function SlippingEnv(t: Tables, q: nat): Env {
    Env(seq(q + 2, k requires 0 <= k < q + 2 => Changes(SlippingEvents(t, q, k))), (k: nat) => ApiError(0), [])
  }

  lemma SlippingStagesNobody(t: Tables, q: nat, run: Run, cfg: Config)
    ensures NobodyStaged(SlippingEnv(t, q))
  {
    forall k | 0 <= k < q + 2 ensures NoImports(SlippingEnv(t, q).others[k]) {
      DisturbByChanges(run, SlippingEvents(t, q, k), cfg);
    }
  }

  /** The counts and the suppression list when `k` recipients have been looked at. */
  ghost predicate Slipping(run: Run, t: Tables, q: nat) {
    && run.sent == 0 && !run.paused && !run.aborted && SameNumbers(run.t.book, t.book)
    && run.failed == (if run.looked + 9 < q then 0 else if run.looked <= q then run.looked + 9 - q else 10)
    && (if q <= run.looked + 9 && run.looked <= q then NoneSuppressed(run.t.book) else AllSuppressed(run.t.book))
  }

  lemma SlippingEventsApply(b: Book, t: Tables, q: nat, k: nat)
    requires SameNumbers(b, t.book)
    ensures var b' := ApplyAll(b, SlippingEvents(t, q, k));
            && SameNumbers(b', t.book)
            && (if q <= k + 9 && k <= q then NoneSuppressed(b') else AllSuppressed(b'))
  {
    hide ApplyAll;
    EverybodyIsSuppressed(b, t.book.contacts);
    EverybodyHasOptedIn(b, 0);
  }

  /** What looking at one recipient does to the counts. */
  lemma SlippingLook(run: Run, i: nat, t: Tables, q: nat, p: nat, rate: real)
    requires Behind(run, i, t) && Slipping(run, t, q) && i < |t.rows| && run.t.rows[i].status == Eligible
    requires EligibleContactsExist(t) && Unreadable(t, p) && q == Waiting(t.rows, p) >= 9
    ensures var r := ProcessOne(run, i, ApiError(0), rate);
            && r.sent == 0 && !r.paused && !r.aborted && r.looked == run.looked + 1
            && SameNumbers(r.t.book, t.book) && r.t.book.suppressed == run.t.book.suppressed
            && r.failed == (if r.looked + 9 < q then 0 else if r.looked <= q then r.looked + 9 - q else 10)
  {
    hide Waiting, Behind;
    BehindMeans(run, i, t);
    if run.looked == q { OnlyOneWaitsThere(t.rows, i, p); }
  }

  lemma OnlyOneWaitsThere(rows: seq<Recipient>, i: nat, p: nat)
    requires i < |rows| && p < |rows| && rows[i].status == Eligible && rows[p].status == Eligible
    requires Waiting(rows, i) == Waiting(rows, p)
    ensures i == p
  {
    if i < p { WaitingGrows(rows, i, p); }
    if p < i { WaitingGrows(rows, p, i); }
  }

  lemma {:induction false} WaitingGrows(rows: seq<Recipient>, i: nat, j: nat)
    requires i < j <= |rows|
    ensures Waiting(rows, j) >= Waiting(rows, i) + if rows[i].status == Eligible then 1 else 0
    decreases j
  {
    if i + 1 < j { WaitingGrows(rows, i, j - 1); }
  }

  lemma SlippingStep(run: Run, i: nat, t: Tables, q: nat, p: nat, cfg: Config)
    requires Behind(run, i, t) && Slipping(run, t, q) && i < |t.rows| && run.t.rows[i].status == Eligible
    requires EligibleContactsExist(t) && Unreadable(t, p) && q == Waiting(t.rows, p) >= 9
    ensures Slipping(Step(run, i, SlippingEnv(t, q), cfg), t, q)
  {
    hide ProcessOne, DisturbAll, Behind, ApplyAll, Waiting, SlippingEvents;
    var env := SlippingEnv(t, q);
    BehindMeans(run, i, t);
    SlippingLook(run, i, t, q, p, cfg.maxFailureRate);
    var r := ProcessOne(run, i, ApiError(0), cfg.maxFailureRate);
    var es := SlippingEvents(t, q, r.looked);
    if r.looked < q + 2 {
      DisturbByChanges(r, es, cfg);
      SlippingEventsApply(r.t.book, t, q, r.looked);
    } else {
      NobodyDisturbs(r, cfg);
    }
  }

  lemma {:induction false} SlippingPass(run: Run, i: nat, t: Tables, q: nat, p: nat, cfg: Config)
    requires Behind(run, i, t) && Slipping(run, t, q) && EligibleContactsExist(t) && Unreadable(t, p) && q == Waiting(t.rows, p) >= 9
    ensures var r := SinglePass(run, i, SlippingEnv(t, q), cfg);
            !r.aborted && !r.paused && r.sent == 0 && (r.failed == 10 <==> Waiting(t.rows, |t.rows|) > q)
    decreases |t.rows| - i
  {
    hide Behind, Step, Slipping, Waiting, SlippingEnv, EligibleContactsExist;
    var env := SlippingEnv(t, q);
    BehindMeans(run, i, t);
    SlippingMeans(run, t, q);
    if i < |run.t.rows| {
      if run.t.rows[i].status == Eligible {
        StepShrinks(run, i, env, cfg);
        SlippingStagesNobody(t, q, run, cfg);
        StepIsBehind(run, i, t, env, cfg);
        SlippingStep(run, i, t, q, p, cfg);
        SlippingPass(Step(run, i, env, cfg), i + 1, t, q, p, cfg);
      } else {
        SkippedIsBehind(run, i, t);
        SlippingPass(run, i + 1, t, q, p, cfg);
      }
    }
  }

  lemma SlippingMeans(run: Run, t: Tables, q: nat)
    requires Slipping(run, t, q)
    ensures run.sent == 0 && !run.paused && !run.aborted && (run.failed == 10 <==> run.looked > q)
  {
  }

  /** With a late unreadable number a run can end with ten attempts, all failed, without having been stopped. */
  lemma LateUnreadableSlipsThrough(t: Tables, counters: Counters, p: nat, cfg: Config)
    requires EligibleUnsent(t.rows) && EligibleContactsExist(t) && Unreadable(t, p) && Waiting(t.rows, p) >= 9
    ensures var r := LiveRun(t, counters, SlippingEnv(t, Waiting(t.rows, p)), cfg);
            && NobodyStaged(SlippingEnv(t, Waiting(t.rows, p)))
            && !r.aborted && !r.paused && r.sent == 0 && r.failed == 10
  {
    hide SinglePass, DisturbAll, Behind, Waiting, SlippingEvents, ApplyAll, EligibleContactsExist;
    var q := Waiting(t.rows, p);
    var env := SlippingEnv(t, q);
    var first := First(t, counters);
    SlippingStagesNobody(t, q, first, cfg);
    StartIsBehind(t, counters, env, cfg);
    DisturbByChanges(first, SlippingEvents(t, q, 0), cfg);
    SlippingEventsApply(t.book, t, q, 0);
    assert OthersAt(env, 0) == Changes(SlippingEvents(t, q, 0));
    SlippingPass(Start(t, counters, env, cfg), 0, t, q, p, cfg);
    WaitingGrows(t.rows, p, |t.rows|);
  }

  /** A run nobody stages recipients into is stopped exactly when its final counts are at or over the limit,
      whatever happens, if and only if no unreadable number waits behind nine others. */
  lemma StoppedAtTheLimitExactlyWhen(t: Tables, counters: Counters, cfg: Config)
    requires EligibleUnsent(t.rows) && EligibleContactsExist(t) && cfg.maxFailureRate <= 1.0
    ensures (forall env | NobodyStaged(env) :: StoppedAtTheLimit(LiveRun(t, counters, env, cfg), cfg.maxFailureRate)) <==>
            !LateUnreadable(t)
  {
    hide LiveRun, Waiting, SlippingEnv, EligibleContactsExist, NobodyStaged;
    if LateUnreadable(t) {
      var p: nat :| p < |t.rows| && Unreadable(t, p) && Waiting(t.rows, p) >= 9;
      LateUnreadableSlipsThrough(t, counters, p, cfg);
      BrakeInWholeNumbers(0, 10, cfg.maxFailureRate);
      assert !StoppedAtTheLimit(LiveRun(t, counters, SlippingEnv(t, Waiting(t.rows, p)), cfg), cfg.maxFailureRate);
    } else {
      forall env | NobodyStaged(env) ensures StoppedAtTheLimit(LiveRun(t, counters, env, cfg), cfg.maxFailureRate) {
        EarlyUnreadableRun(t, counters, env, cfg);
      }
    }
  }

  lemma EarlyUnreadableRun(t: Tables, counters: Counters, env: Env, cfg: Config)
    requires EligibleUnsent(t.rows) && NobodyStaged(env) && !LateUnreadable(t)
    ensures StoppedAtTheLimit(LiveRun(t, counters, env, cfg), cfg.maxFailureRate)
  {
    hide SinglePass, DisturbAll, Behind, LateUnreadable, NobodyStaged, Sane;
    StartIsBehind(t, counters, env, cfg);
    StartIsSane(t, counters, env, cfg);
    EarlyUnreadablePass(Start(t, counters, env, cfg), 0, t, env, cfg);
  }

  // ------------------------------------------------------------------ a table that shows it

  function TenRows(n: nat): seq<Recipient> { seq(n, k => Recipient(k, [], Eligible, NoReason, None, 0)) }

  function TenContacts(): seq<Contact> {
    seq(10, k requires 0 <= k < 10 => Contact(["0123456789"[k]], OptedIn, k != 9))
  }

  const TEN := Tables(Book(TenContacts(), {}, [], []), TenRows(10), map[])

  lemma {:induction false} EverybodyWaits(n: nat, k: nat)
    requires k <= n
    ensures Waiting(TenRows(n), k) == k
    decreases k
  {
    if k > 0 { EverybodyWaits(n, k - 1); }
  }

  /** Ten recipients, the last with a number that does not decrypt: ten failures out of ten, and no stop. */
  lemma TenFailuresWithoutAStop(cfg: Config)
    ensures var r := LiveRun(TEN, CountersOf([]), SlippingEnv(TEN, 9), cfg);
            !r.aborted && !r.paused && r.sent == 0 && r.failed == 10
  {
    hide LiveRun, SlippingEnv, Waiting;
    EverybodyWaits(10, 9);
    LateUnreadableSlipsThrough(TEN, CountersOf([]), 9, cfg);
  }
}
