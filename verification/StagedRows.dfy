/** What an import leaves in the tables, said of the tables alone: which recipients it adds, with what status, and what
    its report counts. */
module StagedRows {
  import opened Prelude
  import opened Consent
  import opened CampaignTables
  import opened Eligibility
  import opened Staging

  /** The hash an imported row stands for, if it has a number that can be normalised. */
  function HashOf(row: ImportRow, normalise: string -> Option<string>): Option<string> {
    if row.phone == "" then None else normalise(row.phone)
  }

  // ------------------------------------------------------------------ an added row

  /** The row's status is the gate's verdict on its contact: ELIGIBLE exactly when the template may go to it, and
      otherwise REJECTED with the gate's reason. */
  ghost predicate FollowsTheGate(b: Book, r: Recipient, template: Template, now: int, s: Settings) {
    && Known(b, r.contact)
    && (r.status == Eligible <==> MaySend(b, r.contact, Some(template), now, false, s))
    && (r.status == Eligible ==> r.reason == NoReason)
    && (r.status != Eligible ==>
          r.status == Rejected && r.reason == GateReason(CheckEligibility(b, r.contact, Some(template), now, false, s)))
  }

  /** The row is for the first imported row with its contact's hash, and carries that row's variables. */
  ghost predicate IsFor(imported: seq<ImportRow>, m: nat, b: Book, r: Recipient, normalise: string -> Option<string>) {
    && m < |imported| && HashOf(imported[m], normalise).Some?
    && FindHash(b.contacts, HashOf(imported[m], normalise).value) == r.contact
    && r.variables == imported[m].variables
    && forall l | 0 <= l < m :: HashOf(imported[l], normalise) != HashOf(imported[m], normalise)
  }

  ghost predicate IsForOne(imported: seq<ImportRow>, b: Book, r: Recipient, normalise: string -> Option<string>) {
    exists m: nat :: IsFor(imported, m, b, r, normalise)
  }

  /** What is said of the rows an import has added to `was`. */
  ghost predicate AddedRight(was: Tables, t: Tables, imported: seq<ImportRow>, normalise: string -> Option<string>,
      template: Template, now: int, s: Settings)
  {
    |was.rows| <= |t.rows| &&
    forall k | |was.rows| <= k < |t.rows| ::
      FollowsTheGate(t.book, t.rows[k], template, now, s) && IsForOne(imported, t.book, t.rows[k], normalise) &&
      !InCampaign(was.rows, t.rows[k].contact)
  }

  /** Appending contacts changes nothing for those that are there. */
  lemma GateIsStable(a: Book, b: Book, r: Recipient, template: Template, now: int, s: Settings)
    requires FollowsTheGate(a, r, template, now, s)
    requires |a.contacts| <= |b.contacts| && b.contacts[..|a.contacts|] == a.contacts
    requires b.suppressed == a.suppressed && b.log == a.log
    ensures FollowsTheGate(b, r, template, now, s)
  {
    assert b.contacts[..|a.contacts|][r.contact] == b.contacts[r.contact];
  }

  lemma {:induction false} FindHashPrefix(a: seq<Contact>, b: seq<Contact>, hash: string)
    requires |a| <= |b| && b[..|a|] == a && FindHash(a, hash) < |a|
    ensures FindHash(b, hash) == FindHash(a, hash)
    decreases |a|
  {
    assert b[0] == b[..|a|][0];
    if a[0].hash != hash {
      assert b[1..][..|a|-1] == b[..|a|][1..];
      FindHashPrefix(a[1..], b[1..], hash);
    }
  }

  /** One imported row adds one recipient or none. */
  lemma StageOneRow(t: Tables, rep: Report, row: ImportRow, normalise: string -> Option<string>,
      template: Template, now: int, s: Settings)
    ensures var t1 := StageOne(t, rep, row, normalise, template, now, s).0;
            t1.rows == t.rows ||
            (|t1.rows| == |t.rows| + 1 && t1.rows[..|t.rows|] == t.rows &&
             var r := t1.rows[|t.rows|];
             && FollowsTheGate(t1.book, r, template, now, s) && IsFor([row], 0, t1.book, r, normalise)
             && !InCampaign(t.rows, r.contact) && r.contact < |t1.book.contacts|)
  {
    hide CheckEligibility, MaySend, Reject;
    if row.phone != "" && normalise(row.phone).Some? {
      var hash := normalise(row.phone).value;
      var id := FindHash(t.book.contacts, hash);
      FindHashFinds(t.book.contacts, hash);
      FindHashStable(t.book.contacts, Contact(hash, Unknown, true), hash);
      var t1 := GetOrCreate(t, hash);
      AllowedExactlyWhen(t1.book, id, Some(template), now, false, s);
    }
  }

  /** The added row of the first imported row, and those of the others. */
  lemma AddedFirst(t: Tables, t1: Tables, t2: Tables, imported: seq<ImportRow>, normalise: string -> Option<string>,
      template: Template, now: int, s: Settings)
    requires imported != [] && Grown(t, t1) && Grown(t1, t2)
    requires AddedRight(t1, t2, imported[1..], normalise, template, now, s) && Staged(t1, imported[0], normalise)
    requires t1.rows == t.rows ||
             (|t1.rows| == |t.rows| + 1 && t1.rows[..|t.rows|] == t.rows &&
              var r := t1.rows[|t.rows|];
              && FollowsTheGate(t1.book, r, template, now, s) && IsFor([imported[0]], 0, t1.book, r, normalise)
              && !InCampaign(t.rows, r.contact) && r.contact < |t1.book.contacts|)
    ensures AddedRight(t, t2, imported, normalise, template, now, s)
  {
    hide FollowsTheGate, FindHash;
    forall k | |t.rows| <= k < |t2.rows|
      ensures FollowsTheGate(t2.book, t2.rows[k], template, now, s) && IsForOne(imported, t2.book, t2.rows[k], normalise) &&
              !InCampaign(t.rows, t2.rows[k].contact)
    {
      var r := t2.rows[k];
      if k < |t1.rows| {
        assert t2.rows[..|t1.rows|][k] == r == t1.rows[|t.rows|];
        GateIsStable(t1.book, t2.book, r, template, now, s);
        FindHashPrefix(t1.book.contacts, t2.book.contacts, HashOf(imported[0], normalise).value);
        assert IsFor(imported, 0, t2.book, r, normalise);
      } else {
        LaterRow(t1, t2, r, imported, normalise);
        FewerRows(t.rows, t1.rows, r.contact);
      }
    }
  }

  lemma FewerRows(a: seq<Recipient>, b: seq<Recipient>, id: int)
    requires a <= b && id >= 0 && !InCampaign(b, id)
    ensures !InCampaign(a, id)
  {
    forall k | 0 <= k < |a| ensures a[k].contact != id { assert b[k] == a[k]; }
  }

  /** A row added later is not for the hash of the first imported row, whose contact is in the campaign by then. */
  lemma LaterRow(t1: Tables, t2: Tables, r: Recipient, imported: seq<ImportRow>, normalise: string -> Option<string>)
    requires imported != [] && Grown(t1, t2) && Staged(t1, imported[0], normalise)
    requires IsForOne(imported[1..], t2.book, r, normalise) && r.contact >= 0 && !InCampaign(t1.rows, r.contact)
    ensures IsForOne(imported, t2.book, r, normalise)
  {
    var m: nat :| IsFor(imported[1..], m, t2.book, r, normalise);
    assert forall l | 1 <= l < |imported| :: imported[l] == imported[1..][l-1];
    var first := HashOf(imported[0], normalise);
    if first.Some? {
      FindHashPrefix(t1.book.contacts, t2.book.contacts, first.value);
    }
    assert IsFor(imported, m + 1, t2.book, r, normalise);
  }

  lemma NothingAdded(t: Tables, imported: seq<ImportRow>, normalise: string -> Option<string>,
      template: Template, now: int, s: Settings)
    ensures AddedRight(t, t, imported, normalise, template, now, s)
  {
  }

  lemma {:induction false} StageAllAddsRight(t: Tables, rep: Report, imported: seq<ImportRow>,
      normalise: string -> Option<string>, template: Template, now: int, s: Settings)
    ensures AddedRight(t, StageAll(t, rep, imported, normalise, template, now, s).0, imported, normalise, template, now, s)
    decreases |imported|
  {
    hide StageOne, AddedRight, Grown, Staged, FollowsTheGate, IsFor, InCampaign;
    if imported == [] {
      NothingAdded(t, imported, normalise, template, now, s);
    } else {
      var (t1, rep1) := StageOne(t, rep, imported[0], normalise, template, now, s);
      StageOneRow(t, rep, imported[0], normalise, template, now, s);
      StageOneGrows(t, rep, imported[0], normalise, template, now, s);
      StageOneStages(t, rep, imported[0], normalise, template, now, s, imported[0]);
      StageAllGrows(t1, rep1, imported[1..], normalise, template, now, s);
      StageAllAddsRight(t1, rep1, imported[1..], normalise, template, now, s);
      AddedFirst(t, t1, StageAll(t1, rep1, imported[1..], normalise, template, now, s).0, imported, normalise, template, now, s);
    }
  }

  // ------------------------------------------------------------------ an added contact

  /** New contacts are those of imported hashes, and nothing is known of their consent. */
  ghost predicate NewContacts(was: Tables, t: Tables, imported: seq<ImportRow>, normalise: string -> Option<string>) {
    |was.book.contacts| <= |t.book.contacts| &&
    forall k | |was.book.contacts| <= k < |t.book.contacts| ::
      t.book.contacts[k].consent == Unknown && exists m | 0 <= m < |imported| ::
        HashOf(imported[m], normalise) == Some(t.book.contacts[k].hash)
  }

  lemma {:induction false} StageAllAddsContacts(t: Tables, rep: Report, imported: seq<ImportRow>,
      normalise: string -> Option<string>, template: Template, now: int, s: Settings)
    ensures NewContacts(t, StageAll(t, rep, imported, normalise, template, now, s).0, imported, normalise)
    decreases |imported|
  {
    hide CheckEligibility, Reject, FindHash, InCampaign;
    if imported != [] {
      var (t1, rep1) := StageOne(t, rep, imported[0], normalise, template, now, s);
      StageAllAddsContacts(t1, rep1, imported[1..], normalise, template, now, s);
      StageAllGrows(t1, rep1, imported[1..], normalise, template, now, s);
      var t2 := StageAll(t1, rep1, imported[1..], normalise, template, now, s).0;
      assert forall l | 1 <= l < |imported| :: imported[l] == imported[1..][l-1];
      forall k | |t.book.contacts| <= k < |t2.book.contacts|
        ensures t2.book.contacts[k].consent == Unknown && exists m | 0 <= m < |imported| ::
                  HashOf(imported[m], normalise) == Some(t2.book.contacts[k].hash)
      {
        if k < |t1.book.contacts| {
          assert t2.book.contacts[..|t1.book.contacts|][k] == t1.book.contacts[k];
          assert HashOf(imported[0], normalise) == Some(t2.book.contacts[k].hash);
        } else {
          var l :| 0 <= l < |imported[1..]| && HashOf(imported[1..][l], normalise) == Some(t2.book.contacts[k].hash);
          assert imported[l+1] == imported[1..][l];
        }
      }
    }
  }

  // ------------------------------------------------------------------ the report

  function Tally(rep: Report, why: Rejection): nat { if why in rep.rejections then rep.rejections[why] else 0 }

  function CountReason(rows: seq<Recipient>, code: Code): nat {
    if rows == [] then 0
    else CountReason(rows[..|rows|-1], code) + if rows[|rows|-1].reason == GateReason(code) then 1 else 0
  }

  function WithoutNumber(imported: seq<ImportRow>): nat {
    if imported == [] then 0 else (if imported[0].phone == "" then 1 else 0) + WithoutNumber(imported[1..])
  }

  function WithBadNumber(imported: seq<ImportRow>, normalise: string -> Option<string>): nat {
    if imported == [] then 0
    else (if imported[0].phone != "" && normalise(imported[0].phone).None? then 1 else 0) + WithBadNumber(imported[1..], normalise)
  }

  lemma {:induction false} CountCat(a: seq<Recipient>, b: seq<Recipient>, status: RecipientStatus, code: Code)
    ensures Count(a + b, status) == Count(a, status) + Count(b, status)
    ensures CountReason(a + b, code) == CountReason(a, code) + CountReason(b, code)
    decreases |b|
  {
    if b == [] {
      assert a + b == a;
    } else {
      assert (a + b)[..|a + b|-1] == a + b[..|b|-1];
      CountCat(a, b[..|b|-1], status, code);
    }
  }

  lemma RejectTallies(rep: Report, why: Rejection, other: Rejection)
    ensures Tally(Reject(rep, why), other) == Tally(rep, other) + if other == why then 1 else 0
  {
  }

  lemma RejectAddsNobody(rep: Report, why: Rejection)
    ensures Reject(rep, why).eligible == rep.eligible
  {
  }

  lemma CountOne(r: Recipient, code: Code)
    ensures Count([r], Eligible) == if r.status == Eligible then 1 else 0
    ensures CountReason([r], code) == if r.reason == GateReason(code) then 1 else 0
  {
    assert [r][..0] == [];
  }

  lemma CountNone(rows: seq<Recipient>, code: Code)
    ensures rows[|rows|..] == [] && Count([], Eligible) == 0 && CountReason([], code) == 0
  {
  }

  /** What one imported row adds to the report. */
  lemma StageOneReports(t: Tables, rep: Report, row: ImportRow, normalise: string -> Option<string>,
      template: Template, now: int, s: Settings, code: Code)
    requires code != Ok
    ensures var (t1, rep1) := StageOne(t, rep, row, normalise, template, now, s);
            && |t.rows| <= |t1.rows|
            && var added := t1.rows[|t.rows|..];
            && rep1.eligible == rep.eligible + Count(added, Eligible)
            && Tally(rep1, Gate(code)) == Tally(rep, Gate(code)) + CountReason(added, code)
            && Tally(rep1, MissingPhone) == Tally(rep, MissingPhone) + (if row.phone == "" then 1 else 0)
            && Tally(rep1, InvalidPhone) == Tally(rep, InvalidPhone) + (if row.phone != "" && normalise(row.phone).None? then 1 else 0)
  {
    hide CheckEligibility, FindHash, InCampaign, Reject, Tally, Count, CountReason, GetOrCreate;
    forall why, other { RejectTallies(rep, why, other); }
    forall why { RejectAddsNobody(rep, why); }
    CountNone(t.rows, code);
    if row.phone != "" && normalise(row.phone).Some? {
      FindHashFinds(t.book.contacts, normalise(row.phone).value);
      ContactIsThere(t, normalise(row.phone).value);
      TalliesEligible(rep, code);
      var rows := StageOne(t, rep, row, normalise, template, now, s).0.rows;
      if rows != t.rows {
        assert rows[|t.rows|..] == [rows[|t.rows|]];
        CountOne(rows[|t.rows|], code);
      }
    }
  }

  lemma TalliesEligible(rep: Report, code: Code)
    ensures var more := rep.(eligible := rep.eligible + 1);
            && Tally(more, Gate(code)) == Tally(rep, Gate(code))
            && Tally(more, MissingPhone) == Tally(rep, MissingPhone) && Tally(more, InvalidPhone) == Tally(rep, InvalidPhone)
  {
  }

  /** The report counts what the import did: its eligible number is that of the ELIGIBLE recipients added, each refusal of
      the gate is that of the recipients added with that reason, and the rows without a usable number are counted as
      such; with the total that leaves the duplicates. */
  lemma {:induction false} ReportCountsTheRows(t: Tables, rep: Report, imported: seq<ImportRow>,
      normalise: string -> Option<string>, template: Template, now: int, s: Settings, code: Code)
    requires code != Ok
    ensures var (t', rep') := StageAll(t, rep, imported, normalise, template, now, s);
            && |t.rows| <= |t'.rows|
            && var added := t'.rows[|t.rows|..];
            && rep'.eligible == rep.eligible + Count(added, Eligible)
            && Tally(rep', Gate(code)) == Tally(rep, Gate(code)) + CountReason(added, code)
            && Tally(rep', MissingPhone) == Tally(rep, MissingPhone) + WithoutNumber(imported)
            && Tally(rep', InvalidPhone) == Tally(rep, InvalidPhone) + WithBadNumber(imported, normalise)
    decreases |imported|
  {
    hide StageOne, Tally;
    if imported != [] {
      var (t1, rep1) := StageOne(t, rep, imported[0], normalise, template, now, s);
      StageOneReports(t, rep, imported[0], normalise, template, now, s, code);
      StageOneGrows(t, rep, imported[0], normalise, template, now, s);
      StageAllGrows(t1, rep1, imported[1..], normalise, template, now, s);
      ReportCountsTheRows(t1, rep1, imported[1..], normalise, template, now, s, code);
      var t2 := StageAll(t1, rep1, imported[1..], normalise, template, now, s).0;
      assert t2.rows[|t.rows|..] == t1.rows[|t.rows|..] + t2.rows[|t1.rows|..] by {
        assert t2.rows[..|t1.rows|] == t1.rows;
      }
      CountCat(t1.rows[|t.rows|..], t2.rows[|t1.rows|..], Eligible, code);
    }
  }

  // ------------------------------------------------------------------ the import

  /** An import adds recipients for contacts that were not in the campaign, each for the first imported row with its hash
      and with that row's variables. A recipient is ELIGIBLE exactly when the template may go to its contact, by the
      explicit condition of the gate, and is otherwise REJECTED with the gate's reason. Contacts it adds are of imported
      hashes and have an unknown consent. */
  lemma ImportAddsRight(t: Tables, imported: seq<ImportRow>, now: int, cfg: Config)
    requires Sendable(cfg)
    ensures AddedRight(t, Import(t, imported, now, cfg), imported, cfg.normalise, cfg.template.value, now, cfg.settings)
    ensures NewContacts(t, Import(t, imported, now, cfg), imported, cfg.normalise)
  {
    hide StageAll, AddedRight, NewContacts;
    StageAllAddsRight(t, EMPTY_REPORT, imported, cfg.normalise, cfg.template.value, now, cfg.settings);
    StageAllAddsContacts(t, EMPTY_REPORT, imported, cfg.normalise, cfg.template.value, now, cfg.settings);
  }

  /** Afterwards every imported row with a usable number has a recipient. */
  lemma ImportStagesEveryone(t: Tables, imported: seq<ImportRow>, now: int, cfg: Config, m: nat)
    requires Sendable(cfg) && m < |imported| && HashOf(imported[m], cfg.normalise).Some?
    ensures var t' := Import(t, imported, now, cfg);
            var id := FindHash(t'.book.contacts, HashOf(imported[m], cfg.normalise).value);
            id < |t'.book.contacts| && InCampaign(t'.rows, id)
  {
    hide StageAll, InCampaign, FindHash;
    StageAllStages(t, EMPTY_REPORT, imported, cfg.normalise, cfg.template.value, now, cfg.settings, imported[m]);
  }

  /** A marketing import makes nobody ELIGIBLE who has not opted in or whose number is suppressed; in particular nobody
      it has just met. */
  lemma MarketingNeedsOptIn(t: Tables, imported: seq<ImportRow>, now: int, cfg: Config, k: nat)
    requires Sendable(cfg) && cfg.template.value.category == MarketingCategory
    requires |t.rows| <= k < |Import(t, imported, now, cfg).rows| && Import(t, imported, now, cfg).rows[k].status == Eligible
    ensures var t' := Import(t, imported, now, cfg);
            var id := t'.rows[k].contact;
            && 0 <= id < |t.book.contacts|
            && t.book.contacts[id].consent == OptedIn && t.book.contacts[id].hash !in t.book.suppressed
  {
    hide Import, CheckEligibility, IsFor;
    ImportAddsRight(t, imported, now, cfg);
    ImportGrows(t, imported, now, cfg);
    var t' := Import(t, imported, now, cfg);
    var id := t'.rows[k].contact;
    if id < |t.book.contacts| { assert t'.book.contacts[..|t.book.contacts|][id] == t.book.contacts[id]; }
  }
}
