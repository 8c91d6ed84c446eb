/** Staging imported rows: one eligibility decision a row, a report, and the rows it adds. */
module Staging {
  import opened Prelude
  import opened Consent
  import opened CampaignTables
  import opened Eligibility

  datatype ImportRow = ImportRow(phone: string, variables: seq<string>)

  datatype Rejection = MissingPhone | InvalidPhone | AlreadyInCampaign | Gate(code: Code)

  datatype Report = Report(total: nat, eligible: nat, rejected: nat, rejections: map<Rejection, nat>)

  function Reject(rep: Report, why: Rejection): Report {
    var n := if why in rep.rejections then rep.rejections[why] else 0;
    rep.(rejected := rep.rejected + 1, rejections := rep.rejections[why := n + 1])
  }

  /** The position of the contact with this hash, or the next free one. */
  function FindHash(cs: seq<Contact>, hash: string): nat {
    if cs == [] then 0 else if cs[0].hash == hash then 0 else 1 + FindHash(cs[1..], hash)
  }

  predicate InCampaign(rows: seq<Recipient>, id: nat) {
    exists k | 0 <= k < |rows| :: rows[k].contact == id
  }

  function GetOrCreate(t: Tables, hash: string): Tables {
    if FindHash(t.book.contacts, hash) < |t.book.contacts| then t
    else t.(book := t.book.(contacts := t.book.contacts + [Contact(hash, Unknown, true)]))
  }

  function StageOne(t: Tables, rep: Report, row: ImportRow, normalise: string -> Option<string>,
                    template: Template, now: int, s: Settings): (Tables, Report)
  {
    if row.phone == "" then (t, Reject(rep, MissingPhone))
    else if normalise(row.phone).None? then (t, Reject(rep, InvalidPhone))
    else
      var hash := normalise(row.phone).value;
      var id := FindHash(t.book.contacts, hash);
      var t1 := GetOrCreate(t, hash);
      FindHashFinds(t.book.contacts, hash);
      if InCampaign(t1.rows, id) then (t1, Reject(rep, AlreadyInCampaign))
      else
        var code := CheckEligibility(t1.book, id, Some(template), now, false, s);
        if code == Ok then
          (t1.(rows := t1.rows + [Recipient(id, row.variables, Eligible, NoReason, None, 0)]),
           rep.(eligible := rep.eligible + 1))
        else
          (t1.(rows := t1.rows + [Recipient(id, row.variables, Rejected, GateReason(code), None, 0)]),
           Reject(rep, Gate(code)))
  }

  function StageAll(t: Tables, rep: Report, rows: seq<ImportRow>, normalise: string -> Option<string>,
                    template: Template, now: int, s: Settings): (Tables, Report)
    decreases |rows|
  {
    if rows == [] then (t, rep)
    else
      var (t1, rep1) := StageOne(t, rep, rows[0], normalise, template, now, s);
      StageAll(t1, rep1, rows[1..], normalise, template, now, s)
  }

  lemma {:induction false} FindHashFinds(cs: seq<Contact>, hash: string)
    ensures var k := FindHash(cs, hash);
            && k <= |cs|
            && (k < |cs| ==> cs[k].hash == hash)
            && forall j | 0 <= j < k :: cs[j].hash != hash
    decreases |cs|
  {
    if cs != [] && cs[0].hash != hash {
      FindHashFinds(cs[1..], hash);
      assert forall j | 1 <= j < |cs| :: cs[j] == cs[1..][j-1];
    }
  }

  /** The sum of a rejection histogram. */
  ghost function Total(m: map<Rejection, nat>): nat
    decreases |m|
  {
    if m == map[] then 0
    else
      var k :| k in m;
      RemovingOne(m, k);
      m[k] + Total(m - {k})
  }

  lemma RemovingOne(m: map<Rejection, nat>, k: Rejection)
    requires k in m
    ensures |m - {k}| < |m|
  {
    assert m.Keys == (m - {k}).Keys + {k};
  }

  lemma {:induction false} TotalPicks(m: map<Rejection, nat>, k: Rejection)
    requires k in m
    ensures Total(m) == m[k] + Total(m - {k})
    decreases |m|
  {
    var j :| j in m && Total(m) == m[j] + Total(m - {j});
    if j != k {
      RemovingOne(m, j);
      RemovingOne(m, k);
      TotalPicks(m - {j}, k);
      TotalPicks(m - {k}, j);
      assert m - {j} - {k} == m - {k} - {j};
    }
  }

  lemma RejectAddsOne(rep: Report, why: Rejection)
    ensures Total(Reject(rep, why).rejections) == Total(rep.rejections) + 1
  {
    var m, m' := rep.rejections, Reject(rep, why).rejections;
    TotalPicks(m', why);
    if why in m {
      TotalPicks(m, why);
      assert m' - {why} == m - {why};
    } else {
      assert m' - {why} == m;
    }
  }

  /** Every imported row is counted once, as eligible or as rejected, and every rejection has a cause. */
  lemma {:induction false} StagingReportAddsUp(t: Tables, rep: Report, rows: seq<ImportRow>,
      normalise: string -> Option<string>, template: Template, now: int, s: Settings)
    requires rep.rejected == Total(rep.rejections)
    ensures var rep' := StageAll(t, rep, rows, normalise, template, now, s).1;
            && rep'.eligible + rep'.rejected == rep.eligible + rep.rejected + |rows|
            && rep'.rejected == Total(rep'.rejections)
    decreases |rows|
  {
    if rows != [] {
      forall why { RejectAddsOne(rep, why); }
      var (t1, rep1) := StageOne(t, rep, rows[0], normalise, template, now, s);
      StagingReportAddsUp(t1, rep1, rows[1..], normalise, template, now, s);
    }
  }

  /** The row names no number, or its contact is in the campaign. */
  predicate Staged(t: Tables, row: ImportRow, normalise: string -> Option<string>) {
    row.phone == "" || normalise(row.phone).None? ||
      var id := FindHash(t.book.contacts, normalise(row.phone).value);
      id < |t.book.contacts| && InCampaign(t.rows, id)
  }

  lemma {:induction false} FindHashStable(cs: seq<Contact>, c: Contact, hash: string)
    ensures FindHash(cs, hash) < |cs| ==> FindHash(cs + [c], hash) == FindHash(cs, hash)
    ensures FindHash(cs, c.hash) == |cs| ==> FindHash(cs + [c], c.hash) == |cs|
    decreases |cs|
  {
    if cs != [] {
      assert (cs + [c])[1..] == cs[1..] + [c];
      FindHashStable(cs[1..], c, hash);
    }
  }

  lemma StageOneStages(t: Tables, rep: Report, row: ImportRow, normalise: string -> Option<string>,
      template: Template, now: int, s: Settings, other: ImportRow)
    ensures var t' := StageOne(t, rep, row, normalise, template, now, s).0;
            && Staged(t', row, normalise)
            && (Staged(t, other, normalise) ==> Staged(t', other, normalise))
            && (Staged(t, row, normalise) ==> t' == t && StageOne(t, rep, row, normalise, template, now, s).1.eligible == rep.eligible)
  {
    var t' := StageOne(t, rep, row, normalise, template, now, s).0;
    if row.phone != "" && normalise(row.phone).Some? {
      var hash := normalise(row.phone).value;
      var id := FindHash(t.book.contacts, hash);
      FindHashFinds(t.book.contacts, hash);
      FindHashStable(t.book.contacts, Contact(hash, Unknown, true), hash);
      assert FindHash(t'.book.contacts, hash) == id < |t'.book.contacts|;
      assert InCampaign(t'.rows, id) by {
        if !InCampaign(t.rows, id) { assert t'.rows[|t.rows|].contact == id; }
      }
      if other.phone != "" && normalise(other.phone).Some? && Staged(t, other, normalise) {
        var g := normalise(other.phone).value;
        FindHashStable(t.book.contacts, Contact(hash, Unknown, true), g);
        var k :| 0 <= k < |t.rows| && t.rows[k].contact == FindHash(t.book.contacts, g);
        assert t'.rows[k] == t.rows[k];
      }
    }
  }

  lemma {:induction false} StageAllStages(t: Tables, rep: Report, rows: seq<ImportRow>, normalise: string -> Option<string>,
      template: Template, now: int, s: Settings, other: ImportRow)
    ensures var t' := StageAll(t, rep, rows, normalise, template, now, s).0;
            && (Staged(t, other, normalise) || other in rows ==> Staged(t', other, normalise))
    decreases |rows|
  {
    if rows != [] {
      StageOneStages(t, rep, rows[0], normalise, template, now, s, other);
      var (t1, rep1) := StageOne(t, rep, rows[0], normalise, template, now, s);
      StageAllStages(t1, rep1, rows[1..], normalise, template, now, s, other);
    }
  }

  lemma {:induction false} StagingStagedRowsIsIdle(t: Tables, rep: Report, rows: seq<ImportRow>,
      normalise: string -> Option<string>, template: Template, now: int, s: Settings)
    requires forall k | 0 <= k < |rows| :: Staged(t, rows[k], normalise)
    ensures var (t', rep') := StageAll(t, rep, rows, normalise, template, now, s);
            t' == t && rep'.eligible == rep.eligible
    decreases |rows|
  {
    if rows != [] {
      StageOneStages(t, rep, rows[0], normalise, template, now, s, rows[0]);
      StagingStagedRowsIsIdle(t, StageOne(t, rep, rows[0], normalise, template, now, s).1, rows[1..],
                              normalise, template, now, s);
    }
  }

  const EMPTY_REPORT := Report(0, 0, 0, map[])

  /** Importing the same file again, whenever and under whatever template, adds nobody. */
  lemma RestagingAddsNobody(t: Tables, rows: seq<ImportRow>, normalise: string -> Option<string>,
      template: Template, now: int, s: Settings, template2: Template, now2: int, s2: Settings)
    ensures var t1 := StageAll(t, EMPTY_REPORT, rows, normalise, template, now, s).0;
            var (t2, rep2) := StageAll(t1, EMPTY_REPORT, rows, normalise, template2, now2, s2);
            t2 == t1 && rep2.eligible == 0 && rep2.rejected == |rows|
  {
    var t1 := StageAll(t, EMPTY_REPORT, rows, normalise, template, now, s).0;
    forall k | 0 <= k < |rows| ensures Staged(t1, rows[k], normalise) {
      StageAllStages(t, EMPTY_REPORT, rows, normalise, template, now, s, rows[k]);
    }
    StagingStagedRowsIsIdle(t1, EMPTY_REPORT, rows, normalise, template2, now2, s2);
    StagingReportAddsUp(t1, EMPTY_REPORT, rows, normalise, template2, now2, s2);
  }

  // ------------------------------------------------------------------ what staging touches

  /** Importing a file under the campaign's configuration; nothing happens for a template that may not be sent. */
  function Import(t: Tables, imported: seq<ImportRow>, now: int, cfg: Config): Tables {
    if Sendable(cfg) then StageAll(t, EMPTY_REPORT, imported, cfg.normalise, cfg.template.value, now, cfg.settings).0 else t
  }

  /** Staging appends contacts and rows and changes nothing that was there. A new contact is readable; a new row
      has no message, is ELIGIBLE or REJECTED, and its contact exists. */
  ghost predicate Grown(t: Tables, t': Tables) {
    && |t.book.contacts| <= |t'.book.contacts| && t'.book.contacts[..|t.book.contacts|] == t.book.contacts
    && (forall k | |t.book.contacts| <= k < |t'.book.contacts| :: t'.book.contacts[k].readable)
    && t'.book.suppressed == t.book.suppressed && t'.book.log == t.book.log && t'.book.history == t.book.history
    && |t.rows| <= |t'.rows| && t'.rows[..|t.rows|] == t.rows
    && (forall k | |t.rows| <= k < |t'.rows| ::
          && t'.rows[k].metaId == None && (t'.rows[k].status == Eligible || t'.rows[k].status == Rejected)
          && Known(t'.book, t'.rows[k].contact))
    && t'.messages == t.messages
  }

  lemma GrownAgain(t: Tables, t1: Tables, t2: Tables)
    requires Grown(t, t1) && Grown(t1, t2)
    ensures Grown(t, t2)
  {
    assert t2.book.contacts[..|t.book.contacts|] == t2.book.contacts[..|t1.book.contacts|][..|t.book.contacts|];
    assert t2.rows[..|t.rows|] == t2.rows[..|t1.rows|][..|t.rows|];
    forall k | |t.rows| <= k < |t1.rows| ensures t2.rows[k] == t1.rows[k] {
      assert t2.rows[..|t1.rows|][k] == t1.rows[k];
    }
    forall k | |t.book.contacts| <= k < |t1.book.contacts| ensures t2.book.contacts[k] == t1.book.contacts[k] {
      assert t2.book.contacts[..|t1.book.contacts|][k] == t1.book.contacts[k];
    }
  }

  lemma GrownNot(t: Tables)
    ensures Grown(t, t)
  {
  }

  lemma StageOneGrows(t: Tables, rep: Report, row: ImportRow, normalise: string -> Option<string>,
      template: Template, now: int, s: Settings)
    ensures Grown(t, StageOne(t, rep, row, normalise, template, now, s).0)
  {
    hide CheckEligibility, InCampaign, Reject, Grown, GetOrCreate;
    GrownNot(t);
    if row.phone != "" && normalise(row.phone).Some? {
      var hash := normalise(row.phone).value;
      var id := FindHash(t.book.contacts, hash);
      var t1 := GetOrCreate(t, hash);
      ContactIsThere(t, hash);
      forall r: Recipient | r.metaId == None && (r.status == Eligible || r.status == Rejected) && r.contact == id
        ensures Grown(t, t1.(rows := t1.rows + [r]))
      {
        RowIsAdded(t, t1, r);
      }
    }
  }

  lemma ContactIsThere(t: Tables, hash: string)
    ensures var t1 := GetOrCreate(t, hash);
            Grown(t, t1) && t1.rows == t.rows && FindHash(t.book.contacts, hash) < |t1.book.contacts|
  {
    FindHashFinds(t.book.contacts, hash);
  }

  lemma RowIsAdded(t: Tables, t1: Tables, r: Recipient)
    requires Grown(t, t1) && t1.rows == t.rows && Known(t1.book, r.contact)
    requires r.metaId == None && (r.status == Eligible || r.status == Rejected)
    ensures Grown(t, t1.(rows := t1.rows + [r]))
  {
  }

  lemma {:induction false} StageAllGrows(t: Tables, rep: Report, rows: seq<ImportRow>, normalise: string -> Option<string>,
      template: Template, now: int, s: Settings)
    ensures Grown(t, StageAll(t, rep, rows, normalise, template, now, s).0)
    decreases |rows|
  {
    hide StageOne, Grown;
    if rows == [] {
      GrownNot(t);
    } else {
      var (t1, rep1) := StageOne(t, rep, rows[0], normalise, template, now, s);
      StageOneGrows(t, rep, rows[0], normalise, template, now, s);
      StageAllGrows(t1, rep1, rows[1..], normalise, template, now, s);
      GrownAgain(t, t1, StageAll(t1, rep1, rows[1..], normalise, template, now, s).0);
    }
  }

  lemma ImportGrows(t: Tables, imported: seq<ImportRow>, now: int, cfg: Config)
    ensures Grown(t, Import(t, imported, now, cfg))
  {
    hide StageAll, Grown;
    GrownNot(t);
    if Sendable(cfg) {
      StageAllGrows(t, EMPTY_REPORT, imported, cfg.normalise, cfg.template.value, now, cfg.settings);
    }
  }

  // ------------------------------------------------------------------ staging looks at contacts only

  /** Two views of the recipients that list the same contacts in the same order. */
  predicate SameContacts(a: seq<Recipient>, b: seq<Recipient>) {
    |a| == |b| && forall k | 0 <= k < |a| :: a[k].contact == b[k].contact
  }

  /** `u` is `t` with other statuses and messages. */
  predicate Alike(t: Tables, u: Tables) { t.book == u.book && SameContacts(t.rows, u.rows) }

  lemma StageOneAlike(t: Tables, u: Tables, rep: Report, row: ImportRow, normalise: string -> Option<string>,
      template: Template, now: int, s: Settings)
    requires Alike(t, u)
    ensures var (t', rep') := StageOne(t, rep, row, normalise, template, now, s);
            var (u', rep2) := StageOne(u, rep, row, normalise, template, now, s);
            && Alike(t', u') && rep2 == rep' && |t.rows| <= |t'.rows|
            && u'.rows == u.rows + t'.rows[|t.rows|..] && u'.messages == u.messages
  {
    hide CheckEligibility, Reject;
    if row.phone != "" && normalise(row.phone).Some? {
      var id := FindHash(t.book.contacts, normalise(row.phone).value);
      FindHashFinds(t.book.contacts, normalise(row.phone).value);
      assert InCampaign(t.rows, id) <==> InCampaign(u.rows, id) by {
        assert forall k | 0 <= k < |t.rows| :: t.rows[k].contact == u.rows[k].contact;
      }
    }
  }

  lemma {:induction false} StageAllAlike(t: Tables, u: Tables, rep: Report, rows: seq<ImportRow>,
      normalise: string -> Option<string>, template: Template, now: int, s: Settings)
    requires Alike(t, u)
    ensures var t' := StageAll(t, rep, rows, normalise, template, now, s).0;
            var u' := StageAll(u, rep, rows, normalise, template, now, s).0;
            Alike(t', u') && |t.rows| <= |t'.rows| && u'.rows == u.rows + t'.rows[|t.rows|..] && u'.messages == u.messages
    decreases |rows|
  {
    hide StageOne, Alike;
    if rows != [] {
      StageOneAlike(t, u, rep, rows[0], normalise, template, now, s);
      StageOneGrows(t, rep, rows[0], normalise, template, now, s);
      var (t1, rep1) := StageOne(t, rep, rows[0], normalise, template, now, s);
      var (u1, rep2) := StageOne(u, rep, rows[0], normalise, template, now, s);
      StageAllAlike(t1, u1, rep1, rows[1..], normalise, template, now, s);
      StageAllGrows(t1, rep1, rows[1..], normalise, template, now, s);
      var t2 := StageAll(t1, rep1, rows[1..], normalise, template, now, s).0;
      TailsJoin(u.rows, t.rows, t1.rows, t2.rows);
    }
  }

  lemma TailsJoin(u: seq<Recipient>, t: seq<Recipient>, t1: seq<Recipient>, t2: seq<Recipient>)
    requires |t| <= |t1| <= |t2| && t2[..|t1|] == t1
    ensures u + t1[|t|..] + t2[|t1|..] == u + t2[|t|..]
  {
    assert t1[|t|..] == t2[|t|..|t1|];
  }

  /** An import does the same to two views that list the same contacts: it appends the same rows. */
  lemma ImportAlike(t: Tables, u: Tables, imported: seq<ImportRow>, now: int, cfg: Config)
    requires Alike(t, u)
    ensures var t', u' := Import(t, imported, now, cfg), Import(u, imported, now, cfg);
            Alike(t', u') && |t.rows| <= |t'.rows| && u'.rows == u.rows + t'.rows[|t.rows|..] && u'.messages == u.messages
  {
    hide StageAll;
    if Sendable(cfg) {
      StageAllAlike(t, u, EMPTY_REPORT, imported, cfg.normalise, cfg.template.value, now, cfg.settings);
    }
  }
}
