/** The stored tables of one campaign, its configuration and its counters. */
module CampaignTables {
  import opened Prelude
  import opened Consent
  import opened Eligibility
  import Delivery

  datatype RecipientStatus =
    Pending | Eligible | Rejected | Queued | Sent | Delivered | Read | Failed | Skipped

  /** Why a recipient was rejected: by the gate when it was staged, or by the last check before a send. */
  datatype Reason = NoReason | GateReason(code: Code) | SuppressedMidCampaign

  /** A recipient. Contacts are addressed by position; one that is gone has a negative number, so that no later
      contact takes its place. */
  datatype Recipient = Recipient(
    contact: int, variables: seq<string>, status: RecipientStatus,
    reason: Reason, metaId: Option<string>, errorCode: int)

  datatype Message = Message(contact: nat, status: Delivery.DeliveryStatus)

  /** The stored tables a campaign works on.  Recipient rows are in id order and are never removed;
      messages are keyed by the id Meta assigned, which is unique. */
  datatype Tables = Tables(book: Book, rows: seq<Recipient>, messages: map<string, Message>)

  /** What a campaign's sessions are configured with; `normalise` maps a raw number to its hash. */
  datatype Config = Config(
    batchSize: int, maxFailureRate: real, template: Option<Template>, settings: Settings,
    normalise: string -> Option<string>)

  /** The template exists and may be sent. */
  predicate Sendable(cfg: Config) { cfg.template.Some? && cfg.template.value.approved }

  predicate Known(b: Book, contact: int) { 0 <= contact < |b.contacts| }

  /** Every recipient's contact is in the table or gone. */
  predicate RefsOk(t: Tables) { forall k | 0 <= k < |t.rows| :: t.rows[k].contact < |t.book.contacts| }

  /** Nobody waiting to be sent to has lost their contact. */
  predicate EligibleContactsExist(t: Tables) {
    forall k | 0 <= k < |t.rows| && t.rows[k].status == Eligible :: Known(t.book, t.rows[k].contact)
  }

  /** A row that still waits has no message. */
  predicate EligibleUnsent(rows: seq<Recipient>) {
    forall k | 0 <= k < |rows| && rows[k].status == Eligible :: rows[k].metaId == None
  }

  function FailedRow(row: Recipient, code: int): Recipient {
    row.(status := Failed, errorCode := code)
  }

  // ------------------------------------------------------------------ counters

  datatype Counters = Counters(
    total: nat, eligible: nat, rejected: nat, sent: nat, delivered: nat, read: nat, failed: nat)

  function Count(rows: seq<Recipient>, status: RecipientStatus): nat {
    if rows == [] then 0
    else Count(rows[..|rows|-1], status) + if rows[|rows|-1].status == status then 1 else 0
  }

  /** `refresh_counters`: the group-by counts, summed for the total. */
  function CountersOf(rows: seq<Recipient>): Counters {
    Counters(
      Count(rows, RecipientStatus.Pending) + Count(rows, Eligible) + Count(rows, Rejected) +
      Count(rows, Queued) + Count(rows, Sent) + Count(rows, Delivered) + Count(rows, Read) +
      Count(rows, Failed) + Count(rows, Skipped),
      Count(rows, Eligible) + Count(rows, Queued), Count(rows, Rejected),
      Count(rows, Sent), Count(rows, Delivered), Count(rows, Read), Count(rows, Failed))
  }

  /** The total counts every recipient; the other counters add up to it exactly when no recipient is
      PENDING or SKIPPED, the two statuses no counter covers. */
  lemma {:induction false} CountersAddUp(rows: seq<Recipient>)
    ensures var c := CountersOf(rows);
            && c.total == |rows|
            && (c.total == c.eligible + c.rejected + c.sent + c.delivered + c.read + c.failed <==>
                forall k | 0 <= k < |rows| :: rows[k].status != RecipientStatus.Pending && rows[k].status != Skipped)
    decreases |rows|
  {
    if rows != [] {
      var before := rows[..|rows|-1];
      CountersAddUp(before);
      assert rows == before + [rows[|rows|-1]];
      assert forall k | 0 <= k < |before| :: rows[k] == before[k];
    }
  }

  /** The recipients with a status. */
  function With(rows: seq<Recipient>, status: RecipientStatus): set<nat> {
    set k: nat | k < |rows| && rows[k].status == status
  }

  lemma {:induction false} CountIsSize(rows: seq<Recipient>, status: RecipientStatus)
    ensures Count(rows, status) == |With(rows, status)|
    decreases |rows|
  {
    if rows != [] {
      var n := |rows| - 1;
      CountIsSize(rows[..n], status);
      assert With(rows, status) == With(rows[..n], status) + if rows[n].status == status then {n} else {};
    }
  }

  /** Each counter is the number of recipients with its status; a queued recipient counts as eligible. */
  lemma CountersAreSizes(rows: seq<Recipient>)
    ensures var c := CountersOf(rows);
            && c.eligible == |With(rows, Eligible)| + |With(rows, Queued)| && c.rejected == |With(rows, Rejected)|
            && c.sent == |With(rows, Sent)| && c.delivered == |With(rows, Delivered)| && c.read == |With(rows, Read)|
            && c.failed == |With(rows, Failed)|
  {
    hide Count, With;
    forall status { CountIsSize(rows, status); }
  }

  // ------------------------------------------------------------------ status webhooks

  /** The row a message id was written to, or the number of rows. */
  function FindMeta(rows: seq<Recipient>, metaId: string): nat {
    if rows == [] then 0 else if rows[0].metaId == Some(metaId) then 0 else 1 + FindMeta(rows[1..], metaId)
  }

  lemma {:induction false} FindMetaFinds(rows: seq<Recipient>, metaId: string)
    ensures FindMeta(rows, metaId) <= |rows|
    ensures FindMeta(rows, metaId) < |rows| ==> rows[FindMeta(rows, metaId)].metaId == Some(metaId)
    decreases |rows|
  {
    if rows != [] && rows[0].metaId != Some(metaId) { FindMetaFinds(rows[1..], metaId); }
  }

  function MirrorRow(row: Recipient, status: Delivery.DeliveryStatus, code: int): Recipient {
    match status
    case Delivered => row.(status := Delivered)
    case Read => row.(status := Read)
    case Failed => FailedRow(row, code)
    case _ => row
  }

  /** A recipient's status as the delivery mirror sees it. */
  function MirrorOf(status: RecipientStatus): Option<Delivery.Mirror> {
    match status
    case Sent => Some(Delivery.MirrorSent)
    case Delivered => Some(Delivery.MirrorDelivered)
    case Read => Some(Delivery.MirrorRead)
    case Failed => Some(Delivery.MirrorFailed)
    case _ => None
  }

  /** A report moves the recipient as it moves the mirror; of the rest of the row it changes the error code, and that
      only when the message failed. */
  lemma RowFollowsMirror(row: Recipient, status: Delivery.DeliveryStatus, code: int)
    requires MirrorOf(row.status).Some?
    ensures var r := MirrorRow(row, status, code);
            && MirrorOf(r.status) == Some(Delivery.Reflect(MirrorOf(row.status).value, status))
            && r == row.(status := r.status, errorCode := if status == Delivery.Failed then code else row.errorCode)
  {
  }

  /** The row after a sequence of reports for its message. */
  function MirrorRowAll(row: Recipient, reports: seq<(Delivery.DeliveryStatus, int)>): Recipient {
    if reports == [] then row
    else MirrorRow(MirrorRowAll(row, reports[..|reports|-1]), reports[|reports|-1].0, reports[|reports|-1].1)
  }

  function Statuses(reports: seq<(Delivery.DeliveryStatus, int)>): seq<Delivery.DeliveryStatus> {
    seq(|reports|, k requires 0 <= k < |reports| => reports[k].0)
  }

  /** Over any sequence of reports the recipient of a sent message is where the mirror is: what is proved of the mirror
      holds of recipients. */
  lemma {:induction false} RowsFollowTheMirror(row: Recipient, reports: seq<(Delivery.DeliveryStatus, int)>)
    requires row.status == Sent
    ensures MirrorOf(MirrorRowAll(row, reports).status) == Some(Delivery.ReflectAll(Delivery.MirrorSent, Statuses(reports)))
    decreases |reports|
  {
    if reports != [] {
      var n := |reports| - 1;
      RowsFollowTheMirror(row, reports[..n]);
      RowFollowsMirror(MirrorRowAll(row, reports[..n]), reports[n].0, reports[n].1);
      assert Statuses(reports)[..n] == Statuses(reports[..n]);
    }
  }

  /** The two Meta codes after which a number is not tried again. */
  predicate Undeliverable(code: int) { code == 131026 || code == 131047 }
}
