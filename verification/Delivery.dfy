/** Delivery-status webhooks: the rank-guarded update of a stored message and the unguarded mirror on
    the campaign recipient. */
module Delivery {

  datatype DeliveryStatus = Queued | Sent | Accepted | Delivered | Read | Failed | Deleted

  function Rank(s: DeliveryStatus): nat {
    match s
    case Queued => 0
    case Sent => 1
    case Accepted => 1
    case Delivered => 2
    case Read => 3
    case Failed => 0
    case Deleted => 0
  }

  predicate Terminal(s: DeliveryStatus) { s == Failed || s == Deleted }

  /** One webhook: never move to a lower rank, but always take FAILED and DELETED. */
  function Update(current: DeliveryStatus, status: DeliveryStatus): DeliveryStatus {
    if Terminal(status) || Rank(status) >= Rank(current) then status else current
  }

  function Fold(current: DeliveryStatus, us: seq<DeliveryStatus>): DeliveryStatus {
    if us == [] then current else Update(Fold(current, us[..|us|-1]), us[|us|-1])
  }

  /** A stored outbound message. */
  class OutboundMessage {
    var status: DeliveryStatus
    var deliveredAt: int
    var readAt: int
    var errorCode: int

    method UpdateDeliveryStatus(status: DeliveryStatus, code: int, moment: int)
      modifies this
      ensures this.status == Update(old(this.status), status)
      ensures var applied := Terminal(status) || Rank(status) >= Rank(old(this.status));
              && deliveredAt == (if applied && status == Delivered then moment else old(deliveredAt))
              && readAt == (if applied && status == Read then moment else old(readAt))
              && errorCode == (if applied && status == Failed then code else old(errorCode))
    {
      var currentRank, newRank := Rank(this.status), Rank(status);
      if Terminal(status) || newRank >= currentRank {
        this.status := status;
        if status == Delivered { deliveredAt := moment; }
        else if status == Read { readAt := moment; }
        else if status == Failed { errorCode := code; }
      }
    }
  }

  // ------------------------------------------------------------------ any sequence of webhooks

  /** `k` is the position of the last FAILED or DELETED, or -1. */
  predicate LastTerminal(us: seq<DeliveryStatus>, k: int) {
    && -1 <= k < |us|
    && (k >= 0 ==> Terminal(us[k]))
    && forall j | k < j < |us| :: !Terminal(us[j])
  }

  /** What the updates after the last terminal one start from. */
  function Base(current: DeliveryStatus, us: seq<DeliveryStatus>, k: int): DeliveryStatus
    requires LastTerminal(us, k)
  {
    if k >= 0 then us[k] else current
  }

  /** The stored rank is the greatest applied since the last FAILED or DELETED, and the stored status is
      the last one that had it. */
  lemma {:induction false} StoredIsLastOfGreatestRank(current: DeliveryStatus, us: seq<DeliveryStatus>, k: int)
    requires LastTerminal(us, k)
    ensures var final, base := Fold(current, us), Base(current, us, k);
            && Rank(base) <= Rank(final)
            && (forall j | k < j < |us| :: Rank(us[j]) <= Rank(final))
            && ((final == base && forall j | k < j < |us| :: Rank(us[j]) < Rank(final))
                || exists j | k < j < |us| ::
                     us[j] == final && forall i | j < i < |us| :: Rank(us[i]) < Rank(final))
    decreases |us|
  {
    var n := |us| - 1;
    if k < n {
      var before := us[..n];
      assert forall j | k < j < n :: before[j] == us[j];
      StoredIsLastOfGreatestRank(current, before, k);
      var mid := Fold(current, before);
      var final := Fold(current, us);
      if final == mid && Rank(us[n]) < Rank(mid) {
        if !(mid == Base(current, us, k) && forall j | k < j < n :: Rank(us[j]) < Rank(mid)) {
          var j :| k < j < n && before[j] == mid && forall i | j < i < n :: Rank(before[i]) < Rank(mid);
          assert us[j] == final && forall i | j < i < |us| :: Rank(us[i]) < Rank(final);
        }
      } else {
        assert us[n] == final;
      }
    }
  }

  /** Reordering updates that contain no FAILED or DELETED never changes the stored rank. */
  lemma ReorderingKeepsRank(current: DeliveryStatus, us: seq<DeliveryStatus>, vs: seq<DeliveryStatus>)
    requires multiset(us) == multiset(vs)
    requires forall u | u in us :: !Terminal(u)
    ensures Rank(Fold(current, us)) == Rank(Fold(current, vs))
  {
    forall v | v in vs ensures v in us && !Terminal(v) {
      assert v in multiset(us);
    }
    forall u | u in us ensures u in vs {
      assert u in multiset(vs);
    }
    assert forall j | 0 <= j < |us| :: us[j] in vs;
    assert forall j | 0 <= j < |vs| :: vs[j] in us;
    StoredIsLastOfGreatestRank(current, us, -1);
    StoredIsLastOfGreatestRank(current, vs, -1);
  }

  /** A FAILED or DELETED is remembered only until the next webhook: the stored status is terminal exactly
      when the last update was, because both have rank 0 and any later status overwrites them. */
  lemma TerminalOnlyWhileLast(current: DeliveryStatus, us: seq<DeliveryStatus>)
    requires us != []
    ensures Terminal(Fold(current, us)) <==> Terminal(us[|us|-1])
  {
    var n := |us| - 1;
    if !Terminal(us[n]) && Terminal(Fold(current, us[..n])) {
      assert Rank(us[n]) >= 0 == Rank(Fold(current, us[..n]));
    }
  }

  lemma FailedThenLateSent()
    ensures Fold(Sent, [Failed, Sent]) == Sent
  {
    assert [Failed, Sent][..1] == [Failed];
    assert Fold(Sent, [Failed]) == Failed;
  }

  // ------------------------------------------------------------------ the recipient mirror

  datatype Mirror = MirrorSent | MirrorDelivered | MirrorRead | MirrorFailed

  function Reflect(m: Mirror, status: DeliveryStatus): Mirror {
    match status
    case Delivered => MirrorDelivered
    case Read => MirrorRead
    case Failed => MirrorFailed
    case _ => m
  }

  predicate Agrees(status: DeliveryStatus, m: Mirror) {
    match m
    case MirrorSent => status == Queued || status == Sent || status == Accepted
    case MirrorDelivered => status == Delivered
    case MirrorRead => status == Read
    case MirrorFailed => status == Failed
  }

  /** The mirror has no rank guard: from agreement, one webhook keeps message and recipient in agreement
      exactly when it is not a DELETED, not a DELIVERED after READ, and not an early status after FAILED. */
  lemma MirrorKeepsAgreeing(current: DeliveryStatus, m: Mirror, status: DeliveryStatus)
    requires Agrees(current, m)
    ensures Agrees(Update(current, status), Reflect(m, status)) <==>
      && status != Deleted
      && !(status == Delivered && current == Read)
      && !(current == Failed && status in {Queued, Sent, Accepted})
  {
  }

  function ReflectAll(m: Mirror, us: seq<DeliveryStatus>): Mirror {
    if us == [] then m else Reflect(ReflectAll(m, us[..|us|-1]), us[|us|-1])
  }

  predicate NoTerminal(us: seq<DeliveryStatus>) { forall i | 0 <= i < |us| :: !Terminal(us[i]) }

  /** The statuses the mirror ignores, apart from DELETED. */
  predicate Early(s: DeliveryStatus) { s == Queued || s == Sent || s == Accepted }

  /** Some READ has no DELIVERED after it. */
  ghost predicate EndsRead(us: seq<DeliveryStatus>) {
    exists r | 0 <= r < |us| :: us[r] == Read && forall j | r < j < |us| :: us[j] != Delivered
  }

  lemma {:induction false} FoldCat(c: DeliveryStatus, a: seq<DeliveryStatus>, b: seq<DeliveryStatus>)
    ensures Fold(c, a + b) == Fold(Fold(c, a), b)
    decreases |b|
  {
    if b == [] {
      assert a + b == a;
    } else {
      assert (a + b)[..|a + b|-1] == a + b[..|b|-1];
      FoldCat(c, a, b[..|b|-1]);
    }
  }

  lemma {:induction false} ReflectCat(m: Mirror, a: seq<DeliveryStatus>, b: seq<DeliveryStatus>)
    ensures ReflectAll(m, a + b) == ReflectAll(ReflectAll(m, a), b)
    decreases |b|
  {
    if b == [] {
      assert a + b == a;
    } else {
      assert (a + b)[..|a + b|-1] == a + b[..|b|-1];
      ReflectCat(m, a, b[..|b|-1]);
    }
  }

  /** What the message becomes without FAILED or DELETED, from a status below DELIVERED. */
  lemma {:induction false} FoldWithoutTerminal(c: DeliveryStatus, us: seq<DeliveryStatus>)
    requires NoTerminal(us) && Rank(c) <= 1
    ensures Fold(c, us) == Read <==> Read in us
    ensures Fold(c, us) == Delivered <==> Read !in us && Delivered in us
    ensures us != [] && Read !in us && Delivered !in us ==> Early(Fold(c, us))
    ensures us == [] ==> Fold(c, us) == c
    decreases |us|
  {
    if us != [] {
      FoldWithoutTerminal(c, us[..|us|-1]);
      assert us == us[..|us|-1] + [us[|us|-1]];
    }
  }

  /** What the mirror becomes without FAILED or DELETED. */
  lemma {:induction false} ReflectWithoutTerminal(m: Mirror, us: seq<DeliveryStatus>)
    requires NoTerminal(us)
    ensures EndsRead(us) ==> ReflectAll(m, us) == MirrorRead
    ensures !EndsRead(us) && (Read in us || Delivered in us) ==> ReflectAll(m, us) == MirrorDelivered
    ensures Read !in us && Delivered !in us ==> ReflectAll(m, us) == m
    ensures EndsRead(us) ==> Read in us
    decreases |us|
  {
    if us != [] {
      var before, u := us[..|us|-1], us[|us|-1];
      ReflectWithoutTerminal(m, before);
      assert us == before + [u];
      EndsReadSnoc(before, u);
    }
  }

  lemma EndsReadSnoc(before: seq<DeliveryStatus>, u: DeliveryStatus)
    ensures EndsRead(before + [u]) <==> u == Read || (u != Delivered && EndsRead(before))
  {
    var us := before + [u];
    if u == Read {
      assert us[|before|] == Read;
    } else if u != Delivered && EndsRead(before) {
      var r :| 0 <= r < |before| && before[r] == Read && forall j | r < j < |before| :: before[j] != Delivered;
      assert us[r] == Read && forall j | r < j < |us| :: us[j] != Delivered;
    }
    if u != Read && EndsRead(us) {
      var r :| 0 <= r < |us| && us[r] == Read && forall j | r < j < |us| :: us[j] != Delivered;
      assert us[|before|] == u && r < |before|;
      assert before[r] == Read && forall j | r < j < |before| :: before[j] == us[j];
    }
  }

  /** The statuses that move the mirror. */
  predicate Moves(s: DeliveryStatus) { s == Delivered || s == Read || s == Failed }

  lemma {:induction false} MirrorUnmoved(us: seq<DeliveryStatus>)
    ensures ReflectAll(MirrorSent, us) == MirrorSent <==> forall i | 0 <= i < |us| :: !Moves(us[i])
    decreases |us|
  {
    if us != [] {
      MirrorUnmoved(us[..|us|-1]);
      assert us == us[..|us|-1] + [us[|us|-1]];
    }
  }

  /** Whether message and recipient agree after the webhooks `us`, the last FAILED or DELETED of which is at `k`
      (-1 if there is none). */
  ghost predicate AgreeAtTheEnd(us: seq<DeliveryStatus>, k: int)
    requires LastTerminal(us, k)
  {
    var post := us[k+1..];
    if Read in post then EndsRead(post)
    else if Delivered in post then true
    else if post == [] then k < 0 || us[k] == Failed
    else k < 0 || (us[k] == Deleted && forall i | 0 <= i < k :: !Moves(us[i]))
  }

  /** Message and recipient before the updates that follow the last terminal one. */
  lemma AfterTerminal(us: seq<DeliveryStatus>, k: nat)
    requires k < |us| && Terminal(us[k])
    ensures Fold(Sent, us[..k+1]) == us[k]
    ensures us[k] == Failed ==> ReflectAll(MirrorSent, us[..k+1]) == MirrorFailed
    ensures us[k] == Deleted ==>
              (ReflectAll(MirrorSent, us[..k+1]) == MirrorSent <==> forall i | 0 <= i < k :: !Moves(us[i]))
  {
    assert us[..k+1][..k] == us[..k];
    MirrorUnmoved(us[..k]);
  }

  /** Over any run of webhooks message and recipient end in agreement exactly when: after the last FAILED or
      DELETED, if READ is reported then no DELIVERED follows the last one; if neither is reported, the run ends in
      FAILED or has no terminal status, or an early status follows a DELETED before which nothing moved the
      recipient. */
  lemma MirrorAfterARun(us: seq<DeliveryStatus>, k: int)
    requires LastTerminal(us, k)
    ensures Agrees(Fold(Sent, us), ReflectAll(MirrorSent, us)) <==> AgreeAtTheEnd(us, k)
  {
    hide Fold, ReflectAll, EndsRead;
    var pre, post := us[..k+1], us[k+1..];
    assert us == pre + post;
    assert NoTerminal(post);
    FoldCat(Sent, pre, post);
    ReflectCat(MirrorSent, pre, post);
    if k >= 0 {
      AfterTerminal(us, k);
    } else {
      FoldWithoutTerminal(Sent, []);
      ReflectWithoutTerminal(MirrorSent, []);
    }
    FoldWithoutTerminal(Fold(Sent, pre), post);
    ReflectWithoutTerminal(ReflectAll(MirrorSent, pre), post);
  }
}
