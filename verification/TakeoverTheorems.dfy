/** Tickets, live conversations and consent over runs of messages and operator actions: what every action keeps,
    and exactly which actions break it. */
module TakeoverTheorems {
  import opened Prelude
  import Consent
  import Reply
  import opened Takeover

  // ------------------------------------------------------------------ one open ticket per conversation

  predicate OneOpenTicket(ts: seq<Ticket>) {
    forall i, j | 0 <= i < j < |ts| && Unresolved(ts[i]) && Unresolved(ts[j]) :: ts[i].conversation != ts[j].conversation
  }

  /** An acknowledgement that brings a resolved ticket back beside another open one. */
  predicate ReopensBeside(o: Office, a: Action) {
    a.Acknowledge? && a.ticket < |o.tickets| && !Unresolved(o.tickets[a.ticket]) &&
    HasOpenTicket(o.tickets, o.tickets[a.ticket].conversation)
  }

  lemma HandleTickets(c: Reply.Config, expiry: nat, o: Office, m: Message)
    ensures var after := Handle(c, expiry, o, m).tickets;
            || after == o.tickets
            || exists t :: Unresolved(t) && after == o.tickets + [t] && !HasOpenTicket(o.tickets, t.conversation)
  {
    hide Reply.Compose, Reply.Analyse, HasOpenTicket, GetOrCreate, Touch, ContactOf;
    var after := Handle(c, expiry, o, m).tickets;
    if after != o.tickets {
      var t := after[|o.tickets|];
      assert Unresolved(t) && after == o.tickets + [t] && !HasOpenTicket(o.tickets, t.conversation);
    }
  }

  lemma AppendTicket(ts: seq<Ticket>, t: Ticket)
    requires OneOpenTicket(ts) && !HasOpenTicket(ts, t.conversation)
    ensures OneOpenTicket(ts + [t])
  {
  }

  lemma UpdateTicket(ts: seq<Ticket>, k: nat, status: TicketStatus)
    requires OneOpenTicket(ts) && k < |ts|
    ensures OneOpenTicket(ts[k := ts[k].(status := status)]) <==>
            !(status != Resolved && !Unresolved(ts[k]) && HasOpenTicket(ts, ts[k].conversation))
  {
    var after := ts[k := ts[k].(status := status)];
    if status != Resolved && !Unresolved(ts[k]) && HasOpenTicket(ts, ts[k].conversation) {
      var j :| 0 <= j < |ts| && ts[j].conversation == ts[k].conversation && Unresolved(ts[j]);
      assert j != k && after[j] == ts[j] && Unresolved(after[k]);
    }
  }

  /** No conversation has two unresolved tickets after an action, if none had before, unless the action is an
      acknowledgement of a resolved ticket whose conversation has another unresolved one. */
  lemma TicketsStayUniqueExactlyWhen(c: Reply.Config, expiry: nat, o: Office, a: Action)
    requires OneOpenTicket(o.tickets)
    ensures OneOpenTicket(Do(c, expiry, o, a).tickets) <==> !ReopensBeside(o, a)
  {
    hide Handle, ExpireAll, Consent.Apply, HasOpenTicket;
    var after := Do(c, expiry, o, a).tickets;
    match a
    case Inbound(m) =>
      HandleTickets(c, expiry, o, m);
      if after != o.tickets {
        var t :| Unresolved(t) && after == o.tickets + [t] && !HasOpenTicket(o.tickets, t.conversation);
        AppendTicket(o.tickets, t);
      }
    case Resolve(t, resume) =>
      if t < |o.tickets| { UpdateTicket(o.tickets, t, Resolved); }
    case Acknowledge(t) =>
      if t < |o.tickets| { UpdateTicket(o.tickets, t, Acknowledged); }
    case _ =>
  }

  // ------------------------------------------------------------------ one live conversation per contact

  predicate OneLive(cs: seq<Conversation>) {
    forall i, j | 0 <= i < j < |cs| && Live(cs[i]) && Live(cs[j]) :: cs[i].contact != cs[j].contact
  }

  predicate HasLive(cs: seq<Conversation>, contact: nat) {
    exists k | 0 <= k < |cs| :: cs[k].contact == contact && Live(cs[k])
  }

  /** A resuming resolve that revives a closed or expired conversation beside a live one of the same contact. */
  predicate RevivesBeside(o: Office, a: Action) {
    a.Resolve? && a.resume && a.ticket < |o.tickets| &&
    var k := o.tickets[a.ticket].conversation;
    k < |o.conversations| && !Live(o.conversations[k]) && HasLive(o.conversations, o.conversations[k].contact)
  }

  lemma UpdateConversation(cs: seq<Conversation>, k: nat, now: Conversation)
    requires OneLive(cs) && k < |cs| && now.contact == cs[k].contact
    ensures OneLive(cs[k := now]) <==> !(Live(now) && !Live(cs[k]) && HasLive(cs, cs[k].contact))
  {
    var after := cs[k := now];
    if Live(now) && !Live(cs[k]) && HasLive(cs, cs[k].contact) {
      var j :| 0 <= j < |cs| && cs[j].contact == cs[k].contact && Live(cs[j]);
      assert j != k && after[j] == cs[j] && after[k] == now;
    }
  }

  lemma GetOrCreateKeepsOneLive(cs: seq<Conversation>, contact: nat, now: int, expiry: nat)
    requires OneLive(cs)
    ensures OneLive(GetOrCreate(cs, contact, now, expiry).0)
    ensures var (ds, k) := GetOrCreate(cs, contact, now, expiry);
            ds[k].contact == contact && Live(ds[k])
  {
  }

  /** A message goes to a conversation of its contact that is live and lasts from now on for the whole expiry time. It is one
      of those there were exactly when the contact has a live one that has not run out; otherwise one is added. */
  lemma MessageGoesTo(o: Office, m: Message, expiry: nat)
    requires OneLive(o.conversations)
    ensures var (a, i, k) := Arrived(o, m, expiry);
            && a.conversations[k].contact == i && Live(a.conversations[k]) && a.conversations[k].expiresAt == m.now + expiry
            && (k < |o.conversations| <==>
                  exists j | 0 <= j < |o.conversations| ::
                    o.conversations[j].contact == i && Live(o.conversations[j]) && o.conversations[j].expiresAt > m.now)
            && |a.conversations| == (if k < |o.conversations| then |o.conversations| else |o.conversations| + 1)
            && forall j | 0 <= j < |o.conversations| && j != k ::
                 a.conversations[j] == ExpireOne(o.conversations[j], m.now) || a.conversations[j] == o.conversations[j]
  {
    hide ContactOf;
  }

  lemma HandleConversations(c: Reply.Config, expiry: nat, o: Office, m: Message)
    ensures var after := Handle(c, expiry, o, m).conversations;
            var (a, i, k) := Arrived(o, m, expiry);
            || after == o.conversations || after == a.conversations
            || after == a.conversations[k := a.conversations[k].(state := Escalated)]
  {
    hide Reply.Compose, Reply.Analyse, HasOpenTicket, GetOrCreate, Touch, ContactOf;
  }

  lemma ArrivedKeepsOneLive(o: Office, m: Message, expiry: nat)
    requires OneLive(o.conversations)
    ensures var (a, i, k) := Arrived(o, m, expiry); OneLive(a.conversations) && Live(a.conversations[k])
  {
    hide GetOrCreate, OneLive, HasLive;
    var i := ContactOf(o.book.contacts, m.hash);
    GetOrCreateKeepsOneLive(o.conversations, i, m.now, expiry);
    var (cs, k) := GetOrCreate(o.conversations, i, m.now, expiry);
    UpdateConversation(cs, k, cs[k].(expiresAt := m.now + expiry));
  }

  lemma ExpireKeepsOneLive(cs: seq<Conversation>, now: int)
    requires OneLive(cs)
    ensures OneLive(ExpireAll(cs, now))
  {
    var after := ExpireAll(cs, now);
    assert forall k | 0 <= k < |cs| :: after[k] == ExpireOne(cs[k], now);
  }

  /** No contact has two live conversations after an action, if none had before, unless the action is a resuming
      resolve of a ticket whose conversation is closed or expired while the contact has a live one. */
  lemma LiveStaysUniqueExactlyWhen(c: Reply.Config, expiry: nat, o: Office, a: Action)
    requires OneLive(o.conversations)
    ensures OneLive(Do(c, expiry, o, a).conversations) <==> !RevivesBeside(o, a)
  {
    hide Handle, ExpireAll, Consent.Apply, HasLive, OneLive, Arrived;
    match a
    case Inbound(m) =>
      HandleConversations(c, expiry, o, m);
      ArrivedKeepsOneLive(o, m, expiry);
      var (b, i, k) := Arrived(o, m, expiry);
      UpdateConversation(b.conversations, k, b.conversations[k].(state := Escalated));
    case Resolve(t, resume) =>
      if t < |o.tickets| && resume && o.tickets[t].conversation < |o.conversations| {
        var k := o.tickets[t].conversation;
        UpdateConversation(o.conversations, k, o.conversations[k].(state := Active));
      }
    case ExpireStale(now) =>
      ExpireKeepsOneLive(o.conversations, now);
    case _ =>
  }

  /** Every action of the run avoids the two harmful cases at its turn. */
  predicate Careful(c: Reply.Config, expiry: nat, o: Office, actions: seq<Action>)
    decreases |actions|
  {
    actions == [] ||
    (!ReopensBeside(o, actions[0]) && !RevivesBeside(o, actions[0]) && Careful(c, expiry, Do(c, expiry, o, actions[0]), actions[1..]))
  }

  /** Over a whole run: both uniqueness properties hold at every point exactly when every action is careful. */
  predicate UniqueThroughout(c: Reply.Config, expiry: nat, o: Office, actions: seq<Action>)
    decreases |actions|
  {
    OneOpenTicket(o.tickets) && OneLive(o.conversations) &&
    (actions == [] || UniqueThroughout(c, expiry, Do(c, expiry, o, actions[0]), actions[1..]))
  }

  lemma {:induction false} UniqueExactlyWhenCareful(c: Reply.Config, expiry: nat, o: Office, actions: seq<Action>)
    requires OneOpenTicket(o.tickets) && OneLive(o.conversations)
    ensures UniqueThroughout(c, expiry, o, actions) <==> Careful(c, expiry, o, actions)
    decreases |actions|
  {
    hide Do, OneOpenTicket, OneLive, ReopensBeside, RevivesBeside;
    if actions != [] {
      var a, next := actions[0], Do(c, expiry, o, actions[0]);
      TicketsStayUniqueExactlyWhen(c, expiry, o, a);
      LiveStaysUniqueExactlyWhen(c, expiry, o, a);
      if OneOpenTicket(next.tickets) && OneLive(next.conversations) {
        UniqueExactlyWhenCareful(c, expiry, next, actions[1..]);
      }
    }
  }

  // ------------------------------------------------------------------ consent

  /** The message's contact, as the table has it once the message is stored. */
  lemma ArrivedKeepsConsent(o: Office, m: Message, expiry: nat)
    requires Consent.Invariant(o.book)
    ensures Consent.Invariant(Arrived(o, m, expiry).0.book)
    ensures Arrived(o, m, expiry).0.book.log == o.book.log && Arrived(o, m, expiry).0.book.suppressed == o.book.suppressed
  {
    hide GetOrCreate, Touch, Consent.Safe, Consent.StoppedLast;
    NewHashIsFresh(o.book.contacts, m.hash);
  }

  lemma NewHashIsFresh(cs: seq<Consent.Contact>, hash: string)
    ensures ContactOf(cs, hash) == |cs| ==> forall k | 0 <= k < |cs| :: cs[k].hash != hash
  {
  }

  lemma HandleBook(c: Reply.Config, expiry: nat, o: Office, m: Message)
    ensures var after := Handle(c, expiry, o, m).book;
            var (a, i, k) := Arrived(o, m, expiry);
            || after == o.book || after == a.book
            || (m.rules == Reply.OptOutWord && after == Consent.Apply(a.book, Consent.OptOutEvent(i, m.at)))
            || (m.rules != Reply.OptOutWord && m.at <= m.now &&
                after == Consent.Apply(a.book, Consent.OptInEvent(i, Consent.Marketing, m.at, m.now)))
  {
    hide Reply.Compose, Reply.Analyse, HasOpenTicket, GetOrCreate, Touch, ContactOf, Consent.OptInBook, Consent.OptOutBook;
  }

  lemma DoKeepsConsent(c: Reply.Config, expiry: nat, o: Office, a: Action)
    requires Consent.Invariant(o.book)
    ensures Consent.Invariant(Do(c, expiry, o, a).book)
  {
    hide Handle, Arrived, ExpireAll, Consent.Apply, Consent.Invariant;
    match a
    case Inbound(m) =>
      HandleBook(c, expiry, o, m);
      ArrivedKeepsConsent(o, m, expiry);
      var (b, i, k) := Arrived(o, m, expiry);
      Consent.EventKeepsInvariant(b.book, Consent.OptOutEvent(i, m.at));
      Consent.EventKeepsInvariant(b.book, Consent.OptInEvent(i, Consent.Marketing, m.at, m.now));
    case ConsentChange(e) =>
      Consent.EventKeepsInvariant(o.book, e);
    case _ =>
  }

  /** The consent invariant survives every run: unique hashes, no status without its suppression entry, and a
      history in which suppression is lifted only by an opt-in. */
  lemma {:induction false} ConsentOverEveryRun(c: Reply.Config, expiry: nat, o: Office, actions: seq<Action>)
    requires Consent.Invariant(o.book)
    ensures Consent.Invariant(Run(c, expiry, o, actions).book)
    decreases |actions|
  {
    hide Do, Consent.Invariant;
    if actions != [] {
      DoKeepsConsent(c, expiry, o, actions[0]);
      ConsentOverEveryRun(c, expiry, Do(c, expiry, o, actions[0]), actions[1..]);
    }
  }

  /** A stop word suppresses its sender exactly when the confirmation is not attempted or goes out: a failed send
      undoes the opt-out with everything else the message did. */
  lemma StopWordIsKeptExactlyWhen(c: Reply.Config, expiry: nat, o: Office, m: Message)
    requires m.rules == Reply.OptOutWord && m.hash !in o.book.suppressed
    ensures var after := Handle(c, expiry, o, m);
            var (a, i, k) := Arrived(o, m, expiry);
            && (m.hash in after.book.suppressed <==> !(Deliverable(a, i, m) && m.sendRaises))
            && (Deliverable(a, i, m) && m.sendRaises ==> after == o)
  {
    hide GetOrCreate, Touch, ContactOf;
  }

  /** A message that holds no keyword lifts the suppression of its sender exactly when it is processed and the
      model calls it an opt-in: the bot is not paused, the conversation is not with a person, the message is
      supported and not blank, the model answered, the intent is enabled, and the message is not dated ahead. */
  lemma ModelLiftsSuppressionExactlyWhen(c: Reply.Config, expiry: nat, o: Office, m: Message)
    requires m.rules == Reply.NoRule && m.hash in o.book.suppressed && Reply.ConfigOk(c)
    ensures var (a, i, k) := Arrived(o, m, expiry);
            m.hash !in Handle(c, expiry, o, m).book.suppressed <==>
              && !o.globalPause && i !in o.paused && a.conversations[k].state != HumanHandling
              && !m.unsupported && !m.blank && !m.llmFailed
              && m.raw.intent == Reply.OptIn && Reply.OptIn in c.enabled && m.at <= m.now
  {
    hide GetOrCreate, Touch, ContactOf, Reply.Compose, HasOpenTicket, Reply.PostValidate;
    Reply.ConsentIsDelegatedExactlyWhen(c, m.raw, m.known);
  }

  // ------------------------------------------------------------------ what a message leads to

  /** The message gets as far as the analysis, and is not an opt-in dated ahead. */
  predicate IsProcessed(c: Reply.Config, expiry: nat, o: Office, m: Message) {
    var (a, i, k) := Arrived(o, m, expiry);
    && m.rules != Reply.OptOutWord && !o.globalPause && i !in o.paused && a.conversations[k].state != HumanHandling
    && !m.unsupported && !m.blank
    && (m.llmFailed || Reply.Analyse(c, m.rules, m.raw, m.known).intent != Reply.OptIn || m.at <= m.now)
  }

  /** What a processed message is answered with. */
  function AnswerTo(c: Reply.Config, m: Message): Reply.BotReply {
    Reply.Answer(c, m.rules, m.raw, m.known, m.suffix, m.llmFailed)
  }

  /** The answer to a processed message is sent exactly when it is not empty, the number is readable, the message is less than
      a day old, and the send does not fail; and the bot is paused for the contact exactly when the answer says so. */
  lemma AnswerIsSentExactlyWhen(c: Reply.Config, expiry: nat, o: Office, m: Message)
    requires IsProcessed(c, expiry, o, m)
    ensures var (a, i, k) := Arrived(o, m, expiry);
            var reply, after := AnswerTo(c, m), Handle(c, expiry, o, m);
            var sendable := reply.text != "" && m.now - m.at < 24 * 3600 && a.book.contacts[i].readable;
            && after.log == o.log + [Handled(i, if sendable && !m.sendRaises then Some(Composed(reply.text)) else None, reply.pauseBot)]
            && after.paused == o.paused + if reply.pauseBot then {i} else {}
  {
    hide GetOrCreate, Touch, ContactOf, Reply.Compose, Reply.Analyse, HasOpenTicket;
    var analysis :=
      if m.llmFailed then Reply.Ruled(Reply.Unknown, 0.0, false, []) else Reply.Analyse(c, m.rules, m.raw, m.known);
    Reply.ComposePauses(c, analysis, m.known != [], m.suffix, m.llmFailed);
  }

  /** A processed message leaves its conversation with an open ticket exactly when it had one or the answer hands over; a new
      ticket is for that conversation and contact, and marks the conversation as escalated. */
  lemma TicketIsOpenedExactlyWhen(c: Reply.Config, expiry: nat, o: Office, m: Message)
    requires IsProcessed(c, expiry, o, m)
    ensures var (a, i, k) := Arrived(o, m, expiry);
            var after := Handle(c, expiry, o, m);
            && (HasOpenTicket(after.tickets, k) <==> HasOpenTicket(o.tickets, k) || AnswerTo(c, m).escalate)
            && after.tickets == (if AnswerTo(c, m).escalate && !HasOpenTicket(o.tickets, k)
                                 then o.tickets + [Ticket(k, i, Open)] else o.tickets)
            && (AnswerTo(c, m).escalate && !HasOpenTicket(o.tickets, k) ==> after.conversations[k].state == Escalated)
  {
    hide GetOrCreate, Touch, ContactOf, Reply.Compose, Reply.Analyse;
    var (a, i, k) := Arrived(o, m, expiry);
    var after := Handle(c, expiry, o, m);
    if after.tickets != o.tickets {
      assert after.tickets == o.tickets + [Ticket(k, i, Open)];
      assert after.tickets[|o.tickets|] == Ticket(k, i, Open);
    }
  }

  /** A stop word is confirmed, and an unsupported message answered, exactly when the text can be sent; when the send fails
      the message leaves no trace. */
  lemma FixedTextsAreSent(c: Reply.Config, expiry: nat, o: Office, m: Message)
    requires var (a, i, k) := Arrived(o, m, expiry);
             m.rules == Reply.OptOutWord ||
             (m.unsupported && !o.globalPause && i !in o.paused && a.conversations[k].state != HumanHandling)
    ensures var (a, i, k) := Arrived(o, m, expiry);
            var what := if m.rules == Reply.OptOutWord then OptOutConfirmation else UnsupportedNotice;
            var sendable := m.now - m.at < 24 * 3600 && a.book.contacts[i].readable;
            Handle(c, expiry, o, m) == o ||
            (!(sendable && m.sendRaises) &&
             Handle(c, expiry, o, m).log == o.log + [Handled(i, if sendable then Some(what) else None, false)])
    ensures var (a, i, k) := Arrived(o, m, expiry);
            m.now - m.at < 24 * 3600 && a.book.contacts[i].readable && m.sendRaises ==> Handle(c, expiry, o, m) == o
  {
    hide GetOrCreate, Touch, ContactOf;
  }

  /** Resolving the ticket with a resume takes back what a handover did: no open ticket, no pause, the bot active. */
  lemma ResolveUndoesEscalate(o: Office, k: nat, contact: nat, pause: bool)
    requires k < |o.conversations| && !HasOpenTicket(o.tickets, k)
    ensures var r := ResolveTicket(Escalate(o, k, contact, pause), |o.tickets|, true);
            && !HasOpenTicket(r.tickets, k) && r.paused == o.paused - {contact}
            && r.conversations == o.conversations[k := o.conversations[k].(state := Active)]
            && r.book == o.book && r.log == o.log + [Resumed(contact)]
  {
    var e := Escalate(o, k, contact, pause);
    var r := ResolveTicket(e, |o.tickets|, true);
    assert e.tickets[|o.tickets|] == Ticket(k, contact, Open);
    assert r.tickets == o.tickets + [Ticket(k, contact, Resolved)];
  }

  /** Expiring leaves no live conversation that has run out, and touches no other; the count is of those it expired. */
  lemma {:induction false} ExpiredAre(cs: seq<Conversation>, now: int)
    ensures forall k | 0 <= k < |cs| ::
              var after := ExpireAll(cs, now)[k];
              && !(Live(after) && after.expiresAt <= now)
              && (after == cs[k] || (Live(cs[k]) && cs[k].expiresAt <= now && after == cs[k].(state := Expired)))
    ensures StaleCount(cs, now) == |Changed(cs, now)|
    decreases |cs|
  {
    if cs != [] {
      var n := |cs| - 1;
      ExpiredAre(cs[..n], now);
      assert Changed(cs, now) == Changed(cs[..n], now) + if ExpireOne(cs[n], now) != cs[n] then {n} else {};
    }
  }

  /** The conversations that expiring changes. */
  function Changed(cs: seq<Conversation>, now: int): set<nat> {
    set k: nat | k < |cs| && ExpireOne(cs[k], now) != cs[k]
  }

  /** Composed replies fit the limit; only the two fixed texts are sent without passing the clamp. */
  lemma RepliesFit(c: Reply.Config, expiry: nat, o: Office, m: Message)
    requires Reply.ConfigOk(c)
    ensures var after := Handle(c, expiry, o, m);
            |after.log| > |o.log| ==>
              var e := after.log[|o.log|];
              e.Handled? && e.sent.Some? && e.sent.value.Composed? ==> 0 < |e.sent.value.text| <= c.maxChars
  {
    hide GetOrCreate, Touch, ContactOf, Reply.Compose, Reply.Analyse, HasOpenTicket;
    var analysis :=
      if m.llmFailed then Reply.Ruled(Reply.Unknown, 0.0, false, []) else Reply.Analyse(c, m.rules, m.raw, m.known);
    Reply.EveryReplyFits(c, analysis, m.known != [], m.suffix, m.llmFailed);
  }
}
