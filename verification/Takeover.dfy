/** Inbound messages, escalation tickets and human takeover. `Office` is the value of the tables that a message or
    an operator action changes; `log` is the observer's record of what each message led to. */
module Takeover {
  import opened Prelude
  import Consent
  import Reply

  datatype ConversationState = Active | AwaitingCustomer | Escalated | HumanHandling | Paused | Closed | Expired

  datatype Conversation = Conversation(contact: nat, state: ConversationState, expiresAt: int)

  datatype TicketStatus = Open | Acknowledged | Resolved

  datatype Ticket = Ticket(conversation: nat, contact: nat, status: TicketStatus)

  datatype Sent = OptOutConfirmation | UnsupportedNotice | Composed(text: string)

  /** A message of a contact that was handled, what was sent back, and whether it paused the bot for the contact;
      or an action that lets the bot answer the contact again. */
  datatype Entry = Handled(contact: nat, sent: Option<Sent>, pausing: bool) | Resumed(contact: nat)

  datatype Office = Office(
    book: Consent.Book, paused: set<nat>, globalPause: bool,
    conversations: seq<Conversation>, tickets: seq<Ticket>, log: seq<Entry>)

  /** An inbound message with everything the environment decides: the clock, what the rules find, what the model
      and the retrieval return, and whether the send raises. */
  datatype Message = Message(
    hash: string, at: int, now: int, rules: Reply.Rules, unsupported: bool, blank: bool, raw: Reply.Analysis,
    known: seq<string>, suffix: string, llmFailed: bool, sendRaises: bool)

  const SERVICE_WINDOW := 24 * 3600

  // ------------------------------------------------------------------ conversations and tickets

  predicate Live(c: Conversation) { c.state != Closed && c.state != Expired }

  /** The newest live conversation of the contact among the first `n`. */
  function LatestLive(cs: seq<Conversation>, contact: nat, n: nat): (r: Option<nat>)
    requires n <= |cs|
    ensures r.Some? ==> r.value < n && cs[r.value].contact == contact && Live(cs[r.value])
    ensures r.None? ==> forall k | 0 <= k < n :: !(cs[k].contact == contact && Live(cs[k]))
  {
    if n == 0 then None
    else if cs[n-1].contact == contact && Live(cs[n-1]) then Some(n - 1)
    else LatestLive(cs, contact, n - 1)
  }

  /** The conversation a message goes to: the live one if it has not run out, otherwise a new one. */
  function GetOrCreate(cs: seq<Conversation>, contact: nat, now: int, expiry: nat): (r: (seq<Conversation>, nat))
    ensures r.1 < |r.0|
  {
    match LatestLive(cs, contact, |cs|)
    case Some(k) =>
      if cs[k].expiresAt <= now then
        (cs[k := cs[k].(state := Expired)] + [Conversation(contact, Active, now + expiry)], |cs|)
      else (cs, k)
    case None => (cs + [Conversation(contact, Active, now + expiry)], |cs|)
  }

  function Touch(cs: seq<Conversation>, k: nat, now: int, expiry: nat): seq<Conversation>
    requires k < |cs|
  {
    cs[k := cs[k].(expiresAt := now + expiry)]
  }

  predicate Unresolved(t: Ticket) { t.status != Resolved }

  predicate HasOpenTicket(ts: seq<Ticket>, conversation: nat) {
    exists k | 0 <= k < |ts| :: ts[k].conversation == conversation && Unresolved(ts[k])
  }

  /** Reuse the open ticket of the conversation or make one. */
  function Escalate(o: Office, k: nat, contact: nat, pause: bool): Office
    requires k < |o.conversations|
  {
    var paused := if pause then o.paused + {contact} else o.paused;
    if HasOpenTicket(o.tickets, k) then o.(paused := paused)
    else
      o.(paused := paused, tickets := o.tickets + [Ticket(k, contact, Open)],
         conversations := o.conversations[k := o.conversations[k].(state := Escalated)])
  }

  // ------------------------------------------------------------------ one inbound message

  /** The position of the contact with this hash, or the end of the table. */
  function ContactOf(cs: seq<Consent.Contact>, hash: string): (i: nat)
    ensures i <= |cs| && (i < |cs| ==> cs[i].hash == hash)
    ensures forall k | 0 <= k < i :: cs[k].hash != hash
  {
    if cs == [] || cs[0].hash == hash then 0 else 1 + ContactOf(cs[1..], hash)
  }

  /** The tables once the message is stored: its contact and its conversation exist. */
  function Arrived(o: Office, m: Message, expiry: nat): (r: (Office, nat, nat))
    ensures r.1 < |r.0.book.contacts| && r.0.book.contacts[r.1].hash == m.hash && r.2 < |r.0.conversations|
  {
    var i := ContactOf(o.book.contacts, m.hash);
    var book :=
      if i < |o.book.contacts| then o.book
      else o.book.(contacts := o.book.contacts + [Consent.Contact(m.hash, Consent.Unknown, true)]);
    var (cs, k) := GetOrCreate(o.conversations, i, m.now, expiry);
    (o.(book := book, conversations := Touch(cs, k, m.now, expiry)), i, k)
  }

  /** Whether a non-empty text would be passed to the messaging client: the service window is open, counted from
      the message's own time stamp, and the number is readable. */
  predicate Deliverable(o: Office, i: nat, m: Message)
    requires i < |o.book.contacts|
  {
    m.now - m.at < SERVICE_WINDOW && o.book.contacts[i].readable
  }

  function Logged(o: Office, i: nat, sent: Option<Sent>, pausing: bool): Office {
    o.(log := o.log + [Handled(i, sent, pausing)])
  }

  /** A fixed text whose failed send undoes the whole message. */
  function SendOrRollBack(before: Office, o: Office, i: nat, m: Message, what: Sent): Office
    requires i < |o.book.contacts|
  {
    if !Deliverable(o, i, m) then Logged(o, i, None, false)
    else if m.sendRaises then before
    else Logged(o, i, Some(what), false)
  }

  /** Analysis, opt-in, composition, escalation and reply. */
  function Process(c: Reply.Config, before: Office, o: Office, i: nat, k: nat, m: Message): Office
    requires i < |o.book.contacts| && k < |o.conversations|
  {
    var analysis :=
      if m.llmFailed then Reply.Ruled(Reply.Unknown, 0.0, false, []) else Reply.Analyse(c, m.rules, m.raw, m.known);
    if analysis.intent == Reply.OptIn && m.at > m.now then before
    else
      var o1 := if analysis.intent == Reply.OptIn then o.(book := Consent.OptInBook(o.book, i, Consent.Marketing, m.at)) else o;
      var reply := Reply.Compose(c, analysis, m.known != [], m.suffix, m.llmFailed);
      var o2 := if reply.escalate then Escalate(o1, k, i, reply.pauseBot) else o1;
      var sent := if reply.text != "" && Deliverable(o2, i, m) && !m.sendRaises then Some(Composed(reply.text)) else None;
      Logged(o2, i, sent, reply.escalate && reply.pauseBot)
  }

  function Handle(c: Reply.Config, expiry: nat, o: Office, m: Message): Office {
    var (a, i, k) := Arrived(o, m, expiry);
    if m.rules == Reply.OptOutWord then
      SendOrRollBack(o, a.(book := Consent.OptOutBook(a.book, i, m.at)), i, m, OptOutConfirmation)
    else if a.globalPause || i in a.paused || a.conversations[k].state == HumanHandling then Logged(a, i, None, false)
    else if m.unsupported then SendOrRollBack(o, a, i, m, UnsupportedNotice)
    else if m.blank then Logged(a, i, None, false)
    else Process(c, o, a, i, k, m)
  }

  // ------------------------------------------------------------------ operator actions

  function ResolveTicket(o: Office, t: nat, resume: bool): Office {
    if t >= |o.tickets| then o
    else
      var ticket := o.tickets[t];
      var o1 := o.(tickets := o.tickets[t := ticket.(status := Resolved)]);
      if !resume then o1
      else
        o1.(paused := o.paused - {ticket.contact},
            conversations :=
              if ticket.conversation < |o.conversations| then
                o.conversations[ticket.conversation := o.conversations[ticket.conversation].(state := Active)]
              else o.conversations,
            log := o.log + [Resumed(ticket.contact)])
  }

  function AcknowledgeTicket(o: Office, t: nat): Office {
    if t >= |o.tickets| then o else o.(tickets := o.tickets[t := o.tickets[t].(status := Acknowledged)])
  }

  function ExpireOne(c: Conversation, now: int): Conversation {
    if Live(c) && c.expiresAt <= now then c.(state := Expired) else c
  }

  function ExpireAll(cs: seq<Conversation>, now: int): seq<Conversation> {
    seq(|cs|, k requires 0 <= k < |cs| => ExpireOne(cs[k], now))
  }

  /** The conversations that are live and have run out. */
  function StaleCount(cs: seq<Conversation>, now: int): nat {
    if cs == [] then 0
    else StaleCount(cs[..|cs|-1], now) + if Live(cs[|cs|-1]) && cs[|cs|-1].expiresAt <= now then 1 else 0
  }

  datatype Action =
    | Inbound(m: Message)
    | Resolve(ticket: nat, resume: bool)
    | Acknowledge(ticket: nat)
    | OperatorPause(contact: nat)
    | OperatorResume(contact: nat)
    | SetGlobalPause(on: bool)
    | ExpireStale(now: int)
    | ConsentChange(e: Consent.Event)

  function Do(c: Reply.Config, expiry: nat, o: Office, a: Action): Office {
    match a
    case Inbound(m) => Handle(c, expiry, o, m)
    case Resolve(t, resume) => ResolveTicket(o, t, resume)
    case Acknowledge(t) => AcknowledgeTicket(o, t)
    case OperatorPause(i) => o.(paused := o.paused + {i})
    case OperatorResume(i) => o.(paused := o.paused - {i}, log := o.log + [Resumed(i)])
    case SetGlobalPause(on) => o.(globalPause := on)
    case ExpireStale(now) => o.(conversations := ExpireAll(o.conversations, now))
    case ConsentChange(e) => o.(book := Consent.Apply(o.book, e))
  }

  function Run(c: Reply.Config, expiry: nat, o: Office, actions: seq<Action>): Office
    decreases |actions|
  {
    if actions == [] then o else Run(c, expiry, Do(c, expiry, o, actions[0]), actions[1..])
  }

  // ------------------------------------------------------------------ silence after a takeover

  predicate ResumedBetween(log: seq<Entry>, i: int, j: int)
    requires 0 <= i < j < |log|
  {
    exists k | i < k < j :: log[k] == Resumed(log[i].contact)
  }

  /** After a message that paused the bot for its contact, later messages of that contact are answered by nothing
      but the opt-out confirmation until somebody resumes. */
  predicate Silent(log: seq<Entry>) {
    forall i, j | 0 <= i < j < |log| && log[i].Handled? && log[i].pausing && log[j].Handled? && log[j].contact == log[i].contact ::
      ResumedBetween(log, i, j) || log[j].sent == None || log[j].sent == Some(OptOutConfirmation)
  }

  /** The last pause or resume of the contact, if any, is a pause. */
  function PausedLast(log: seq<Entry>, contact: nat): bool {
    if log == [] then false
    else
      var last := log[|log|-1];
      if last == Resumed(contact) then false
      else if last.Handled? && last.contact == contact && last.pausing then true
      else PausedLast(log[..|log|-1], contact)
  }

  ghost predicate TakeoverHolds(o: Office) {
    Silent(o.log) && forall i: nat :: PausedLast(o.log, i) ==> i in o.paused
  }

  lemma PausedLastSnoc(log: seq<Entry>, e: Entry, contact: nat)
    ensures PausedLast(log + [e], contact) ==
            (if e == Resumed(contact) then false
             else if e.Handled? && e.contact == contact && e.pausing then true
             else PausedLast(log, contact))
  {
    assert (log + [e])[..|log|] == log;
  }

  lemma {:induction false} PauseStays(log: seq<Entry>, i: nat)
    requires i < |log| && log[i].Handled? && log[i].pausing
    requires forall k | i < k < |log| :: log[k] != Resumed(log[i].contact)
    ensures PausedLast(log, log[i].contact)
    decreases |log|
  {
    if i < |log| - 1 { PauseStays(log[..|log|-1], i); }
  }

  predicate Quiet(e: Entry) { e.Handled? ==> e.sent == None || e.sent == Some(OptOutConfirmation) }

  lemma SilentSnoc(log: seq<Entry>, e: Entry)
    requires Silent(log) && (e.Handled? && PausedLast(log, e.contact) ==> Quiet(e))
    ensures Silent(log + [e])
  {
    hide PausedLast;
    var g := log + [e];
    forall i, j | 0 <= i < j < |g| && g[i].Handled? && g[i].pausing && g[j].Handled? && g[j].contact == g[i].contact
      ensures ResumedBetween(g, i, j) || Quiet(g[j])
    {
      if j < |log| {
        assert ResumedBetween(log, i, j) || Quiet(log[j]);
        if ResumedBetween(log, i, j) {
          var k :| i < k < j && log[k] == Resumed(log[i].contact);
          assert g[k] == Resumed(g[i].contact);
        }
      } else if forall k | i < k < |log| :: log[k] != Resumed(log[i].contact) {
        PauseStays(log, i);
      } else {
        var k :| i < k < |log| && log[k] == Resumed(log[i].contact);
        assert g[k] == Resumed(g[i].contact);
      }
    }
  }

  /** What one message does to the pauses and the log. */
  lemma HandleLogs(c: Reply.Config, expiry: nat, o: Office, m: Message) returns (e: Entry)
    ensures var after := Handle(c, expiry, o, m);
            && e.Handled? && e.contact == ContactOf(o.book.contacts, m.hash)
            && (after == o || after.log == o.log + [e])
            && after.globalPause == o.globalPause
            && (e.contact in o.paused || o.globalPause ==> Quiet(e) && !e.pausing)
            && after.paused == (if after != o && e.pausing then o.paused + {e.contact} else o.paused)
  {
    hide Reply.Compose, Reply.Analyse, Consent.OptInBook, Consent.OptOutBook, HasOpenTicket, GetOrCreate, Touch, ContactOf;
    var after := Handle(c, expiry, o, m);
    if after.log != o.log {
      assert after.log[..|o.log|] == o.log;
      e := after.log[|o.log|];
    } else {
      e := Handled(ContactOf(o.book.contacts, m.hash), None, false);
    }
  }

  lemma DoKeepsSilence(c: Reply.Config, expiry: nat, o: Office, a: Action)
    requires TakeoverHolds(o)
    ensures TakeoverHolds(Do(c, expiry, o, a))
  {
    hide Handle, Silent, PausedLast, ExpireAll, Consent.Apply;
    var after := Do(c, expiry, o, a);
    match a
    case Inbound(m) =>
      var e := HandleLogs(c, expiry, o, m);
      if after != o {
        SilentSnoc(o.log, e);
        forall i: nat | PausedLast(after.log, i) ensures i in after.paused { PausedLastSnoc(o.log, e, i); }
      }
    case Resolve(t, resume) =>
      if t < |o.tickets| && resume { ResumeKeepsSilence(o, after, o.tickets[t].contact); }
    case OperatorResume(i) =>
      ResumeKeepsSilence(o, after, i);
    case _ =>
  }

  lemma ResumeKeepsSilence(o: Office, after: Office, i: nat)
    requires TakeoverHolds(o) && after.log == o.log + [Resumed(i)] && after.paused == o.paused - {i}
    ensures TakeoverHolds(after)
  {
    hide Silent, PausedLast;
    SilentSnoc(o.log, Resumed(i));
    forall j: nat | PausedLast(after.log, j) ensures j in after.paused { PausedLastSnoc(o.log, Resumed(i), j); }
  }

  /** Over every run of messages and operator actions, once a message has paused the bot for its contact, later
      messages of that contact get no reply but the opt-out confirmation until a resuming resolve or an operator
      resume. */
  lemma {:induction false} SilenceOverEveryRun(c: Reply.Config, expiry: nat, o: Office, actions: seq<Action>)
    requires TakeoverHolds(o)
    ensures TakeoverHolds(Run(c, expiry, o, actions)) && Silent(Run(c, expiry, o, actions).log)
    decreases |actions|
  {
    hide Do, Silent, PausedLast;
    if actions != [] {
      DoKeepsSilence(c, expiry, o, actions[0]);
      SilenceOverEveryRun(c, expiry, Do(c, expiry, o, actions[0]), actions[1..]);
    }
    SilentIsPart(Run(c, expiry, o, actions));
  }

  lemma SilentIsPart(o: Office)
    ensures TakeoverHolds(o) ==> Silent(o.log)
  {
  }
}
