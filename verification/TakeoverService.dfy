/** The conversation and escalation services over their tables: the same steps as the specification, done in
    place. */
module TakeoverServices {
  import opened Prelude
  import Consent
  import Reply
  import opened Takeover

  /** The tables a transaction can restore. */
  datatype Saved = Saved(
    contacts: seq<Consent.Contact>, suppressed: set<string>, records: seq<Consent.Record>,
    paused: set<nat>, conversations: seq<Conversation>, tickets: seq<Ticket>)

  class ConversationService {
    const cfg: Reply.Config
    const expiry: nat
    const consent: Consent.ConsentService
    var paused: set<nat>
    var globalPause: bool
    var conversations: seq<Conversation>
    var tickets: seq<Ticket>
    ghost var log: seq<Entry>

    ghost function Value(): Office
      reads this, consent
    {
      Office(consent.Value(), paused, globalPause, conversations, tickets, log)
    }

    constructor (cfg: Reply.Config, expiry: nat, consent: Consent.ConsentService)
      ensures this.cfg == cfg && this.expiry == expiry && this.consent == consent
      ensures Value() == Office(consent.Value(), {}, false, [], [], [])
    {
      this.cfg, this.expiry, this.consent := cfg, expiry, consent;
      paused, globalPause, conversations, tickets, log := {}, false, [], [], [];
    }

    /** The contact with this hash, created if there is none. */
    method ResolveContact(hash: string) returns (i: nat)
      modifies consent
      ensures i == ContactOf(old(consent.contacts), hash)
      ensures consent.Value() == old(consent.Value()).(contacts :=
                if i < |old(consent.contacts)| then old(consent.contacts)
                else old(consent.contacts) + [Consent.Contact(hash, Consent.Unknown, true)])
    {
      i := 0;
      assert consent.contacts[0..] == consent.contacts;
      while i < |consent.contacts| && consent.contacts[i].hash != hash
        invariant i <= |consent.contacts|
        invariant ContactOf(consent.contacts, hash) == i + ContactOf(consent.contacts[i..], hash)
      {
        assert consent.contacts[i..][1..] == consent.contacts[i+1..];
        i := i + 1;
      }
      if i == |consent.contacts| {
        consent.contacts := consent.contacts + [Consent.Contact(hash, Consent.Unknown, true)];
      }
    }

    method FindLive(contact: nat) returns (r: Option<nat>)
      ensures r == LatestLive(conversations, contact, |conversations|)
    {
      var n := |conversations|;
      while n > 0
        invariant 0 <= n <= |conversations|
        invariant LatestLive(conversations, contact, |conversations|) == LatestLive(conversations, contact, n)
      {
        if conversations[n-1].contact == contact && Live(conversations[n-1]) { return Some(n - 1); }
        n := n - 1;
      }
      r := None;
    }

    method FindOrCreate(contact: nat, now: int) returns (k: nat)
      modifies this`conversations
      ensures (conversations, k) == GetOrCreate(old(conversations), contact, now, expiry)
    {
      var existing := FindLive(contact);
      if existing.Some? {
        k := existing.value;
        if conversations[k].expiresAt <= now {
          conversations := conversations[k := conversations[k].(state := Expired)];
        } else {
          return;
        }
      }
      k := |conversations|;
      conversations := conversations + [Conversation(contact, Active, now + expiry)];
    }

    method FindOpenTicket(k: nat) returns (found: bool)
      ensures found == HasOpenTicket(tickets, k)
    {
      var t := |tickets|;
      while t > 0
        invariant 0 <= t <= |tickets|
        invariant forall j | t <= j < |tickets| :: !(tickets[j].conversation == k && Unresolved(tickets[j]))
      {
        t := t - 1;
        if tickets[t].conversation == k && Unresolved(tickets[t]) { return true; }
      }
      found := false;
    }

    method EscalateConversation(k: nat, contact: nat, pause: bool)
      requires k < |conversations|
      modifies this
      ensures Value() == Escalate(old(Value()), k, contact, pause)
      ensures |conversations| == old(|conversations|)
    {
      var existing := FindOpenTicket(k);
      if existing {
        if pause && contact !in paused { paused := paused + {contact}; }
        assert pause ==> paused == old(paused) + {contact};
        return;
      }
      tickets := tickets + [Ticket(k, contact, Open)];
      conversations := conversations[k := conversations[k].(state := Escalated)];
      if pause { paused := paused + {contact}; }
    }

    /** The message's own answer: sent if a non-empty text can be delivered. */
    method SendReply(i: nat, m: Message, text: string) returns (attempted: bool)
      requires i < |consent.contacts|
      ensures attempted <==> text != "" && Deliverable(Value(), i, m)
    {
      attempted := text != "" && m.now - m.at < SERVICE_WINDOW && consent.contacts[i].readable;
    }

    /** The tables as they were when the transaction began. */
    ghost predicate Holds(saved: Saved, history: seq<Consent.Mark>, before: Office)
      reads this
    {
      before == Office(Consent.Book(saved.contacts, saved.suppressed, saved.records, history), saved.paused, globalPause,
                       saved.conversations, saved.tickets, log)
    }

    /** Rolling the transaction back restores every table. */
    method RollBack(saved: Saved, ghost history: seq<Consent.Mark>, ghost before: Office)
      requires Holds(saved, history, before)
      modifies this, consent
      ensures Value() == before
    {
      consent.contacts, consent.suppressed, consent.log := saved.contacts, saved.suppressed, saved.records;
      consent.history := history;
      paused, conversations, tickets := saved.paused, saved.conversations, saved.tickets;
    }

    /** Stores the message: its contact and its conversation exist from here on. */
    method Receive(m: Message) returns (i: nat, k: nat)
      modifies this`conversations, consent
      ensures (Value(), i, k) == Arrived(old(Value()), m, expiry)
    {
      hide GetOrCreate, ContactOf;
      i := ResolveContact(m.hash);
      k := FindOrCreate(i, m.now);
      conversations := conversations[k := conversations[k].(expiresAt := m.now + expiry)];
    }

    method SendFixed(i: nat, m: Message, what: Sent, text: string, saved: Saved, ghost history: seq<Consent.Mark>,
                     ghost before: Office)
      requires i < |consent.contacts| && text != "" && Holds(saved, history, before)
      modifies this, consent
      ensures Value() == SendOrRollBack(before, old(Value()), i, m, what)
    {
      var attempted := SendReply(i, m, text);
      if attempted && m.sendRaises {
        RollBack(saved, history, before);
      } else {
        log := log + [Handled(i, if attempted then Some(what) else None, false)];
      }
    }

    method ProcessMessage(i: nat, k: nat, m: Message, saved: Saved, ghost history: seq<Consent.Mark>, ghost before: Office)
      requires i < |consent.contacts| && k < |conversations| && Holds(saved, history, before)
      modifies this, consent
      ensures Value() == Process(cfg, before, old(Value()), i, k, m)
    {
      hide Reply.Compose, Reply.Analyse, HasOpenTicket;
      var analysis :=
        if m.llmFailed then Reply.Ruled(Reply.Unknown, 0.0, false, []) else Reply.Analyse(cfg, m.rules, m.raw, m.known);
      if analysis.intent == Reply.OptIn {
        var r := consent.OptIn(i, Consent.Marketing, m.at, m.now);
        if r == Consent.FutureConsent {
          RollBack(saved, history, before);
          return;
        }
      }
      var reply := Reply.Compose(cfg, analysis, m.known != [], m.suffix, m.llmFailed);
      if reply.escalate { EscalateConversation(k, i, reply.pauseBot); }
      var attempted := SendReply(i, m, reply.text);
      var sent := if attempted && !m.sendRaises then Some(Composed(reply.text)) else None;
      log := log + [Handled(i, sent, reply.escalate && reply.pauseBot)];
    }

    method HandleInbound(m: Message)
      modifies this, consent
      ensures Value() == Handle(cfg, expiry, old(Value()), m)
    {
      hide Process, SendOrRollBack, Arrived;
      var saved := Saved(consent.contacts, consent.suppressed, consent.log, paused, conversations, tickets);
      ghost var history, before := consent.history, Value();
      var i, k := Receive(m);
      if m.rules == Reply.OptOutWord {
        consent.OptOut(i, m.at);
        SendFixed(i, m, OptOutConfirmation, "unsubscribed", saved, history, before);
      } else if globalPause || i in paused || conversations[k].state == HumanHandling {
        log := log + [Handled(i, None, false)];
      } else if m.unsupported {
        SendFixed(i, m, UnsupportedNotice, "unsupported", saved, history, before);
      } else if m.blank {
        log := log + [Handled(i, None, false)];
      } else {
        ProcessMessage(i, k, m, saved, history, before);
      }
    }

    method ResolveEscalation(t: nat, resume: bool) returns (found: bool)
      modifies this
      ensures found <==> t < |old(tickets)|
      ensures Value() == ResolveTicket(old(Value()), t, resume)
    {
      if t >= |tickets| { return false; }
      var ticket := tickets[t];
      tickets := tickets[t := ticket.(status := Resolved)];
      if resume {
        paused := paused - {ticket.contact};
        if ticket.conversation < |conversations| {
          conversations := conversations[ticket.conversation := conversations[ticket.conversation].(state := Active)];
        }
        log := log + [Resumed(ticket.contact)];
      }
      found := true;
    }

    method AcknowledgeEscalation(t: nat) returns (found: bool)
      modifies this
      ensures found <==> t < |old(tickets)|
      ensures Value() == AcknowledgeTicket(old(Value()), t)
    {
      if t >= |tickets| { return false; }
      tickets := tickets[t := tickets[t].(status := Acknowledged)];
      found := true;
    }

    method ExpireStaleConversations(now: int) returns (count: nat)
      modifies this`conversations
      ensures conversations == ExpireAll(old(conversations), now)
      ensures count == StaleCount(old(conversations), now)
    {
      count := 0;
      var k := 0;
      while k < |conversations|
        invariant k <= |conversations| == |old(conversations)|
        invariant forall j | 0 <= j < k :: conversations[j] == ExpireOne(old(conversations)[j], now)
        invariant forall j | k <= j < |conversations| :: conversations[j] == old(conversations)[j]
        invariant count == StaleCount(old(conversations)[..k], now)
      {
        assert old(conversations)[..k+1][..k] == old(conversations)[..k];
        if Live(conversations[k]) && conversations[k].expiresAt <= now {
          conversations := conversations[k := conversations[k].(state := Expired)];
          count := count + 1;
        }
        k := k + 1;
      }
      assert old(conversations)[..k] == old(conversations);
    }
  }
}
