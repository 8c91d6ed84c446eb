/** Consent lifecycle: opt-in, opt-out, suppression and the append-only consent log.

    `Book` is the value of the tables; the class below keeps them as fields and updates them in place.
    `history` is the observer's record of what happened to each phone hash: suppression events, opt-ins
    and the template calls made to it. */
module Consent {

  datatype ConsentStatus = Unknown | Pending | OptedIn | OptedOut | Suppressed
  datatype Purpose = Marketing | Utility | Service | Authentication

  /** A contact; `readable` says whether its stored phone number still decrypts to a non-empty number. */
  datatype Contact = Contact(hash: string, consent: ConsentStatus, readable: bool)

  datatype Record = Record(contact: nat, status: ConsentStatus, purpose: Purpose, occurredAt: int)

  datatype Mark = Stopped(hash: string) | Resumed(hash: string) | Called(hash: string)

  /** Contacts are addressed by position; the suppression list holds phone hashes, each at most once. */
  datatype Book = Book(contacts: seq<Contact>, suppressed: set<string>, log: seq<Record>, history: seq<Mark>)

  // ------------------------------------------------------------------ the three transitions

  function OptOutBook(b: Book, id: nat, at: int): Book
    requires id < |b.contacts|
  {
    var c := b.contacts[id];
    Book(b.contacts[id := c.(consent := OptedOut)],
         b.suppressed + {c.hash},
         b.log + [Record(id, OptedOut, Marketing, at)],
         b.history + [Stopped(c.hash)])
  }

  function OptInBook(b: Book, id: nat, purpose: Purpose, at: int): Book
    requires id < |b.contacts|
  {
    var c := b.contacts[id];
    Book(b.contacts[id := c.(consent := OptedIn)],
         b.suppressed - {c.hash},
         b.log + [Record(id, OptedIn, purpose, at)],
         b.history + [Resumed(c.hash)])
  }

  /** Suppression without an opt-out leaves no consent record. */
  function SuppressBook(b: Book, id: nat): Book
    requires id < |b.contacts|
  {
    var c := b.contacts[id];
    b.(contacts := b.contacts[id := c.(consent := Suppressed)],
       suppressed := b.suppressed + {c.hash},
       history := b.history + [Stopped(c.hash)])
  }

  /** An operator suppresses a number directly; no contact is touched. */
  function SuppressHashBook(b: Book, hash: string): Book {
    b.(suppressed := b.suppressed + {hash}, history := b.history + [Stopped(hash)])
  }

  /** A template call to a contact, seen by the observer. */
  function CallBook(b: Book, hash: string): Book {
    b.(history := b.history + [Called(hash)])
  }

  /** A consent event from any session; one that names no stored contact finds nothing to change, and an
      opt-in dated in the future is refused before anything is written. */
  datatype Event =
    | OptOutEvent(id: nat, at: int)
    | OptInEvent(id: nat, purpose: Purpose, at: int, now: int)
    | SuppressEvent(id: nat)
    | OperatorEvent(hash: string)

  function Apply(b: Book, e: Event): Book {
    match e
    case OptOutEvent(id, at) => if id < |b.contacts| then OptOutBook(b, id, at) else b
    case OptInEvent(id, purpose, at, now) =>
      if id < |b.contacts| && at <= now then OptInBook(b, id, purpose, at) else b
    case SuppressEvent(id) => if id < |b.contacts| then SuppressBook(b, id) else b
    case OperatorEvent(hash) => SuppressHashBook(b, hash)
  }

  function ApplyAll(b: Book, es: seq<Event>): Book
    decreases |es|
  {
    if es == [] then b else ApplyAll(Apply(b, es[0]), es[1..])
  }

  // ------------------------------------------------------------------ what must hold

  /** No template call to a hash between one of its suppression events and its next opt-in. */
  ghost predicate Safe(h: seq<Mark>) {
    forall i, j | 0 <= i < j < |h| && h[i].Stopped? && h[j] == Called(h[i].hash) ::
      ResumedBetween(h, i, j)
  }

  ghost predicate ResumedBetween(h: seq<Mark>, i: int, j: int)
    requires 0 <= i < j < |h|
  {
    exists k | i < k < j :: h[k] == Resumed(h[i].hash)
  }

  /** The last suppression event or opt-in of `hash`, if any, is a suppression event. */
  function StoppedLast(h: seq<Mark>, hash: string): bool {
    if h == [] then false
    else
      var last := h[|h| - 1];
      if last == Stopped(hash) then true
      else if last == Resumed(hash) then false
      else StoppedLast(h[..|h|-1], hash)
  }

  ghost predicate UniqueHashes(cs: seq<Contact>) {
    forall i, j | 0 <= i < j < |cs| :: cs[i].hash != cs[j].hash
  }

  ghost predicate StatusImpliesEntry(b: Book) {
    forall i | 0 <= i < |b.contacts| ::
      b.contacts[i].consent in {OptedOut, Suppressed} ==> b.contacts[i].hash in b.suppressed
  }

  ghost predicate Invariant(b: Book) {
    && UniqueHashes(b.contacts)
    && StatusImpliesEntry(b)
    && (forall hash :: StoppedLast(b.history, hash) ==> hash in b.suppressed)
    && Safe(b.history)
  }

  // ------------------------------------------------------------------ histories

  lemma StoppedLastSnoc(h: seq<Mark>, m: Mark, hash: string)
    ensures StoppedLast(h + [m], hash) ==
      if m == Stopped(hash) then true else if m == Resumed(hash) then false else StoppedLast(h, hash)
  {
    assert (h + [m])[..|h|] == h;
  }

  /** Without a later opt-in, an earlier suppression event is still the last word. */
  lemma {:induction false} StoppedStays(h: seq<Mark>, i: nat)
    requires i < |h| && h[i].Stopped?
    requires forall k | i < k < |h| :: h[k] != Resumed(h[i].hash)
    ensures StoppedLast(h, h[i].hash)
  {
    if i < |h| - 1 {
      StoppedStays(h[..|h|-1], i);
    }
  }

  /** Any mark but a call to a stopped hash keeps a history safe. */
  lemma SafeSnoc(h: seq<Mark>, m: Mark)
    requires Safe(h)
    requires m.Called? ==> !StoppedLast(h, m.hash)
    ensures Safe(h + [m])
  {
    var g := h + [m];
    forall i, j | 0 <= i < j < |g| && g[i].Stopped? && g[j] == Called(g[i].hash)
      ensures ResumedBetween(g, i, j)
    {
      if j < |h| {
        assert ResumedBetween(h, i, j);
        var k :| i < k < j && h[k] == Resumed(h[i].hash);
        assert g[k] == Resumed(g[i].hash);
      } else if forall k | i < k < |h| :: h[k] != Resumed(h[i].hash) {
        StoppedStays(h, i);
      } else {
        var k :| i < k < |h| && h[k] == Resumed(h[i].hash);
        assert g[k] == Resumed(g[i].hash);
      }
    }
  }

  // ------------------------------------------------------------------ every event keeps the invariant

  lemma EventKeepsInvariant(b: Book, e: Event)
    requires Invariant(b)
    ensures Invariant(Apply(b, e)) && |Apply(b, e).contacts| == |b.contacts|
    ensures forall i | 0 <= i < |b.contacts| ::
      Apply(b, e).contacts[i].hash == b.contacts[i].hash && Apply(b, e).contacts[i].readable == b.contacts[i].readable
    ensures b.log <= Apply(b, e).log
  {
    var b' := Apply(b, e);
    if b'.history != b.history {
      var m := b'.history[|b.history|];
      assert b'.history == b.history + [m] && !m.Called?;
      SafeSnoc(b.history, m);
      forall hash | StoppedLast(b'.history, hash) ensures hash in b'.suppressed {
        StoppedLastSnoc(b.history, m, hash);
      }
    }
  }

  lemma {:induction false} EventsKeepInvariant(b: Book, es: seq<Event>)
    requires Invariant(b)
    ensures Invariant(ApplyAll(b, es)) && |ApplyAll(b, es).contacts| == |b.contacts|
    ensures forall i | 0 <= i < |b.contacts| ::
      ApplyAll(b, es).contacts[i].hash == b.contacts[i].hash &&
      ApplyAll(b, es).contacts[i].readable == b.contacts[i].readable
    ensures b.log <= ApplyAll(b, es).log
    decreases |es|
  {
    if es != [] {
      EventKeepsInvariant(b, es[0]);
      EventsKeepInvariant(Apply(b, es[0]), es[1..]);
    }
  }

  /** Contacts, their hashes and their numbers do not depend on what consent events happen. */
  lemma {:induction false} EventsKeepContacts(b: Book, es: seq<Event>)
    ensures |ApplyAll(b, es).contacts| == |b.contacts|
    ensures forall i | 0 <= i < |b.contacts| ::
      ApplyAll(b, es).contacts[i].hash == b.contacts[i].hash &&
      ApplyAll(b, es).contacts[i].readable == b.contacts[i].readable
    decreases |es|
  {
    if es != [] {
      EventsKeepContacts(Apply(b, es[0]), es[1..]);
    }
  }

  lemma CallKeepsInvariant(b: Book, hash: string)
    requires Invariant(b) && hash !in b.suppressed
    ensures Invariant(CallBook(b, hash))
  {
    SafeSnoc(b.history, Called(hash));
    forall g | StoppedLast(CallBook(b, hash).history, g) ensures g in b.suppressed {
      StoppedLastSnoc(b.history, Called(hash), g);
    }
  }

  /** Opting in lifts exactly the suppression of that hash; opting out or suppressing imposes exactly it. */
  lemma OptInUndoesOptOut(b: Book, id: nat, at: int, purpose: Purpose, at2: int)
    requires Invariant(b) && id < |b.contacts|
    ensures var hash := b.contacts[id].hash;
            var b2 := OptInBook(OptOutBook(b, id, at), id, purpose, at2);
            && hash in OptOutBook(b, id, at).suppressed
            && b2.suppressed == b.suppressed - {hash}
            && b2.contacts == b.contacts[id := b.contacts[id].(consent := OptedIn)]
            && b2.log == b.log + [Record(id, OptedOut, Marketing, at), Record(id, OptedIn, purpose, at2)]
  {
    assert OptInBook(OptOutBook(b, id, at), id, purpose, at2).suppressed == b.suppressed - {b.contacts[id].hash};
  }

  // ------------------------------------------------------------------ what a history of events leaves

  /** The event takes effect for the contact. */
  predicate Concerns(e: Event, id: nat) {
    match e
    case OptOutEvent(i, _) => i == id
    case OptInEvent(i, _, at, now) => i == id && at <= now
    case SuppressEvent(i) => i == id
    case OperatorEvent(_) => false
  }

  /** The event lifts or imposes the suppression of the hash. */
  predicate Touches(e: Event, hash: string, cs: seq<Contact>) {
    (exists id: nat | id < |cs| :: cs[id].hash == hash && Concerns(e, id)) || e == OperatorEvent(hash)
  }

  /** `k` is the position of the last of the events for which `p` holds, or -1. */
  ghost predicate LastSuch(es: seq<Event>, p: Event -> bool, k: int) {
    && -1 <= k < |es| && (k >= 0 ==> p(es[k]))
    && forall j | k < j < |es| :: !p(es[j])
  }

  lemma {:induction false} ApplySnoc(b: Book, es: seq<Event>, e: Event)
    ensures ApplyAll(b, es + [e]) == Apply(ApplyAll(b, es), e)
    decreases |es|
  {
    hide Apply;
    if es == [] {
      assert [] + [e] == [e] && [e][1..] == [];
    } else {
      assert (es + [e])[1..] == es[1..] + [e];
      ApplySnoc(Apply(b, es[0]), es[1..], e);
    }
  }

  /** A contact's status is what the last event that took effect for it says, and its own if there was none. */
  lemma {:induction false} LastEventDecides(b: Book, es: seq<Event>, id: nat, k: int)
    requires id < |b.contacts| && LastSuch(es, e => Concerns(e, id), k)
    ensures |ApplyAll(b, es).contacts| == |b.contacts|
    ensures ApplyAll(b, es).contacts[id].consent ==
              if k < 0 then b.contacts[id].consent
              else if es[k].OptOutEvent? then OptedOut
              else if es[k].OptInEvent? then OptedIn
              else Suppressed
    decreases |es|
  {
    EventsKeepContacts(b, es);
    if es != [] {
      var n := |es| - 1;
      assert es == es[..n] + [es[n]];
      ApplySnoc(b, es[..n], es[n]);
      EventsKeepContacts(b, es[..n]);
      if k < n { LastEventDecides(b, es[..n], id, k); }
    }
  }

  /** A hash is on the suppression list exactly when the last event that touched it was anything but an opt-in, or, if
      none did, when it was there before. */
  lemma {:induction false} LastEventSuppresses(b: Book, es: seq<Event>, hash: string, k: int)
    requires LastSuch(es, e => Touches(e, hash, b.contacts), k)
    ensures hash in ApplyAll(b, es).suppressed <==> if k < 0 then hash in b.suppressed else !es[k].OptInEvent?
    decreases |es|
  {
    if es != [] {
      var n := |es| - 1;
      assert es == es[..n] + [es[n]];
      ApplySnoc(b, es[..n], es[n]);
      EventsKeepContacts(b, es[..n]);
      if k < n {
        LastEventSuppresses(b, es[..n], hash, k);
        UntouchedStays(ApplyAll(b, es[..n]), es[n], hash);
        assert !Touches(es[n], hash, b.contacts);
      } else {
        TouchedFollows(ApplyAll(b, es[..n]), es[n], hash);
      }
    }
  }

  lemma UntouchedStays(b: Book, e: Event, hash: string)
    ensures !Touches(e, hash, b.contacts) ==> (hash in Apply(b, e).suppressed <==> hash in b.suppressed)
  {
  }

  lemma TouchedFollows(b: Book, e: Event, hash: string)
    ensures Touches(e, hash, b.contacts) ==> (hash in Apply(b, e).suppressed <==> !e.OptInEvent?)
  {
  }

  // ------------------------------------------------------------------ the service

  datatype Result = Done | FutureConsent

  /** The consent service over its tables. */
  class ConsentService {
    var contacts: seq<Contact>
    var suppressed: set<string>
    var log: seq<Record>
    ghost var history: seq<Mark>

    ghost function Value(): Book
      reads this
    {
      Book(contacts, suppressed, log, history)
    }

    constructor ()
      ensures Value() == Book([], {}, [], []) && Invariant(Value())
    {
      contacts, suppressed, log, history := [], {}, [], [];
    }

    method OptOut(id: nat, at: int)
      requires id < |contacts|
      modifies this
      ensures Value() == OptOutBook(old(Value()), id, at)
    {
      var hash := contacts[id].hash;
      contacts := contacts[id := contacts[id].(consent := OptedOut)];
      log := log + [Record(id, OptedOut, Marketing, at)];
      CreateSuppression(hash);
    }

    method OptIn(id: nat, purpose: Purpose, at: int, now: int) returns (r: Result)
      requires id < |contacts|
      modifies this
      ensures r == FutureConsent <==> at > now
      ensures Value() == if at > now then old(Value()) else OptInBook(old(Value()), id, purpose, at)
    {
      if at > now { return FutureConsent; }
      contacts := contacts[id := contacts[id].(consent := OptedIn)];
      log := log + [Record(id, OptedIn, purpose, at)];
      RemoveSuppression(contacts[id].hash);
      r := Done;
    }

    method Suppress(id: nat)
      requires id < |contacts|
      modifies this
      ensures Value() == SuppressBook(old(Value()), id)
    {
      contacts := contacts[id := contacts[id].(consent := Suppressed)];
      CreateSuppression(contacts[id].hash);
    }

    method IsSuppressed(id: nat) returns (r: bool)
      requires id < |contacts|
      ensures r <==> contacts[id].hash in suppressed
    {
      r := contacts[id].hash in suppressed;
    }

    /** Idempotent: an entry that exists already is left alone. */
    method CreateSuppression(hash: string)
      modifies this
      ensures Value() == SuppressHashBook(old(Value()), hash)
    {
      if hash !in suppressed {
        suppressed := suppressed + {hash};
      }
      history := history + [Stopped(hash)];
      assert suppressed == old(suppressed) + {hash};
    }

    method RemoveSuppression(hash: string)
      modifies this
      ensures Value() == old(Value()).(suppressed := old(suppressed) - {hash}, history := old(history) + [Resumed(hash)])
    {
      if hash in suppressed {
        suppressed := suppressed - {hash};
      }
      history := history + [Resumed(hash)];
      assert suppressed == old(suppressed) - {hash};
    }

    /** Events of other sessions, one after the other. */
    method Absorb(es: seq<Event>)
      modifies this
      ensures Value() == ApplyAll(old(Value()), es)
    {
      var i := 0;
      assert es[0..] == es;
      while i < |es|
        invariant i <= |es|
        invariant ApplyAll(Value(), es[i..]) == ApplyAll(old(Value()), es)
      {
        assert es[i..][1..] == es[i+1..];
        match es[i] {
          case OptOutEvent(id, at) => if id < |contacts| { OptOut(id, at); }
          case OptInEvent(id, purpose, at, now) =>
            if id < |contacts| { var _ := OptIn(id, purpose, at, now); }
          case SuppressEvent(id) => if id < |contacts| { Suppress(id); }
          case OperatorEvent(hash) => CreateSuppression(hash);
        }
        i := i + 1;
      }
    }
  }
}
