/** The idempotency ledger for webhook events: workers racing to claim a key, and the webhook handler that claims
    and enqueues one event after another. */
module Ledger {

  // ------------------------------------------------------------------ racing workers

  /** One step of one worker, or of the purge. A claim is a read, which may miss a row that is not yet visible to
      it but never sees one that is not there, and then a unique insert if the read saw nothing. */
  datatype Step =
    | Read(worker: nat, key: string, visible: bool)
    | Insert(worker: nat)
    | Purge(keys: set<string>)

  /** What has happened: a claim that returned true, one that returned false, or rows deleted. */
  datatype Mark = Won(worker: nat, key: string) | Lost(worker: nat, key: string) | Purged(keys: set<string>)

  datatype State = State(table: set<string>, pending: map<nat, string>, log: seq<Mark>)

  function Take(s: State, step: Step): State {
    match step
    case Read(w, key, visible) =>
      if w in s.pending then s
      else if key in s.table && visible then s.(log := s.log + [Lost(w, key)])
      else s.(pending := s.pending[w := key])
    case Insert(w) =>
      if w !in s.pending then s
      else if s.pending[w] in s.table then
        s.(pending := s.pending - {w}, log := s.log + [Lost(w, s.pending[w])])
      else
        s.(table := s.table + {s.pending[w]}, pending := s.pending - {w}, log := s.log + [Won(w, s.pending[w])])
    case Purge(keys) =>
      s.(table := s.table - keys, log := s.log + [Purged(keys * s.table)])
  }

  function Run(s: State, steps: seq<Step>): State {
    if steps == [] then s else Take(Run(s, steps[..|steps|-1]), steps[|steps|-1])
  }

  const START := State({}, map[], [])

  function Last(log: seq<Mark>): Mark
    requires log != []
  {
    log[|log|-1]
  }

  function Init(log: seq<Mark>): seq<Mark>
    requires log != []
  {
    log[..|log|-1]
  }

  /** Claims of the key that returned true since its row was last deleted. */
  function WinsSincePurge(log: seq<Mark>, key: string): nat {
    if log == [] || (Last(log).Purged? && key in Last(log).keys) then 0
    else WinsSincePurge(Init(log), key) + if Last(log).Won? && Last(log).key == key then 1 else 0
  }

  /** Completed claims of the key since its row was last deleted. */
  function ClaimsSincePurge(log: seq<Mark>, key: string): nat {
    if log == [] || (Last(log).Purged? && key in Last(log).keys) then 0
    else ClaimsSincePurge(Init(log), key) + if !Last(log).Purged? && Last(log).key == key then 1 else 0
  }

  function Wins(log: seq<Mark>, key: string): nat {
    if log == [] then 0 else Wins(Init(log), key) + if Last(log).Won? && Last(log).key == key then 1 else 0
  }

  function Purges(log: seq<Mark>, key: string): nat {
    if log == [] then 0 else Purges(Init(log), key) + if Last(log).Purged? && key in Last(log).keys then 1 else 0
  }

  function One(b: bool): nat { if b then 1 else 0 }

  /** The row of a key is there exactly when one claim has won it since it was last deleted. */
  ghost predicate Consistent(s: State, key: string) {
    && WinsSincePurge(s.log, key) == One(key in s.table)
    && (ClaimsSincePurge(s.log, key) > 0 ==> key in s.table)
    && Wins(s.log, key) == Purges(s.log, key) + One(key in s.table)
  }

  lemma OneMore(log: seq<Mark>, m: Mark)
    ensures Init(log + [m]) == log && Last(log + [m]) == m
  {
  }

  lemma OneMoreMark(log: seq<Mark>, m: Mark, key: string)
    ensures var gone := m.Purged? && key in m.keys;
            var after := log + [m];
            && WinsSincePurge(after, key) == (if gone then 0 else WinsSincePurge(log, key) + One(m.Won? && m.key == key))
            && ClaimsSincePurge(after, key) == (if gone then 0 else ClaimsSincePurge(log, key) + One(!m.Purged? && m.key == key))
            && Wins(after, key) == Wins(log, key) + One(m.Won? && m.key == key)
            && Purges(after, key) == Purges(log, key) + One(gone)
  {
    OneMore(log, m);
  }

  lemma StepKeepsConsistent(s: State, step: Step, key: string)
    requires Consistent(s, key)
    ensures Consistent(Take(s, step), key)
  {
    hide WinsSincePurge, ClaimsSincePurge, Wins, Purges;
    match step
    case Read(w, k, visible) =>
      OneMoreMark(s.log, Lost(w, k), key);
    case Insert(w) =>
      if w in s.pending {
        OneMoreMark(s.log, Lost(w, s.pending[w]), key);
        OneMoreMark(s.log, Won(w, s.pending[w]), key);
      }
    case Purge(keys) =>
      OneMoreMark(s.log, Purged(keys * s.table), key);
  }

  /** In every interleaving of any number of workers and purges: at most one claim of a key wins between two
      deletions of its row, exactly one if any claim of it has completed, and over the whole run there is one win
      for each deletion, and one more while the row is there. */
  lemma {:induction false} ExactlyOneWins(steps: seq<Step>, key: string)
    ensures var s := Run(START, steps);
            && WinsSincePurge(s.log, key) <= 1
            && (ClaimsSincePurge(s.log, key) > 0 ==> WinsSincePurge(s.log, key) == 1)
            && (WinsSincePurge(s.log, key) == 1 <==> key in s.table)
            && Wins(s.log, key) == Purges(s.log, key) + One(key in s.table)
    ensures Consistent(Run(START, steps), key)
    decreases |steps|
  {
    hide Take;
    if steps != [] {
      ExactlyOneWins(steps[..|steps|-1], key);
      StepKeepsConsistent(Run(START, steps[..|steps|-1]), steps[|steps|-1], key);
    }
  }

  /** Two workers that both read before either inserts: the second insert loses, even though its read saw
      nothing. */
  lemma RaceHasOneWinner(s: State, v: nat, w: nat, key: string)
    requires v != w && v !in s.pending && w !in s.pending && key !in s.table
    ensures var t := Take(Take(Take(Take(s, Read(v, key, true)), Read(w, key, true)), Insert(w)), Insert(v));
            t.log == s.log + [Won(w, key), Lost(v, key)] && key in t.table
  {
  }

  // ------------------------------------------------------------------ keys

  /** Status words the parser accepts. */
  const STATUS_WORDS: set<string> := {"sent", "accepted", "delivered", "read", "failed", "deleted", "warning"}

  function StatusKey(id: string, raw: string): string { id + ":" + raw }

  predicate NoColon(s: string) { forall i | 0 <= i < |s| :: s[i] != ':' }

  lemma StatusWordsHaveNoColon(raw: string)
    requires raw in STATUS_WORDS
    ensures NoColon(raw)
  {
  }

  lemma SplitAtLastColon(a: string, x: string, b: string, y: string)
    requires NoColon(x) && NoColon(y) && a + ":" + x == b + ":" + y
    ensures |a| == |b|
  {
    var s := a + ":" + x;
    assert s[|a|] == ':' && s[|b|] == ':';
    assert forall i | |a| < i < |s| :: s[i] == x[i-|a|-1];
    assert forall i | |b| < i < |s| :: s[i] == y[i-|b|-1];
  }

  /** Different statuses, and statuses of different messages, never share a key, whatever the message ids. */
  lemma StatusKeysAreDistinct(id: string, raw: string, id2: string, raw2: string)
    requires raw in STATUS_WORDS && raw2 in STATUS_WORDS
    ensures StatusKey(id, raw) == StatusKey(id2, raw2) <==> id == id2 && raw == raw2
  {
    StatusWordsHaveNoColon(raw);
    StatusWordsHaveNoColon(raw2);
    if StatusKey(id, raw) == StatusKey(id2, raw2) {
      var s := StatusKey(id, raw);
      SplitAtLastColon(id, raw, id2, raw2);
      assert id == s[..|id|] && id2 == s[..|id2|];
      assert raw == s[|id|+1..] && raw2 == s[|id2|+1..];
    }
  }

  // ------------------------------------------------------------------ the webhook handler

  datatype Event = Event(key: string, body: string)

  function Keys(events: seq<Event>): set<string> { set i | 0 <= i < |events| :: events[i].key }

  /** The event at `i` is the first with its key and the key was not claimed before. */
  predicate IsFirst(seen: set<string>, events: seq<Event>, i: nat)
    requires i < |events|
  {
    events[i].key !in seen && forall j | 0 <= j < i :: events[j].key != events[i].key
  }

  /** The first occurrences among the first `n` events, in order. */
  function Firsts(seen: set<string>, events: seq<Event>, n: nat): seq<Event>
    requires n <= |events|
  {
    if n == 0 then []
    else Firsts(seen, events, n - 1) + if IsFirst(seen, events, n - 1) then [events[n-1]] else []
  }

  class WebhookEvents {
    /** The rows of the ledger, with the number of attempts seen. */
    var rows: map<string, nat>

    constructor ()
      ensures rows == map[]
    {
      rows := map[];
    }

    method Claim(key: string) returns (won: bool)
      modifies this
      ensures won <==> key !in old(rows)
      ensures rows == old(rows)[key := if won then 1 else old(rows)[key] + 1]
    {
      if key in rows {
        rows := rows[key := rows[key] + 1];
        return false;
      }
      rows := rows[key := 1];
      won := true;
    }

    /** Claims the events in order and returns those that were won. */
    method ClaimAll(events: seq<Event>) returns (queued: seq<Event>)
      modifies this
      ensures queued == Firsts(old(rows.Keys), events, |events|)
      ensures rows.Keys == old(rows.Keys) + Keys(events)
      ensures forall k | k in old(rows) :: rows[k] >= old(rows)[k]
    {
      hide Keys, IsFirst;
      queued := [];
      var k := 0;
      NoKeys();
      assert events[..0] == [];
      while k < |events|
        invariant k <= |events|
        invariant queued == Firsts(old(rows.Keys), events, k)
        invariant rows.Keys == old(rows.Keys) + Keys(events[..k])
        invariant forall k | k in old(rows) :: rows[k] >= old(rows)[k]
      {
        ghost var before := rows.Keys;
        var claimed := Claim(events[k].key);
        assert rows.Keys == before + {events[k].key};
        FirstMeansNew(old(rows.Keys), events, k);
        KeysSnoc(events, k);
        if claimed { queued := queued + [events[k]]; }
        k := k + 1;
      }
      assert events[..|events|] == events;
    }

    /** The handler: messages first, then statuses, in one ledger. Without a database every event counts as
        claimed; without a dispatcher the claimed ones are counted but not enqueued. */
    method Handle(messages: seq<Event>, statuses: seq<Event>, database: bool, dispatcher: bool)
        returns (queued: seq<Event>, claimed: nat)
      modifies this
      ensures var all := messages + statuses;
              var won := if database then Firsts(old(rows.Keys), all, |all|) else all;
              claimed == |won| && queued == if dispatcher then won else []
      ensures rows.Keys == if database then old(rows.Keys) + Keys(messages + statuses) else old(rows.Keys)
    {
      var m, s := messages, statuses;
      ghost var seen := rows.Keys;
      if database {
        m := ClaimAll(messages);
        s := ClaimAll(statuses);
        FirstsCat(seen, messages, statuses);
        KeysCat(messages, statuses);
      }
      claimed := |m| + |s|;
      queued := if dispatcher then m + s else [];
    }
  }

  lemma KeysSnoc(events: seq<Event>, k: nat)
    requires k < |events|
    ensures Keys(events[..k+1]) == Keys(events[..k]) + {events[k].key}
  {
    var a, b := events[..k], events[..k+1];
    forall x | x in Keys(b) ensures x in Keys(a) + {events[k].key} {
      var i :| 0 <= i < |b| && b[i].key == x;
      if i < k { assert a[i].key == x; }
    }
    forall x | x in Keys(a) ensures x in Keys(b) {
      var i :| 0 <= i < |a| && a[i].key == x;
      assert b[i].key == x;
    }
    assert b[k].key in Keys(b);
  }

  lemma KeysCat(a: seq<Event>, b: seq<Event>)
    ensures Keys(a + b) == Keys(a) + Keys(b)
  {
    forall x | x in Keys(a) + Keys(b) ensures x in Keys(a + b) {
      if x in Keys(a) {
        var i :| 0 <= i < |a| && a[i].key == x;
        assert (a + b)[i].key == x;
      } else {
        var i :| 0 <= i < |b| && b[i].key == x;
        assert (a + b)[|a|+i].key == x;
      }
    }
  }

  lemma {:induction false} FirstsOfPrefix(seen: set<string>, a: seq<Event>, b: seq<Event>, n: nat)
    requires n <= |a|
    ensures Firsts(seen, a + b, n) == Firsts(seen, a, n)
    decreases n
  {
    if n > 0 {
      FirstsOfPrefix(seen, a, b, n - 1);
      assert forall j | 0 <= j < n :: (a + b)[j] == a[j];
    }
  }

  lemma {:induction false} FirstsOfSuffix(seen: set<string>, a: seq<Event>, b: seq<Event>, n: nat)
    requires n <= |b|
    ensures Firsts(seen, a + b, |a| + n) == Firsts(seen, a, |a|) + Firsts(seen + Keys(a), b, n)
    decreases n
  {
    hide Keys, IsFirst;
    if n == 0 {
      FirstsOfPrefix(seen, a, b, |a|);
      assert Firsts(seen, a, |a|) + [] == Firsts(seen, a, |a|);
    } else {
      FirstsOfSuffix(seen, a, b, n - 1);
      FirstInSuffix(seen, a, b, n - 1);
      EventsAssoc(Firsts(seen, a, |a|), Firsts(seen + Keys(a), b, n - 1),
                  if IsFirst(seen + Keys(a), b, n - 1) then [b[n-1]] else []);
    }
  }

  lemma FirstInSuffix(seen: set<string>, a: seq<Event>, b: seq<Event>, i: nat)
    requires i < |b|
    ensures IsFirst(seen, a + b, |a| + i) <==> IsFirst(seen + Keys(a), b, i)
  {
    assert forall j | 0 <= j < |a| :: (a + b)[j] == a[j];
    assert forall j | 0 <= j < |b| :: (a + b)[|a|+j] == b[j];
    var key := b[i].key;
    if key in Keys(a) {
      var j :| 0 <= j < |a| && a[j].key == key;
      assert (a + b)[j].key == key;
    } else if IsFirst(seen + Keys(a), b, i) {
      forall j | 0 <= j < |a| + i ensures (a + b)[j].key != key {
        if j < |a| { assert a[j].key in Keys(a); } else { assert (a + b)[j] == b[j-|a|]; }
      }
    } else if key !in seen {
      var j :| 0 <= j < i && b[j].key == key;
      assert (a + b)[|a|+j].key == key;
    }
  }

  lemma EventsAssoc(a: seq<Event>, b: seq<Event>, c: seq<Event>)
    ensures a + b + c == a + (b + c)
  {
  }

  /** Handling two batches one after the other enqueues the same events as handling them as one. */
  lemma FirstsCat(seen: set<string>, a: seq<Event>, b: seq<Event>)
    ensures Firsts(seen, a + b, |a + b|) == Firsts(seen, a, |a|) + Firsts(seen + Keys(a), b, |b|)
  {
    FirstsOfSuffix(seen, a, b, |b|);
  }

  /** A retried webhook enqueues nothing. */
  lemma {:induction false} RetryEnqueuesNothing(seen: set<string>, events: seq<Event>, n: nat)
    requires n <= |events| && Keys(events) <= seen
    ensures Firsts(seen, events, n) == []
    decreases n
  {
    if n > 0 {
      RetryEnqueuesNothing(seen, events, n - 1);
      assert events[n-1].key in Keys(events);
    }
  }

  function Flatten(batches: seq<seq<Event>>): seq<Event> {
    if batches == [] then [] else Flatten(batches[..|batches|-1]) + batches[|batches|-1]
  }

  /** What a series of webhook calls enqueues, each against the ledger the earlier ones left. */
  function Enqueued(seen: set<string>, batches: seq<seq<Event>>): seq<Event> {
    if batches == [] then []
    else
      var init, last := batches[..|batches|-1], batches[|batches|-1];
      Enqueued(seen, init) + Firsts(seen + Keys(Flatten(init)), last, |last|)
  }

  /** However the events are cut into webhook calls and repeated, each key is enqueued once, at its first
      occurrence. */
  lemma {:induction false} EachKeyOnce(seen: set<string>, batches: seq<seq<Event>>)
    ensures Enqueued(seen, batches) == Firsts(seen, Flatten(batches), |Flatten(batches)|)
    decreases |batches|
  {
    if batches != [] {
      var init, last := batches[..|batches|-1], batches[|batches|-1];
      EachKeyOnce(seen, init);
      FirstsCat(seen, Flatten(init), last);
    }
  }

  /** No key is enqueued twice, and every new key is enqueued. */
  lemma {:induction false} FirstsAreDistinct(seen: set<string>, events: seq<Event>, n: nat)
    requires n <= |events|
    ensures forall i, j | 0 <= i < j < |Firsts(seen, events, n)| ::
              Firsts(seen, events, n)[i].key != Firsts(seen, events, n)[j].key
    ensures forall x :: x in Keys(Firsts(seen, events, n)) <==> x in Keys(events[..n]) && x !in seen
    decreases n
  {
    hide Keys;
    if n == 0 {
      NoKeys();
      assert events[..0] == [];
    } else {
      FirstsAreDistinct(seen, events, n - 1);
      KeysSnoc(events, n - 1);
      var before := Firsts(seen, events, n - 1);
      FirstMeansNew(seen, events, n - 1);
      if IsFirst(seen, events, n - 1) {
        var now := before + [events[n-1]];
        KeysSnoc(now, |before|);
        assert now[..|before|] == before && now[..|before|+1] == now;
        KeyOfEach(before);
      } else {
        assert Firsts(seen, events, n) == before;
      }
    }
  }

  lemma NoKeys()
    ensures Keys([]) == {}
  {
  }

  lemma KeyOfEach(events: seq<Event>)
    ensures forall i | 0 <= i < |events| :: events[i].key in Keys(events)
  {
  }

  lemma FirstMeansNew(seen: set<string>, events: seq<Event>, i: nat)
    requires i < |events|
    ensures IsFirst(seen, events, i) <==> events[i].key !in seen && events[i].key !in Keys(events[..i])
  {
    assert forall j | 0 <= j < i :: events[..i][j] == events[j];
    if !(events[i].key !in seen && events[i].key !in Keys(events[..i])) {
      if events[i].key !in seen {
        var j :| 0 <= j < |events[..i]| && events[..i][j].key == events[i].key;
        assert events[j].key == events[i].key;
      }
    } else {
      forall j | 0 <= j < i ensures events[j].key != events[i].key {
        assert events[..i][j].key in Keys(events[..i]);
      }
    }
  }
}
