/** Keyword commands: opt-out, opt-in and handover detection on normalised text. */
module Keywords {
  import opened Prelude
  import opened Text

  /** A standalone command has at most this many words. */
  const MAX_OPTOUT_WORDS := 4

  /** Decomposition, accent stripping, lower-casing and punctuation removal, character by character. */
  function Clean(text: string, clean: char -> string): string {
    if text == "" then "" else clean(text[0]) + Clean(text[1..], clean)
  }

  /** Cleaning goes character by character and leaves none out. */
  lemma {:induction false} CleanEach(before: string, c: char, after: string, clean: char -> string)
    ensures Clean(before + [c] + after, clean) == Clean(before, clean) + clean(c) + Clean(after, clean)
    decreases |before|
  {
    if before == "" {
      assert ("" + [c] + after)[1..] == after;
    } else {
      assert (before + [c] + after)[1..] == before[1..] + [c] + after;
      CleanEach(before[1..], c, after, clean);
    }
  }

  /** The words of a message after cleaning. */
  function WordList(text: string, clean: char -> string): seq<string> {
    Words(Clean(text, clean))
  }

  /** Whitespace runs collapse to one space and the ends are stripped. */
  function Normalise(text: string, clean: char -> string): string {
    JoinWith(WordList(text, clean), " ")
  }

  /** The boundary pattern: the candidate, preceded by the start or whitespace and followed by whitespace
      or the end. */
  predicate Matches(text: string, candidate: string) {
    exists i | 0 <= i <= |text| - |candidate| :: MatchesAt(text, candidate, i)
  }

  predicate MatchesAt(text: string, candidate: string, i: int)
    requires 0 <= i <= |text| - |candidate|
  {
    var end := i + |candidate|;
    && text[i..end] == candidate
    && (i == 0 || IsSpace(text[i-1]))
    && (end == |text| || IsSpace(text[end]))
  }

  /** The first configured keyword the message matches as a command. */
  function MatchKeyword(text: string, keywords: seq<string>, clean: char -> string): Option<string> {
    var normalised := Normalise(text, clean);
    if normalised == "" then None else FirstMatch(normalised, keywords, clean)
  }

  function FirstMatch(normalised: string, keywords: seq<string>, clean: char -> string): Option<string> {
    if keywords == [] then None
    else
      var candidate := Normalise(keywords[0], clean);
      if candidate == "" then FirstMatch(normalised, keywords[1..], clean)
      else if normalised == candidate then Some(keywords[0])
      else if |Words(normalised)| <= MAX_OPTOUT_WORDS && Matches(normalised, candidate) then Some(keywords[0])
      else FirstMatch(normalised, keywords[1..], clean)
  }

  /** A handover keyword may stand anywhere in a message of any length. */
  function DetectHandover(text: string, keywords: seq<string>, clean: char -> string): Option<string> {
    var normalised := Normalise(text, clean);
    if normalised == "" then None else FirstContained(normalised, keywords, clean)
  }

  function FirstContained(normalised: string, keywords: seq<string>, clean: char -> string): Option<string> {
    if keywords == [] then None
    else
      var candidate := Normalise(keywords[0], clean);
      if candidate != "" && Matches(normalised, candidate) then Some(keywords[0])
      else FirstContained(normalised, keywords[1..], clean)
  }

  // ------------------------------------------------------------------ matching is containment of word lists

  /** `ks` is a contiguous part of `ws`. */
  ghost predicate Sublist(ks: seq<string>, ws: seq<string>) {
    exists u, v :: ws == u + ks + v
  }

  lemma NothingInNone(ks: seq<string>)
    ensures Sublist(ks, []) ==> ks == []
  {
    if Sublist(ks, []) {
      var u, v :| [] == u + ks + v;
      assert |u + ks + v| == |u| + |ks| + |v|;
    }
  }

  lemma {:induction false} JoinIsEmptyOnlyForNone(ws: seq<string>)
    requires AllWords(ws)
    ensures JoinWith(ws, " ") == "" <==> ws == []
  {
  }

  /** On joined words the boundary pattern matches exactly when the keyword's words stand together, in
      order, in the message. */
  lemma MatchIsContainment(ws: seq<string>, ks: seq<string>)
    requires AllWords(ws) && AllWords(ks) && ks != []
    ensures Matches(JoinWith(ws, " "), JoinWith(ks, " ")) <==> Sublist(ks, ws)
  {
    var text, candidate := JoinWith(ws, " "), JoinWith(ks, " ");
    if Matches(text, candidate) {
      var i :| 0 <= i <= |text| - |candidate| && MatchesAt(text, candidate, i);
      MatchSplitsWords(ws, ks, i);
    }
    if Sublist(ks, ws) {
      var u, v :| ws == u + ks + v;
      SublistMatches(u, ks, v);
    }
  }

  lemma MatchSplitsWords(ws: seq<string>, ks: seq<string>, i: nat)
    requires AllWords(ws) && AllWords(ks) && ks != []
    requires i <= |JoinWith(ws, " ")| - |JoinWith(ks, " ")| && MatchesAt(JoinWith(ws, " "), JoinWith(ks, " "), i)
    ensures Sublist(ks, ws)
  {
    hide JoinWith, Words;
    var text, candidate := JoinWith(ws, " "), JoinWith(ks, " ");
    var end := i + |candidate|;
    var before, after := text[..i], text[end..];
    assert text == before + (candidate + after);
    WordsOfJoin(ws);
    WordsOfJoin(ks);
    WordsCat(candidate, after);
    WordsCat(before, candidate + after);
    assert ws == Words(before) + ks + Words(after);
  }

  lemma SublistMatches(u: seq<string>, ks: seq<string>, v: seq<string>)
    requires ks != []
    ensures Matches(JoinWith(u + ks + v, " "), JoinWith(ks, " "))
  {
    hide JoinWith;
    var candidate := JoinWith(ks, " ");
    var tail := if v == [] then "" else " " + JoinWith(v, " ");
    var head := if u == [] then "" else JoinWith(u, " ") + " ";
    assert JoinWith(ks + v, " ") == candidate + tail by {
      if v == [] { assert ks + v == ks; } else { JoinCat(ks, v, " "); Assoc3(candidate, " ", JoinWith(v, " ")); }
    }
    assert JoinWith(u + ks + v, " ") == head + (candidate + tail) by {
      assert u + ks + v == u + (ks + v);
      if u == [] { assert u + (ks + v) == ks + v; } else { JoinCat(u, ks + v, " "); }
    }
    BoundedMatch(head, candidate, tail);
  }

  lemma BoundedMatch(head: string, candidate: string, tail: string)
    requires head == "" || IsSpace(head[|head|-1])
    requires tail == "" || IsSpace(tail[0])
    ensures Matches(head + (candidate + tail), candidate)
  {
    assert MatchesAt(head + (candidate + tail), candidate, |head|);
  }

  // ------------------------------------------------------------------ when a command fires

  /** The message is the keyword, or is short and contains it, word for word. */
  ghost predicate Fires(text: string, keyword: string, clean: char -> string) {
    var ws, ks := WordList(text, clean), WordList(keyword, clean);
    ks != [] && (ws == ks || (|ws| <= MAX_OPTOUT_WORDS && Sublist(ks, ws)))
  }

  /** `n` is the position of the first keyword that fires, or the number of keywords. */
  ghost predicate FirstFiring(text: string, keywords: seq<string>, clean: char -> string, n: nat) {
    && n <= |keywords|
    && (forall i | 0 <= i < n :: !Fires(text, keywords[i], clean))
    && (n < |keywords| ==> Fires(text, keywords[n], clean))
  }

  /** Opt-out and opt-in return the first keyword that fires, and nothing exactly when none does. */
  lemma CommandFiresExactlyWhen(text: string, keywords: seq<string>, clean: char -> string)
    ensures exists n: nat :: FirstFiring(text, keywords, clean, n) &&
              MatchKeyword(text, keywords, clean) == if n < |keywords| then Some(keywords[n]) else None
  {
    var ws := WordList(text, clean);
    WordsAreWords(Clean(text, clean));
    JoinIsEmptyOnlyForNone(ws);
    if ws == [] {
      forall k ensures !Fires(text, k, clean) { NothingInNone(WordList(k, clean)); }
      assert FirstFiring(text, keywords, clean, |keywords|);
    } else {
      var n := FirstMatchFires(text, keywords, clean);
      assert FirstFiring(text, keywords, clean, n);
    }
  }

  lemma {:induction false} FirstMatchFires(text: string, keywords: seq<string>, clean: char -> string) returns (n: nat)
    requires WordList(text, clean) != []
    ensures FirstFiring(text, keywords, clean, n)
    ensures FirstMatch(Normalise(text, clean), keywords, clean) == if n < |keywords| then Some(keywords[n]) else None
    decreases |keywords|
  {
    n := 0;
    if keywords != [] {
      KeywordFires(text, keywords[0], clean);
      if !Fires(text, keywords[0], clean) {
        n := FirstMatchFires(text, keywords[1..], clean);
        n := n + 1;
        assert forall i | 1 <= i < |keywords| :: keywords[i] == keywords[1..][i-1];
      }
    }
  }

  /** The test made for one keyword is the word-list condition. */
  lemma KeywordFires(text: string, keyword: string, clean: char -> string)
    ensures var normalised, candidate := Normalise(text, clean), Normalise(keyword, clean);
            Fires(text, keyword, clean) <==>
              candidate != "" &&
              (normalised == candidate || (|Words(normalised)| <= MAX_OPTOUT_WORDS && Matches(normalised, candidate)))
    ensures Normalise(keyword, clean) != "" && Matches(Normalise(text, clean), Normalise(keyword, clean)) <==>
              WordList(keyword, clean) != [] && Sublist(WordList(keyword, clean), WordList(text, clean))
  {
    var ws, ks := WordList(text, clean), WordList(keyword, clean);
    WordsAreWords(Clean(text, clean));
    WordsAreWords(Clean(keyword, clean));
    JoinIsEmptyOnlyForNone(ks);
    WordsOfJoin(ws);
    WordsOfJoin(ks);
    if ks != [] { MatchIsContainment(ws, ks); }
  }

  /** A handover keyword is found exactly when its words stand together somewhere in the message. */
  lemma HandoverFiresExactlyWhen(text: string, keywords: seq<string>, clean: char -> string)
    ensures DetectHandover(text, keywords, clean).Some? <==>
      exists i | 0 <= i < |keywords| ::
        WordList(keywords[i], clean) != [] && Sublist(WordList(keywords[i], clean), WordList(text, clean))
  {
    var ws := WordList(text, clean);
    WordsAreWords(Clean(text, clean));
    JoinIsEmptyOnlyForNone(ws);
    if ws == [] {
      forall i | 0 <= i < |keywords| { NothingInNone(WordList(keywords[i], clean)); }
    } else {
      FirstContainedFires(text, keywords, clean);
    }
  }

  lemma {:induction false} FirstContainedFires(text: string, keywords: seq<string>, clean: char -> string)
    ensures FirstContained(Normalise(text, clean), keywords, clean).Some? <==>
      exists i | 0 <= i < |keywords| ::
        WordList(keywords[i], clean) != [] && Sublist(WordList(keywords[i], clean), WordList(text, clean))
    decreases |keywords|
  {
    if keywords != [] {
      KeywordFires(text, keywords[0], clean);
      FirstContainedFires(text, keywords[1..], clean);
      assert forall i | 1 <= i < |keywords| :: keywords[i] == keywords[1..][i-1];
    }
  }

  /** A message that cleaning does not change and that is a configured keyword fires it. */
  lemma KeywordItselfFires(keyword: string, clean: char -> string)
    requires (forall c :: clean(c) == [c]) && Words(keyword) != []
    ensures Fires(keyword, keyword, clean) && WordList(keyword, clean) == Words(keyword)
  {
    CleanOfPlain(keyword, clean);
  }

  lemma {:induction false} CleanOfPlain(text: string, clean: char -> string)
    requires forall c :: clean(c) == [c]
    ensures Clean(text, clean) == text
    decreases |text|
  {
    if text != "" { CleanOfPlain(text[1..], clean); }
  }

  /** Every command that fires is also found as a contained phrase; only length separates the two. */
  lemma FiringIsContainment(text: string, keyword: string, clean: char -> string)
    ensures Fires(text, keyword, clean) ==> Sublist(WordList(keyword, clean), WordList(text, clean))
  {
    var ws := WordList(text, clean);
    assert ws == [] + ws + [];
  }

  // ------------------------------------------------------------------ the order of the rules

  datatype Ruling = OptOutCommand | OptInCommand | HandoverRequest | NoRuling

  /** Opt-out first, then opt-in, then a request for a person. */
  function Classify(text: string, stops: seq<string>, optIns: seq<string>, handovers: seq<string>, clean: char -> string): Ruling {
    if text == "" then NoRuling
    else if MatchKeyword(text, stops, clean).Some? then OptOutCommand
    else if MatchKeyword(text, optIns, clean).Some? then OptInCommand
    else if DetectHandover(text, handovers, clean).Some? then HandoverRequest
    else NoRuling
  }

  ghost predicate AnyFires(text: string, keywords: seq<string>, clean: char -> string) {
    exists i | 0 <= i < |keywords| :: Fires(text, keywords[i], clean)
  }

  ghost predicate AnyContained(text: string, keywords: seq<string>, clean: char -> string) {
    exists i | 0 <= i < |keywords| ::
      WordList(keywords[i], clean) != [] && Sublist(WordList(keywords[i], clean), WordList(text, clean))
  }

  lemma CommandMeansFires(text: string, keywords: seq<string>, clean: char -> string)
    ensures MatchKeyword(text, keywords, clean).Some? <==> AnyFires(text, keywords, clean)
  {
    hide MatchKeyword, Fires;
    CommandFiresExactlyWhen(text, keywords, clean);
    var n: nat :| FirstFiring(text, keywords, clean, n) &&
                  MatchKeyword(text, keywords, clean) == if n < |keywords| then Some(keywords[n]) else None;
  }

  /** An opt-out is never read as anything else, an opt-in gives way only to an opt-out, and a request for a person
      to both. */
  lemma ClassifyExactlyWhen(text: string, stops: seq<string>, optIns: seq<string>, handovers: seq<string>, clean: char -> string)
    ensures var ruling := Classify(text, stops, optIns, handovers, clean);
            && (ruling == OptOutCommand <==> AnyFires(text, stops, clean))
            && (ruling == OptInCommand <==> !AnyFires(text, stops, clean) && AnyFires(text, optIns, clean))
            && (ruling == HandoverRequest <==>
                  !AnyFires(text, stops, clean) && !AnyFires(text, optIns, clean) && AnyContained(text, handovers, clean))
  {
    hide MatchKeyword, DetectHandover, AnyFires, AnyContained;
    CommandMeansFires(text, stops, clean);
    CommandMeansFires(text, optIns, clean);
    HandoverMeansContained(text, handovers, clean);
    if text == "" { NothingInEmptyText(stops, optIns, handovers, clean); }
  }

  lemma HandoverMeansContained(text: string, keywords: seq<string>, clean: char -> string)
    ensures DetectHandover(text, keywords, clean).Some? <==> AnyContained(text, keywords, clean)
  {
    HandoverFiresExactlyWhen(text, keywords, clean);
  }

  lemma NothingInEmptyText(stops: seq<string>, optIns: seq<string>, handovers: seq<string>, clean: char -> string)
    ensures MatchKeyword("", stops, clean).None? && MatchKeyword("", optIns, clean).None?
    ensures DetectHandover("", handovers, clean).None?
  {
  }
}
