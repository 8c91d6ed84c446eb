/** The string operations of the source language that the text modules use: whitespace, strip, split, join,
    substring search. */
module Text {
  import opened Prelude

  /** `str.isspace` for one character. */
  predicate IsSpace(c: char) {
    var n := c as int;
    || 9 <= n <= 13 || 28 <= n <= 32 || n == 0x85 || n == 0xA0 || n == 0x1680 || 0x2000 <= n <= 0x200A
    || n == 0x2028 || n == 0x2029 || n == 0x202F || n == 0x205F || n == 0x3000
  }

  predicate AllSpace(s: string) { forall i | 0 <= i < |s| :: IsSpace(s[i]) }

  predicate NoSpace(s: string) { forall i | 0 <= i < |s| :: !IsSpace(s[i]) }

  function LStrip(s: string): string {
    if s != "" && IsSpace(s[0]) then LStrip(s[1..]) else s
  }

  function RStrip(s: string): string {
    if s != "" && IsSpace(s[|s|-1]) then RStrip(s[..|s|-1]) else s
  }

  function Strip(s: string): string { RStrip(LStrip(s)) }

  /** Neither the first nor the last character is whitespace. */
  predicate Stripped(s: string) { s == "" || (!IsSpace(s[0]) && !IsSpace(s[|s|-1])) }

  lemma Assoc3(a: string, b: string, c: string)
    ensures a + b + c == a + (b + c)
  {
  }

  // ------------------------------------------------------------------ strip

  /** What is stripped from the left is whitespace, and what is left starts with a visible character. */
  lemma {:induction false} LStripSplits(s: string)
    ensures var k := |s| - |LStrip(s)|;
            0 <= k && LStrip(s) == s[k..] && AllSpace(s[..k]) && (LStrip(s) != "" ==> !IsSpace(LStrip(s)[0]))
    decreases |s|
  {
    if s != "" && IsSpace(s[0]) {
      LStripSplits(s[1..]);
      var k := |s| - |LStrip(s)|;
      assert s[..k] == [s[0]] + s[1..][..k-1];
    }
  }

  lemma {:induction false} RStripSplits(s: string)
    ensures var k := |RStrip(s)|;
            k <= |s| && RStrip(s) == s[..k] && AllSpace(s[k..]) && (RStrip(s) != "" ==> !IsSpace(RStrip(s)[k-1]))
    decreases |s|
  {
    if s != "" && IsSpace(s[|s|-1]) {
      RStripSplits(s[..|s|-1]);
      var k := |RStrip(s)|;
      assert s[k..] == s[..|s|-1][k..] + [s[|s|-1]];
    }
  }

  /** Stripping cuts whitespace off both ends and nothing else. */
  lemma StripSplits(s: string)
    ensures var i := |s| - |LStrip(s)|; var j := i + |Strip(s)|;
            0 <= i <= j <= |s| && Strip(s) == s[i..j] && AllSpace(s[..i]) && AllSpace(s[j..]) && Stripped(Strip(s))
  {
    hide LStrip, RStrip;
    LStripSplits(s);
    RStripSplits(LStrip(s));
    var i := |s| - |LStrip(s)|;
    var j := i + |Strip(s)|;
    SliceOfSlice(s, i, |Strip(s)|);
  }

  /** Only blank text is stripped to nothing. */
  lemma StripIsBlank(s: string)
    ensures Strip(s) == "" <==> AllSpace(s)
  {
    hide Strip, LStrip, RStrip, IsSpace;
    StripSplits(s);
    var i := |s| - |LStrip(s)|;
    var j := i + |Strip(s)|;
    if Strip(s) == "" {
      forall k | 0 <= k < |s| ensures IsSpace(s[k]) {
        if k < i { assert s[k] == s[..i][k]; } else { assert s[k] == s[j..][k-j]; }
      }
    } else {
      assert Strip(s)[0] == s[i];
    }
  }

  lemma SliceOfSlice(s: string, i: nat, k: nat)
    requires i + k <= |s|
    ensures s[i..][..k] == s[i..i+k] && s[i..][k..] == s[i+k..]
  {
  }

  lemma {:induction false} StripSurrounded(a: string, s: string, b: string)
    requires AllSpace(a) && Stripped(s) && AllSpace(b) && (s == "" ==> b == "")
    ensures Strip(a + s + b) == s
  {
    assert a + s + b == a + (s + b);
    LStripPrefix(a, s + b);
    if s == "" {
      assert s + b == "";
      assert LStrip(a + (s + b)) == "";
    } else {
      assert (s + b)[0] == s[0];
      RStripSuffix(s, b);
    }
  }

  lemma {:induction false} LStripPrefix(a: string, s: string)
    requires AllSpace(a)
    ensures LStrip(a + s) == LStrip(s)
    decreases |a|
  {
    if a == "" {
      assert a + s == s;
    } else {
      assert (a + s)[1..] == a[1..] + s;
      LStripPrefix(a[1..], s);
    }
  }

  lemma {:induction false} RStripSuffix(s: string, b: string)
    requires AllSpace(b)
    ensures RStrip(s + b) == RStrip(s)
    decreases |b|
  {
    if b == "" {
      assert s + b == s;
    } else {
      assert (s + b)[..|s + b| - 1] == s + b[..|b|-1];
      RStripSuffix(s, b[..|b|-1]);
    }
  }

  lemma EmptyIsBlank()
    ensures AllSpace("") && Strip("") == ""
  {
  }

  lemma AllSpaceCat(a: string, b: string)
    requires AllSpace(a) && AllSpace(b)
    ensures AllSpace(a + b)
  {
  }

  lemma StripOfStripped(s: string)
    requires Stripped(s)
    ensures Strip(s) == s
  {
    StripSurrounded("", s, "");
    assert "" + s + "" == s;
  }

  /** The lines, stripped, without the blank ones. */
  function Tidy(lines: seq<string>): seq<string> {
    if lines == [] then []
    else (if Strip(lines[0]) == "" then [] else [Strip(lines[0])]) + Tidy(lines[1..])
  }

  lemma TidyCons(x: string, rest: seq<string>)
    ensures Tidy([x] + rest) == (if Strip(x) == "" then [] else [Strip(x)]) + Tidy(rest)
  {
    assert ([x] + rest)[1..] == rest;
  }

  /** Every line that is not blank is kept, in order and without the whitespace around it; blank lines go. */
  lemma {:induction false} TidyKeeps(a: seq<string>, x: string, b: seq<string>)
    ensures Tidy(a + [x] + b) == Tidy(a) + (if AllSpace(x) then [] else [Strip(x)]) + Tidy(b)
    decreases |a|
  {
    hide Strip;
    if a == [] {
      StripIsBlank(x);
      assert ([] + [x] + b)[1..] == b;
    } else {
      assert (a + [x] + b)[1..] == a[1..] + [x] + b;
      TidyKeeps(a[1..], x, b);
    }
  }

  /** `part` is a stretch of `whole`. */
  ghost predicate IsSlice(part: string, whole: string) { exists i, j | 0 <= i <= j <= |whole| :: part == whole[i..j] }

  ghost predicate SliceOfOne(part: string, wholes: seq<string>) {
    exists l | 0 <= l < |wholes| :: IsSlice(part, wholes[l])
  }

  /** Every tidied line is a stretch of one of the lines, so nothing inside a line changes. */
  lemma {:induction false} TidyAreSlices(lines: seq<string>)
    ensures forall k | 0 <= k < |Tidy(lines)| :: SliceOfOne(Tidy(lines)[k], lines)
    decreases |lines|
  {
    hide Strip, IsSlice;
    if lines != [] {
      TidyAreSlices(lines[1..]);
      StripIsSlice(lines[0]);
      var rest := Tidy(lines[1..]);
      forall k | 0 <= k < |rest| ensures SliceOfOne(rest[k], lines) {
        assert SliceOfOne(rest[k], lines[1..]);
        var l :| 0 <= l < |lines[1..]| && IsSlice(rest[k], lines[1..][l]);
        assert lines[1..][l] == lines[l+1];
      }
      assert SliceOfOne(Strip(lines[0]), lines);
    }
  }

  lemma StripIsSlice(s: string)
    ensures IsSlice(Strip(s), s)
  {
    StripSplits(s);
  }

  /** The parts with the gaps between them; with as many gaps as parts the last one comes at the end. */
  function Interleaved(parts: seq<string>, gaps: seq<string>): string {
    if parts == [] then ""
    else parts[0] + if gaps == [] then "" else gaps[0] + Interleaved(parts[1..], gaps[1..])
  }

  // ------------------------------------------------------------------ words

  /** How many characters before the first whitespace. */
  function WordLength(s: string): (n: nat)
    ensures n <= |s|
  {
    if s == "" || IsSpace(s[0]) then 0 else 1 + WordLength(s[1..])
  }

  /** `str.split()`: the maximal runs of visible characters. */
  function Words(s: string): seq<string>
    decreases |s|
  {
    if s == "" then []
    else if IsSpace(s[0]) then Words(s[1..])
    else [s[..WordLength(s)]] + Words(s[WordLength(s)..])
  }

  predicate IsWord(w: string) { w != "" && NoSpace(w) }

  predicate AllWords(ws: seq<string>) { forall i | 0 <= i < |ws| :: IsWord(ws[i]) }

  function JoinWith(ws: seq<string>, sep: string): string {
    if ws == [] then "" else if |ws| == 1 then ws[0] else ws[0] + sep + JoinWith(ws[1..], sep)
  }

  lemma {:induction false} WordLengthSplits(s: string)
    ensures var n := WordLength(s);
            NoSpace(s[..n]) && (n < |s| ==> IsSpace(s[n]))
    decreases |s|
  {
    if s != "" && !IsSpace(s[0]) {
      WordLengthSplits(s[1..]);
      var n := WordLength(s);
      assert s[..n] == [s[0]] + s[1..][..n-1];
    }
  }

  lemma {:induction false} WordLengthIs(s: string, n: nat)
    requires n <= |s| && NoSpace(s[..n]) && (n < |s| ==> IsSpace(s[n]))
    ensures WordLength(s) == n
    decreases |s|
  {
    if n > 0 {
      assert s[..n][0] == s[0];
      assert s[1..][..n-1] == s[..n][1..];
      WordLengthIs(s[1..], n - 1);
    }
  }

  lemma {:induction false} WordsAreWords(s: string)
    ensures AllWords(Words(s))
    decreases |s|
  {
    if s != "" {
      if IsSpace(s[0]) {
        WordsAreWords(s[1..]);
      } else {
        WordLengthSplits(s);
        WordsAreWords(s[WordLength(s)..]);
      }
    }
  }

  /** Splitting commutes with concatenation wherever a word does not run across the seam. */
  lemma {:induction false} WordsCat(a: string, b: string)
    requires a == "" || b == "" || IsSpace(a[|a|-1]) || IsSpace(b[0])
    ensures Words(a + b) == Words(a) + Words(b)
    decreases |a|
  {
    hide IsSpace, WordLength;
    if a == "" {
      assert a + b == b;
    } else if IsSpace(a[0]) {
      assert (a + b)[1..] == a[1..] + b;
      WordsCat(a[1..], b);
    } else {
      var n := WordLength(a);
      WordLengthSplits(a);
      assert (a + b)[..n] == a[..n];
      assert (a + b)[n..] == a[n..] + b;
      WordLengthIs(a + b, n);
      WordsCat(a[n..], b);
      assert [a[..n]] + (Words(a[n..]) + Words(b)) == [a[..n]] + Words(a[n..]) + Words(b);
    }
  }

  lemma WordsOfWord(w: string)
    requires IsWord(w)
    ensures Words(w) == [w]
  {
    WordLengthIs(w, |w|);
    assert w[..|w|] == w && w[|w|..] == "";
  }

  /** Joining words with spaces and splitting again gives the words back. */
  lemma {:induction false} WordsOfJoin(ws: seq<string>)
    requires AllWords(ws)
    ensures Words(JoinWith(ws, " ")) == ws
    decreases |ws|
  {
    if |ws| == 1 {
      WordsOfWord(ws[0]);
    } else if |ws| > 1 {
      var rest := JoinWith(ws[1..], " ");
      WordsOfJoin(ws[1..]);
      WordsOfWord(ws[0]);
      WordsCat(ws[0], " " + rest);
      assert (" " + rest)[1..] == rest;
      assert ws[0] + " " + rest == ws[0] + (" " + rest);
    }
  }

  lemma {:induction false} WordsOfSpace(s: string)
    requires AllSpace(s)
    ensures Words(s) == []
    decreases |s|
  {
    if s != "" { WordsOfSpace(s[1..]); }
  }

  lemma WordsAround(a: string, gap: string, b: string)
    requires gap != "" && AllSpace(gap)
    ensures Words(a + (gap + b)) == Words(a) + Words(b)
  {
    hide Words;
    assert IsSpace(gap[0]) && IsSpace(gap[|gap|-1]);
    WordsCat(a, gap + b);
    WordsCat(gap, b);
    WordsOfSpace(gap);
  }

  /** Whitespace between two parts of a text separates their words. */
  lemma WordsThreeParts(s: string, n: nat, m: nat)
    requires n < m <= |s| && AllSpace(s[n..m])
    ensures Words(s) == Words(s[..n]) + Words(s[m..])
  {
    hide Words, AllSpace;
    assert s == s[..n] + (s[n..m] + s[m..]);
    WordsAround(s[..n], s[n..m], s[m..]);
  }

  lemma WordsOfStrip(s: string)
    ensures Words(Strip(s)) == Words(s)
  {
    hide Words, Strip, LStrip, IsSpace;
    StripSplits(s);
    var i := |s| - |LStrip(s)|;
    var j := i + |Strip(s)|;
    var a, x, b := s[..i], s[i..j], s[j..];
    assert s == a + (x + b);
    WordsOfSpace(a);
    WordsOfSpace(b);
    WordsCat(a, x + b);
    WordsCat(x, b);
    assert Words(x) + [] == Words(x);
  }

  function WordsOfAll(parts: seq<string>): seq<string> {
    if parts == [] then [] else Words(parts[0]) + WordsOfAll(parts[1..])
  }

  lemma {:induction false} JoinCat(a: seq<string>, b: seq<string>, sep: string)
    requires a != [] && b != []
    ensures JoinWith(a + b, sep) == JoinWith(a, sep) + sep + JoinWith(b, sep)
    decreases |a|
  {
    assert (a + b)[1..] == a[1..] + b;
    if |a| > 1 {
      JoinCat(a[1..], b, sep);
      var x, y, z := a[0], JoinWith(a[1..], sep), JoinWith(b, sep);
      assert x + sep + (y + sep + z) == x + sep + y + sep + z;
    } else {
      assert a[1..] + b == b;
    }
  }

  lemma JoinCons(first: string, rest: seq<string>, sep: string)
    ensures JoinWith([first] + rest, sep) == if rest == [] then first else first + sep + JoinWith(rest, sep)
  {
    assert ([first] + rest)[1..] == rest;
  }

  // ------------------------------------------------------------------ visible text

  /** The characters of a text that are not whitespace, in order. */
  function Visible(s: string): string {
    if s == "" then "" else (if IsSpace(s[0]) then "" else [s[0]]) + Visible(s[1..])
  }

  lemma {:induction false} VisibleCat(a: string, b: string)
    ensures Visible(a + b) == Visible(a) + Visible(b)
    decreases |a|
  {
    if a == "" {
      assert a + b == b;
    } else {
      assert (a + b)[1..] == a[1..] + b;
      VisibleCat(a[1..], b);
      Assoc3(if IsSpace(a[0]) then "" else [a[0]], Visible(a[1..]), Visible(b));
    }
  }

  lemma {:induction false} VisibleOfSpace(s: string)
    requires AllSpace(s)
    ensures Visible(s) == ""
    decreases |s|
  {
    if s != "" { VisibleOfSpace(s[1..]); }
  }

  lemma VisibleOfStrip(s: string)
    ensures Visible(Strip(s)) == Visible(s)
  {
    hide Visible, Strip, LStrip, RStrip;
    StripSplits(s);
    var i := |s| - |LStrip(s)|;
    var j := i + |Strip(s)|;
    assert s == s[..i] + (s[i..j] + s[j..]);
    VisibleCat(s[..i], s[i..j] + s[j..]);
    VisibleCat(s[i..j], s[j..]);
    VisibleOfSpace(s[..i]);
    VisibleOfSpace(s[j..]);
  }

  function VisibleOfAll(parts: seq<string>): string {
    if parts == [] then "" else Visible(parts[0]) + VisibleOfAll(parts[1..])
  }

  lemma VisibleThreeParts(s: string, n: nat, m: nat)
    requires n <= m <= |s| && AllSpace(s[n..m])
    ensures Visible(s) == Visible(s[..n]) + Visible(s[m..])
  {
    hide AllSpace, Visible;
    assert s == s[..n] + (s[n..m] + s[m..]);
    VisibleCat(s[..n], s[n..m] + s[m..]);
    VisibleCat(s[n..m], s[m..]);
    VisibleOfSpace(s[n..m]);
  }

  // ------------------------------------------------------------------ search

  predicate OccursAt(s: string, pat: string, i: int) {
    0 <= i && i + |pat| <= |s| && s[i..i+|pat|] == pat
  }

  ghost predicate Contains(s: string, pat: string) { exists i :: OccursAt(s, pat, i) }

  /** `str.find(pat, from)`. */
  function Find(s: string, pat: string, from: nat): Option<nat>
    decreases |s| - from
  {
    if from + |pat| > |s| then None
    else if s[from..from+|pat|] == pat then Some(from)
    else Find(s, pat, from + 1)
  }

  lemma {:induction false} FindIsFirst(s: string, pat: string, from: nat)
    ensures Find(s, pat, from).Some? ==>
              from <= Find(s, pat, from).value && OccursAt(s, pat, Find(s, pat, from).value)
    ensures forall i | from <= i && OccursAt(s, pat, i) ::
              Find(s, pat, from).Some? && Find(s, pat, from).value <= i
    decreases |s| - from
  {
    if from + |pat| <= |s| && s[from..from+|pat|] != pat {
      FindIsFirst(s, pat, from + 1);
    }
  }

  /** `str.rfind(pat)`, looking at positions below `below`. */
  function RFind(s: string, pat: string, below: nat): Option<nat> {
    if below == 0 then None
    else if OccursAt(s, pat, below - 1) then Some(below - 1)
    else RFind(s, pat, below - 1)
  }

  lemma {:induction false} RFindIsLast(s: string, pat: string, below: nat)
    ensures RFind(s, pat, below).Some? ==>
              RFind(s, pat, below).value < below && OccursAt(s, pat, RFind(s, pat, below).value)
    ensures forall i | 0 <= i < below && OccursAt(s, pat, i) ::
              RFind(s, pat, below).Some? && RFind(s, pat, below).value >= i
    decreases below
  {
    if below > 0 && !OccursAt(s, pat, below - 1) { RFindIsLast(s, pat, below - 1); }
  }
}
