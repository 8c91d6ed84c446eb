/** The string-aware brace scan that pulls a JSON object out of a model response.

    The scan is a three-variable automaton over characters.  Its partner is a small grammar of
    balanced text (`Body`): the scan started at an opening brace stops at `e` exactly when the slice
    up to `e` is one balanced object of that grammar.  The loops of the extraction are then specified
    by the grammar alone. */
module BraceScan {
  import opened Prelude

  /** What `json.loads` makes of a text: an exception, a value that is not an object, or an object. */
  datatype Loaded<+T> = Invalid | OtherValue | Object(value: T)

  // ------------------------------------------------------------------ the automaton

  datatype Scan = Scan(depth: int, inString: bool, escaped: bool)

  const SCAN_START := Scan(0, false, false)

  function Outside(depth: int): Scan { Scan(depth, false, false) }

  function Step(s: Scan, c: char): Scan {
    if s.inString then
      if s.escaped then s.(escaped := false)
      else if c == '\\' then s.(escaped := true)
      else if c == '"' then s.(inString := false)
      else s
    else if c == '"' then s.(inString := true)
    else if c == '{' then s.(depth := s.depth + 1)
    else if c == '}' then s.(depth := s.depth - 1)
    else s
  }

  /** Reading `c` brings the depth back to zero. */
  predicate Closes(s: Scan, c: char) {
    !s.inString && c == '}' && s.depth == 1
  }

  /** How many characters of `t` are read before the closing one, if the scan ever closes. */
  function Close(t: string, s: Scan): Option<nat> {
    if t == "" then None
    else if Closes(s, t[0]) then Some(0)
    else Later(1, Close(t[1..], Step(s, t[0])))
  }

  function Later(n: nat, at: Option<nat>): Option<nat> {
    match at
    case None => None
    case Some(k) => Some(n + k)
  }

  // ------------------------------------------------------------------ the grammar

  /** One item inside a quoted string: an ordinary character, or a backslash and what follows it. */
  datatype Piece = Raw(c: char) | Escape(c: char)

  /** Text in which braces outside quotes balance: plain characters, quoted strings and braced groups. */
  datatype Body =
    | End
    | Plain(c: char, rest: Body)
    | Quoted(pieces: seq<Piece>, rest: Body)
    | Braced(inner: Body, rest: Body)

  predicate ValidPieces(ps: seq<Piece>) {
    forall i | 0 <= i < |ps| :: ps[i].Raw? ==> ps[i].c != '"' && ps[i].c != '\\'
  }

  predicate ValidBody(b: Body) {
    match b
    case End => true
    case Plain(c, rest) => c != '"' && c != '{' && c != '}' && ValidBody(rest)
    case Quoted(ps, rest) => ValidPieces(ps) && ValidBody(rest)
    case Braced(inner, rest) => ValidBody(inner) && ValidBody(rest)
  }

  function PieceText(p: Piece): string {
    match p
    case Raw(c) => [c]
    case Escape(c) => ['\\', c]
  }

  function PiecesText(ps: seq<Piece>): string {
    if ps == [] then "" else PieceText(ps[0]) + PiecesText(ps[1..])
  }

  function BodyText(b: Body): string {
    match b
    case End => ""
    case Plain(c, rest) => [c] + BodyText(rest)
    case Quoted(ps, rest) => "\"" + PiecesText(ps) + "\"" + BodyText(rest)
    case Braced(inner, rest) => "{" + BodyText(inner) + "}" + BodyText(rest)
  }

  /** `s` is one balanced brace group. */
  ghost predicate Balanced(s: string) {
    exists b :: ValidBody(b) && s == "{" + BodyText(b) + "}"
  }

  // ------------------------------------------------------------------ grammar to automaton

  lemma CloseCons(c: char, t: string, s: Scan)
    ensures Close([c] + t, s) == if Closes(s, c) then Some(0) else Later(1, Close(t, Step(s, c)))
  {
    assert ([c] + t)[1..] == t;
  }

  lemma Assoc<A>(a: seq<A>, b: seq<A>, c: seq<A>)
    ensures a + b + c == a + (b + c)
  {
  }

  lemma {:induction false} CloseSkipsPieces(ps: seq<Piece>, rest: string, d: int)
    requires ValidPieces(ps)
    ensures Close(PiecesText(ps) + (['"'] + rest), Scan(d, true, false))
         == Later(|PiecesText(ps)| + 1, Close(rest, Outside(d)))
  {
    hide Close;
    var s := Scan(d, true, false);
    if ps == [] {
      assert PiecesText(ps) + (['"'] + rest) == ['"'] + rest;
      CloseCons('"', rest, s);
    } else {
      var more := PiecesText(ps[1..]);
      var tail := more + (['"'] + rest);
      assert PiecesText(ps) + (['"'] + rest) == PieceText(ps[0]) + tail by {
        Assoc(PieceText(ps[0]), more, ['"'] + rest);
      }
      CloseSkipsPieces(ps[1..], rest, d);
      match ps[0]
      case Raw(c) =>
        CloseCons(c, tail, s);
      case Escape(c) =>
        assert ['\\', c] + tail == ['\\'] + ([c] + tail);
        CloseCons('\\', [c] + tail, s);
        CloseCons(c, tail, Scan(d, true, true));
    }
  }

  /** Inside a brace group, a whole body is read without closing and leaves the automaton unchanged. */
  lemma {:induction false} CloseSkipsBody(b: Body, rest: string, d: int)
    requires ValidBody(b) && d >= 1
    ensures Close(BodyText(b) + rest, Outside(d)) == Later(|BodyText(b)|, Close(rest, Outside(d)))
  {
    hide Close;
    match b
    case End =>
      assert BodyText(b) + rest == rest;
    case Plain(c, r) =>
      var tail := BodyText(r) + rest;
      assert BodyText(b) + rest == [c] + tail;
      CloseCons(c, tail, Outside(d));
      CloseSkipsBody(r, rest, d);
    case Quoted(ps, r) =>
      var tail := BodyText(r) + rest;
      QuotedText(ps, r, rest);
      CloseCons('"', PiecesText(ps) + (['"'] + tail), Outside(d));
      CloseSkipsPieces(ps, tail, d);
      CloseSkipsBody(r, rest, d);
    case Braced(i, r) =>
      var tail := BodyText(r) + rest;
      BracedText(i, r, rest);
      CloseCons('{', BodyText(i) + (['}'] + tail), Outside(d));
      CloseSkipsBody(i, ['}'] + tail, d + 1);
      CloseCons('}', tail, Outside(d + 1));
      CloseSkipsBody(r, rest, d);
  }

  lemma QuotedText(ps: seq<Piece>, r: Body, rest: string)
    ensures BodyText(Quoted(ps, r)) + rest == ['"'] + (PiecesText(ps) + (['"'] + (BodyText(r) + rest)))
    ensures |BodyText(Quoted(ps, r))| == 2 + |PiecesText(ps)| + |BodyText(r)|
  {
    Assoc(['"'] + PiecesText(ps) + ['"'], BodyText(r), rest);
    Assoc(['"'] + PiecesText(ps), ['"'], BodyText(r) + rest);
    Assoc(['"'], PiecesText(ps), ['"'] + (BodyText(r) + rest));
  }

  lemma BracedText(i: Body, r: Body, rest: string)
    ensures BodyText(Braced(i, r)) + rest == ['{'] + (BodyText(i) + (['}'] + (BodyText(r) + rest)))
    ensures |BodyText(Braced(i, r))| == 2 + |BodyText(i)| + |BodyText(r)|
  {
    Assoc(['{'] + BodyText(i) + ['}'], BodyText(r), rest);
    Assoc(['{'] + BodyText(i), ['}'], BodyText(r) + rest);
    Assoc(['{'], BodyText(i), ['}'] + (BodyText(r) + rest));
  }

  // ------------------------------------------------------------------ automaton to grammar

  /** A scan that closes later than an open quote has read a string and come out of it. */
  lemma {:induction false} ReadString(t: string, d: int, n: nat) returns (ps: seq<Piece>, k: nat)
    requires Close(t, Scan(d, true, false)) == Some(n)
    ensures ValidPieces(ps) && k < |t| && k < n && t[..k] == PiecesText(ps) && t[k] == '"'
    ensures Close(t[k+1..], Outside(d)) == Some(n - k - 1)
    decreases |t|
  {
    hide Close;
    CloseHead(t, Scan(d, true, false));
    var tail := t[1..];
    if t[0] == '"' {
      ps, k := [], 0;
    } else if t[0] == '\\' {
      CloseHead(tail, Scan(d, true, true));
      var ps', k' := ReadString(tail[1..], d, n - 2);
      ps, k := [Escape(tail[0])] + ps', k' + 2;
      SplitTwo(t, k');
    } else {
      var ps', k' := ReadString(tail, d, n - 1);
      ps, k := [Raw(t[0])] + ps', k' + 1;
      SplitOne(t, k');
    }
  }

  lemma CloseHead(t: string, s: Scan)
    ensures Close(t, s) ==
      if t == "" then None else if Closes(s, t[0]) then Some(0) else Later(1, Close(t[1..], Step(s, t[0])))
  {
  }

  lemma SplitOne(t: string, k: nat)
    requires k < |t|
    ensures t[..k+1] == [t[0]] + t[1..][..k] && t[k+1..] == t[1..][k..]
    ensures k + 1 < |t| ==> t[k+1] == t[1..][k] && t[k+2..] == t[1..][k+1..]
  {
  }

  lemma SplitTwo(t: string, k: nat)
    requires k + 2 < |t|
    ensures t[..k+2] == [t[0], t[1]] + t[1..][1..][..k]
    ensures t[k+2] == t[1..][1..][k] && t[k+3..] == t[1..][1..][k+1..]
  {
  }

  /** The bodies of the groups still open, innermost first, each followed by its closing brace. */
  function Layers(bs: seq<Body>): string {
    if bs == [] then "" else BodyText(bs[0]) + "}" + Layers(bs[1..])
  }

  /** A scan at depth `d` that closes has read `d` bodies, one for each open group. */
  lemma {:induction false} ReadLayers(t: string, d: nat, n: nat) returns (bs: seq<Body>)
    requires d >= 1 && Close(t, Outside(d)) == Some(n)
    ensures n < |t| && |bs| == d && (forall i | 0 <= i < d :: ValidBody(bs[i])) && t[..n+1] == Layers(bs)
    decreases |t|
  {
    hide Close, PiecesText, BodyText, Layers;
    CloseHead(t, Outside(d));
    var c, tail := t[0], t[1..];
    if c == '}' && d == 1 {
      bs := [End];
      LayersEnd([]);
      assert [End] + [] == [End];
      SplitOne(t, 0);
    } else if c == '}' {
      var bs' := ReadLayers(tail, d - 1, n - 1);
      bs := [End] + bs';
      LayersEnd(bs');
      SplitOne(t, n);
    } else if c == '{' {
      var bs' := ReadLayers(tail, d + 1, n - 1);
      bs := [Braced(bs'[0], bs'[1])] + bs'[2..];
      LayersOpen(bs');
      SplitOne(t, n);
    } else if c == '"' {
      var ps, k := ReadString(tail, d, n - 1);
      var after := tail[k+1..];
      var bs' := ReadLayers(after, d, n - k - 2);
      bs := [Quoted(ps, bs'[0])] + bs'[1..];
      LayersQuote(ps, bs');
      SplitOne(t, n);
      SplitAt(tail, k, n);
    } else {
      var bs' := ReadLayers(tail, d, n - 1);
      bs := [Plain(c, bs'[0])] + bs'[1..];
      LayersPlain(c, bs');
      SplitOne(t, n);
    }
  }

  lemma SplitAt(t: string, k: nat, n: nat)
    requires k < n <= |t|
    ensures t[..n] == t[..k] + ([t[k]] + t[k+1..][..n-k-1])
  {
  }

  lemma LayersEnd(bs: seq<Body>)
    ensures Layers([End] + bs) == ['}'] + Layers(bs) && Layers([]) == ""
  {
    assert ([End] + bs)[1..] == bs;
  }

  lemma Regroup(x: string, y: string, z: string)
    ensures "{" + x + "}" + y + "}" + z == ['{'] + (x + "}" + (y + "}" + z))
  {
    assert "{" + x + "}" + y == ['{'] + (x + "}" + y);
    assert x + "}" + y + "}" + z == x + "}" + (y + "}" + z);
  }

  lemma LayersOpen(bs: seq<Body>)
    requires |bs| >= 2
    ensures Layers([Braced(bs[0], bs[1])] + bs[2..]) == ['{'] + Layers(bs)
  {
    var x, y, z := BodyText(bs[0]), BodyText(bs[1]), Layers(bs[2..]);
    assert Layers(bs) == x + "}" + (y + "}" + z) by {
      assert bs[1..][1..] == bs[2..];
    }
    assert Layers([Braced(bs[0], bs[1])] + bs[2..]) == "{" + x + "}" + y + "}" + z by {
      assert ([Braced(bs[0], bs[1])] + bs[2..])[1..] == bs[2..];
    }
    Regroup(x, y, z);
  }

  lemma LayersQuote(ps: seq<Piece>, bs: seq<Body>)
    requires bs != []
    ensures Layers([Quoted(ps, bs[0])] + bs[1..]) == ['"'] + (PiecesText(ps) + (['"'] + Layers(bs)))
  {
    var p, x, z := PiecesText(ps), BodyText(bs[0]), Layers(bs[1..]);
    assert ([Quoted(ps, bs[0])] + bs[1..])[1..] == bs[1..];
    Assoc(['"'] + p + ['"'] + x, "}", z);
    Assoc(['"'] + p + ['"'], x, "}" + z);
    Assoc(['"'] + p, ['"'], x + ("}" + z));
    Assoc(['"'], p, ['"'] + (x + ("}" + z)));
    Assoc(x, "}", z);
  }

  lemma LayersPlain(c: char, bs: seq<Body>)
    requires bs != []
    ensures Layers([Plain(c, bs[0])] + bs[1..]) == [c] + Layers(bs)
  {
    var x, z := BodyText(bs[0]), Layers(bs[1..]);
    assert ([Plain(c, bs[0])] + bs[1..])[1..] == bs[1..];
    assert [c] + x + "}" + z == [c] + (x + "}" + z);
  }

  // ------------------------------------------------------------------ agreement

  /** Started at an opening brace, the scan closes at `n` exactly when the text up to `n` is one
      balanced group; so the balanced group at a position is unique and is the shortest. */
  lemma ScanAgreesWithGrammar(t: string, n: nat)
    requires t != "" && t[0] == '{'
    ensures Close(t, SCAN_START) == Some(n) <==> n < |t| && Balanced(t[..n+1])
  {
    hide Close;
    var tail := t[1..];
    assert t == ['{'] + tail;
    CloseCons('{', tail, SCAN_START);
    if Close(t, SCAN_START) == Some(n) {
      var bs := ReadLayers(tail, 1, n - 1);
      assert bs == [bs[0]];
      assert t[..n+1] == "{" + tail[..n];
      assert "{" + (BodyText(bs[0]) + "}") == "{" + BodyText(bs[0]) + "}";
    }
    if n < |t| && Balanced(t[..n+1]) {
      BalancedCloses(t, n);
    }
  }

  lemma BalancedCloses(t: string, n: nat)
    requires n < |t| && Balanced(t[..n+1])
    ensures Close(t, SCAN_START) == Some(n)
  {
    hide Close;
    var b :| ValidBody(b) && t[..n+1] == "{" + BodyText(b) + "}";
    var text, rest := BodyText(b), t[n+1..];
    assert t == t[..n+1] + rest;
    Assoc(['{'] + text, ['}'], rest);
    Assoc(['{'], text, ['}'] + rest);
    CloseCons('{', text + (['}'] + rest), SCAN_START);
    CloseSkipsBody(b, ['}'] + rest, 1);
    CloseCons('}', rest, Outside(1));
  }

  /** No proper prefix of a balanced group is balanced. */
  lemma BalancedIsPrefixFree(t: string, m: nat, n: nat)
    requires m < |t| && n < |t| && Balanced(t[..m+1]) && Balanced(t[..n+1])
    ensures m == n
  {
    assert t[..m+1][0] == '{';
    ScanAgreesWithGrammar(t, m);
    ScanAgreesWithGrammar(t, n);
  }

  // ------------------------------------------------------------------ the extraction

  /** The slice from `p` to `e` is a balanced group that parses to an object. */
  ghost predicate ObjectSlice<T>(text: string, loads: string -> Loaded<T>, p: int, e: int) {
    0 <= p <= e < |text| && Balanced(text[p..e+1]) && loads(text[p..e+1]).Object?
  }

  /** `v` is the object parsed from the leftmost balanced slice that parses to one. */
  ghost predicate FirstObject<T>(text: string, loads: string -> Loaded<T>, v: T) {
    exists p, e ::
      && ObjectSlice(text, loads, p, e)
      && loads(text[p..e+1]) == Object(v)
      && (forall q, f :: ObjectSlice(text, loads, q, f) ==> p <= q)
  }

  /** The scan's verdict at one start position, in terms of slices. */
  lemma SlicesAt<T>(text: string, loads: string -> Loaded<T>, p: nat, e: int)
    requires p < |text| && text[p] == '{'
    ensures ObjectSlice(text, loads, p, e)
       <==> p <= e < |text| && Close(text[p..], SCAN_START) == Some(e - p) && loads(text[p..e+1]).Object?
  {
    if p <= e < |text| {
      ScanAgreesWithGrammar(text[p..], e - p);
      assert text[p..][..e-p+1] == text[p..e+1];
    }
  }

  lemma SliceStartsWithBrace<T>(text: string, loads: string -> Loaded<T>, p: int, e: int)
    requires ObjectSlice(text, loads, p, e)
    ensures text[p] == '{'
  {
    assert text[p..e+1][0] == text[p];
  }

  /** `str.find` for one character. */
  method FindChar(text: string, c: char, from: nat) returns (at: int)
    ensures at == -1 || from <= at < |text|
    ensures at != -1 ==> text[at] == c
    ensures forall i | from <= i < (if at == -1 then |text| else at) :: text[i] != c
  {
    at := from;
    while at < |text|
      invariant from <= at
      invariant forall i | from <= i < at && i < |text| :: text[i] != c
    {
      if text[at] == c { return; }
      at := at + 1;
    }
    at := -1;
  }

  /** The fallback: for each opening brace from the left, scan to where the depth returns to zero. */
  method ScanForObject<T>(cleaned: string, loads: string -> Loaded<T>) returns (r: Option<T>)
    ensures r.Some? ==> FirstObject(cleaned, loads, r.value)
    ensures r.None? ==> forall p, e :: !ObjectSlice(cleaned, loads, p, e)
  {
    hide Close;
    r := None;
    var start := FindChar(cleaned, '{', 0);
    forall q, f | ObjectSlice(cleaned, loads, q, f) ensures start != -1 && start <= q {
      SliceStartsWithBrace(cleaned, loads, q, f);
    }
    while start != -1
      invariant start == -1 || (0 <= start < |cleaned| && cleaned[start] == '{')
      invariant forall q, f :: ObjectSlice(cleaned, loads, q, f) ==> start != -1 && start <= q
      decreases if start == -1 then 0 else |cleaned| - start
    {
      var depth, inString, escaped := 0, false, false;
      var index := start;
      while index < |cleaned|
        invariant start <= index <= |cleaned|
        invariant Close(cleaned[start..], SCAN_START)
               == Later(index - start, Close(cleaned[index..], Scan(depth, inString, escaped)))
      {
        var ch := cleaned[index];
        assert cleaned[index..][1..] == cleaned[index+1..];
        CloseHead(cleaned[index..], Scan(depth, inString, escaped));
        if inString {
          if escaped { escaped := false; }
          else if ch == '\\' { escaped := true; }
          else if ch == '"' { inString := false; }
        } else if ch == '"' {
          inString := true;
        } else if ch == '{' {
          depth := depth + 1;
        } else if ch == '}' {
          depth := depth - 1;
          if depth == 0 {
            SlicesAt(cleaned, loads, start, index);
            var parsed := loads(cleaned[start..index+1]);
            if parsed.Object? {
              assert ObjectSlice(cleaned, loads, start, index);
              return Some(parsed.value);
            }
            break;
          }
        }
        index := index + 1;
      }
      CloseHead("", Scan(depth, inString, escaped));
      forall q, f | ObjectSlice(cleaned, loads, q, f) ensures q != start {
        if q == start { SlicesAt(cleaned, loads, start, f); }
      }
      ghost var before := start;
      start := FindChar(cleaned, '{', start + 1);
      forall q, f | ObjectSlice(cleaned, loads, q, f) ensures start != -1 && start <= q {
        SliceStartsWithBrace(cleaned, loads, q, f);
        assert before < q;
      }
    }
  }

  /** The whole extraction after reasoning blocks are stripped: the fenced part, then the whole text,
      then the scan of the whole text. */
  method ExtractJsonObject<T>(cleaned: string, fenced: Option<string>, loads: string -> Loaded<T>)
    returns (r: Option<T>)
    ensures cleaned == "" ==> r == None
    ensures cleaned != "" && fenced.Some? && loads(fenced.value).Object? ==> r == Some(loads(fenced.value).value)
    ensures cleaned != "" && !(fenced.Some? && loads(fenced.value).Object?) && loads(cleaned).Object?
         ==> r == Some(loads(cleaned).value)
    ensures cleaned != "" && !(fenced.Some? && loads(fenced.value).Object?) && !loads(cleaned).Object? ==>
              (r.Some? ==> FirstObject(cleaned, loads, r.value)) &&
              (r.None? ==> forall p, e :: !ObjectSlice(cleaned, loads, p, e))
  {
    if cleaned == "" { return None; }
    var candidates := if fenced.Some? then [fenced.value, cleaned] else [cleaned];
    var i := 0;
    while i < |candidates|
      invariant i <= |candidates|
      invariant forall k | 0 <= k < i :: !loads(candidates[k]).Object?
    {
      assert fenced.Some? ==> candidates[0] == fenced.value;
      var parsed := loads(candidates[i]);
      if parsed.Object? { return Some(parsed.value); }
      i := i + 1;
    }
    assert candidates[|candidates| - 1] == cleaned && (fenced.Some? ==> candidates[0] == fenced.value);
    r := ScanForObject(cleaned, loads);
  }
}
