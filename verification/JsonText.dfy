/** JSON texts as section 2 to 7 of RFC 8259 write them, with any insignificant whitespace and any
    choice of string escapes, and the agreement between that grammar and the brace scan. */
module JsonText {
  import opened BraceScan
  import opened Prelude

  /** One character of a JSON string as written: itself, a two-character escape, or a \u escape. */
  datatype Glyph = Unescaped(c: char) | Short(c: char) | Hex(h1: char, h2: char, h3: char, h4: char)

  /** A JSON text.  An atom is a number or one of the three literal names; each structural token keeps
      the whitespace around it. */
  datatype Json =
    | Atom(word: string)
    | Str(chars: seq<Glyph>)
    | Arr(space: string, elems: Elems)
    | Obj(space: string, members: Members)
  datatype Elems = NoElems | Elem(before: string, value: Json, after: string, rest: Elems)
  datatype Members =
    | NoMembers
    | Member(before: string, key: seq<Glyph>, colonBefore: string, colonAfter: string,
             value: Json, after: string, rest: Members)

  // ------------------------------------------------------------------ well-formed texts

  predicate IsBlank(s: string) {
    forall c | c in s :: c == ' ' || c == '\t' || c == '\n' || c == '\r'
  }

  predicate IsHexDigit(c: char) { '0' <= c <= '9' || 'a' <= c <= 'f' || 'A' <= c <= 'F' }

  predicate ValidGlyph(g: Glyph) {
    match g
    case Unescaped(c) => ' ' <= c && c != '"' && c != '\\'
    case Short(c) => c in "\"\\/bfnrt"
    case Hex(a, b, c, d) => IsHexDigit(a) && IsHexDigit(b) && IsHexDigit(c) && IsHexDigit(d)
  }

  /** Numbers, true, false and null are all spelled with these characters. */
  predicate ValidAtom(word: string) {
    word != "" && forall c | c in word ::
      'a' <= c <= 'z' || '0' <= c <= '9' || c == 'E' || c == '.' || c == '+' || c == '-'
  }

  predicate ValidGlyphs(gs: seq<Glyph>) { forall i | 0 <= i < |gs| :: ValidGlyph(gs[i]) }

  predicate ValidJson(j: Json) {
    match j
    case Atom(word) => ValidAtom(word)
    case Str(gs) => ValidGlyphs(gs)
    case Arr(space, elems) => IsBlank(space) && ValidElems(elems)
    case Obj(space, members) => IsBlank(space) && ValidMembers(members)
  }

  predicate ValidElems(es: Elems) {
    match es
    case NoElems => true
    case Elem(before, value, after, rest) =>
      IsBlank(before) && ValidJson(value) && IsBlank(after) && ValidElems(rest)
  }

  predicate ValidMembers(ms: Members) {
    match ms
    case NoMembers => true
    case Member(before, key, cb, ca, value, after, rest) =>
      IsBlank(before) && ValidGlyphs(key) && IsBlank(cb) && IsBlank(ca) &&
      ValidJson(value) && IsBlank(after) && ValidMembers(rest)
  }

  // ------------------------------------------------------------------ the printer

  function GlyphText(g: Glyph): string {
    match g
    case Unescaped(c) => [c]
    case Short(c) => ['\\', c]
    case Hex(a, b, c, d) => ['\\', 'u', a, b, c, d]
  }

  function GlyphsText(gs: seq<Glyph>): string {
    if gs == [] then "" else GlyphText(gs[0]) + GlyphsText(gs[1..])
  }

  function Print(j: Json): string {
    match j
    case Atom(word) => word
    case Str(gs) => "\"" + GlyphsText(gs) + "\""
    case Arr(space, elems) => "[" + space + PrintElems(elems) + "]"
    case Obj(space, members) => "{" + (space + PrintMembers(members)) + "}"
  }

  function PrintElems(es: Elems): string {
    match es
    case NoElems => ""
    case Elem(before, value, after, rest) =>
      before + (Print(value) + (after + ((if rest == NoElems then "" else ",") + PrintElems(rest))))
  }

  function PrintMembers(ms: Members): string {
    match ms
    case NoMembers => ""
    case Member(before, key, cb, ca, value, after, rest) =>
      before + (("\"" + GlyphsText(key) + "\"") + (cb + ":" + ca + (Print(value) +
        (after + ((if rest == NoMembers then "" else ",") + PrintMembers(rest))))))
  }

  // ------------------------------------------------------------------ every JSON text is a body

  function Append(a: Body, b: Body): Body {
    match a
    case End => b
    case Plain(c, r) => Plain(c, Append(r, b))
    case Quoted(ps, r) => Quoted(ps, Append(r, b))
    case Braced(i, r) => Braced(i, Append(r, b))
  }

  lemma {:induction false} AppendText(a: Body, b: Body)
    ensures BodyText(Append(a, b)) == BodyText(a) + BodyText(b)
    ensures ValidBody(a) && ValidBody(b) ==> ValidBody(Append(a, b))
  {
    match a
    case End =>
    case Plain(c, r) => AppendText(r, b);
    case Quoted(ps, r) => AppendText(r, b);
    case Braced(i, r) => AppendText(r, b);
  }

  /** `s` can stand anywhere inside a brace group. */
  ghost predicate Neutral(s: string) {
    exists b :: ValidBody(b) && s == BodyText(b)
  }

  lemma NeutralCat(s: string, t: string)
    requires Neutral(s) && Neutral(t)
    ensures Neutral(s + t)
  {
    var a :| ValidBody(a) && s == BodyText(a);
    var b :| ValidBody(b) && t == BodyText(b);
    AppendText(a, b);
  }

  lemma {:induction false} NeutralPlain(s: string)
    requires forall c | c in s :: c != '"' && c != '{' && c != '}'
    ensures Neutral(s)
  {
    if s == "" {
      assert s == BodyText(End);
    } else {
      assert forall c | c in s[1..] :: c in s;
      NeutralPlain(s[1..]);
      var b :| ValidBody(b) && s[1..] == BodyText(b);
      assert s[0] in s;
      assert s == BodyText(Plain(s[0], b));
    }
  }

  function Pieces(gs: seq<Glyph>): seq<Piece> {
    if gs == [] then []
    else
      (match gs[0]
       case Unescaped(c) => [Raw(c)]
       case Short(c) => [Escape(c)]
       case Hex(a, b, c, d) => [Escape('u'), Raw(a), Raw(b), Raw(c), Raw(d)]) + Pieces(gs[1..])
  }

  lemma {:induction false} PiecesCat(a: seq<Piece>, b: seq<Piece>)
    ensures PiecesText(a + b) == PiecesText(a) + PiecesText(b)
  {
    if a == [] {
      assert a + b == b;
    } else {
      PiecesCat(a[1..], b);
      assert (a + b)[1..] == a[1..] + b;
      Assoc(PieceText(a[0]), PiecesText(a[1..]), PiecesText(b));
    }
  }

  lemma {:induction false} GlyphsArePieces(gs: seq<Glyph>)
    requires ValidGlyphs(gs)
    ensures ValidPieces(Pieces(gs)) && PiecesText(Pieces(gs)) == GlyphsText(gs)
  {
    if gs != [] {
      GlyphsArePieces(gs[1..]);
      assert ValidGlyph(gs[0]);
      match gs[0]
      case Unescaped(c) =>
      case Short(c) =>
      case Hex(a, b, c, d) =>
        var first := [Escape('u'), Raw(a), Raw(b), Raw(c), Raw(d)];
        PiecesCat(first, Pieces(gs[1..]));
        HexPieces(a, b, c, d);
    }
  }

  lemma HexPieces(a: char, b: char, c: char, d: char)
    ensures PiecesText([Escape('u'), Raw(a), Raw(b), Raw(c), Raw(d)]) == ['\\', 'u', a, b, c, d]
  {
    var ps := [Escape('u'), Raw(a), Raw(b), Raw(c), Raw(d)];
    assert ps[1..] == [Raw(a), Raw(b), Raw(c), Raw(d)];
    assert ps[1..][1..] == [Raw(b), Raw(c), Raw(d)];
    assert ps[1..][1..][1..] == [Raw(c), Raw(d)];
    assert ps[1..][1..][1..][1..] == [Raw(d)];
    assert ps[1..][1..][1..][1..][1..] == [];
    assert PiecesText([Raw(d)]) == [d];
    assert PiecesText([Raw(c), Raw(d)]) == [c, d];
    assert PiecesText([Raw(b), Raw(c), Raw(d)]) == [b, c, d];
  }

  lemma NeutralQuoted(gs: seq<Glyph>)
    requires ValidGlyphs(gs)
    ensures Neutral("\"" + GlyphsText(gs) + "\"")
  {
    GlyphsArePieces(gs);
    var b := Quoted(Pieces(gs), End);
    assert ValidBody(b) && BodyText(b) == "\"" + GlyphsText(gs) + "\"";
  }

  lemma {:induction false} NeutralJson(j: Json)
    requires ValidJson(j)
    ensures Neutral(Print(j))
  {
    match j
    case Atom(word) => NeutralPlain(word);
    case Str(gs) => NeutralQuoted(gs);
    case Arr(space, elems) =>
      NeutralElems(elems);
      NeutralPlain("[" + space);
      NeutralPlain("]");
      NeutralCat("[" + space, PrintElems(elems));
      NeutralCat("[" + space + PrintElems(elems), "]");
    case Obj(space, members) =>
      ObjectIsBalanced(j);
      var b :| ValidBody(b) && Print(j) == "{" + BodyText(b) + "}";
      assert Print(j) == BodyText(Braced(b, End));
  }

  lemma {:induction false} NeutralElems(es: Elems)
    requires ValidElems(es)
    ensures Neutral(PrintElems(es))
  {
    match es
    case NoElems => NeutralPlain("");
    case Elem(before, value, after, rest) =>
      var comma := if rest == NoElems then "" else ",";
      NeutralElems(rest); NeutralJson(value);
      NeutralPlain(before); NeutralPlain(after); NeutralPlain(comma);
      NeutralCat(comma, PrintElems(rest));
      NeutralCat(after, comma + PrintElems(rest));
      NeutralCat(Print(value), after + (comma + PrintElems(rest)));
      NeutralCat(before, Print(value) + (after + (comma + PrintElems(rest))));
  }

  lemma {:induction false} NeutralMembers(ms: Members)
    requires ValidMembers(ms)
    ensures Neutral(PrintMembers(ms))
  {
    match ms
    case NoMembers => NeutralPlain("");
    case Member(before, key, cb, ca, value, after, rest) =>
      var comma := if rest == NoMembers then "" else ",";
      var tail := Print(value) + (after + (comma + PrintMembers(rest)));
      NeutralMembers(rest); NeutralJson(value); NeutralQuoted(key);
      NeutralPlain(before); NeutralPlain(after); NeutralPlain(comma); NeutralPlain(cb + ":" + ca);
      NeutralCat(comma, PrintMembers(rest));
      NeutralCat(after, comma + PrintMembers(rest));
      NeutralCat(Print(value), after + (comma + PrintMembers(rest)));
      NeutralCat(cb + ":" + ca, tail);
      NeutralCat("\"" + GlyphsText(key) + "\"", cb + ":" + ca + tail);
      NeutralCat(before, ("\"" + GlyphsText(key) + "\"") + (cb + ":" + ca + tail));
  }

  /** Whatever its strings contain, a printed object is one balanced brace group. */
  lemma {:induction false} ObjectIsBalanced(o: Json)
    requires o.Obj? && ValidJson(o)
    ensures Balanced(Print(o))
    decreases o, 0
  {
    NeutralMembers(o.members);
    NeutralPlain(o.space);
    NeutralCat(o.space, PrintMembers(o.members));
  }

  // ------------------------------------------------------------------ printer and scanner agree

  /** After any prose without an opening brace, the scan closes exactly on the object's last character,
      whatever follows. */
  lemma ScanStopsAtObjectEnd(prefix: string, o: Json, suffix: string)
    requires '{' !in prefix && o.Obj? && ValidJson(o)
    ensures var text := prefix + Print(o) + suffix;
            text[|prefix|] == '{' && Close(text[|prefix|..], SCAN_START) == Some(|Print(o)| - 1)
  {
    var text := prefix + Print(o) + suffix;
    ObjectIsBalanced(o);
    assert text[|prefix|..] == Print(o) + suffix;
    assert (Print(o) + suffix)[..|Print(o)|] == Print(o);
    BalancedCloses(Print(o) + suffix, |Print(o)| - 1);
  }

  /** The extraction's verdict on prose around a printed object is that object and no other. */
  lemma PrintedObjectIsExtracted<T>(prefix: string, o: Json, suffix: string, loads: string -> Loaded<T>, v: T)
    requires '{' !in prefix && o.Obj? && ValidJson(o)
    requires loads(Print(o)) == Object(v)
    ensures var text := prefix + Print(o) + suffix;
            && (forall w :: FirstObject(text, loads, w) <==> w == v)
            && ObjectSlice(text, loads, |prefix|, |prefix| + |Print(o)| - 1)
  {
    var text := prefix + Print(o) + suffix;
    var p, e := |prefix|, |prefix| + |Print(o)| - 1;
    ObjectIsBalanced(o);
    assert text[p..e+1] == Print(o);
    assert ObjectSlice(text, loads, p, e);
    forall q, f | ObjectSlice(text, loads, q, f) ensures p <= q && (q == p ==> f == e) {
      SliceStartsWithBrace(text, loads, q, f);
      if q == p {
        SlicesAt(text, loads, p, e);
        SlicesAt(text, loads, p, f);
      }
    }
    assert FirstObject(text, loads, v);
  }
}
