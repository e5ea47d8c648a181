/** The JSON syntax character by character: which characters are whitespace, what an escape
    stands for, what a number is made of, and a whole text with its value. */
module JsonText {
  import opened JsonGrammar
  import opened JsonReader
  import opened JsonRoundTrip
  import opened JsonCursor

  // ---- Whitespace ----

  /** std::isspace in the C locale: space, and codes 9 to 13. */
  predicate Blank(c: char) {
    c as int == 32 || 9 <= c as int <= 13
  }

  predicate Blanks(ws: string) {
    forall i :: 0 <= i < |ws| ==> Blank(ws[i])
  }

  lemma SpacesAreBlanks(ws: string)
    ensures AllSpace(ws) <==> Blanks(ws)
  {}

  /** A blank in front changes nothing. */
  lemma BlankInFront(c: char, text: string)
    requires Blank(c)
    ensures ReadValue([c] + text) == ReadValue(text)
  {
    ReadValueSkips([c] + text);
    ReadValueSkips(text);
    assert ([c] + text)[1..] == text;
  }

  method ParseBehindBlank(c: char, text: string) returns (r: Outcome<Json>, same: Outcome<Json>)
    requires Blank(c)
    ensures r == same
  {
    BlankInFront(c, text);
    r := Parse(text);
    same := Parse([c] + text);
  }

  /** skipWhitespace passes the blanks in front of the cursor and no other character. */
  method SkipBlanks(p: Parser)
    requires p.pos <= |p.s|
    modifies p
    ensures old(p.pos) <= p.pos <= |p.s| && Blanks(p.s[old(p.pos)..p.pos])
    ensures p.pos < |p.s| ==> !Blank(p.s[p.pos])
  {
    ghost var t, from := p.Rest(), p.pos;
    SpacesThenSkip(t);
    p.SkipWhitespace();
    assert p.s[from..p.pos] == Spaces(t);
    SpacesAreBlanks(Spaces(t));
    assert p.pos < |p.s| ==> p.s[p.pos] == Skip(t)[0];
  }

  // ---- Whitespace between tokens ----

  /** The document written without whitespace. */
  function Tight(d: Doc): Doc {
    match d
    case EmptyDoc(_) => EmptyDoc("")
    case ObjectDoc(ms) => ObjectDoc(TightMembers(ms))
    case _ => d
  }

  function TightMembers(ms: Members): Members {
    match ms
    case Last(m) => Last(TightMember(m))
    case More(m, rest) => More(TightMember(m), TightMembers(rest))
  }

  function TightMember(m: Member): Member {
    Member("", m.key, "", "", Tight(m.value), "")
  }

  /** All its whitespace is made of blanks. */
  predicate BlankSpaced(d: Doc) {
    match d
    case EmptyDoc(ws) => Blanks(ws)
    case ObjectDoc(ms) => BlankSpacedMembers(ms)
    case _ => true
  }

  predicate BlankSpacedMembers(ms: Members) {
    BlankSpacedMember(ms.member) && (ms.More? ==> BlankSpacedMembers(ms.rest))
  }

  predicate BlankSpacedMember(m: Member) {
    && Blanks(m.beforeKey) && Blanks(m.beforeColon) && Blanks(m.beforeValue) && Blanks(m.afterValue)
    && BlankSpaced(m.value)
  }

  lemma {:induction false} SpacingKeepsDoc(d: Doc, e: Doc)
    requires WellFormed(d) && BlankSpaced(e) && Tight(d) == Tight(e)
    ensures WellFormed(e) && Value(e) == Value(d)
  {
    match e
    case EmptyDoc(ws) => SpacesAreBlanks(ws);
    case ObjectDoc(ms) => SpacingKeepsMembers(d.members, ms, map[]);
    case _ =>
  }

  lemma {:induction false} SpacingKeepsMembers(ms: Members, ns: Members, o: map<string, Json>)
    requires WellFormedMembers(ms) && BlankSpacedMembers(ns) && TightMembers(ms) == TightMembers(ns)
    ensures WellFormedMembers(ns) && ValueOfMembers(ns, o) == ValueOfMembers(ms, o)
  {
    SpacingKeepsMember(ms.member, ns.member);
    if ms.More? {
      SpacingKeepsMembers(ms.rest, ns.rest, Emplace(o, Decode(ms.member.key), Value(ms.member.value)));
    }
  }

  lemma {:induction false} SpacingKeepsMember(m: Member, n: Member)
    requires WellFormedMember(m) && BlankSpacedMember(n) && TightMember(m) == TightMember(n)
    ensures WellFormedMember(n) && n.key == m.key && Value(n.value) == Value(m.value)
  {
    SpacingKeepsDoc(m.value, n.value);
    SpacesAreBlanks(n.beforeKey);
    SpacesAreBlanks(n.beforeColon);
    SpacesAreBlanks(n.beforeValue);
    SpacesAreBlanks(n.afterValue);
  }

  /** Any blanks in front of a document and between any two of its tokens: the value parsed is
      the same. */
  method ParseRespaced(d: Doc, e: Doc, ws: string) returns (r: Outcome<Json>, same: Outcome<Json>)
    requires WellFormed(d) && BlankSpaced(e) && Tight(d) == Tight(e) && Blanks(ws)
    ensures r == same == Ok(Value(d))
  {
    SpacingKeepsDoc(d, e);
    SpacesAreBlanks(ws);
    var n;
    r, n := ParsePrinted("", d, "");
    same, n := ParsePrinted(ws, e, "");
  }

  // ---- Strings ----

  lemma PrintOne(p: Piece)
    ensures PrintPieces([p]) == Spell(p)
  {
    assert [p][1..] == [];
  }

  /** Behind a backslash n is a line feed and t a tab; every other character is itself. */
  lemma EscapeMeans(c: char)
    ensures ReadValue(['"', '\\', c, '"']) == Got(StringDoc([Escaped(c)]), "")
    ensures Value(StringDoc([Escaped(c)])) ==
      String([if c == 'n' then 10 as char else if c == 't' then 9 as char else c])
  {
    ReadPrintedString([Escaped(c)], "");
    PrintOne(Escaped(c));
    assert Print(StringDoc([Escaped(c)])) + "" == ['"', '\\', c, '"'];
  }

  lemma PlainMeans(c: char)
    requires c != '"' && c != '\\'
    ensures ReadValue(['"', c, '"']) == Got(StringDoc([Raw(c)]), "") && Value(StringDoc([Raw(c)])) == String([c])
  {
    ReadPrintedString([Raw(c)], "");
    PrintOne(Raw(c));
    assert Print(StringDoc([Raw(c)])) + "" == ['"', c, '"'];
  }

  // ---- Numbers and literals ----

  const NUMBER_CHARACTERS := "0123456789.eE+-"
  const DIGITS := "0123456789"

  lemma NumberCharacters(c: char)
    ensures IsNumberChar(c) <==> c in NUMBER_CHARACTERS
    ensures IsDigit(c) <==> c in DIGITS
  {}

  /** A digit, a point or sign and a digit, or a sign, a point and a digit. */
  predicate BeginsLikeANumber(lexeme: string) {
    || (|lexeme| >= 1 && lexeme[0] in DIGITS)
    || (|lexeme| >= 2 && lexeme[0] in "+-." && lexeme[1] in DIGITS)
    || (|lexeme| >= 3 && lexeme[0] in "+-" && lexeme[1] == '.' && lexeme[2] in DIGITS)
  }

  /** A run of number characters, up to the end or another character, is a number if it begins
      like one and an error otherwise. */
  lemma NumberMeans(lexeme: string, rest: string)
    requires lexeme != "" && forall i :: 0 <= i < |lexeme| ==> lexeme[i] in NUMBER_CHARACTERS
    requires rest == "" || rest[0] !in NUMBER_CHARACTERS
    ensures ReadValue(lexeme + rest) ==
      if BeginsLikeANumber(lexeme) then Got(NumberDoc(lexeme), rest) else Failed(NotConvertible)
  {
    AllNumberMeans(lexeme);
    if rest != "" {
      NumberCharacters(rest[0]);
    }
    ConvertibleMeans(lexeme);
    NumberCharactersBeginNumbers(lexeme[0]);
    NumberIsRead(lexeme + rest, lexeme[0]);
    LexemeIs(lexeme + rest, lexeme, rest);
  }

  lemma AllNumberMeans(lexeme: string)
    ensures AllNumber(lexeme) <==> forall i :: 0 <= i < |lexeme| ==> lexeme[i] in NUMBER_CHARACTERS
  {
    forall i | 0 <= i < |lexeme|
      ensures IsNumberChar(lexeme[i]) <==> lexeme[i] in NUMBER_CHARACTERS
    {
      NumberCharacters(lexeme[i]);
    }
  }

  lemma NumberCharactersBeginNumbers(c: char)
    requires IsNumberChar(c)
    ensures !IsSpace(c) && c != '{' && c != '"' && c != 't' && c != 'f' && c != 'n'
  {}

  lemma SkipNothing(t: string)
    requires t != "" && !IsSpace(t[0])
    ensures Skip(t) == t
  {}

  lemma NumberIsRead(t: string, c: char)
    requires t != "" && t[0] == c && !IsSpace(c) && c != '{' && c != '"' && c != 't' && c != 'f' && c != 'n'
    ensures ReadValue(t) == ReadNumber(t)
  {
    SkipNothing(t);
  }

  lemma ConvertibleMeans(lexeme: string)
    ensures Convertible(lexeme) <==> BeginsLikeANumber(lexeme)
  {}

  lemma LiteralsMean(rest: string)
    ensures ReadValue("true" + rest) == Got(BoolDoc(true), rest)
    ensures ReadValue("false" + rest) == Got(BoolDoc(false), rest)
  {
    ReadPrintedBool(true, rest);
    ReadPrintedBool(false, rest);
  }

  // ---- Errors ----

  /** The first thing wrong, and nothing read after it. */
  lemma ErrorsAre(rest: string)
    ensures ReadValue("") == Failed(UnexpectedEnd) && ReadValue("x" + rest) == Failed(InvalidNumber)
    ensures ReadValue("tr") == Failed(InvalidLiteral) && ReadValue("\"a") == Failed(Expected('"'))
  {
    assert ("x" + rest)[0] == 'x';
  }

  // ---- A text and its value ----

  /** Objects in objects, every kind of value, escapes, blanks and a key that comes twice. */
  function Text(): string {
    " " + ("{" + (
      "\n\"a\" : true" + "," + (
      "\t\"b\":{ \"c\":\"x\\n\\\"\" } " + "," + (
      " \"d\":-1.5e3" + "," + (
      "\"a\":false" + "," + (
      "\"e\":{\r}" + "," + (
      "\"f\":null" + "}")))))))
  }

  function A(): Member {
    Member("\n", [Raw('a')], " ", " ", BoolDoc(true), "")
  }

  function B(): Member {
    Member("\t", [Raw('b')], "", "", ObjectDoc(Last(C())), " ")
  }

  function C(): Member {
    Member(" ", [Raw('c')], "", "", StringDoc([Raw('x'), Escaped('n'), Escaped('"')]), " ")
  }

  function D(): Member {
    Member(" ", [Raw('d')], "", "", NumberDoc("-1.5e3"), "")
  }

  function A2(): Member {
    Member("", [Raw('a')], "", "", BoolDoc(false), "")
  }

  function E(): Member {
    Member("", [Raw('e')], "", "", EmptyDoc("\r"), "")
  }

  function F(): Member {
    Member("", [Raw('f')], "", "", NullDoc("ull"), "")
  }

  function BackMembers(): Members {
    More(D(), More(A2(), More(E(), Last(F()))))
  }

  function Written(): Members {
    More(A(), More(B(), BackMembers()))
  }

  lemma KeyPrinted(c: char)
    ensures PrintString([Raw(c)]) == ['"', c, '"'] && Decode([Raw(c)]) == [c]
  {
    PrintOne(Raw(c));
  }

  lemma StringPrinted(ps: seq<Piece>)
    requires ps == [Raw('x'), Escaped('n'), Escaped('"')]
    ensures PrintString(ps) == "\"x\\n\\\"\"" && Decode(ps) == "x\n\""
  {
    assert ps == [Raw('x')] + ([Escaped('n')] + [Escaped('"')]);
    PrintCons(Raw('x'), [Escaped('n')] + [Escaped('"')], "");
    PrintCons(Escaped('n'), [Escaped('"')], "");
    PrintOne(Escaped('"'));
  }

  lemma CPrinted()
    ensures PrintMembers(Last(C())) == " \"c\":\"x\\n\\\"\" }"
  {
    KeyPrinted('c');
    StringPrinted([Raw('x'), Escaped('n'), Escaped('"')]);
  }

  lemma APrinted()
    ensures PrintMember(A()) == "\n\"a\" : true"
  {
    KeyPrinted('a');
  }

  lemma BPrinted()
    ensures PrintMember(B()) == "\t\"b\":{ \"c\":\"x\\n\\\"\" } "
  {
    KeyPrinted('b');
    CPrinted();
  }

  lemma DAPrinted()
    ensures PrintMember(D()) == " \"d\":-1.5e3" && PrintMember(A2()) == "\"a\":false"
  {
    KeyPrinted('a');
    KeyPrinted('d');
  }

  lemma EFPrinted()
    ensures PrintMember(E()) == "\"e\":{\r}" && PrintMember(F()) == "\"f\":null"
  {
    KeyPrinted('e');
    KeyPrinted('f');
  }

  lemma TextIsPrinted()
    ensures Text() == " " + Print(ObjectDoc(Written()))
  {
    APrinted();
    BPrinted();
    DAPrinted();
    EFPrinted();
  }

  lemma WrittenIsGood()
    ensures WellFormed(ObjectDoc(Written()))
  {
    assert WellFormedMember(C());
    assert WellFormedMember(B());
    AllNumberMeans("-1.5e3");
    assert WellFormedMembers(BackMembers());
  }

  lemma WrittenMeans()
    ensures Value(ObjectDoc(Written())) == Object(map[
      "a" := Bool(true), "b" := Object(map["c" := String("x\n\"")]), "d" := Number("-1.5e3"),
      "e" := Object(map[]), "f" := Null])
  {
    KeyPrinted('a');
    KeyPrinted('b');
    KeyPrinted('c');
    KeyPrinted('d');
    KeyPrinted('e');
    KeyPrinted('f');
    StringPrinted([Raw('x'), Escaped('n'), Escaped('"')]);
    var b := Object(map["c" := String("x\n\"")]);
    assert Value(ObjectDoc(Last(C()))) == b;
    assert ValueOfMembers(Written(), map[]) == ValueOfMembers(BackMembers(), map["a" := Bool(true), "b" := b]);
  }

  method ParseText() returns (r: Outcome<Json>)
    ensures r == Ok(Object(map[
      "a" := Bool(true), "b" := Object(map["c" := String("x\n\"")]), "d" := Number("-1.5e3"),
      "e" := Object(map[]), "f" := Null]))
  {
    TextIsPrinted();
    WrittenIsGood();
    WrittenMeans();
    assert Print(ObjectDoc(Written())) + "" == Print(ObjectDoc(Written()));
    ReadValueOf(" ", ObjectDoc(Written()), "");
    r := Parse(Text());
  }
}
