/** The language json_value.cpp reads: a subset of RFC 8259 (sections 4 and 7) without arrays
    or \u escapes, whose null literal is n and any three characters, as concrete syntax. */
module JsonGrammar {

  /** A parsed value.  A number is kept as its lexeme. */
  datatype Json =
    | Null
    | Bool(b: bool)
    | Number(lexeme: string)
    | String(s: string)
    | Object(members: map<string, Json>)

  /** A value as written, down to the whitespace and the spelling of strings. */
  datatype Doc =
    | NullDoc(junk: string)
    | BoolDoc(b: bool)
    | NumberDoc(lexeme: string)
    | StringDoc(pieces: seq<Piece>)
    | EmptyDoc(ws: string)
    | ObjectDoc(members: Members)

  /** One character of a string literal: itself, or behind a backslash. */
  datatype Piece = Raw(c: char) | Escaped(c: char)

  /** beforeKey "key" beforeColon : beforeValue value afterValue, then a comma or the brace. */
  datatype Members =
    | Last(member: Member)
    | More(member: Member, rest: Members)

  datatype Member = Member(
    beforeKey: string,
    key: seq<Piece>,
    beforeColon: string,
    beforeValue: string,
    value: Doc,
    afterValue: string)

  // ---- Characters ----

  predicate IsSpace(c: char) {
    c == ' ' || c == '\t' || c == '\n' || c == '\r' || c == '\U{0B}' || c == '\U{0C}'
  }

  predicate IsDigit(c: char) {
    '0' <= c <= '9'
  }

  predicate IsNumberChar(c: char) {
    IsDigit(c) || c == '.' || c == 'e' || c == 'E' || c == '-' || c == '+'
  }

  predicate AllSpace(s: string) {
    forall i :: 0 <= i < |s| ==> IsSpace(s[i])
  }

  predicate AllNumber(s: string) {
    forall i :: 0 <= i < |s| ==> IsNumberChar(s[i])
  }

  /** std::stod finds a number at the front: an optional sign, then a digit, or a point and a digit. */
  predicate Convertible(lexeme: string) {
    var body := if lexeme != "" && (lexeme[0] == '-' || lexeme[0] == '+') then lexeme[1..] else lexeme;
    || (|body| >= 1 && IsDigit(body[0]))
    || (|body| >= 2 && body[0] == '.' && IsDigit(body[1]))
  }

  // ---- Printing ----

  function Spell(p: Piece): string {
    match p
    case Raw(c) => [c]
    case Escaped(c) => ['\\', c]
  }

  function PrintPieces(ps: seq<Piece>): string {
    if ps == [] then "" else Spell(ps[0]) + PrintPieces(ps[1..])
  }

  function PrintString(ps: seq<Piece>): string {
    "\"" + PrintPieces(ps) + "\""
  }

  function Print(d: Doc): string {
    match d
    case NullDoc(junk) => "n" + junk
    case BoolDoc(b) => if b then "true" else "false"
    case NumberDoc(lexeme) => lexeme
    case StringDoc(ps) => PrintString(ps)
    case EmptyDoc(ws) => "{" + ws + "}"
    case ObjectDoc(ms) => "{" + PrintMembers(ms)
  }

  function PrintMembers(ms: Members): string {
    match ms
    case Last(m) => PrintMember(m) + "}"
    case More(m, rest) => PrintMember(m) + "," + PrintMembers(rest)
  }

  function PrintMember(m: Member): string {
    m.beforeKey + PrintString(m.key) + m.beforeColon + ":" + m.beforeValue + Print(m.value) + m.afterValue
  }

  // ---- Meaning ----

  function Decoded(p: Piece): char {
    match p
    case Raw(c) => c
    case Escaped(c) => if c == 'n' then '\n' else if c == 't' then '\t' else c
  }

  function Decode(ps: seq<Piece>): string {
    seq(|ps|, i requires 0 <= i < |ps| => Decoded(ps[i]))
  }

  function Value(d: Doc): Json {
    match d
    case NullDoc(_) => Null
    case BoolDoc(b) => Bool(b)
    case NumberDoc(lexeme) => Number(lexeme)
    case StringDoc(ps) => String(Decode(ps))
    case EmptyDoc(_) => Object(map[])
    case ObjectDoc(ms) => Object(ValueOfMembers(ms, map[]))
  }

  /** std::map::emplace: a key already present stays as it is. */
  function Emplace(o: map<string, Json>, key: string, v: Json): map<string, Json> {
    if key in o then o else o[key := v]
  }

  /** The members inserted into o from left to right. */
  function ValueOfMembers(ms: Members, o: map<string, Json>): map<string, Json> {
    match ms
    case Last(m) => Emplace(o, Decode(m.key), Value(m.value))
    case More(m, rest) => ValueOfMembers(rest, Emplace(o, Decode(m.key), Value(m.value)))
  }

  // ---- Well-formedness ----

  predicate GoodPieces(ps: seq<Piece>) {
    forall i :: 0 <= i < |ps| ==> (ps[i].Raw? ==> ps[i].c != '"' && ps[i].c != '\\')
  }

  predicate GoodLexeme(lexeme: string) {
    lexeme != "" && AllNumber(lexeme) && Convertible(lexeme)
  }

  predicate WellFormed(d: Doc) {
    match d
    case NullDoc(junk) => |junk| == 3
    case BoolDoc(_) => true
    case NumberDoc(lexeme) => GoodLexeme(lexeme)
    case StringDoc(ps) => GoodPieces(ps)
    case EmptyDoc(ws) => AllSpace(ws)
    case ObjectDoc(ms) => WellFormedMembers(ms)
  }

  predicate WellFormedMembers(ms: Members) {
    match ms
    case Last(m) => WellFormedMember(m)
    case More(m, rest) => WellFormedMember(m) && WellFormedMembers(rest)
  }

  predicate WellFormedMember(m: Member) {
    && AllSpace(m.beforeKey) && GoodPieces(m.key) && AllSpace(m.beforeColon)
    && AllSpace(m.beforeValue) && WellFormed(m.value) && AllSpace(m.afterValue)
  }

  // ---- First occurrence wins ----

  predicate HasKey(ms: Members, key: string) {
    Decode(ms.member.key) == key || (ms.More? && HasKey(ms.rest, key))
  }

  /** The value written behind the first occurrence of key. */
  function FirstValue(ms: Members, key: string): Doc
    requires HasKey(ms, key)
  {
    if Decode(ms.member.key) == key then ms.member.value else FirstValue(ms.rest, key)
  }

  /** An object's keys are the keys written in it, each mapped to its first occurrence. */
  lemma FirstOccurrenceWins(ms: Members, key: string)
    ensures var o := Value(ObjectDoc(ms)).members;
      && (key in o <==> HasKey(ms, key))
      && (key in o ==> o[key] == Value(FirstValue(ms, key)))
  {
    MembersOver(ms, map[], key);
  }

  lemma {:induction false} MembersOver(ms: Members, o: map<string, Json>, key: string)
    ensures var r := ValueOfMembers(ms, o);
      && (key in r <==> key in o || HasKey(ms, key))
      && (key in o ==> r[key] == o[key])
      && (key !in o && HasKey(ms, key) ==> r[key] == Value(FirstValue(ms, key)))
  {
    if ms.More? {
      MembersOver(ms.rest, Emplace(o, Decode(ms.member.key), Value(ms.member.value)), key);
    }
  }

  // ---- Every string can be written ----

  function Spelled(c: char): Piece {
    if c == '"' || c == '\\' then Escaped(c)
    else if c == '\n' then Escaped('n')
    else if c == '\t' then Escaped('t')
    else Raw(c)
  }

  function Encode(s: string): seq<Piece> {
    seq(|s|, i requires 0 <= i < |s| => Spelled(s[i]))
  }

  lemma EncodeDecodes(s: string)
    ensures GoodPieces(Encode(s)) && Decode(Encode(s)) == s
  {
    assert forall i :: 0 <= i < |s| ==> Decoded(Spelled(s[i])) == s[i];
  }
}
