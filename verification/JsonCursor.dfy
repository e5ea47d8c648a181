/** The recursive-descent parser as the source has it: one text, one cursor that every method
    moves in place.  A thrown exception is a Raised result. */
module JsonCursor {
  import opened JsonGrammar
  import opened JsonReader
  import opened JsonRoundTrip

  datatype Outcome<+T> = Ok(value: T) | Raised(error: Error)

  /** What parseObject makes of the members read onto the object o. */
  ghost function Folded(r: Reading<Members>, o: map<string, Json>): Reading<map<string, Json>> {
    match r
    case Failed(e) => Failed(e)
    case Got(ms, rest) => Got(ValueOfMembers(ms, o), rest)
  }

  lemma FoldedNext(t: string, o: map<string, Json>)
    ensures match ReadMember(t)
      case Failed(e) => Folded(ReadMembers(t), o) == Failed(e)
      case Got(m, u) =>
        var o' := Emplace(o, Decode(m.key), Value(m.value));
        Folded(ReadMembers(t), o) ==
          if u != "" && u[0] == ',' then Folded(ReadMembers(u[1..]), o')
          else match Expect(u, '}') case Failed(e) => Failed(e) case Got(_, rest) => Got(o', rest)
  {}

  /** What the parser is to make of a document read. */
  ghost function Evaluated(r: Reading<Doc>): Reading<Json> {
    match r
    case Failed(e) => Failed(e)
    case Got(d, rest) => Got(Value(d), rest)
  }

  ghost function Wrapped(r: Reading<map<string, Json>>): Reading<Json> {
    match r
    case Failed(e) => Failed(e)
    case Got(o, rest) => Got(Object(o), rest)
  }

  /** The outcome r, with rest left of the text, is the reading g. */
  ghost predicate Agrees<T>(r: Outcome<T>, rest: string, g: Reading<T>) {
    match g
    case Failed(e) => r == Raised(e)
    case Got(v, t) => r == Ok(v) && rest == t
  }

  lemma ObjectSteps(x: string)
    requires x != "" && x[0] == '{'
    ensures var t := Skip(x[1..]);
      Evaluated(ReadObject(x)) ==
        if t != "" && t[0] == '}' then Got(Object(map[]), t[1..])
        else Wrapped(Folded(ReadMembers(x[1..]), map[]))
  {}

  lemma DecodeCons(p: Piece, ps: seq<Piece>)
    ensures Decode([p] + ps) == [Decoded(p)] + Decode(ps)
  {}

  /** Behind its whitespace the text begins like null and ends too soon. */
  predicate CutShort(text: string) {
    var t := Skip(text);
    t != "" && t[0] == 'n' && |t| < 4
  }

  /** Any three characters behind an n will do for null, whatever follows. */
  lemma AnyThreeAreNull(ws: string, junk: string, rest: string)
    requires AllSpace(ws) && |junk| == 3
    ensures ReadValue(ws + (Print(NullDoc(junk)) + rest)) == Got(NullDoc(junk), rest)
  {
    ReadValueOf(ws, NullDoc(junk), rest);
  }

  lemma NopeIsNull()
    ensures ReadValue("nope") == Got(NullDoc("ope"), "") && Value(NullDoc("ope")) == Null
  {
    AnyThreeAreNull("", "ope", "");
    assert "" + (Print(NullDoc("ope")) + "") == "nope";
  }

  /** What is read of a text is a null cut short exactly when the text is. */
  lemma CutShortIsRead(text: string)
    ensures CutShort(text) <==>
      var r := ReadValue(text); r.Got? && r.value.NullDoc? && |r.value.junk| < 3
  {}

  class Parser {
    const s: string
    var pos: nat

    constructor (text: string)
      ensures s == text && pos == 0
    {
      s := text;
      pos := 0;
    }

    /** The text from the cursor on; nothing once the cursor has passed the end. */
    function Rest(): string
      reads this
    {
      if pos <= |s| then s[pos..] else ""
    }

    lemma RestDrops(n: nat)
      requires pos + n <= |s|
      ensures s[pos + n..] == Rest()[n..]
    {}

    method SkipWhitespace()
      modifies this
      ensures Rest() == Skip(old(Rest()))
      ensures pos == old(pos) + |Spaces(old(Rest()))|
      ensures old(pos) <= |s| ==> pos <= |s|
    {
      while pos < |s| && IsSpace(s[pos])
        invariant old(pos) <= pos
        invariant pos == old(pos) || pos <= |s|
        invariant |Spaces(old(Rest()))| == pos - old(pos) + |Spaces(Rest())|
        invariant Skip(old(Rest())) == Skip(Rest())
      {
        assert Rest()[1..] == s[pos + 1..];
        pos := pos + 1;
      }
    }

    /** The next character that is not whitespace, or NUL at the end. */
    method Peek() returns (c: char)
      modifies this
      ensures Rest() == Skip(old(Rest())) && pos == old(pos) + |Spaces(old(Rest()))|
      ensures old(pos) <= |s| ==> pos <= |s|
      ensures c == if Rest() == "" then '\0' else Rest()[0]
    {
      SkipWhitespace();
      c := if pos < |s| then s[pos] else '\0';
    }

    method ExpectChar(c: char) returns (r: Outcome<()>)
      modifies this
      ensures match Expect(old(Rest()), c)
        case Failed(e) => r == Raised(e)
        case Got(ws, rest) => r == Ok(()) && Rest() == rest && pos == old(pos) + |ws| + 1 <= |s|
    {
      SkipWhitespace();
      if pos >= |s| || s[pos] != c {
        return Raised(Expected(c));
      }
      assert Rest()[1..] == s[pos + 1..];
      pos := pos + 1;
      r := Ok(());
    }

    method ParseString() returns (r: Outcome<string>)
      modifies this
      ensures match ReadString(old(Rest()))
        case Failed(e) => r == Raised(e)
        case Got(ps, rest) => r == Ok(Decode(ps)) && Rest() == rest && old(pos) < pos <= |s|
    {
      var open := ExpectChar('"');
      if open.Raised? {
        return Raised(open.error);
      }
      var out := ParseCharacters();
      var close := ExpectChar('"');
      if close.Raised? {
        return Raised(close.error);
      }
      r := Ok(out);
    }

    /** The characters up to the closing quote or the end, escapes decoded. */
    method ParseCharacters() returns (out: string)
      requires pos <= |s|
      modifies this
      ensures out == Decode(ReadPieces(old(Rest())).0)
      ensures Rest() == ReadPieces(old(Rest())).1 && old(pos) <= pos <= |s|
    {
      out := "";
      ghost var whole, after := Decode(ReadPieces(Rest()).0), ReadPieces(Rest()).1;
      while pos < |s| && s[pos] != '"'
        invariant old(pos) <= pos <= |s|
        invariant out + Decode(ReadPieces(Rest()).0) == whole
        invariant ReadPieces(Rest()).1 == after
      {
        PiecesNext(Rest());
        var c := ParseCharacter();
        AppendCharacter(out, c, Decode(ReadPieces(Rest()).0));
        out := out + [c];
      }
      assert ReadPieces(Rest()) == ([], Rest());
    }

    /** One turn of that loop. */
    method ParseCharacter() returns (c: char)
      requires pos < |s|
      modifies this
      ensures (c, Rest()) == NextCharacter(old(Rest()))
      ensures old(pos) < pos <= |s|
    {
      RestDrops(1);
      c := s[pos];
      pos := pos + 1;
      if c == '\\' && pos < |s| {
        RestDrops(1);
        c := Unescape(s[pos]);
        pos := pos + 1;
      }
    }

    method Unescape(esc: char) returns (plain: char)
      ensures plain == Decoded(Escaped(esc))
    {
      match esc
      case 'n' => plain := '\n';
      case 't' => plain := '\t';
      case '"' => plain := '"';
      case '\\' => plain := '\\';
      case _ => plain := esc;
    }

    method ParseNumber() returns (r: Outcome<Json>)
      requires pos <= |s|
      modifies this
      ensures match ReadNumber(old(Rest()))
        case Failed(e) => r == Raised(e)
        case Got(d, rest) => r == Ok(Value(d)) && Rest() == rest && old(pos) < pos <= |s|
    {
      var start := pos;
      ghost var t := Rest();
      if pos < |s| && (s[pos] == '-' || s[pos] == '+') {
        pos := pos + 1;
      }
      while
        && pos < |s|
        && (IsDigit(s[pos]) || s[pos] == '.' || s[pos] == 'e' || s[pos] == 'E' || s[pos] == '-' || s[pos] == '+')
        invariant start <= pos <= |s|
        invariant AllNumber(s[start..pos])
      {
        assert s[start..pos + 1] == s[start..pos] + [s[pos]];
        pos := pos + 1;
      }
      var lexeme := s[start..pos];
      assert t == lexeme + Rest();
      LexemeIs(t, lexeme, Rest());
      if pos == start {
        return Raised(InvalidNumber);
      }
      if !Convertible(lexeme) {
        return Raised(NotConvertible);
      }
      r := Ok(Number(lexeme));
    }

    method ParseBool() returns (r: Outcome<Json>)
      requires pos <= |s|
      modifies this
      ensures match ReadBool(old(Rest()))
        case Failed(e) => r == Raised(e)
        case Got(d, rest) => r == Ok(Value(d)) && Rest() == rest && old(pos) < pos <= |s|
    {
      assert pos + 4 <= |s| ==> s[pos..pos + 4] == Rest()[..4];
      assert pos + 5 <= |s| ==> s[pos..pos + 5] == Rest()[..5];
      if pos + 4 <= |s| && s[pos..pos + 4] == "true" {
        RestDrops(4);
        pos := pos + 4;
        return Ok(Bool(true));
      }
      if pos + 5 <= |s| && s[pos..pos + 5] == "false" {
        RestDrops(5);
        pos := pos + 5;
        return Ok(Bool(false));
      }
      r := Raised(InvalidLiteral);
    }

    /** Exactly a null literal cut short takes the cursor past the end, to four characters
        behind its n. */
    method ParseValue() returns (r: Outcome<Json>)
      modifies this
      ensures Agrees(r, Rest(), Evaluated(ReadValue(old(Rest()))))
      ensures r.Ok? ==> old(pos) < pos <= |s| + 3
      ensures r.Ok? ==> (pos > |s| <==> CutShort(old(Rest())))
      ensures r.Ok? && pos > |s| ==> pos == |s| - |Skip(old(Rest()))| + 4
      decreases |Rest()|, 1
    {
      SkipWhitespace();
      if pos >= |s| {
        return Raised(UnexpectedEnd);
      }
      var c := s[pos];
      if c == '{' {
        r := ParseObject();
      } else if c == '"' {
        var str := ParseString();
        r := if str.Ok? then Ok(String(str.value)) else Raised(str.error);
      } else if c == 't' || c == 'f' {
        r := ParseBool();
      } else if c == 'n' {
        pos := pos + 4;
        r := Ok(Null);
      } else {
        r := ParseNumber();
      }
    }

    method ParseObject() returns (r: Outcome<Json>)
      requires pos < |s| && s[pos] == '{'
      modifies this
      ensures Agrees(r, Rest(), Evaluated(ReadObject(old(Rest()))))
      ensures r.Ok? ==> old(pos) < pos <= |s|
      decreases |Rest()|, 0
    {
      ObjectSteps(Rest());
      var v: map<string, Json> := map[];
      var open := ExpectChar('{');
      SkipKeepsMembers(Rest(), v);
      var c := Peek();
      if c == '}' {
        RestDrops(1);
        pos := pos + 1;
        return Ok(Object(v));
      }
      r := ParseMembers(v);
    }

    /** The loop of parseObject. */
    method ParseMembers(start: map<string, Json>) returns (r: Outcome<Json>)
      requires pos <= |s|
      modifies this
      ensures Agrees(r, Rest(), Wrapped(Folded(ReadMembers(old(Rest())), start)))
      ensures r.Ok? ==> old(pos) < pos <= |s|
      decreases |Rest()|, 3
    {
      ghost var goal := Wrapped(Folded(ReadMembers(Rest()), start));
      var v := start;
      while true
        invariant old(pos) <= pos <= |s|
        invariant Wrapped(Folded(ReadMembers(Rest()), v)) == goal
        decreases |Rest()|
      {
        FoldedNext(Rest(), v);
        var added := ParseMember(v);
        if added.Raised? {
          return Raised(added.error);
        }
        v := added.value;
        var more := ParseSeparator();
        if more.Raised? {
          return Raised(more.error);
        }
        if !more.value {
          return Ok(Object(v));
        }
      }
    }

    /** A comma, or else the closing brace. */
    method ParseSeparator() returns (r: Outcome<bool>)
      modifies this
      ensures var u := Skip(old(Rest()));
        if u != "" && u[0] == ',' then r == Ok(true) && Rest() == u[1..]
        else match Expect(u, '}') case Failed(e) => r == Raised(e) case Got(_, rest) => r == Ok(false) && Rest() == rest
      ensures r.Ok? ==> old(pos) < pos <= |s|
    {
      var c := Peek();
      if c == ',' {
        RestDrops(1);
        pos := pos + 1;
        return Ok(true);
      }
      var close := ExpectChar('}');
      r := if close.Ok? then Ok(false) else Raised(close.error);
    }

    /** The loop body of parseObject up to the look at the comma: key, colon, value, insert. */
    method ParseMember(v: map<string, Json>) returns (r: Outcome<map<string, Json>>)
      modifies this
      ensures match ReadMember(old(Rest()))
        case Failed(e) => r == Raised(e)
        case Got(m, rest) =>
          r == Ok(Emplace(v, Decode(m.key), Value(m.value))) && Rest() == rest && Skip(rest) == rest && old(pos) < pos
      decreases |Rest()|, 2
    {
      SkipWhitespace();
      var key := ParseString();
      if key.Raised? {
        return Raised(key.error);
      }
      var colon := ExpectChar(':');
      if colon.Raised? {
        return Raised(colon.error);
      }
      var val := ParseValue();
      if val.Raised? {
        return Raised(val.error);
      }
      SkipTwice(Rest());
      SkipWhitespace();
      r := Ok(Emplace(v, key.value, val.value));
    }
  }

  /** JsonValue::parse: one value; whatever follows it is not looked at. */
  method Parse(text: string) returns (r: Outcome<Json>)
    ensures match ReadValue(text)
      case Failed(e) => r == Raised(e)
      case Got(d, _) => r == Ok(Value(d))
  {
    var p := new Parser(text);
    r := p.ParseValue();
  }

  /** A document printed behind whitespace, in front of any text that does not continue a
      number, is parsed to its value, and the cursor stops exactly behind it. */
  method ParsePrinted(ws: string, d: Doc, rest: string) returns (r: Outcome<Json>, end: nat)
    requires AllSpace(ws) && WellFormed(d) && Delimited(d, rest)
    ensures r == Ok(Value(d)) && end == |ws| + |Print(d)|
  {
    var text := ws + (Print(d) + rest);
    ReadValueOf(ws, d, rest);
    var p := new Parser(text);
    assert p.Rest() == text;
    r := p.ParseValue();
    end := p.pos;
    assert p.Rest() == rest;
  }

  lemma LoneN(text: string)
    requires text == "n"
    ensures |Skip(text)| == |text| == 1 && CutShort(text) && Evaluated(ReadValue(text)) == Got(Null, "")
  {}

  /** A text that is one n: null is returned and the cursor is three past the end. */
  method ParseLoneN() returns (r: Outcome<Json>, end: nat)
    ensures r == Ok(Null) && end == 4
  {
    var p := new Parser("n");
    assert p.Rest() == p.s;
    LoneN(p.s);
    r := p.ParseValue();
    end := p.pos;
  }

  lemma AppendCharacter(out: string, c: char, tail: string)
    ensures out + ([c] + tail) == (out + [c]) + tail
  {}

  /** The character the string at the front of u goes on with, and what follows it. */
  function NextCharacter(u: string): (char, string)
    requires u != ""
  {
    if u[0] == '\\' && |u| > 1 then (Decoded(Escaped(u[1])), u[1..][1..]) else (u[0], u[1..])
  }

  lemma PiecesNext(u: string)
    requires u != "" && u[0] != '"'
    ensures var (c, t) := NextCharacter(u);
      && Decode(ReadPieces(u).0) == [c] + Decode(ReadPieces(t).0)
      && ReadPieces(u).1 == ReadPieces(t).1
  {
    if u[0] == '\\' && |u| > 1 {
      assert u[1..][1..] == u[2..];
      DecodeCons(Escaped(u[1]), ReadPieces(u[2..]).0);
    } else {
      DecodeCons(Raw(u[0]), ReadPieces(u[1..]).0);
    }
  }

  /** The longest run of number characters is what parseNumber converts. */
  lemma LexemeIs(t: string, lexeme: string, rest: string)
    requires t == lexeme + rest && AllNumber(lexeme) && (rest == "" || !IsNumberChar(rest[0]))
    ensures ReadNumber(t) ==
      if lexeme == "" then Failed(InvalidNumber)
      else if !Convertible(lexeme) then Failed(NotConvertible)
      else Got(NumberDoc(lexeme), rest)
  {
    NumberLenOf(lexeme, rest);
    PrefixOf(lexeme, rest);
  }

  lemma SkipTwice(t: string)
    ensures Skip(Skip(t)) == Skip(t)
  {}

  /** Whitespace before the first key changes the spelling, not the members. */
  lemma SkipKeepsMembers(t: string, o: map<string, Json>)
    ensures Folded(ReadMembers(Skip(t)), o) == Folded(ReadMembers(t), o)
  {
    SkipTwice(t);
    FoldedNext(t, o);
    FoldedNext(Skip(t), o);
  }
}
