/** The reader accepts a text with a given result exactly when the text is that document
    printed, behind whitespace and in front of what is left: parsing inverts printing, and
    nothing else is accepted. */
module JsonRoundTrip {
  import opened JsonGrammar
  import opened JsonReader

  /** A number swallows every number character behind it, so none may follow. */
  predicate Delimited(d: Doc, rest: string) {
    d.NumberDoc? ==> rest == "" || !IsNumberChar(rest[0])
  }

  /** Well-formed, or a null literal cut short by the end of the text. */
  predicate Fits(d: Doc, rest: string) {
    WellFormed(d) || (d.NullDoc? && |d.junk| < 3 && rest == "")
  }

  // ---- Printing then reading ----

  lemma {:induction false} SpacesOf(ws: string, t: string)
    requires AllSpace(ws) && (t == "" || !IsSpace(t[0]))
    ensures Spaces(ws + t) == ws && Skip(ws + t) == t
  {
    if ws == "" {
      assert ws + t == t;
    } else {
      assert (ws + t)[1..] == ws[1..] + t;
      SpacesOf(ws[1..], t);
    }
  }

  lemma {:induction false} NumberLenOf(l: string, t: string)
    requires AllNumber(l) && (t == "" || !IsNumberChar(t[0]))
    ensures NumberLen(l + t) == |l|
  {
    if l == "" {
      assert l + t == t;
    } else {
      assert (l + t)[1..] == l[1..] + t;
      NumberLenOf(l[1..], t);
    }
  }

  lemma ExpectOf(ws: string, c: char, t: string)
    requires AllSpace(ws) && !IsSpace(c)
    ensures Expect(ws + [c] + t, c) == Got(ws, t)
  {
    assert ws + [c] + t == ws + ([c] + t);
    SpacesOf(ws, [c] + t);
  }

  lemma PrintCons(p: Piece, ps: seq<Piece>, u: string)
    ensures PrintPieces([p] + ps) + u == Spell(p) + (PrintPieces(ps) + u)
    ensures GoodPieces([p] + ps) <==> GoodPieces([p]) && GoodPieces(ps)
  {
    assert ([p] + ps)[1..] == ps;
    assert forall i :: 0 <= i < |ps| ==> ps[i] == ([p] + ps)[i + 1];
  }

  lemma ReadOnePiece(p: Piece, t: string)
    requires GoodPieces([p])
    ensures ReadPieces(Spell(p) + t) == ([p] + ReadPieces(t).0, ReadPieces(t).1)
  {
    var s := Spell(p) + t;
    assert [p][0] == p;
    assert s[|Spell(p)|..] == t;
  }

  lemma {:induction false} ReadPiecesOf(ps: seq<Piece>, t: string)
    requires GoodPieces(ps) && t != "" && t[0] == '"'
    ensures ReadPieces(PrintPieces(ps) + t) == (ps, t)
  {
    if ps == [] {
      assert PrintPieces(ps) + t == t;
    } else {
      var p, rest := ps[0], ps[1..];
      assert ps == [p] + rest;
      PrintCons(p, rest, t);
      ReadPiecesOf(rest, t);
      ReadOnePiece(p, PrintPieces(rest) + t);
    }
  }

  lemma ReadStringOf(ps: seq<Piece>, t: string)
    requires GoodPieces(ps)
    ensures ReadString(PrintString(ps) + t) == Got(ps, t)
  {
    var inner := PrintPieces(ps) + ("\"" + t);
    assert PrintString(ps) + t == "" + ['"'] + inner;
    ExpectOf("", '"', inner);
    ReadPiecesOf(ps, "\"" + t);
    assert "\"" + t == "" + ['"'] + t;
    ExpectOf("", '"', t);
  }

  /** The first character of a printed document tells its kind. */
  lemma FirstCharacter(d: Doc, rest: string)
    requires Fits(d, rest)
    ensures Print(d) != ""
    ensures var c := Print(d)[0];
      && !IsSpace(c)
      && (c == '{' <==> d.EmptyDoc? || d.ObjectDoc?)
      && (c == '"' <==> d.StringDoc?)
      && (c == 't' || c == 'f' <==> d.BoolDoc?)
      && (c == 'n' <==> d.NullDoc?)
  {}

  lemma {:induction false} ReadValueOf(ws: string, d: Doc, rest: string)
    requires AllSpace(ws) && Fits(d, rest) && Delimited(d, rest)
    ensures ReadValue(ws + (Print(d) + rest)) == Got(d, rest)
    ensures Spaces(ws + (Print(d) + rest)) == ws
    decreases d, 1
  {
    FirstCharacter(d, rest);
    SpacesOf(ws, Print(d) + rest);
    ReadPrinted(d, rest);
    ReadValueSkips(ws + (Print(d) + rest));
  }

  lemma ReadValueSkips(s: string)
    ensures ReadValue(s) == ReadValue(Skip(s))
  {}

  lemma {:induction false} ReadPrinted(d: Doc, rest: string)
    requires Fits(d, rest) && Delimited(d, rest)
    ensures ReadValue(Print(d) + rest) == Got(d, rest)
    decreases d, 0
  {
    match d
    case NullDoc(junk) => ReadPrintedNull(junk, rest);
    case BoolDoc(b) => ReadPrintedBool(b, rest);
    case NumberDoc(lexeme) => ReadPrintedNumber(lexeme, rest);
    case StringDoc(ps) => ReadPrintedString(ps, rest);
    case EmptyDoc(w) => ReadPrintedEmpty(w, rest);
    case ObjectDoc(ms) =>
      ReadMembersOf(ms, rest);
      ReadPrintedObject(ms, rest);
  }

  lemma ReadPrintedNull(junk: string, rest: string)
    requires Fits(NullDoc(junk), rest)
    ensures ReadValue(Print(NullDoc(junk)) + rest) == Got(NullDoc(junk), rest)
  {
    ReadNullOf(junk, rest);
  }

  lemma ReadPrintedBool(b: bool, rest: string)
    ensures ReadValue(Print(BoolDoc(b)) + rest) == Got(BoolDoc(b), rest)
  {
    FirstCharacter(BoolDoc(b), rest);
    ReadBoolOf(b, rest);
  }

  lemma ReadPrintedNumber(lexeme: string, rest: string)
    requires GoodLexeme(lexeme) && Delimited(NumberDoc(lexeme), rest)
    ensures ReadValue(Print(NumberDoc(lexeme)) + rest) == Got(NumberDoc(lexeme), rest)
  {
    FirstCharacter(NumberDoc(lexeme), rest);
    assert (lexeme + rest)[0] == lexeme[0];
    ReadNumberOf(lexeme, rest);
  }

  lemma ReadPrintedString(ps: seq<Piece>, rest: string)
    requires GoodPieces(ps)
    ensures ReadValue(Print(StringDoc(ps)) + rest) == Got(StringDoc(ps), rest)
  {
    assert (PrintString(ps) + rest)[0] == '"';
    ReadStringOf(ps, rest);
  }

  lemma ReadPrintedEmpty(w: string, rest: string)
    requires AllSpace(w)
    ensures ReadValue(Print(EmptyDoc(w)) + rest) == Got(EmptyDoc(w), rest)
  {
    assert ("{" + w + "}" + rest)[0] == '{';
    ReadEmptyOf(w, rest);
  }

  lemma {:induction false} ReadPrintedObject(ms: Members, rest: string)
    requires WellFormedMembers(ms) && ReadMembers(PrintMembers(ms) + rest) == Got(ms, rest)
    ensures ReadValue(Print(ObjectDoc(ms)) + rest) == Got(ObjectDoc(ms), rest)
  {
    MembersDoNotStartWithBrace(ms, rest);
    assert Print(ObjectDoc(ms)) + rest == "{" + (PrintMembers(ms) + rest);
    ReadObjectSteps(PrintMembers(ms) + rest, ms, rest);
  }

  lemma ReadObjectSteps(tail: string, ms: Members, rest: string)
    requires ReadMembers(tail) == Got(ms, rest)
    requires Skip(tail) != "" && Skip(tail)[0] == '"'
    ensures ReadValue("{" + tail) == Got(ObjectDoc(ms), rest)
  {
    assert ("{" + tail)[1..] == tail;
    assert ReadObject("{" + tail) == Got(ObjectDoc(ms), rest);
  }

  lemma ReadNullOf(junk: string, rest: string)
    requires |junk| == 3 || (|junk| < 3 && rest == "")
    ensures ReadNull("n" + junk + rest) == Got(NullDoc(junk), rest)
  {
    var t := "n" + junk + rest;
    assert t[1..1 + |junk|] == junk && t[1 + |junk|..] == rest;
  }

  lemma ReadBoolOf(b: bool, rest: string)
    ensures ReadBool(Print(BoolDoc(b)) + rest) == Got(BoolDoc(b), rest)
  {
    var t := Print(BoolDoc(b)) + rest;
    assert t[|Print(BoolDoc(b))|..] == rest;
    if !b {
      assert t[0] == 'f';
    }
  }

  lemma ReadNumberOf(lexeme: string, rest: string)
    requires GoodLexeme(lexeme) && (rest == "" || !IsNumberChar(rest[0]))
    ensures ReadNumber(lexeme + rest) == Got(NumberDoc(lexeme), rest)
  {
    NumberLenOf(lexeme, rest);
    PrefixOf(lexeme, rest);
  }

  lemma ReadEmptyOf(w: string, rest: string)
    requires AllSpace(w)
    ensures ReadObject("{" + w + "}" + rest) == Got(EmptyDoc(w), rest)
  {
    var s := "{" + w + "}" + rest;
    assert s[1..] == w + ("}" + rest);
    SpacesOf(w, "}" + rest);
    assert s[1..1 + |w|] == w;
  }

  lemma PrintedMember(m: Member, t: string)
    ensures PrintMember(m) + t ==
      m.beforeKey + (PrintString(m.key) + (m.beforeColon + [':'] + (m.beforeValue + (Print(m.value) + (m.afterValue + t)))))
  {}

  lemma MembersDoNotStartWithBrace(ms: Members, rest: string)
    requires WellFormedMembers(ms)
    ensures Skip(PrintMembers(ms) + rest) != "" && Skip(PrintMembers(ms) + rest)[0] == '"'
  {
    var m := ms.member;
    var tail := if ms.Last? then "}" + rest else "," + PrintMembers(ms.rest) + rest;
    assert PrintMembers(ms) + rest == PrintMember(m) + tail;
    PrintedMember(m, tail);
    var t := PrintString(m.key) + (m.beforeColon + [':'] + (m.beforeValue + (Print(m.value) + (m.afterValue + tail))));
    SpacesOf(m.beforeKey, t);
  }

  /** ReadMember, one step after the other. */
  lemma ReadMemberSteps(s: string, key: seq<Piece>, t: string, beforeColon: string, u: string, v: Doc, w: string)
    requires ReadString(Skip(s)) == Got(key, t)
    requires Expect(t, ':') == Got(beforeColon, u)
    requires ReadValue(u) == Got(v, w)
    ensures ReadMember(s) ==
      Got(Member(Spaces(s), key, beforeColon, Spaces(u), v, Spaces(w)), Skip(w))
  {}

  lemma {:induction false} ReadMemberOf(m: Member, t: string)
    requires WellFormedMember(m) && t != "" && (t[0] == ',' || t[0] == '}')
    ensures ReadMember(PrintMember(m) + t) == Got(m, t)
    decreases m, 1
  {
    var w := m.afterValue + t;
    var u := m.beforeValue + (Print(m.value) + w);
    var v := m.beforeColon + [':'] + u;
    var s := m.beforeKey + (PrintString(m.key) + v);
    PrintedMember(m, t);
    ReadKeyOf(m.beforeKey, m.key, v);
    ExpectOf(m.beforeColon, ':', u);
    assert w[0] == if m.afterValue == "" then t[0] else m.afterValue[0];
    ReadValueOf(m.beforeValue, m.value, w);
    ReadMemberSteps(s, m.key, v, m.beforeColon, u, m.value, w);
    MemberSlices(m, s, u, w, v, t);
  }

  lemma MemberSlices(m: Member, s: string, u: string, w: string, v: string, t: string)
    requires s == m.beforeKey + (PrintString(m.key) + v) && Spaces(s) == m.beforeKey
    requires u == m.beforeValue + (Print(m.value) + w) && Spaces(u) == m.beforeValue
    requires w == m.afterValue + t && AllSpace(m.afterValue) && t != "" && (t[0] == ',' || t[0] == '}')
    ensures Spaces(s) == m.beforeKey && Spaces(u) == m.beforeValue
    ensures Spaces(w) == m.afterValue && Skip(w) == t
  {
    PrefixOf(m.beforeKey, PrintString(m.key) + v);
    PrefixOf(m.beforeValue, Print(m.value) + w);
    PrefixOf(m.afterValue, t);
    SpacesOf(m.afterValue, t);
  }

  lemma ReadKeyOf(ws: string, key: seq<Piece>, t: string)
    requires AllSpace(ws) && GoodPieces(key)
    ensures var s := ws + (PrintString(key) + t);
      Spaces(s) == ws && ReadString(Skip(s)) == Got(key, t)
  {
    SpacesOf(ws, PrintString(key) + t);
    ReadStringOf(key, t);
  }

  lemma PrefixOf(a: string, b: string)
    ensures (a + b)[..|a|] == a && (a + b)[|a|..] == b
  {}

  lemma {:induction false} ReadMembersOf(ms: Members, rest: string)
    requires WellFormedMembers(ms)
    ensures ReadMembers(PrintMembers(ms) + rest) == Got(ms, rest)
    decreases ms, 2
  {
    match ms
    case Last(m) =>
      assert PrintMembers(ms) + rest == PrintMember(m) + ("}" + rest);
      ReadMemberOf(m, "}" + rest);
      ReadLastSteps(PrintMember(m) + ("}" + rest), m, rest);
    case More(m, more) =>
      var next := PrintMembers(more) + rest;
      assert PrintMembers(ms) + rest == PrintMember(m) + ("," + next);
      ReadMemberOf(m, "," + next);
      ReadMembersOf(more, rest);
      ReadMoreSteps(PrintMember(m) + ("," + next), m, next, more, rest);
  }

  lemma ReadLastSteps(s: string, m: Member, rest: string)
    requires ReadMember(s) == Got(m, "}" + rest)
    ensures ReadMembers(s) == Got(Last(m), rest)
  {
    assert "}" + rest == "" + ['}'] + rest;
    ExpectOf("", '}', rest);
  }

  lemma ReadMoreSteps(s: string, m: Member, next: string, more: Members, rest: string)
    requires ReadMember(s) == Got(m, "," + next)
    requires ReadMembers(next) == Got(more, rest)
    ensures ReadMembers(s) == Got(More(m, more), rest)
  {
    assert ("," + next)[1..] == next;
  }

  // ---- Reading then printing ----

  lemma ExpectIs(s: string, c: char)
    requires Expect(s, c).Got?
    ensures s == Expect(s, c).value + ([c] + Expect(s, c).rest) && AllSpace(Expect(s, c).value)
  {
    SpacesThenSkip(s);
    assert Skip(s) == [c] + Expect(s, c).rest;
  }

  predicate Spells(s: string, r: (seq<Piece>, string)) {
    s == PrintPieces(r.0) + r.1 && (r.1 != "" ==> GoodPieces(r.0))
  }

  lemma EscapedSpells(s: string, r: (seq<Piece>, string))
    requires |s| > 1 && s[0] == '\\' && Spells(s[2..], r)
    ensures Spells(s, ([Escaped(s[1])] + r.0, r.1))
  {
    PrintCons(Escaped(s[1]), r.0, r.1);
    assert s == [s[0], s[1]] + s[2..];
  }

  lemma RawSpells(s: string, r: (seq<Piece>, string))
    requires s != "" && s[0] != '"' && Spells(s[1..], r)
    requires s[0] == '\\' ==> r.1 == ""
    ensures Spells(s, ([Raw(s[0])] + r.0, r.1))
  {
    PrintCons(Raw(s[0]), r.0, r.1);
    assert s == [s[0]] + s[1..];
  }

  lemma {:induction false} ReadPiecesIs(s: string)
    ensures Spells(s, ReadPieces(s))
  {
    if s == "" || s[0] == '"' {
    } else if s[0] == '\\' && |s| > 1 {
      ReadPiecesIs(s[2..]);
      EscapedSpells(s, ReadPieces(s[2..]));
    } else {
      ReadPiecesIs(s[1..]);
      RawSpells(s, ReadPieces(s[1..]));
    }
  }

  lemma QuoteIs(s: string)
    requires Expect(s, '"').Got? && (s == "" || !IsSpace(s[0]))
    ensures s == "\"" + Expect(s, '"').rest
  {
    ExpectIs(s, '"');
    assert Spaces(s) == "";
  }

  lemma ReadStringIs(s: string)
    requires ReadString(s).Got? && (s == "" || !IsSpace(s[0]))
    ensures s == PrintString(ReadString(s).value) + ReadString(s).rest
    ensures GoodPieces(ReadString(s).value)
  {
    var t := Expect(s, '"').rest;
    QuoteIs(s);
    ReadPiecesIs(t);
    QuoteIs(ReadPieces(t).1);
    PrintedString(s, ReadPieces(t).0, t, ReadPieces(t).1, ReadString(s).rest);
  }

  lemma PrintedString(s: string, ps: seq<Piece>, t: string, u: string, rest: string)
    requires s == "\"" + t && t == PrintPieces(ps) + u && u == "\"" + rest
    ensures s == PrintString(ps) + rest
  {}

  lemma {:induction false} ReadValueIs(s: string, d: Doc, rest: string)
    requires ReadValue(s) == Got(d, rest)
    ensures s == Spaces(s) + (Print(d) + rest)
    ensures Fits(d, rest) && Delimited(d, rest)
    decreases |s|, 1
  {
    var t := Skip(s);
    SpacesThenSkip(s);
    if t[0] == '{' {
      ReadObjectIs(t, d, rest);
    } else if t[0] == '"' {
      ReadStringIs(t);
    } else if t[0] == 't' || t[0] == 'f' {
      ReadBoolIs(t, d, rest);
    } else if t[0] == 'n' {
      ReadNullIs(t, d, rest);
    } else {
      ReadNumberIs(t, d, rest);
    }
  }

  lemma ReadBoolIs(t: string, d: Doc, rest: string)
    requires ReadBool(t) == Got(d, rest)
    ensures t == Print(d) + rest && d.BoolDoc?
  {
    assert "true" <= t ==> t == "true" + t[4..];
    assert "false" <= t ==> t == "false" + t[5..];
  }

  lemma ReadNullIs(t: string, d: Doc, rest: string)
    requires t != "" && t[0] == 'n' && ReadNull(t) == Got(d, rest)
    ensures t == Print(d) + rest && Fits(d, rest) && d.NullDoc?
  {
    var n := if |t| < 4 then |t| else 4;
    assert t == "n" + t[1..n] + t[n..];
  }

  lemma ReadNumberIs(t: string, d: Doc, rest: string)
    requires ReadNumber(t) == Got(d, rest)
    ensures t == Print(d) + rest && Fits(d, rest) && Delimited(d, rest)
  {
    var n := NumberLen(t);
    assert t == t[..n] + t[n..];
  }

  lemma {:induction false} ReadObjectIs(s: string, d: Doc, rest: string)
    requires s != "" && s[0] == '{' && ReadObject(s) == Got(d, rest)
    ensures s == Print(d) + rest && WellFormed(d) && !d.NumberDoc?
    decreases |s|, 0
  {
    var t := Skip(s[1..]);
    if t != "" && t[0] == '}' {
      assert t == "}" + rest;
      PrintedEmpty(s, rest);
    } else {
      var r := ReadMembers(s[1..]);
      assert d == ObjectDoc(r.value) && rest == r.rest;
      ReadMembersIs(s[1..], r.value, rest);
      PrintedObject(s, r.value, rest);
    }
  }

  lemma PrintedEmpty(s: string, rest: string)
    requires s != "" && s[0] == '{' && Skip(s[1..]) == "}" + rest
    ensures s == Print(EmptyDoc(Spaces(s[1..]))) + rest
  {
    SpacesThenSkip(s[1..]);
    assert s == "{" + Spaces(s[1..]) + ("}" + rest);
  }

  lemma PrintedObject(s: string, ms: Members, rest: string)
    requires s != "" && s[0] == '{' && s[1..] == PrintMembers(ms) + rest
    ensures s == Print(ObjectDoc(ms)) + rest
  {
    assert s == "{" + s[1..];
  }

  lemma {:induction false} ReadMembersIs(s: string, ms: Members, rest: string)
    requires ReadMembers(s) == Got(ms, rest)
    ensures s == PrintMembers(ms) + rest && WellFormedMembers(ms)
    decreases |s|, 3
  {
    var m, t := ReadMember(s).value, ReadMember(s).rest;
    ReadMemberIs(s, m, t);
    if t != "" && t[0] == ',' {
      var more := ReadMembers(t[1..]);
      assert ms == More(m, more.value) && rest == more.rest;
      ReadMembersIs(t[1..], more.value, rest);
      FollowedMember(m, t);
      PrintedMore(s, t, m, more.value, rest);
    } else {
      ClosingBrace(t, rest);
      FollowedMember(m, t);
      assert ms == Last(m);
      PrintedLast(s, t, m, rest);
    }
  }

  lemma PrintedLast(s: string, t: string, m: Member, rest: string)
    requires s == PrintMember(m) + t && t == "}" + rest
    ensures s == PrintMembers(Last(m)) + rest
  {}

  lemma PrintedMore(s: string, t: string, m: Member, more: Members, rest: string)
    requires s == PrintMember(m) + t && t != "" && t[0] == ','
    requires t[1..] == PrintMembers(more) + rest
    ensures s == PrintMembers(More(m, more)) + rest
  {
    assert t == "," + t[1..];
  }

  lemma ClosingBrace(t: string, rest: string)
    requires Expect(t, '}').Got? && Expect(t, '}').rest == rest
    requires t != "" ==> !IsSpace(t[0])
    ensures t == "}" + rest
  {
    ExpectIs(t, '}');
    assert Expect(t, '}').value == "";
  }

  /** Text behind the value rules out a cut-off null. */
  lemma FollowedMember(m: Member, t: string)
    requires GoodFrame(m) && Fits(m.value, m.afterValue + t) && t != ""
    ensures WellFormedMember(m)
  {}

  predicate GoodFrame(m: Member) {
    && AllSpace(m.beforeKey) && GoodPieces(m.key) && AllSpace(m.beforeColon)
    && AllSpace(m.beforeValue) && AllSpace(m.afterValue)
  }

  lemma {:induction false} ReadMemberIs(s: string, m: Member, t: string)
    requires ReadMember(s) == Got(m, t)
    ensures s == PrintMember(m) + t
    ensures GoodFrame(m) && Fits(m.value, m.afterValue + t)
    ensures t != "" ==> !IsSpace(t[0])
    decreases |s|, 2
  {
    var k := ReadString(Skip(s));
    ReadStringIs(Skip(s));
    var c := Expect(k.rest, ':');
    ExpectIs(k.rest, ':');
    var v := ReadValue(c.rest);
    assert m == Member(Spaces(s), k.value, c.value, Spaces(c.rest), v.value, Spaces(v.rest));
    assert t == Skip(v.rest);
    ReadValueIs(c.rest, v.value, v.rest);
    SpacesThenSkip(s);
    SpacesThenSkip(v.rest);
    Reassemble(s, m, t, k.rest, c.rest, v.rest);
  }

  lemma Reassemble(s: string, m: Member, t: string, afterKey: string, afterColon: string, afterValue: string)
    requires s == m.beforeKey + (PrintString(m.key) + afterKey)
    requires afterKey == m.beforeColon + ([':'] + afterColon)
    requires afterColon == m.beforeValue + (Print(m.value) + afterValue)
    requires afterValue == m.afterValue + t
    ensures s == PrintMember(m) + t
  {
    PrintedMember(m, t);
  }

  // ---- Both directions ----

  /** parseValue returns d and leaves rest exactly when the text is whitespace, d printed,
      and rest. */
  lemma ReadsExactlyThePrintedForms(s: string, d: Doc, rest: string)
    ensures ReadValue(s) == Got(d, rest) <==>
      && Fits(d, rest) && Delimited(d, rest)
      && s == Spaces(s) + (Print(d) + rest)
  {
    if ReadValue(s) == Got(d, rest) {
      ReadValueIs(s, d, rest);
    }
    if Fits(d, rest) && Delimited(d, rest) && s == Spaces(s) + (Print(d) + rest) {
      ReadValueOf(Spaces(s), d, rest);
    }
  }

  /** Printing is unambiguous: no text is the printed form of two documents. */
  lemma PrintIsInjective(d: Doc, e: Doc)
    requires WellFormed(d) && WellFormed(e) && Print(d) == Print(e)
    ensures d == e
  {
    ReadValueOf("", d, "");
    ReadValueOf("", e, "");
  }

  // ---- Every value has a text ----

  /** Every number in the value, at any depth, is a lexeme the parser converts. */
  predicate Writable(j: Json) {
    match j
    case Number(lexeme) => GoodLexeme(lexeme)
    case Object(o) => forall k :: k in o ==> Writable(o[k])
    case _ => true
  }

  lemma Written(j: Json) returns (d: Doc)
    requires Writable(j)
    ensures WellFormed(d) && Value(d) == j
    decreases j, 1
  {
    match j
    case Null => d := NullDoc("ull");
    case Bool(b) => d := BoolDoc(b);
    case Number(lexeme) => d := NumberDoc(lexeme);
    case String(s) =>
      EncodeDecodes(s);
      d := StringDoc(Encode(s));
    case Object(o) =>
      if o == map[] {
        d := EmptyDoc("");
      } else {
        var ms := WrittenMembers(j, o.Keys);
        d := ObjectDoc(ms);
        forall k ensures (k in Value(d).members <==> k in o) && (k in o ==> Value(d).members[k] == o[k]) {
          FirstOccurrenceWins(ms, k);
        }
        assert Value(d).members == o;
      }
  }

  /** The members of the object j under the given keys. */
  lemma WrittenMembers(j: Json, keys: set<string>) returns (ms: Members)
    requires Writable(j) && j.Object? && keys != {} && keys <= j.members.Keys
    ensures WellFormedMembers(ms)
    ensures forall k :: HasKey(ms, k) <==> k in keys
    ensures forall k :: HasKey(ms, k) ==> Value(FirstValue(ms, k)) == j.members[k]
    decreases j, 0, |keys|
  {
    var key :| key in keys;
    var d := Written(j.members[key]);
    EncodeDecodes(key);
    var m := Member("", Encode(key), "", "", d, "");
    if keys - {key} == {} {
      assert keys == {key};
      ms := Last(m);
    } else {
      var rest := WrittenMembers(j, keys - {key});
      ms := More(m, rest);
    }
  }

  lemma ValuesAreWritable(d: Doc)
    requires WellFormed(d) || d.NullDoc?
    ensures Writable(Value(d))
    decreases d, 0
  {
    if d.ObjectDoc? {
      MembersAreWritable(d.members, map[]);
    }
  }

  lemma {:induction false} MembersAreWritable(ms: Members, o: map<string, Json>)
    requires WellFormedMembers(ms) && forall k :: k in o ==> Writable(o[k])
    ensures Writable(Object(ValueOfMembers(ms, o)))
    decreases ms, 1
  {
    ValuesAreWritable(ms.member.value);
    if ms.More? {
      MembersAreWritable(ms.rest, Emplace(o, Decode(ms.member.key), Value(ms.member.value)));
    }
  }

  /** The text s is read to its end as the value j. */
  ghost predicate ParsesTo(s: string, j: Json) {
    ReadValue(s).Got? && ReadValue(s).rest == "" && Value(ReadValue(s).value) == j
  }

  /** The parser's values are exactly the writable ones: any finite nesting, any strings. */
  lemma EveryWritableValueIsParsed(j: Json)
    ensures Writable(j) <==> exists s :: ParsesTo(s, j)
  {
    if Writable(j) {
      var d := Written(j);
      ReadValueOf("", d, "");
      assert ParsesTo("" + (Print(d) + ""), j);
    }
    forall s | ParsesTo(s, j)
      ensures Writable(j)
    {
      ReadValueIs(s, ReadValue(s).value, "");
      ValuesAreWritable(ReadValue(s).value);
    }
  }
}
