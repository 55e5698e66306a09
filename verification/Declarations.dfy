/** The C declaration reader of 6-1-26/5-18.c: a tokenizer with pushback and a recursive-descent
    parser that turns a declarator into words.

    The parser is first a function on states; the theorem about it compares the words it writes with
    the C type that the declarator declares. */
module Declarations {
  import opened Options
  import opened Texts

  // ---------- tokens ----------

  /** `gettoken`'s answers; Char is any other single character. */
  datatype Tok = Name | Parens | Brackets | Char(c: char) | Eof

  predicate IsBlank(c: char) {
    c == ' ' || c == '\t'
  }

  function SkipBlanks(s: string): (r: string)
    ensures |r| <= |s|
    ensures r != "" ==> !IsBlank(r[0])
  {
    if s != "" && IsBlank(s[0]) then SkipBlanks(s[1..]) else s
  }

  /** The length of the longest alphanumeric prefix. */
  function AlnumSpan(s: string): (n: nat)
    ensures n <= |s|
    ensures n < |s| ==> !IsAlnum(s[n])
    ensures forall i | 0 <= i < n :: IsAlnum(s[i])
  {
    if s != "" && IsAlnum(s[0]) then 1 + AlnumSpan(s[1..]) else 0
  }

  /** The position of the first ']', or the length. */
  function BracketSpan(s: string): (n: nat)
    ensures n <= |s|
    ensures n < |s| ==> s[n] == ']'
    ensures forall i | 0 <= i < n :: s[i] != ']'
  {
    if s != "" && s[0] != ']' then 1 + BracketSpan(s[1..]) else 0
  }

  /** Every '[' is closed later on: without this `gettoken` reads past the end of the input. */
  ghost predicate Closed(s: string) {
    forall i | 0 <= i < |s| && s[i] == '[' :: exists j :: i < j < |s| && s[j] == ']'
  }

  /** One token: its kind, the text left in `token` if it is set, and the input after it. */
  datatype Lexeme = Lexeme(tok: Tok, text: Option<string>, rest: string)

  function Lex(s: string): (x: Lexeme)
    ensures |x.rest| <= |s| && (x.tok != Eof ==> |x.rest| < |s|)
  {
    LexAt(SkipBlanks(s))
  }

  /** The token at the first non-blank. */
  function LexAt(t: string): (x: Lexeme)
    ensures |x.rest| <= |t| && (x.tok != Eof ==> |x.rest| < |t|)
  {
    if t == "" then Lexeme(Eof, None, "")
    else if t[0] == '(' then
      if |t| > 1 && t[1] == ')' then Lexeme(Parens, Some("()"), t[2..]) else Lexeme(Char('('), None, t[1..])
    else if t[0] == '[' then
      var n := BracketSpan(t);
      if n < |t| then Lexeme(Brackets, Some(t[..n + 1]), t[n + 1..]) else Lexeme(Brackets, Some(t), "")
    else if IsAlpha(t[0]) then
      var n := AlnumSpan(t);
      Lexeme(Name, Some(t[..n]), t[n..])
    else Lexeme(Char(t[0]), None, t[1..])
  }

  lemma {:induction false} SkipClosed(s: string)
    requires Closed(s)
    ensures Closed(SkipBlanks(s))
  {
    if s != "" && IsBlank(s[0]) {
      TailClosed(s, 1);
      SkipClosed(s[1..]);
    }
  }

  lemma TailClosed(s: string, k: nat)
    requires Closed(s) && k <= |s|
    ensures Closed(s[k..])
  {
    forall i | 0 <= i < |s[k..]| && s[k..][i] == '['
      ensures exists j :: i < j < |s[k..]| && s[k..][j] == ']'
    {
      assert s[k + i] == '[';
      var j :| k + i < j < |s| && s[j] == ']';
      assert s[k..][j - k] == ']';
    }
  }

  lemma LexClosed(s: string)
    requires Closed(s)
    ensures Closed(Lex(s).rest)
  {
    SkipClosed(s);
    var t := SkipBlanks(s);
    TailClosed(t, |t| - |Lex(s).rest|);
    assert Lex(s).rest == t[|t| - |Lex(s).rest|..];
  }

  // ---------- the parser as a function ----------

  datatype Complaint = MissingParen | ExpectedName

  /** The program's globals: the input still to come, and what the parser has written. */
  datatype State = State(rest: string, tok: Tok, token: string, name: string, out: string, complaints: seq<Complaint>)

  function GetToken(p: State): (q: State)
    ensures |q.rest| <= |p.rest| && (q.tok != Eof ==> |q.rest| < |p.rest|)
  {
    var x := Lex(p.rest);
    p.(rest := x.rest, tok := x.tok, token := if x.text.Some? then x.text.value else p.token)
  }

  /** `for (ns = 0; gettoken() == '*';) ns++` */
  function Stars(p: State): (r: (State, nat))
    ensures Weight(r.0) <= |p.rest|
    decreases |p.rest|
  {
    var q := GetToken(p);
    if q.tok == Char('*') then (Stars(q).0, Stars(q).1 + 1) else (q, 0)
  }

  /** What is left to read, counting the token already read. */
  function Weight(p: State): nat {
    |p.rest| + if p.tok == Eof then 0 else 1
  }

  function Repeat(s: string, n: nat): string {
    if n == 0 then "" else s + Repeat(s, n - 1)
  }

  const STAR_WORDS := " pointer to"
  const FUNCTION := " function returning"

  function ArrayWords(token: string): string {
    " array" + token + " of"
  }

  function Dcl(p: State): (r: State)
    ensures |r.rest| <= |p.rest|
    decreases |p.rest|, 2
  {
    var (q, ns) := Stars(p);
    var r := DirDcl(q);
    r.(out := r.out + Repeat(STAR_WORDS, ns))
  }

  function DirDcl(p: State): (r: State)
    ensures |r.rest| <= |p.rest|
    decreases Weight(p), 1
  {
    var q :=
      if p.tok == Char('(') then
        var r := Dcl(p);
        if r.tok != Char(')') then r.(complaints := r.complaints + [MissingParen]) else r
      else if p.tok == Name then p.(name := p.token)
      else p.(complaints := p.complaints + [ExpectedName]);
    Suffixes(q)
  }

  function Suffixes(p: State): (r: State)
    ensures |r.rest| <= |p.rest|
    decreases |p.rest|
  {
    var q := GetToken(p);
    if q.tok == Parens then Suffixes(q.(out := q.out + FUNCTION))
    else if q.tok == Brackets then Suffixes(q.(out := q.out + ArrayWords(q.token)))
    else q
  }

  // ---------- declarators and the types they declare ----------

  datatype Declarator = Declarator(stars: nat, direct: Direct)
  datatype Direct =
    | Ident(name: string)
    | Grouped(inner: Declarator)
    | FunctionOf(direct: Direct)
    | ArrayOf(direct: Direct, size: string)

  datatype CType =
    | Base
    | PointerTo(to: CType)
    | FunctionReturning(result: CType)
    | ArrayWith(size: string, element: CType)

  /** The type a declarator gives its name, when the declaration specifier says `t`. */
  function TypeOf(d: Declarator, t: CType): CType {
    TypeOfDirect(d.direct, Pointers(d.stars, t))
  }

  function Pointers(n: nat, t: CType): CType {
    if n == 0 then t else PointerTo(Pointers(n - 1, t))
  }

  function TypeOfDirect(d: Direct, t: CType): CType {
    match d
    case Ident(_) => t
    case Grouped(inner) => TypeOf(inner, t)
    case FunctionOf(f) => TypeOfDirect(f, FunctionReturning(t))
    case ArrayOf(a, size) => TypeOfDirect(a, ArrayWith(size, t))
  }

  /** A type in words, outermost first. */
  function Say(t: CType): string {
    match t
    case Base => ""
    case PointerTo(u) => " pointer to" + Say(u)
    case FunctionReturning(u) => " function returning" + Say(u)
    case ArrayWith(size, u) => " array[" + size + "] of" + Say(u)
  }

  function NameOf(d: Declarator): string {
    NameOfDirect(d.direct)
  }

  function NameOfDirect(d: Direct): string {
    match d
    case Ident(name) => name
    case Grouped(inner) => NameOf(inner)
    case FunctionOf(f) => NameOfDirect(f)
    case ArrayOf(a, _) => NameOfDirect(a)
  }

  /** The tokens of a declarator. */
  datatype Piece = Piece(tok: Tok, text: Option<string>)

  function Pieces(d: Declarator): seq<Piece> {
    seq(d.stars, i => Piece(Char('*'), None)) + PiecesOfDirect(d.direct)
  }

  function PiecesOfDirect(d: Direct): (ps: seq<Piece>)
    ensures ps != [] && (ps[0].tok == Name || ps[0].tok == Char('('))
  {
    match d
    case Ident(name) => [Piece(Name, Some(name))]
    case Grouped(inner) => [Piece(Char('('), None)] + Pieces(inner) + [Piece(Char(')'), None)]
    case FunctionOf(f) => PiecesOfDirect(f) + [Piece(Parens, Some("()"))]
    case ArrayOf(a, size) => PiecesOfDirect(a) + [Piece(Brackets, Some("[" + size + "]"))]
  }

  /** `s` is read as the tokens `ps`, with `rest` left over. */
  ghost predicate Spells(s: string, ps: seq<Piece>, rest: string)
    decreases |ps|
  {
    if ps == [] then s == rest
    else Lex(s).tok == ps[0].tok && Lex(s).text == ps[0].text && Spells(Lex(s).rest, ps[1..], rest)
  }

  /** The input after the first `n` tokens. */
  function After(s: string, n: nat): string
    decreases n
  {
    if n == 0 then s else After(Lex(s).rest, n - 1)
  }

  lemma {:induction false} SpellsConcat(s: string, a: seq<Piece>, b: seq<Piece>, rest: string)
    ensures Spells(s, a + b, rest) <==> Spells(s, a, After(s, |a|)) && Spells(After(s, |a|), b, rest)
    decreases |a|
  {
    if a == [] {
      assert a + b == b;
    } else {
      assert (a + b)[1..] == a[1..] + b;
      SpellsConcat(Lex(s).rest, a[1..], b, rest);
    }
  }

  /** What reading a direct declarator leaves, up to the loop over its suffixes. */
  ghost predicate ReadUpTo(p: State, q: State, d: Direct, rest: string) {
    && q.rest == rest && q.name == NameOfDirect(d) && q.complaints == p.complaints
    && forall t: CType :: q.out + Say(t) == p.out + Say(TypeOfDirect(d, t))
  }

  /** The parser's result on a declarator followed by `rest`: the words of the declared type, the
      name, and the first token after the declarator; nothing else is consumed. */
  ghost predicate Reads(p: State, q: State, d: Declarator, rest: string) {
    && q.rest == Lex(rest).rest && q.tok == Lex(rest).tok
    && q.name == NameOf(d) && q.complaints == p.complaints
    && forall t: CType :: q.out + Say(t) == p.out + Say(TypeOf(d, t))
  }

  predicate EndsDeclarator(t: Tok) {
    t != Parens && t != Brackets
  }

  lemma {:induction false} StarsRead(p: State, n: nat, ps: seq<Piece>, rest: string)
    requires Spells(p.rest, seq(n, i => Piece(Char('*'), None)) + ps, rest)
    requires ps != [] && ps[0].tok != Char('*')
    ensures var r := Stars(p);
      && r.1 == n && r.0.tok == ps[0].tok && (ps[0].text.Some? ==> r.0.token == ps[0].text.value)
      && Spells(r.0.rest, ps[1..], rest) && r.0.out == p.out && r.0.complaints == p.complaints
    decreases n
  {
    var all := seq(n, i => Piece(Char('*'), None)) + ps;
    if n == 0 {
      assert all == ps;
    } else {
      assert all[0] == Piece(Char('*'), None);
      assert all[1..] == seq(n - 1, i => Piece(Char('*'), None)) + ps;
      StarsRead(GetToken(p), n - 1, ps, rest);
    }
  }

  lemma {:induction false} RepeatPointers(n: nat, t: CType)
    ensures Repeat(STAR_WORDS, n) + Say(t) == Say(Pointers(n, t))
  {
    if n > 0 {
      RepeatPointers(n - 1, t);
      RepeatMore(STAR_WORDS, n, Say(t));
    } else {
      assert "" + Say(t) == Say(t);
    }
  }

  lemma RepeatMore(s: string, n: nat, rest: string)
    requires n > 0
    ensures Repeat(s, n) + rest == s + (Repeat(s, n - 1) + rest)
  {
    assert Repeat(s, n) == s + Repeat(s, n - 1);
  }

  /** The parser against declarators: for every declarator, whatever blanks its tokens are spaced
      with, and whatever follows it. */
  lemma {:induction false} DclReads(p: State, d: Declarator, rest: string)
    requires Spells(p.rest, Pieces(d), rest) && EndsDeclarator(Lex(rest).tok)
    ensures Reads(p, Dcl(p), d, rest)
    decreases d, 1
  {
    var (q, ns) := Stars(p);
    StarsRead(p, d.stars, PiecesOfDirect(d.direct), rest);
    var mid := DirectReads(q, d.direct, rest);
    assert DirDcl(q) == GetToken(mid);
    PointersAdded(p, q, mid, d, rest);
  }

  lemma PointersAdded(p: State, q: State, mid: State, d: Declarator, rest: string)
    requires ReadUpTo(q, mid, d.direct, rest) && q.out == p.out
    ensures forall t: CType :: mid.out + Repeat(STAR_WORDS, d.stars) + Say(t) == p.out + Say(TypeOf(d, t))
  {
    forall t: CType
      ensures mid.out + Repeat(STAR_WORDS, d.stars) + Say(t) == p.out + Say(TypeOf(d, t))
    {
      RepeatPointers(d.stars, t);
      Assoc(mid.out, Repeat(STAR_WORDS, d.stars), Say(t));
    }
  }

  lemma Assoc(a: string, b: string, c: string)
    ensures a + b + c == a + (b + c)
  {
  }

  /** The words that the parser appends are those of the reading. */
  lemma FunctionWords(t: CType)
    ensures Say(FunctionReturning(t)) == FUNCTION + Say(t)
  {
  }

  lemma SizeWords(size: string, t: CType)
    ensures Say(ArrayWith(size, t)) == ArrayWords("[" + size + "]") + Say(t)
  {
    ArrayWordsIs(size);
  }

  lemma ArrayWordsIs(size: string)
    ensures ArrayWords("[" + size + "]") == " array[" + size + "] of"
  {
    var words := " array[" + size + "] of";
    assert " array" + "[" == " array[" && "]" + " of" == "] of";
    assert " array" + ("[" + size + "]") + " of" == (" array" + "[") + size + ("]" + " of");
  }

  lemma PointerWords(t: CType)
    ensures Say(PointerTo(t)) == STAR_WORDS + Say(t)
  {
  }

  /** The words of one suffix, appended after the words before it. */
  lemma SuffixAdded(p: State, mid: State, f: Direct, d: Direct, words: string, rest: string)
    requires ReadUpTo(p, mid, f, rest)
    requires (d == FunctionOf(f) && words == FUNCTION) ||
      (d.ArrayOf? && d.direct == f && words == ArrayWords("[" + d.size + "]"))
    ensures forall t: CType :: mid.out + words + Say(t) == p.out + Say(TypeOfDirect(d, t))
  {
    forall t: CType
      ensures mid.out + words + Say(t) == p.out + Say(TypeOfDirect(d, t))
    {
      hide Say, FUNCTION, ArrayWords;
      var u := if d == FunctionOf(f) then FunctionReturning(t) else ArrayWith(d.size, t);
      FunctionWords(t);
      if d.ArrayOf? { SizeWords(d.size, t); }
      Assoc(mid.out, words, Say(t));
      assert mid.out + Say(u) == p.out + Say(TypeOfDirect(f, u));
    }
  }

  lemma {:induction false} DirectReads(p: State, d: Direct, rest: string) returns (mid: State)
    requires p.tok == PiecesOfDirect(d)[0].tok
    requires PiecesOfDirect(d)[0].text.Some? ==> p.token == PiecesOfDirect(d)[0].text.value
    requires Spells(p.rest, PiecesOfDirect(d)[1..], rest)
    ensures DirDcl(p) == Suffixes(mid) && ReadUpTo(p, mid, d, rest)
    decreases d, 0
  {
    hide Lex, Say, Dcl;
    match d
    case Ident(name) =>
      mid := p.(name := p.token);
    case Grouped(inner) =>
      var close := [Piece(Char(')'), None)];
      assert PiecesOfDirect(d)[1..] == Pieces(inner) + close;
      SpellsConcat(p.rest, Pieces(inner), close, rest);
      DclReads(p, inner, After(p.rest, |Pieces(inner)|));
      mid := Dcl(p);
    case FunctionOf(f) =>
      mid := SuffixRead(p, f, Piece(Parens, Some("()")), rest);
      SuffixAdded(p, mid, f, d, FUNCTION, mid.rest);
      var q := GetToken(mid);
      mid := q.(out := q.out + FUNCTION);
    case ArrayOf(a, size) =>
      mid := SuffixRead(p, a, Piece(Brackets, Some("[" + size + "]")), rest);
      SuffixAdded(p, mid, a, d, ArrayWords("[" + size + "]"), mid.rest);
      var q := GetToken(mid);
      mid := q.(out := q.out + ArrayWords(q.token));
  }

  /** Reading `f` up to its last suffix `last`. */
  lemma {:induction false} SuffixRead(p: State, f: Direct, last: Piece, rest: string) returns (mid: State)
    requires p.tok == PiecesOfDirect(f)[0].tok
    requires PiecesOfDirect(f)[0].text.Some? ==> p.token == PiecesOfDirect(f)[0].text.value
    requires Spells(p.rest, (PiecesOfDirect(f) + [last])[1..], rest)
    ensures DirDcl(p) == Suffixes(mid)
    ensures ReadUpTo(p, mid, f, After(p.rest, |PiecesOfDirect(f)| - 1))
    ensures Lex(mid.rest) == Lexeme(last.tok, last.text, rest)
    decreases f, 1
  {
    hide Lex, DirDcl, Suffixes, After, TypeOfDirect;
    var front := PiecesOfDirect(f)[1..];
    assert (PiecesOfDirect(f) + [last])[1..] == front + [last];
    SpellsConcat(p.rest, front, [last], rest);
    mid := DirectReads(p, f, After(p.rest, |front|));
  }

  // ---------- nothing else is taken for a declarator ----------

  lemma {:induction false} SuffixesComplainNot(p: State)
    ensures Suffixes(p).complaints == p.complaints
    decreases |p.rest|
  {
    hide Lex, FUNCTION, ArrayWords;
    var q := GetToken(p);
    if q.tok == Parens {
      SuffixesComplainNot(q.(out := q.out + FUNCTION));
    } else if q.tok == Brackets {
      SuffixesComplainNot(q.(out := q.out + ArrayWords(q.token)));
    }
  }

  lemma {:induction false} StarsComplainNot(p: State)
    ensures Stars(p).0.complaints == p.complaints
    decreases |p.rest|
  {
    if GetToken(p).tok == Char('*') {
      StarsComplainNot(GetToken(p));
    }
  }

  lemma {:induction false} ComplaintsStay(p: State)
    ensures p.complaints <= Dcl(p).complaints
    decreases |p.rest|, 2
  {
    StarsComplainNot(p);
    DirectComplaintsStay(Stars(p).0);
  }

  lemma {:induction false} DirectComplaintsStay(p: State)
    ensures p.complaints <= DirDcl(p).complaints
    decreases Weight(p), 1
  {
    hide Dcl, Suffixes;
    if p.tok == Char('(') {
      ComplaintsStay(p);
      var r := Dcl(p);
      SuffixesComplainNot(r);
      SuffixesComplainNot(r.(complaints := r.complaints + [MissingParen]));
    } else {
      SuffixesComplainNot(p.(name := p.token));
      SuffixesComplainNot(p.(complaints := p.complaints + [ExpectedName]));
    }
  }

  lemma {:induction false} SpellsClosed(s: string, ps: seq<Piece>, rest: string)
    requires Spells(s, ps, rest) && Closed(s)
    ensures Closed(rest)
    decreases |ps|
  {
    if ps != [] {
      LexClosed(s);
      hide Lex, Closed;
      SpellsClosed(Lex(s).rest, ps[1..], rest);
    }
  }

  lemma SpellsOne(s: string, p: Piece)
    requires Lex(s).tok == p.tok && Lex(s).text == p.text
    ensures Spells(s, [p], Lex(s).rest)
  {
    assert [p][1..] == [];
  }

  lemma {:induction false} SpellsAfter(s: string, ps: seq<Piece>, rest: string)
    requires Spells(s, ps, rest)
    ensures After(s, |ps|) == rest
    decreases |ps|
  {
    if ps != [] {
      SpellsAfter(Lex(s).rest, ps[1..], rest);
    }
  }

  lemma SpellsJoin(s: string, a: seq<Piece>, mid: string, b: seq<Piece>, rest: string)
    requires Spells(s, a, mid) && Spells(mid, b, rest)
    ensures Spells(s, a + b, rest)
  {
    SpellsAfter(s, a, mid);
    SpellsConcat(s, a, b, rest);
  }

  /** The suffixes that the loop reads belong to the declarator in front of them. */
  lemma {:induction false} SuffixesTaken(s: string, d0: Direct, p: State) returns (d: Direct, rest: string)
    requires Spells(s, PiecesOfDirect(d0), p.rest) && Closed(p.rest)
    ensures Spells(s, PiecesOfDirect(d), rest) && EndsDeclarator(Lex(rest).tok)
    decreases |p.rest|
  {
    var x := Lex(p.rest);
    LexClosed(p.rest);
    if x.tok == Parens {
      var last := Piece(Parens, Some("()"));
      ParensText(p.rest);
      SpellsOne(p.rest, last);
      SpellsJoin(s, PiecesOfDirect(d0), p.rest, [last], x.rest);
      hide Lex, Closed, Spells;
      d, rest := SuffixesTaken(s, FunctionOf(d0), p.(rest := x.rest));
    } else if x.tok == Brackets {
      var size := BracketsText(p.rest);
      var last := Piece(Brackets, Some("[" + size + "]"));
      SpellsOne(p.rest, last);
      SpellsJoin(s, PiecesOfDirect(d0), p.rest, [last], x.rest);
      hide Lex, Closed, Spells;
      d, rest := SuffixesTaken(s, ArrayOf(d0, size), p.(rest := x.rest));
    } else {
      d, rest := d0, p.rest;
    }
  }

  lemma ParensText(s: string)
    requires Lex(s).tok == Parens
    ensures Lex(s).text == Some("()")
  {
  }

  lemma BracketsText(s: string) returns (size: string)
    requires Closed(s) && Lex(s).tok == Brackets
    ensures Lex(s).text == Some("[" + size + "]")
  {
    SkipClosed(s);
    var t := SkipBlanks(s);
    hide SkipBlanks;
    assert t[0] == '[';
    var n := BracketSpan(t);
    var j :| 0 < j < |t| && t[j] == ']';
    assert n <= j;
    size := t[1..n];
    assert t[..n + 1] == "[" + size + "]";
  }

  lemma {:induction false} StarsTaken(p: State) returns (s: string)
    requires Closed(p.rest)
    ensures Spells(p.rest, seq(Stars(p).1, i => Piece(Char('*'), None)), s) && Closed(s) && |s| <= |p.rest|
    ensures Stars(p).0 == GetToken(p.(rest := s)) && Lex(s).tok != Char('*')
    decreases |p.rest|
  {
    var q := GetToken(p);
    LexClosed(p.rest);
    if q.tok == Char('*') {
      CharText(p.rest);
      hide Lex, Closed;
      s := StarsTaken(q);
      var n := Stars(p).1;
      var stars := seq(n, i => Piece(Char('*'), None));
      assert stars[0] == Piece(Char('*'), None) && stars[1..] == seq(n - 1, i => Piece(Char('*'), None));
    } else {
      s := p.rest;
      assert p.(rest := s) == p;
    }
  }

  lemma CharText(s: string)
    requires Lex(s).tok.Char?
    ensures Lex(s).text == None
  {
  }

  /** Without a complaint, what has been read is a declarator. */
  lemma {:induction false} DclTaken(p: State) returns (d: Declarator, rest: string)
    requires Closed(p.rest) && Dcl(p).complaints == p.complaints
    ensures Spells(p.rest, Pieces(d), rest) && EndsDeclarator(Lex(rest).tok)
    decreases |p.rest|, 2
  {
    var (q, ns) := Stars(p);
    StarsComplainNot(p);
    var s := StarsTaken(p);
    hide Lex, Closed, Spells, DirDcl;
    var direct;
    direct, rest := DirectTaken(p.(rest := s));
    d := Declarator(ns, direct);
    SpellsJoin(p.rest, seq(ns, i => Piece(Char('*'), None)), s, PiecesOfDirect(direct), rest);
  }

  lemma {:induction false} DirectTaken(p: State) returns (d: Direct, rest: string)
    requires Closed(p.rest) && DirDcl(GetToken(p)).complaints == p.complaints
    ensures Spells(p.rest, PiecesOfDirect(d), rest) && EndsDeclarator(Lex(rest).tok)
    decreases |p.rest|, 1
  {
    var q := GetToken(p);
    LexClosed(p.rest);
    SuffixesComplainNot(q.(complaints := q.complaints + [ExpectedName]));
    if q.tok == Char('(') {
      d, rest := GroupTaken(p);
    } else {
      assert q.tok == Name;
      NameTaken(p.rest);
      SpellsOne(p.rest, Piece(Name, Some(q.token)));
      hide Lex, Closed, Spells;
      d, rest := SuffixesTaken(p.rest, Ident(q.token), q);
    }
  }

  lemma NameTaken(s: string)
    requires Lex(s).tok == Name
    ensures Lex(s).text.Some?
  {
  }

  /** A declarator in parentheses. */
  lemma {:induction false} GroupTaken(p: State) returns (d: Direct, rest: string)
    requires Closed(p.rest) && GetToken(p).tok == Char('(') && DirDcl(GetToken(p)).complaints == p.complaints
    ensures Spells(p.rest, PiecesOfDirect(d), rest) && EndsDeclarator(Lex(rest).tok)
    decreases |p.rest|, 0
  {
    var q := GetToken(p);
    var r := Dcl(q);
    LexClosed(p.rest);
    CharText(p.rest);
    hide Lex, Closed, Spells;
    ClosedByParen(q);
    var inner, at := DclTaken(q);
    DclReads(q, inner, at);
    CharText(at);
    var open, close := Piece(Char('('), None), Piece(Char(')'), None);
    SpellsOne(p.rest, open);
    SpellsOne(at, close);
    SpellsJoin(q.rest, Pieces(inner), at, [close], r.rest);
    SpellsJoin(p.rest, [open], q.rest, Pieces(inner) + [close], r.rest);
    assert PiecesOfDirect(Grouped(inner)) == [open] + (Pieces(inner) + [close]);
    SpellsClosed(q.rest, Pieces(inner) + [close], r.rest);
    d, rest := SuffixesTaken(p.rest, Grouped(inner), r);
  }

  lemma ClosedByParen(q: State)
    requires q.tok == Char('(') && DirDcl(q).complaints == q.complaints
    ensures Dcl(q).tok == Char(')') && Dcl(q).complaints == q.complaints
  {
    var r := Dcl(q);
    ComplaintsStay(q);
    SuffixesComplainNot(r);
    SuffixesComplainNot(r.(complaints := r.complaints + [MissingParen]));
    hide Dcl, Suffixes;
  }

  /** The parser complains of everything but declarators. */
  lemma DclExactly(p: State)
    requires Closed(p.rest)
    ensures Dcl(p).complaints == p.complaints <==>
      exists d, rest :: Spells(p.rest, Pieces(d), rest) && EndsDeclarator(Lex(rest).tok)
  {
    hide Dcl, Lex, Closed, Spells;
    if Dcl(p).complaints == p.complaints {
      var d, rest := DclTaken(p);
    }
    if d, rest :| Spells(p.rest, Pieces(d), rest) && EndsDeclarator(Lex(rest).tok) {
      DclReads(p, d, rest);
    }
  }

  // ---------- printing ----------

  predicate NameText(s: string) {
    s != "" && IsAlpha(s[0]) && forall i | 0 <= i < |s| :: IsAlnum(s[i])
  }

  predicate SizeText(s: string) {
    forall i | 0 <= i < |s| :: s[i] != ']'
  }

  /** Names are identifiers and sizes contain no bracket. */
  predicate Printable(d: Declarator) {
    PrintableDirect(d.direct)
  }

  predicate PrintableDirect(d: Direct) {
    match d
    case Ident(name) => NameText(name)
    case Grouped(inner) => Printable(inner)
    case FunctionOf(f) => PrintableDirect(f)
    case ArrayOf(a, size) => PrintableDirect(a) && SizeText(size)
  }

  function Text(p: Piece): string {
    match p.tok
    case Char(c) => [c]
    case _ => if p.text.Some? then p.text.value else ""
  }

  /** The tokens one after another, each with some blanks before it. */
  function Print(ps: seq<Piece>, blanks: string, rest: string): string {
    if ps == [] then rest else blanks + Text(ps[0]) + Print(ps[1..], blanks, rest)
  }

  predicate AllBlank(s: string) {
    forall i | 0 <= i < |s| :: s[i] == ' ' || s[i] == '\t'
  }

  predicate GoodPiece(p: Piece) {
    match p.tok
    case Name => p.text.Some? && NameText(p.text.value)
    case Parens => p.text == Some("()")
    case Brackets => p.text.Some? && |p.text.value| >= 2 &&
      p.text.value == "[" + p.text.value[1..|p.text.value| - 1] + "]"
                     && SizeText(p.text.value[1..|p.text.value| - 1])
    case Char(c) => p.text.None? && (c == '*' || c == '(' || c == ')')
    case Eof => false
  }

  /** The characters after a token do not change it: a name ends, and '(' is not "()". */
  predicate Stops(p: Piece, after: string) {
    && (p.tok == Name ==> after == "" || !IsAlnum(after[0]))
    && (p.tok == Char('(') ==> after == "" || after[0] != ')')
  }

  lemma {:induction false} SkipsBlanks(b: string, s: string)
    requires AllBlank(b) && (s == "" || !IsBlank(s[0]))
    ensures SkipBlanks(b + s) == s
  {
    if b == "" {
      assert b + s == s;
    } else {
      assert (b + s)[1..] == b[1..] + s;
      SkipsBlanks(b[1..], s);
    }
  }

  lemma {:induction false} AlnumSpanOf(a: string, s: string)
    requires (forall i | 0 <= i < |a| :: IsAlnum(a[i])) && (s == "" || !IsAlnum(s[0]))
    ensures AlnumSpan(a + s) == |a|
  {
    if a == "" {
      assert a + s == s;
    } else {
      assert (a + s)[1..] == a[1..] + s;
      AlnumSpanOf(a[1..], s);
    }
  }

  lemma {:induction false} BracketSpanOf(a: string, s: string)
    requires SizeText(a) && s != "" && s[0] == ']'
    ensures BracketSpan(a + s) == |a|
  {
    if a == "" {
      assert a + s == s;
    } else {
      assert (a + s)[1..] == a[1..] + s;
      BracketSpanOf(a[1..], s);
    }
  }

  lemma LexName(t: string, name: string, after: string)
    requires NameText(name) && t == name + after && (after == "" || !IsAlnum(after[0]))
    ensures AlnumSpan(t) == |name| && t[..|name|] == name && t[|name|..] == after
  {
    AlnumSpanOf(name, after);
  }

  lemma LexBrackets(t: string, size: string, after: string)
    requires SizeText(size) && t == "[" + size + "]" + after
    ensures BracketSpan(t) == |size| + 1 && t[..|size| + 2] == "[" + size + "]" && t[|size| + 2..] == after
  {
    assert t == ("[" + size) + ("]" + after);
    BracketSpanOf("[" + size, "]" + after);
  }

  /** A printed token is read back. */
  lemma LexPrinted(p: Piece, blanks: string, after: string)
    requires GoodPiece(p) && AllBlank(blanks) && Stops(p, after)
    ensures Lex(blanks + (Text(p) + after)) == Lexeme(p.tok, p.text, after)
  {
    hide SkipBlanks, Lex;
    LexTextAt(p, after);
    SkipsBlanks(blanks, Text(p) + after);
    LexIs(blanks + (Text(p) + after));
  }

  lemma LexIs(s: string)
    ensures Lex(s) == LexAt(SkipBlanks(s))
  {
  }

  lemma LexTextAt(p: Piece, after: string)
    requires GoodPiece(p) && Stops(p, after)
    ensures LexAt(Text(p) + after) == Lexeme(p.tok, p.text, after)
    ensures Text(p) + after == "" || !IsBlank((Text(p) + after)[0])
  {
    var t := Text(p) + after;
    match p.tok {
      case Name =>
        LexName(t, p.text.value, after);
      case Brackets =>
        LexBrackets(t, p.text.value[1..|p.text.value| - 1], after);
      case Parens =>
        assert t[2..] == after;
      case Char(c) =>
        assert t[1..] == after;
      case Eof =>
    }
    hide AlnumSpan, BracketSpan, GoodPiece, Stops;
  }

  /** Every piece is good and stops where the next one, or what follows, begins. */
  ghost predicate WellSpaced(ps: seq<Piece>, blanks: string, rest: string) {
    ps != [] ==> GoodPiece(ps[0]) && Stops(ps[0], Print(ps[1..], blanks, rest)) && WellSpaced(ps[1..], blanks, rest)
  }

  lemma {:induction false} PrintSpells(ps: seq<Piece>, blanks: string, rest: string)
    requires AllBlank(blanks) && WellSpaced(ps, blanks, rest)
    ensures Spells(Print(ps, blanks, rest), ps, rest)
    decreases |ps|
  {
    if ps != [] {
      var after := Print(ps[1..], blanks, rest);
      assert Print(ps, blanks, rest) == blanks + (Text(ps[0]) + after);
      LexPrinted(ps[0], blanks, after);
      PrintSpells(ps[1..], blanks, rest);
    }
  }

  lemma {:induction false} PrintConcat(a: seq<Piece>, b: seq<Piece>, blanks: string, rest: string)
    ensures Print(a + b, blanks, rest) == Print(a, blanks, Print(b, blanks, rest))
    ensures WellSpaced(a + b, blanks, rest) <==>
      WellSpaced(a, blanks, Print(b, blanks, rest)) && WellSpaced(b, blanks, rest)
    decreases |a|
  {
    if a == [] {
      assert a + b == b;
    } else {
      assert (a + b)[1..] == a[1..] + b;
      PrintConcat(a[1..], b, blanks, rest);
    }
  }

  /** The first printed character. */
  lemma PrintFirst(ps: seq<Piece>, blanks: string, rest: string)
    requires ps != [] && GoodPiece(ps[0]) && AllBlank(blanks)
    ensures var s := Print(ps, blanks, rest);
      s != "" && (blanks != "" ==> s[0] == blanks[0]) && (blanks == "" ==> s[0] == Text(ps[0])[0])
  {
  }

  lemma {:induction false} DeclaratorWellSpaced(d: Declarator, blanks: string, rest: string)
    requires Printable(d) && AllBlank(blanks) && (rest == "" || !IsAlnum(rest[0]))
    ensures WellSpaced(Pieces(d), blanks, rest)
    ensures GoodPiece(Pieces(d)[0]) && Pieces(d)[0].tok != Char(')') && Pieces(d)[0].tok != Parens
    decreases d, 1
  {
    var stars := seq(d.stars, i => Piece(Char('*'), None));
    DirectWellSpaced(d.direct, blanks, rest);
    StarsWellSpaced(d.stars, blanks, Print(PiecesOfDirect(d.direct), blanks, rest));
    PrintConcat(stars, PiecesOfDirect(d.direct), blanks, rest);
  }

  lemma {:induction false} StarsWellSpaced(n: nat, blanks: string, rest: string)
    ensures WellSpaced(seq(n, i => Piece(Char('*'), None)), blanks, rest)
    decreases n
  {
    if n > 0 {
      assert seq(n, i => Piece(Char('*'), None))[1..] == seq(n - 1, i => Piece(Char('*'), None));
      StarsWellSpaced(n - 1, blanks, rest);
    }
  }

  lemma {:induction false} DirectWellSpaced(d: Direct, blanks: string, rest: string)
    requires PrintableDirect(d) && AllBlank(blanks) && (rest == "" || !IsAlnum(rest[0]))
    ensures WellSpaced(PiecesOfDirect(d), blanks, rest) && GoodPiece(PiecesOfDirect(d)[0])
    decreases d, 0
  {
    match d
    case Ident(name) =>
    case Grouped(inner) =>
      var open, close := [Piece(Char('('), None)], [Piece(Char(')'), None)];
      LastWellSpaced(Pieces(inner), close[0], blanks, rest);
      DeclaratorWellSpaced(inner, blanks, Print(close, blanks, rest));
      PrintConcat(Pieces(inner), close, blanks, rest);
      PrintFirst(Pieces(inner) + close, blanks, rest);
      assert PiecesOfDirect(d) == open + (Pieces(inner) + close);
      assert PiecesOfDirect(d)[1..] == Pieces(inner) + close;
    case FunctionOf(f) =>
      var last := Piece(Parens, Some("()"));
      LastWellSpaced(PiecesOfDirect(f), last, blanks, rest);
      DirectWellSpaced(f, blanks, Print([last], blanks, rest));
      PrintConcat(PiecesOfDirect(f), [last], blanks, rest);
    case ArrayOf(a, size) =>
      var last := Piece(Brackets, Some("[" + size + "]"));
      assert last.text.value[1..|last.text.value| - 1] == size;
      LastWellSpaced(PiecesOfDirect(a), last, blanks, rest);
      DirectWellSpaced(a, blanks, Print([last], blanks, rest));
      PrintConcat(PiecesOfDirect(a), [last], blanks, rest);
  }

  /** A closing token stops anywhere, and is not taken for the end of a name. */
  lemma LastWellSpaced(ps: seq<Piece>, last: Piece, blanks: string, rest: string)
    requires GoodPiece(last) && last.tok != Name && last.tok != Char('(') && AllBlank(blanks)
    ensures WellSpaced([last], blanks, rest)
    ensures var s := Print([last], blanks, rest); s != "" && !IsAlnum(s[0])
  {
    PrintFirst([last], blanks, rest);
    assert [last][1..] == [];
  }

  /** Round trip: a declarator printed with any blanks between its tokens, before anything that does
      not prolong it, is read as the type it declares. */
  lemma PrintedDclReads(p: State, d: Declarator, blanks: string, rest: string)
    requires Printable(d) && AllBlank(blanks) && (rest == "" || !IsAlnum(rest[0])) && EndsDeclarator(Lex(rest).tok)
    requires p.rest == Print(Pieces(d), blanks, rest)
    ensures Reads(p, Dcl(p), d, rest)
  {
    DeclaratorWellSpaced(d, blanks, rest);
    PrintSpells(Pieces(d), blanks, rest);
    DclReads(p, d, rest);
  }

  // ---------- lines ----------

  /** What the program prints for one declaration, and whether it complains about its end. */
  datatype Output = Output(name: string, words: string, specifier: string, syntaxError: bool)

  /** One round of the main loop; None at the end of the input. */
  function Line(p: State): (State, Option<Output>) {
    var q := GetToken(p);
    if q.tok == Eof then (q, None)
    else
      var r := Dcl(q.(out := ""));
      (r, Some(Output(r.name, r.out, q.token, r.tok != Char('\n'))))
  }

  /** A whole line: specifier, declarator, newline. */
  lemma LineReads(p: State, specifier: string, d: Declarator, blanks: string, more: string)
    requires NameText(specifier) && Printable(d) && AllBlank(blanks)
    requires Pieces(d)[0].tok == Name ==> blanks != ""
    requires p.rest == Print([Piece(Name, Some(specifier))] + Pieces(d), blanks, "\n" + more)
    ensures Line(p).1 == Some(Output(NameOf(d), Say(TypeOf(d, Base)), specifier, false))
    ensures Line(p).0.rest == more && Line(p).0.complaints == p.complaints
  {
    var first, end := Piece(Name, Some(specifier)), "\n" + more;
    var after := Print(Pieces(d), blanks, end);
    NewlineEnds(end, more);
    FirstOfDeclarator(d, blanks, end);
    assert ([first] + Pieces(d))[1..] == Pieces(d);
    hide Print, Pieces, Say, TypeOf, LexAt, SkipBlanks;
    assert p.rest == blanks + (Text(first) + after);
    LexPrinted(first, blanks, after);
    PrintedDclReads(GetToken(p).(out := ""), d, blanks, end);
    BaseWords(Dcl(GetToken(p).(out := "")).out, Say(TypeOf(d, Base)));
  }

  /** A line goes through without a complaint if and only if it is a token, a declarator and a newline. */
  lemma LineExactly(p: State)
    requires Closed(p.rest) && Lex(p.rest).tok != Eof
    ensures Line(p).1.Some?
    ensures !Line(p).1.value.syntaxError && Line(p).0.complaints == p.complaints <==>
      exists d, rest :: Spells(Lex(p.rest).rest, Pieces(d), rest) && Lex(rest).tok == Char('\n')
  {
    var q := GetToken(p).(out := "");
    LexClosed(p.rest);
    hide Dcl, Lex, Closed, Spells;
    if Dcl(q).tok == Char('\n') && Dcl(q).complaints == q.complaints {
      var d, rest := DclTaken(q);
      DclReads(q, d, rest);
    }
    if d, rest :| Spells(q.rest, Pieces(d), rest) && Lex(rest).tok == Char('\n') {
      DclReads(q, d, rest);
    }
  }

  lemma PrintCons(p: Piece, ps: seq<Piece>, rest: string)
    ensures Print([p] + ps, "", rest) == Text(p) + Print(ps, "", rest)
  {
    assert ([p] + ps)[1..] == ps && "" + Text(p) == Text(p);
  }

  /** A function that returns a pointer, and a pointer to a function. */
  function ReturnsPointer(): Declarator {
    Declarator(1, FunctionOf(Ident("f")))
  }

  function ToFunction(): Declarator {
    Declarator(0, FunctionOf(Grouped(Declarator(1, Ident("f")))))
  }

  lemma ReturnsPointerPrinted()
    ensures Print([Piece(Name, Some("char"))] + Pieces(ReturnsPointer()), "", "\n") == "char*f()\n"
    ensures Pieces(ReturnsPointer())[0].tok == Char('*')
  {
    var star, name, call := Piece(Char('*'), None), Piece(Name, Some("f")), Piece(Parens, Some("()"));
    assert Pieces(ReturnsPointer()) == [star] + ([name] + ([call] + []));
    assert Print([], "", "\n") == "\n";
    hide Print, Pieces;
    PrintCons(call, [], "\n");
    PrintCons(name, [call] + [], "\n");
    PrintCons(star, [name] + ([call] + []), "\n");
    PrintCons(Piece(Name, Some("char")), [star] + ([name] + ([call] + [])), "\n");
    assert "char*f()\n" == "char" + ("*" + ("f" + ("()" + "\n")));
  }

  lemma ToFunctionPieces()
    ensures var star, name, call := Piece(Char('*'), None), Piece(Name, Some("f")), Piece(Parens, Some("()"));
      Pieces(ToFunction()) == [Piece(Char('('), None), star, name, Piece(Char(')'), None), call]
  {
    assert Pieces(Declarator(1, Ident("f"))) == [Piece(Char('*'), None)] + [Piece(Name, Some("f"))];
  }

  lemma ToFunctionPrinted()
    ensures Print([Piece(Name, Some("char"))] + Pieces(ToFunction()), "", "\n") == "char(*f)()\n"
    ensures Pieces(ToFunction())[0].tok == Char('(')
  {
    var star, name, call := Piece(Char('*'), None), Piece(Name, Some("f")), Piece(Parens, Some("()"));
    var open, close := Piece(Char('('), None), Piece(Char(')'), None);
    ToFunctionPieces();
    assert Print([], "", "\n") == "\n";
    assert Text(open) == "(" && Text(star) == "*" && Text(name) == "f" && Text(close) == ")" && Text(call) == "()";
    hide Print, Pieces, Text;
    PrintCons(call, [], "\n");
    assert [call] + [] == [call] && "()" + "\n" == "()\n";
    PrintCons(close, [call], "\n");
    assert [close] + [call] == [close, call] && ")" + "()\n" == ")()\n";
    PrintCons(name, [close, call], "\n");
    assert [name] + [close, call] == [name, close, call] && "f" + ")()\n" == "f)()\n";
    ToFunctionFront(open, star, [name, close, call]);
    assert [open, star] + [name, close, call] == [open, star, name, close, call];
  }

  lemma ToFunctionFront(open: Piece, star: Piece, ps: seq<Piece>)
    requires Print(ps, "", "\n") == "f)()\n" && Text(open) == "(" && Text(star) == "*"
    ensures Print([Piece(Name, Some("char"))] + ([open, star] + ps), "", "\n") == "char(*f)()\n"
  {
    hide Print;
    PrintCons(star, ps, "\n");
    PrintCons(open, [star] + ps, "\n");
    assert [open] + ([star] + ps) == [open, star] + ps;
    PrintCons(Piece(Name, Some("char")), [open, star] + ps, "\n");
    assert "*" + "f)()\n" == "*f)()\n" && "(" + "*f)()\n" == "(*f)()\n" && "char" + "(*f)()\n" == "char(*f)()\n";
  }

  lemma TheirWords()
    ensures Say(TypeOf(ReturnsPointer(), Base)) == " function returning pointer to"
    ensures Say(TypeOf(ToFunction(), Base)) == " pointer to function returning"
    ensures NameOf(ReturnsPointer()) == NameOf(ToFunction()) == "f"
    ensures Printable(ReturnsPointer()) && Printable(ToFunction()) && NameText("char")
  {
    assert Pointers(1, Base) == PointerTo(Base) && Pointers(0, Base) == Base;
    assert TypeOf(ReturnsPointer(), Base) == FunctionReturning(PointerTo(Base));
    assert Pointers(1, FunctionReturning(Base)) == PointerTo(FunctionReturning(Base));
    assert TypeOf(ToFunction(), Base) == TypeOf(Declarator(1, Ident("f")), FunctionReturning(Base));
    assert TypeOf(ToFunction(), Base) == PointerTo(FunctionReturning(Base));
    assert Say(PointerTo(Base)) == " pointer to" && Say(FunctionReturning(Base)) == " function returning";
  }

  /** The two as lines of input, and what is printed for them. */
  lemma LinesRead(p: State)
    requires p.complaints == []
    ensures p.rest == "char*f()\n" ==>
      && Line(p).1 == Some(Output("f", " function returning pointer to", "char", false))
      && Line(p).0.rest == "" && Line(p).0.complaints == []
    ensures p.rest == "char(*f)()\n" ==>
      && Line(p).1 == Some(Output("f", " pointer to function returning", "char", false))
      && Line(p).0.rest == "" && Line(p).0.complaints == []
  {
    TheirWords();
    NoBlanks();
    assert "\n" + "" == "\n";
    hide *;
    if p.rest == "char*f()\n" {
      ReturnsPointerPrinted();
      LineReads(p, "char", ReturnsPointer(), "", "");
    } else if p.rest == "char(*f)()\n" {
      ToFunctionPrinted();
      LineReads(p, "char", ToFunction(), "", "");
    }
  }

  lemma NoBlanks()
    ensures AllBlank("")
  {
  }

  lemma NewlineEnds(end: string, more: string)
    requires end == "\n" + more
    ensures Lex(end) == Lexeme(Char('\n'), None, more) && !IsAlnum(end[0])
  {
    assert end[1..] == more;
  }

  lemma BaseWords(out: string, words: string)
    requires out + Say(Base) == "" + words
    ensures out == words
  {
    assert out + "" == out && "" + words == words;
  }

  /** After a specifier a declarator cannot be taken for more of it. */
  lemma FirstOfDeclarator(d: Declarator, blanks: string, rest: string)
    requires Printable(d) && AllBlank(blanks) && (rest == "" || !IsAlnum(rest[0]))
    requires Pieces(d)[0].tok == Name ==> blanks != ""
    ensures var s := Print(Pieces(d), blanks, rest); s == "" || !IsAlnum(s[0])
    decreases d, 2
  {
    DeclaratorWellSpaced(d, blanks, rest);
    PrintFirst(Pieces(d), blanks, rest);
  }

  // ---------- the program ----------

  class Parser {
    var input: string               // what getchar has not delivered yet
    var buf: seq<Option<char>>      // pushed-back characters, None for EOF
    var tokentype: Tok
    var token: string
    var name: string
    var out: string
    var complaints: seq<Complaint>

    /** At most one character is ever pushed back. */
    ghost predicate Valid()
      reads this
    {
      |buf| <= 1 && (buf == [None] ==> input == "")
    }

    ghost function Rest(): string
      reads this
    {
      if buf != [] && buf[0].Some? then [buf[0].value] + input else input
    }

    ghost function Now(): State
      reads this
    {
      State(Rest(), tokentype, token, name, out, complaints)
    }

    /** The input from the character just read on. */
    ghost function From(c: Option<char>): string
      reads this
    {
      if c.Some? then [c.value] + Rest() else Rest()
    }

    method Getch() returns (c: Option<char>)
      requires Valid()
      modifies this`input, this`buf
      ensures Valid() && buf == []
      ensures From(c) == old(Rest()) && (c.None? ==> Rest() == "")
    {
      if buf != [] {
        c := buf[0];
        buf := [];
      } else if input == "" {
        c := None;
      } else {
        c := Some(input[0]);
        input := input[1..];
      }
    }

    method Ungetch(c: Option<char>)
      requires Valid() && buf == [] && (c.None? ==> Rest() == "")
      modifies this`buf
      ensures Valid() && Rest() == old(From(c))
    {
      buf := [c];
    }

    /** `gettoken`; the input's brackets must be closed. */
    method GetTok() returns (t: Tok)
      requires Valid() && Closed(Rest())
      modifies this
      ensures Valid() && Closed(Rest())
      ensures Now() == GetToken(old(Now())) && t == tokentype
    {
      ghost var was, x := Now(), Lex(Rest());
      LexClosed(was.rest);
      SkipClosed(was.rest);
      assert x == LexAt(SkipBlanks(was.rest));
      hide Closed, SkipBlanks, LexAt, Lex;
      var c := SkipSpace();
      TokenFrom(c);
      t := tokentype;
    }

    /** The token that starts with the character `c`, already read. */
    method TokenFrom(c: Option<char>)
      requires Valid() && buf == [] && (c.None? ==> Rest() == "") && Closed(From(c))
      modifies this`input, this`buf, this`token, this`tokentype
      ensures Valid()
      ensures var x := LexAt(old(From(c)));
        Rest() == x.rest && tokentype == x.tok && token == (if x.text.Some? then x.text.value else old(token))
    {
      hide Closed, AlnumSpan, BracketSpan;
      ghost var t := From(c);
      assert c.Some? ==> t[0] == c.value && t[1..] == Rest();
      if c == Some('(') {
        AfterParen();
        assert t[1..] != "" ==> t[1..][1..] == t[2..];
      } else if c == Some('[') {
        ReadBrackets(t);
        tokentype := Brackets;
      } else if c.Some? && IsAlpha(c.value) {
        ReadName(c.value, t);
        tokentype := Name;
      } else {
        tokentype := if c.None? then Eof else Char(c.value);
      }
    }

    method SkipSpace() returns (c: Option<char>)
      requires Valid()
      modifies this`input, this`buf
      ensures Valid() && buf == [] && (c.None? ==> Rest() == "")
      ensures From(c) == SkipBlanks(old(Rest()))
    {
      c := Getch();
      while c.Some? && IsBlank(c.value)
        invariant Valid() && buf == [] && (c.None? ==> Rest() == "")
        invariant SkipBlanks(From(c)) == SkipBlanks(old(Rest()))
        decreases |From(c)|
      {
        assert From(c)[1..] == Rest();
        c := Getch();
      }
    }

    /** After '(': "()" is one token, anything else is pushed back. */
    method AfterParen()
      requires Valid() && buf == []
      modifies this`input, this`buf, this`token, this`tokentype
      ensures Valid()
      ensures if old(Rest()) != "" && old(Rest())[0] == ')'
              then tokentype == Parens && token == "()" && Rest() == old(Rest())[1..]
              else tokentype == Char('(') && token == old(token) && Rest() == old(Rest())
    {
      ghost var s := Rest();
      var c := Getch();
      assert c.Some? ==> s[0] == c.value && s[1..] == Rest();
      if c == Some(')') {
        token := "()";
        tokentype := Parens;
      } else {
        Ungetch(c);
        tokentype := Char('(');
      }
    }

    /** The loop that copies up to the closing bracket. */
    method ReadBrackets(ghost t: string)
      requires Valid() && buf == [] && t == "[" + Rest() && Closed(t)
      modifies this`input, this`buf, this`token
      ensures Valid() && buf == []
      ensures BracketSpan(t) < |t| && token == t[..BracketSpan(t) + 1] && Rest() == t[BracketSpan(t) + 1..]
    {
      BracketCloses(t);
      assert Rest() == t[1..];
      hide Closed, BracketSpan, SizeText;
      var size := CopyToBracket();
      token := "[" + size + "]";
      LexBrackets(t, size, Rest());
    }

    /** Everything before the next ']', which is consumed too. */
    method CopyToBracket() returns (p: string)
      requires Valid() && buf == [] && ']' in Rest()
      modifies this`input, this`buf
      ensures Valid() && buf == [] && SizeText(p) && "[" + old(Rest()) == "[" + p + "]" + Rest()
    {
      hide SizeText;
      EmptySize();
      p := "";
      var c := Getch();
      assert p + From(c) == From(c);
      while c != Some(']')
        invariant Valid() && buf == [] && (c.None? ==> Rest() == "")
        invariant p + From(c) == old(Rest()) && ']' in From(c) && SizeText(p)
        decreases |From(c)|
      {
        assert From(c) == [c.value] + Rest();
        SizeGrows(p, c.value, Rest());
        p := p + (if c.Some? then [c.value] else []);
        c := Getch();
      }
      BracketAround(p, From(c), Rest());
    }

    /** The loop that copies an identifier, and pushes back the character after it. */
    method ReadName(first: char, ghost t: string)
      requires Valid() && buf == [] && t == [first] + Rest() && IsAlpha(first)
      modifies this`input, this`buf, this`token
      ensures Valid() && token == t[..AlnumSpan(t)] && Rest() == t[AlnumSpan(t)..]
    {
      hide AlnumSpan;
      var p := [first];
      var c := Getch();
      while c.Some? && IsAlnum(c.value)
        invariant Valid() && buf == [] && (c.None? ==> Rest() == "")
        invariant p + From(c) == t && NameText(p)
        decreases |From(c)|
      {
        ghost var from := From(c);
        assert p + from == (p + [c.value]) + Rest();
        p := p + [c.value];
        c := Getch();
      }
      token := p;
      Ungetch(c);
      LexName(t, p, Rest());
    }

    /** One round of `main`'s loop. */
    method LineProc() returns (line: Option<Output>)
      requires Valid() && Closed(Rest())
      modifies this
      ensures Valid() && Closed(Rest()) && (Now(), line) == Line(old(Now()))
    {
      hide Closed, GetToken, Dcl;
      var t := GetTok();
      if t == Eof {
        return None;
      }
      var specifier := token;
      out := "";
      DclProc();
      return Some(Output(name, out, specifier, tokentype != Char('\n')));
    }

    /** `dcl`. */
    method DclProc()
      requires Valid() && Closed(Rest())
      modifies this
      ensures Valid() && Closed(Rest()) && Now() == Dcl(old(Now()))
      decreases |Rest()|, 2
    {
      var ns := CountStars();
      hide Stars, Suffixes, GetToken;
      DirDclProc();
      AppendPointers(ns);
    }

    /** `for (ns = 0; gettoken() == '*';) ns++` */
    method CountStars() returns (ns: nat)
      requires Valid() && Closed(Rest())
      modifies this
      ensures Valid() && Closed(Rest()) && (Now(), ns) == Stars(old(Now())) && Weight(Now()) <= |old(Rest())|
    {
      ghost var start := Now();
      hide Closed, GetToken, Lex;
      ns := 0;
      var t := GetTok();
      while t == Char('*')
        invariant Valid() && Closed(Rest()) && t == tokentype && Weight(Now()) <= |start.rest|
        invariant Stars(start) == (if t == Char('*') then (Stars(Now()).0, ns + 1 + Stars(Now()).1) else (Now(), ns))
        decreases |Rest()|, t != Eof
      {
        ns := ns + 1;
        t := GetTok();
      }
    }

    /** `while (ns-- > 0) strcat(out, " pointer to")` */
    method AppendPointers(n: nat)
      requires Valid()
      modifies this`out
      ensures out == old(out) + Repeat(" pointer to", n)
    {
      var ns := n;
      assert out + "" == out;
      while ns > 0
        invariant 0 <= ns <= n && out == old(out) + Repeat(STAR_WORDS, n - ns)
      {
        RepeatSnoc(STAR_WORDS, n - ns);
        Assoc(old(out), Repeat(STAR_WORDS, n - ns), STAR_WORDS);
        out := out + " pointer to";
        ns := ns - 1;
      }
    }

    /** `dirdcl`. */
    method DirDclProc()
      requires Valid() && Closed(Rest())
      modifies this
      ensures Valid() && Closed(Rest()) && Now() == DirDcl(old(Now()))
      decreases Weight(Now()), 1
    {
      hide Closed, Dcl, Suffixes;
      if tokentype == Char('(') {
        DclProc();
        if tokentype != Char(')') {
          complaints := complaints + [MissingParen];
        }
      } else if tokentype == Name {
        name := token;
      } else {
        complaints := complaints + [ExpectedName];
      }
      ReadSuffixes();
    }

    /** The loop over "()" and "[...]". */
    method ReadSuffixes()
      requires Valid() && Closed(Rest())
      modifies this
      ensures Valid() && Closed(Rest()) && Now() == Suffixes(old(Now()))
    {
      ghost var start := Now();
      hide Closed, Lex, GetToken;
      var t := GetTok();
      while t == Parens || t == Brackets
        invariant Valid() && Closed(Rest()) && t == tokentype
        invariant Suffixes(start) == AfterSuffix(Now())
        decreases |Rest()|, t != Eof
      {
        if t == Parens {
          out := out + " function returning";
        } else {
          Assoc(" array", token, " of");
          Assoc(out, " array" + token, " of");
          Assoc(out, " array", token);
          out := out + " array";
          out := out + token;
          out := out + " of";
        }
        t := GetTok();
      }
    }
  }

  /** The rest of the loop when the current token may be a suffix. */
  function AfterSuffix(q: State): State {
    if q.tok == Parens then Suffixes(q.(out := q.out + FUNCTION))
    else if q.tok == Brackets then Suffixes(q.(out := q.out + ArrayWords(q.token)))
    else q
  }

  lemma {:induction false} RepeatSnoc(s: string, n: nat)
    ensures Repeat(s, n + 1) == Repeat(s, n) + s
  {
    if n > 0 {
      RepeatSnoc(s, n - 1);
      Assoc(s, Repeat(s, n - 1), s);
    }
  }

  lemma BracketCloses(t: string)
    requires Closed(t) && t != "" && t[0] == '['
    ensures ']' in t[1..]
  {
    var j :| 0 < j < |t| && t[j] == ']';
    assert t[1..][j - 1] == ']';
  }

  lemma BracketAround(p: string, from: string, rest: string)
    requires from == [']'] + rest
    ensures "[" + (p + from) == "[" + p + "]" + rest
  {
  }

  lemma EmptySize()
    ensures SizeText("")
  {
  }

  /** One more character between the brackets. */
  lemma SizeGrows(size: string, c: char, rest: string)
    requires SizeText(size) && c != ']' && ']' in [c] + rest
    ensures SizeText(size + [c]) && ']' in rest
    ensures size + ([c] + rest) == (size + [c]) + rest
  {
  }
}
