/** Parsing undoes printing for whole translation units. */
module UnitRoundTrip {
  import opened Wrappers
  import opened Ast
  import opened Tokens
  import opened Grammar
  import opened Printer
  import opened RoundTrip
  import opened StmtRoundTrip

  // --- concrete syntax ---

  /** A type as it is written: the element type of a texture is read and dropped. */
  datatype CType = CType(ty: Type, element: Option<Input>)

  /** What may follow a colon: a semantic, the same as a plain word, or any other token, which is dropped. */
  datatype CSemantic = NoSemantic | Proper(s: string) | Plain(s: string) | Dropped(t: Tok)

  /** A member or parameter; parameters may have a modifier, which is dropped. */
  datatype CField = CField(modifier: Option<string>, ty: CType, name: string, semantic: CSemantic)

  /** A register clause: a keyword (any will do) and, in parentheses, a first token and whatever else up to the next
      closing one. A bare colon, or a colon and a keyword, are dropped. */
  datatype CRegister = NoRegister | Clause(k: Keyword, first: Tok, more: Input) | Keyworded(k: Keyword) | BareColon

  datatype CTop =
    | CStruct(name: string, members: seq<CField>)
    | CBuffer(name: string, register: CRegister, members: seq<CField>)
    | CFunction(ty: CType, name: string, params: seq<CField>, semantic: CSemantic, body: Option<Block>)
    | CGlobal(ty: CType, name: string, register: CRegister)

  // --- what it stands for ---

  function SemanticOf(c: CSemantic): Option<string> {
    match c
    case Proper(s) => Some(s)
    case Plain(s) => Some(s)
    case _ => None
  }

  function FieldOf(c: CField): Field { Field(c.ty.ty, c.name, SemanticOf(c.semantic)) }

  function FieldsOf(cs: seq<CField>): (fs: seq<Field>)
    ensures |fs| == |cs|
  {
    seq(|cs|, i requires 0 <= i < |cs| => FieldOf(cs[i]))
  }

  function RegisterOf(c: CRegister): Option<string> {
    if c.Clause? && c.first.TIdent? then Some(c.first.s) else None
  }

  function TopOf(c: CTop): TopDecl {
    match c
    case CStruct(name, members) => StructDecl(name, FieldsOf(members))
    case CBuffer(name, register, members) => CBufferDecl(name, RegisterOf(register), FieldsOf(members))
    case CFunction(ty, name, params, semantic, body) => FunctionDecl(ty.ty, name, FieldsOf(params), SemanticOf(semantic), body)
    case CGlobal(ty, name, register) => GlobalVarDecl(ty.ty, name, RegisterOf(register))
  }

  function UnitOf(cs: seq<CTop>): (ds: seq<TopDecl>)
    ensures |ds| == |cs|
  {
    seq(|cs|, i requires 0 <= i < |cs| => TopOf(cs[i]))
  }

  // --- printing ---

  function PrintType(c: CType): (ts: Input)
    ensures ts != [] && ts[0] == TypeTok(c.ty)
  {
    match c.element
    case Some(a) => [TypeTok(c.ty)] + ([TLt] + (a + [TGt]))
    case None => [TypeTok(c.ty)]
  }

  function PrintColon(c: CSemantic): Input {
    match c
    case NoSemantic => []
    case Proper(s) => [Colon] + [TSemantic(s)]
    case Plain(s) => [Colon] + [TIdent(s)]
    case Dropped(t) => [Colon] + [t]
  }

  function PrintRegister(c: CRegister): Input {
    match c
    case NoRegister => []
    case Clause(k, first, more) => [Colon] + ([TKeyword(k)] + ([LParen] + ([first] + (more + [RParen]))))
    case Keyworded(k) => [Colon] + [TKeyword(k)]
    case BareColon => [Colon]
  }

  function PrintField(f: CField): (ts: Input)
    ensures ts != []
  {
    (match f.modifier { case Some(w) => [TIdent(w)] case None => [] })
      + (PrintType(f.ty) + ([TIdent(f.name)] + PrintColon(f.semantic)))
  }

  /** Members with their semicolons. */
  function PrintFields(fs: seq<CField>): Input {
    if fs == [] then [] else PrintField(fs[0]) + ([Semicolon] + PrintFields(fs[1..]))
  }

  /** Parameters between commas. */
  function PrintParams(fs: seq<CField>): Input {
    if fs == [] then []
    else if |fs| == 1 then PrintField(fs[0])
    else PrintField(fs[0]) + ([Comma] + PrintParams(fs[1..]))
  }

  function PrintBody(body: Option<Block>): Input {
    match body
    case Some(b) => PrintBlock(b)
    case None => [Semicolon]
  }

  function PrintMembers(fs: seq<CField>): Input {
    [LBrace] + (PrintFields(fs) + ([RBrace] + [Semicolon]))
  }

  function PrintTop(d: CTop): (ts: Input)
    ensures ts != []
  {
    match d
    case CStruct(name, members) => [TKeyword(KStruct)] + ([TIdent(name)] + PrintMembers(members))
    case CBuffer(name, register, members) =>
      [TKeyword(KCBuffer)] + ([TIdent(name)] + (PrintRegister(register) + PrintMembers(members)))
    case CFunction(ty, name, params, semantic, body) =>
      PrintType(ty)
        + ([TIdent(name)] + ([LParen] + (PrintParams(params) + ([RParen] + (PrintColon(semantic) + PrintBody(body))))))
    case CGlobal(ty, name, register) => PrintType(ty) + ([TIdent(name)] + (PrintRegister(register) + [Semicolon]))
  }

  function PrintUnit(ds: seq<CTop>): Input {
    if ds == [] then [] else PrintTop(ds[0]) + PrintUnit(ds[1..])
  }

  // --- printable units ---

  predicate TypeWritten(names: set<string>, c: CType) {
    TypeOk(names, c.ty) && (c.element.Some? ==> c.ty == Texture2D && TGt !in c.element.value)
  }

  predicate SemanticWritten(c: CSemantic) {
    c.Dropped? ==> !c.t.TSemantic? && !c.t.TIdent? && c.t != Eof
  }

  predicate RegisterWritten(c: CRegister) {
    c.Clause? ==> RParen !in c.more
  }

  predicate IsModifier(w: string) {
    w == "in" || w == "out" || w == "inout" || w == "uniform"
  }

  /** A struct named like a parameter modifier: a parameter of that type loses it, unless it has a modifier. */
  predicate NamedLikeModifier(ty: Type) {
    ty.Struct? && IsModifier(ty.name)
  }

  predicate MemberOk(names: set<string>, f: CField) {
    f.modifier.None? && TypeWritten(names, f.ty) && SemanticWritten(f.semantic)
  }

  predicate ParamOk(names: set<string>, f: CField) {
    && (if f.modifier.Some? then IsModifier(f.modifier.value) else !NamedLikeModifier(f.ty.ty))
    && TypeWritten(names, f.ty) && SemanticWritten(f.semantic)
  }

  predicate MembersOk(names: set<string>, fs: seq<CField>) {
    forall i :: 0 <= i < |fs| ==> MemberOk(names, fs[i])
  }

  predicate ParamsOk(names: set<string>, fs: seq<CField>) {
    forall i :: 0 <= i < |fs| ==> ParamOk(names, fs[i])
  }

  /** Declarations the parser can produce from what is printed, given the structs known where they stand. */
  predicate TopOk(names: set<string>, d: CTop) {
    match d
    case CStruct(_, members) => MembersOk(names, members)
    case CBuffer(_, register, members) => RegisterWritten(register) && MembersOk(names, members)
    case CFunction(ty, _, params, semantic, body) =>
      && TypeWritten(names, ty) && ParamsOk(names, params) && SemanticWritten(semantic)
      && (body.Some? ==> StmtsOk(names, body.value.stmts))
    case CGlobal(ty, _, register) => TypeWritten(names, ty) && RegisterWritten(register)
  }

  /** A struct may be named from the declaration behind it on. */
  predicate UnitOk(names: set<string>, ds: seq<CTop>)
    decreases |ds|
  {
    ds == [] || (TopOk(names, ds[0]) && UnitOk(NamesAfter(names, TopOf(ds[0])), ds[1..]))
  }

  // --- types, semantics, registers ---

  lemma {:induction false} SkipsElement(a: Input, rest: Input)
    requires TGt !in a
    ensures SkipUntilGt(a + ([TGt] + rest)) == rest
  {
    var ts := a + ([TGt] + rest);
    if a == [] {
      assert ts == [TGt] + rest && ts[1..] == rest;
    } else {
      assert ts[0] == a[0] && ts[1..] == a[1..] + ([TGt] + rest);
      SkipsElement(a[1..], rest);
    }
  }

  /** The element type of a texture is read up to its `>` and dropped. */
  lemma {:induction false} ElementDropped(names: set<string>, a: Input, rest: Input)
    requires TGt !in a
    ensures ParseType(names, [TKeyword(KTexture2D)] + ([TLt] + (a + ([TGt] + rest)))) == Ok((Texture2D, rest))
  {
    hide SkipUntilGt;
    var tail := a + ([TGt] + rest);
    Cons(TKeyword(KTexture2D), [TLt] + tail);
    Cons(TLt, tail);
    SkipsElement(a, rest);
  }

  lemma {:induction false} TypeTrip(names: set<string>, c: CType, rest: Input)
    requires TypeWritten(names, c) && Peek(rest) != TLt
    ensures ParseType(names, PrintType(c) + rest) == Ok((c.ty, rest))
  {
    hide ParseType, TypeTok, TypeOk;
    match c.element
    case Some(a) =>
      assert TypeTok(Texture2D) == TKeyword(KTexture2D) by { TextureTok(); }
      assert PrintType(c) + rest == [TypeTok(c.ty)] + ([TLt] + (a + ([TGt] + rest)));
      ElementDropped(names, a, rest);
    case None => TypeTokRead(names, c.ty, rest);
  }

  lemma {:induction false} TextureTok()
    ensures TypeTok(Texture2D) == TKeyword(KTexture2D)
  {
  }

  /** Semantics: a semantic or a plain word is kept, any other token behind the colon is dropped. */
  lemma {:induction false} ColonTrip(c: CSemantic, rest: Input)
    requires SemanticWritten(c) && Peek(rest) != Colon
    ensures ParseSemantic(PrintColon(c) + rest) == (SemanticOf(c), rest)
  {
    if c.NoSemantic? {
      assert PrintColon(c) + rest == rest;
    } else {
      var t := match c { case Proper(s) => TSemantic(s) case Plain(s) => TIdent(s) case Dropped(t) => t case NoSemantic => Eof };
      assert PrintColon(c) + rest == [Colon] + ([t] + rest);
      Cons(Colon, [t] + rest);
      Cons(t, rest);
    }
  }

  lemma {:induction false} SkipsMore(more: Input, rest: Input)
    requires RParen !in more
    ensures SkipUntilRParen(more + ([RParen] + rest)) == rest
  {
    var ts := more + ([RParen] + rest);
    if more == [] {
      assert ts == [RParen] + rest && ts[1..] == rest;
    } else {
      assert ts[0] == more[0] && ts[1..] == more[1..] + ([RParen] + rest);
      SkipsMore(more[1..], rest);
    }
  }

  /** Register clauses: the first word in the parentheses is kept, the rest up to the next closing one dropped, and so
      are a colon and a keyword that lead nowhere. */
  lemma {:induction false} RegisterTrip(c: CRegister, rest: Input)
    requires RegisterWritten(c) && Peek(rest) in {LBrace, Semicolon}
    ensures ParseRegister(PrintRegister(c) + rest) == (RegisterOf(c), rest)
    ensures Peek(PrintRegister(c) + rest) == if c.NoRegister? then Peek(rest) else Colon
  {
    hide SkipUntilRParen;
    match c
    case NoRegister => assert PrintRegister(c) + rest == rest;
    case BareColon =>
      assert PrintRegister(c) + rest == [Colon] + rest;
      Cons(Colon, rest);
    case Keyworded(k) =>
      assert PrintRegister(c) + rest == [Colon] + ([TKeyword(k)] + rest);
      Cons(Colon, [TKeyword(k)] + rest);
      Cons(TKeyword(k), rest);
    case Clause(k, first, more) =>
      var tail := more + ([RParen] + rest);
      ClauseTokens(k, first, more, rest);
      Cons(Colon, [TKeyword(k)] + ([LParen] + ([first] + tail)));
      Cons(TKeyword(k), [LParen] + ([first] + tail));
      Cons(LParen, [first] + tail);
      Cons(first, tail);
      SkipsMore(more, rest);
  }

  lemma {:induction false} ClauseTokens(k: Keyword, first: Tok, more: Input, rest: Input)
    ensures PrintRegister(Clause(k, first, more)) + rest
         == [Colon] + ([TKeyword(k)] + ([LParen] + ([first] + (more + ([RParen] + rest)))))
  {
    assert (more + [RParen]) + rest == more + ([RParen] + rest);
  }

  // --- fields ---

  /** A field, without modifier, up to the token that cannot belong to it. */
  lemma {:induction false} FieldTrip(names: set<string>, f: CField, rest: Input)
    requires f.modifier.None? && TypeWritten(names, f.ty) && SemanticWritten(f.semantic) && Peek(rest) != Colon
    ensures ParseField(names, PrintField(f) + rest) == Ok((FieldOf(f), rest))
  {
    hide ParseType, PrintType, ParseSemantic, PrintColon, TypeWritten, SemanticWritten;
    var more := PrintColon(f.semantic) + rest;
    FieldTokens(f, rest);
    Cons(TIdent(f.name), more);
    TypeTrip(names, f.ty, [TIdent(f.name)] + more);
    ColonTrip(f.semantic, rest);
  }

  lemma {:induction false} FieldTokens(f: CField, rest: Input)
    requires f.modifier.None?
    ensures PrintField(f) + rest == PrintType(f.ty) + ([TIdent(f.name)] + (PrintColon(f.semantic) + rest))
  {
    hide PrintType, PrintColon;
    assert [] + (PrintType(f.ty) + ([TIdent(f.name)] + PrintColon(f.semantic))) == PrintType(f.ty) + ([TIdent(f.name)] + PrintColon(f.semantic));
  }

  lemma {:induction false} FieldsCons(fs: seq<CField>)
    requires fs != []
    ensures [FieldOf(fs[0])] + FieldsOf(fs[1..]) == FieldsOf(fs)
  {
  }

  lemma {:induction false} FieldsTrip(names: set<string>, fs: seq<CField>, rest: Input)
    requires MembersOk(names, fs)
    ensures ParseFields(names, PrintFields(fs) + ([RBrace] + rest)) == Ok((FieldsOf(fs), rest))
    decreases |fs|
  {
    hide ParseField, PrintField, TypeWritten, SemanticWritten, FieldOf;
    if fs == [] {
      assert PrintFields(fs) + ([RBrace] + rest) == [RBrace] + rest;
      Cons(RBrace, rest);
    } else {
      var more := PrintFields(fs[1..]) + ([RBrace] + rest);
      var ts := PrintFields(fs) + ([RBrace] + rest);
      assert MemberOk(names, fs[0]);
      assert ts == PrintField(fs[0]) + ([Semicolon] + more);
      Cons(Semicolon, more);
      FieldTrip(names, fs[0], [Semicolon] + more);
      PeekAppend(PrintField(fs[0]), [Semicolon] + more);
      FirstField(names, fs[0]);
      FieldsTrip(names, fs[1..], rest);
      FieldsCons(fs);
    }
  }

  lemma {:induction false} FirstField(names: set<string>, f: CField)
    requires f.modifier.None?
    ensures PrintField(f)[0] == TypeTok(f.ty.ty) && !SameVariant(PrintField(f)[0], RBrace) && PrintField(f)[0] != RParen
  {
    NoBrace(f.ty.ty);
    FieldTokens(f, []);
    assert PrintField(f) + [] == PrintField(f);
  }

  lemma {:induction false} NoBrace(ty: Type)
    ensures TypeTok(ty) !in {RBrace, RParen, TKeyword(KStruct), TKeyword(KCBuffer)}
    ensures !SameVariant(TypeTok(ty), RBrace)
  {
  }

  // --- parameters ---

  /** The four words, and no others, are modifiers. */
  lemma {:induction false} ModifiersExact(w: string)
    ensures w in MODIFIERS <==> IsModifier(w)
  {
  }

  /** Type words are no modifiers, so only structs can be named like one. */
  lemma {:induction false} ModifierTok(names: set<string>, ty: Type)
    requires TypeOk(names, ty)
    ensures TypeTok(ty).TIdent? && IsModifier(TypeTok(ty).s) <==> NamedLikeModifier(ty)
  {
    TypeTokRead(names, ty, []);
    if TypeTok(ty).TIdent? && !ty.Struct? && IsModifier(TypeTok(ty).s) {
      ModifierNoType(TypeTok(ty).s);
      assert false;
    }
  }

  lemma {:induction false} ModifierNoType(s: string)
    requires IsModifier(s)
    ensures DecodeTypeWord(s).None?
  {
    assert "float"[0] == 'f' && "bool"[0] == 'b' && "uint"[0] == 'u' && "uint"[1] == 'i' && "int"[0] == 'i' && "int"[2] == 't';
    assert s[0] in {'i', 'o', 'u'} && (s[0] == 'u' ==> s[1] == 'n') && (s[0] == 'i' && |s| >= 3 ==> s[2] == 'o');
  }

  /** A word that is no modifier stays; one that is goes. */
  lemma {:induction false} SkipExact(t: Tok, rest: Input)
    ensures SkipModifier([t] + rest) == if t.TIdent? && IsModifier(t.s) then rest else [t] + rest
  {
    hide MODIFIERS;
    Cons(t, rest);
    if t.TIdent? {
      ModifiersExact(t.s);
    }
  }

  /** A modifier in front changes nothing. */
  lemma {:induction false} ModifierDropped(names: set<string>, f: CField, rest: Input)
    requires f.modifier.Some? && IsModifier(f.modifier.value) && TypeWritten(names, f.ty) && SemanticWritten(f.semantic)
    requires Peek(rest) != Colon
    ensures ParseField(names, SkipModifier(PrintField(f) + rest)) == Ok((FieldOf(f), rest))
  {
    hide ParseField, PrintType, PrintColon, TypeWritten, SemanticWritten, SkipModifier, IsModifier;
    var bare := f.(modifier := None);
    FieldTokens(bare, rest);
    assert PrintField(f) + rest == [TIdent(f.modifier.value)] + (PrintField(bare) + rest);
    SkipExact(TIdent(f.modifier.value), PrintField(bare) + rest);
    FieldTrip(names, bare, rest);
  }

  /** A parameter without modifier is read back exactly when its type is not named like one: the parser drops such a word
      without looking whether it is a type. */
  lemma {:induction false} ParameterExact(names: set<string>, f: CField, rest: Input)
    requires f.modifier.None? && TypeWritten(names, f.ty) && SemanticWritten(f.semantic) && Peek(rest) in {Comma, RParen}
    ensures ParseField(names, SkipModifier(PrintField(f) + rest)) == Ok((FieldOf(f), rest)) <==> !NamedLikeModifier(f.ty.ty)
  {
    hide ParseType, TypeTok, ParseSemantic, PrintColon, TypeOk, NamedLikeModifier, SkipModifier, IsModifier, SemanticWritten;
    ModifierTok(names, f.ty.ty);
    FieldTrip(names, f, rest);
    FieldTokens(f, rest);
    PeekAppend(PrintField(f), rest);
    FirstField(names, f);
    var more := [TIdent(f.name)] + (PrintColon(f.semantic) + rest);
    var ts := PrintField(f) + rest;
    assert ts == [ts[0]] + ts[1..];
    SkipExact(ts[0], ts[1..]);
    if NamedLikeModifier(f.ty.ty) {
      assert f.ty.element.None? by { NotTexture(f.ty.ty); }
      assert ts == [TypeTok(f.ty.ty)] + more && ts[1..] == more;
      NoSecondName(names, f, rest);
    }
  }

  lemma {:induction false} NotTexture(ty: Type)
    requires NamedLikeModifier(ty)
    ensures ty != Texture2D
  {
  }

  /** Behind the dropped type there is no type with a name. */
  lemma {:induction false} NoSecondName(names: set<string>, f: CField, rest: Input)
    requires Peek(rest) in {Comma, RParen}
    ensures ParseField(names, [TIdent(f.name)] + (PrintColon(f.semantic) + rest)).Err?
  {
    hide DecodeTypeWord;
    var more := PrintColon(f.semantic) + rest;
    Cons(TIdent(f.name), more);
    if f.semantic.NoSemantic? {
      assert more == rest;
    } else {
      assert more[0] == Colon;
    }
  }

  lemma {:induction false} ParamTrip(names: set<string>, f: CField, rest: Input)
    requires ParamOk(names, f) && Peek(rest) in {Comma, RParen}
    ensures ParseField(names, SkipModifier(PrintField(f) + rest)) == Ok((FieldOf(f), rest))
    ensures PrintField(f)[0] != RParen
  {
    hide ParseField, PrintField, SkipModifier, TypeWritten, SemanticWritten, NamedLikeModifier, IsModifier;
    if f.modifier.Some? {
      ModifierDropped(names, f, rest);
      FirstModified(f);
    } else {
      ParameterExact(names, f, rest);
      FirstField(names, f);
    }
  }

  lemma {:induction false} FirstModified(f: CField)
    requires f.modifier.Some?
    ensures PrintField(f)[0] == TIdent(f.modifier.value)
  {
    hide PrintType, PrintColon;
  }

  lemma {:induction false} ParamsTrip(names: set<string>, fs: seq<CField>, rest: Input)
    requires ParamsOk(names, fs) && Peek(rest) == RParen
    ensures ParseParams(names, PrintParams(fs) + rest) == Ok((FieldsOf(fs), rest))
  {
    hide ParseParamList, PrintField, ParamOk;
    if fs == [] {
      assert PrintParams(fs) + rest == rest;
    } else {
      ParamListTrip(names, fs, rest);
      PeekAppend(PrintParams(fs), rest);
    }
  }

  lemma {:induction false} ParamListTrip(names: set<string>, fs: seq<CField>, rest: Input)
    requires fs != [] && ParamsOk(names, fs) && Peek(rest) == RParen
    ensures PrintParams(fs) != [] && PrintParams(fs)[0] != RParen
    ensures ParseParamList(names, PrintParams(fs) + rest) == Ok((FieldsOf(fs), rest))
    decreases |fs|
  {
    hide ParseField, PrintField, ParamOk, SkipModifier, FieldOf;
    FieldsCons(fs);
    if |fs| == 1 {
      ParamTrip(names, fs[0], rest);
      assert FieldsOf(fs) == [FieldOf(fs[0])];
    } else {
      var more := PrintParams(fs[1..]) + rest;
      ParamTrip(names, fs[0], [Comma] + more);
      assert PrintParams(fs) + rest == PrintField(fs[0]) + ([Comma] + more);
      Cons(Comma, more);
      ParamListTrip(names, fs[1..], rest);
    }
  }

  // --- declarations ---

  lemma {:induction false} MembersTrip(names: set<string>, fs: seq<CField>, rest: Input)
    requires MembersOk(names, fs)
    ensures Peek(PrintMembers(fs) + rest) == LBrace
    ensures ParseFields(names, Rest(PrintMembers(fs) + rest)) == Ok((FieldsOf(fs), [Semicolon] + rest))
    ensures Rest([Semicolon] + rest) == rest
  {
    hide ParseFields, PrintFields, MembersOk;
    var inner := PrintFields(fs) + ([RBrace] + ([Semicolon] + rest));
    assert PrintMembers(fs) + rest == [LBrace] + inner;
    Cons(LBrace, inner);
    Cons(Semicolon, rest);
    FieldsTrip(names, fs, [Semicolon] + rest);
  }

  lemma {:induction false} StructTrip(names: set<string>, d: CTop, rest: Input)
    requires d.CStruct? && TopOk(names, d)
    ensures ParseDecl(names, PrintTop(d) + rest) == Ok((TopOf(d), rest))
  {
    hide ParseFields, PrintMembers, MembersOk, FieldsOf;
    var more := PrintMembers(d.members) + rest;
    assert PrintTop(d) + rest == [TKeyword(KStruct)] + ([TIdent(d.name)] + more);
    Cons(TKeyword(KStruct), [TIdent(d.name)] + more);
    Cons(TIdent(d.name), more);
    MembersTrip(names, d.members, rest);
  }

  lemma {:induction false} CBufferTrip(names: set<string>, d: CTop, rest: Input)
    requires d.CBuffer? && TopOk(names, d)
    ensures ParseDecl(names, PrintTop(d) + rest) == Ok((TopOf(d), rest))
  {
    hide ParseFields, PrintMembers, MembersOk, ParseRegister, PrintRegister, RegisterWritten, FieldsOf, RegisterOf;
    var more := PrintMembers(d.members) + rest;
    var reg := PrintRegister(d.register) + more;
    assert PrintTop(d) + rest == [TKeyword(KCBuffer)] + ([TIdent(d.name)] + reg);
    Cons(TKeyword(KCBuffer), [TIdent(d.name)] + reg);
    Cons(TIdent(d.name), reg);
    MembersTrip(names, d.members, rest);
    RegisterTrip(d.register, more);
  }

  /** A type and a name: no other declaration starts like this. */
  lemma {:induction false} HeadTrip(names: set<string>, ty: CType, name: string, rest: Input)
    requires TypeWritten(names, ty)
    ensures var ts := PrintType(ty) + ([TIdent(name)] + rest);
      ParseDecl(names, ts) == ParseFunctionOrGlobal(names, ts) && ParseType(names, ts) == Ok((ty.ty, [TIdent(name)] + rest))
    ensures ExpectIdent([TIdent(name)] + rest) == Ok((name, rest))
  {
    hide ParseType, PrintType, TypeWritten, ParseFunctionOrGlobal, ParseStruct, ParseCBuffer;
    NoBrace(ty.ty);
    PeekAppend(PrintType(ty), [TIdent(name)] + rest);
    Cons(TIdent(name), rest);
    TypeTrip(names, ty, [TIdent(name)] + rest);
  }

  lemma {:induction false} GlobalTrip(names: set<string>, d: CTop, rest: Input)
    requires d.CGlobal? && TopOk(names, d)
    ensures ParseDecl(names, PrintTop(d) + rest) == Ok((TopOf(d), rest))
  {
    hide ParseType, PrintType, TypeWritten, RegisterWritten, ParseRegister, PrintRegister, ParseSignature, ParseDecl;
    var reg := PrintRegister(d.register) + ([Semicolon] + rest);
    assert PrintTop(d) + rest == PrintType(d.ty) + ([TIdent(d.name)] + reg);
    HeadTrip(names, d.ty, d.name, reg);
    Cons(Semicolon, rest);
    RegisterTrip(d.register, [Semicolon] + rest);
    if d.register.NoRegister? {
      EmptyRegister(rest);
    }
  }

  lemma {:induction false} EmptyRegister(rest: Input)
    ensures PrintRegister(NoRegister) + ([Semicolon] + rest) == [Semicolon] + rest
  {
  }

  lemma {:induction false} SignatureTrip(
    names: set<string>, params: seq<CField>, semantic: CSemantic, body: Option<Block>, rest: Input)
    requires ParamsOk(names, params) && SemanticWritten(semantic) && (body.Some? ==> StmtsOk(names, body.value.stmts))
    ensures ParseSignature(names, PrintParams(params) + ([RParen] + (PrintColon(semantic) + (PrintBody(body) + rest))))
         == Ok(((FieldsOf(params), SemanticOf(semantic), body), rest))
  {
    hide ParseParams, PrintParams, ParseSemantic, PrintColon, ParseBraced, PrintBlock, ParamsOk, StmtsOk, SemanticWritten, FieldsOf;
    var tail := PrintBody(body) + rest;
    var more := PrintColon(semantic) + tail;
    Cons(RParen, more);
    ParamsTrip(names, params, [RParen] + more);
    if body.Some? {
      BlockTrip(names, body.value, rest);
    } else {
      assert tail == [Semicolon] + rest;
      Cons(Semicolon, rest);
    }
    ColonTrip(semantic, tail);
  }

  lemma {:induction false} FunctionTrip(names: set<string>, d: CTop, rest: Input)
    requires d.CFunction? && TopOk(names, d)
    ensures ParseDecl(names, PrintTop(d) + rest) == Ok((TopOf(d), rest))
  {
    hide ParseType, PrintType, TypeWritten, ParseSignature, ParseDecl, ParseRegister, PrintParams, PrintColon, PrintBody, ParamsOk,
      StmtsOk, SemanticWritten, FieldsOf;
    var sig := PrintParams(d.params) + ([RParen] + (PrintColon(d.semantic) + (PrintBody(d.body) + rest)));
    FunctionTokens(d, rest);
    HeadTrip(names, d.ty, d.name, [LParen] + sig);
    Cons(LParen, sig);
    SignatureTrip(names, d.params, d.semantic, d.body, rest);
  }

  lemma {:induction false} FunctionTokens(d: CTop, rest: Input)
    requires d.CFunction?
    ensures PrintTop(d) + rest == PrintType(d.ty) + ([TIdent(d.name)] + ([LParen] +
      (PrintParams(d.params) + ([RParen] + (PrintColon(d.semantic) + (PrintBody(d.body) + rest))))))
  {
    var p, s, b := PrintParams(d.params), PrintColon(d.semantic), PrintBody(d.body);
    hide PrintParams, PrintColon, PrintBody, PrintType;
    assert (s + b) + rest == s + (b + rest);
    assert ([RParen] + (s + b)) + rest == [RParen] + (s + (b + rest));
    assert (p + ([RParen] + (s + b))) + rest == p + ([RParen] + (s + (b + rest)));
  }

  lemma {:induction false} TopTrip(names: set<string>, d: CTop, rest: Input)
    requires TopOk(names, d)
    ensures ParseDecl(names, PrintTop(d) + rest) == Ok((TopOf(d), rest))
  {
    hide ParseDecl, PrintTop, TopOk, TopOf;
    match d
    case CStruct(_, _) => StructTrip(names, d, rest);
    case CBuffer(_, _, _) => CBufferTrip(names, d, rest);
    case CFunction(_, _, _, _, _) => FunctionTrip(names, d, rest);
    case CGlobal(_, _, _) => GlobalTrip(names, d, rest);
  }

  /** Translation units: parsing what is written gives the declarations it stands for, and the structs among them are
      known at the end. */
  lemma {:induction false} UnitTrip(names: set<string>, ds: seq<CTop>)
    requires UnitOk(names, ds)
    ensures ParseUnit(names, PrintUnit(ds)) == Ok((UnitOf(ds), names + StructNames(UnitOf(ds))))
    decreases |ds|
  {
    hide ParseDecl, PrintTop, TopOk, TopOf;
    if ds == [] {
      assert names + StructNames([]) == names;
    } else {
      var d := TopOf(ds[0]);
      TopTrip(names, ds[0], PrintUnit(ds[1..]));
      UnitTrip(NamesAfter(names, d), ds[1..]);
      StructNamesCons(d, UnitOf(ds[1..]));
      assert [d] + UnitOf(ds[1..]) == UnitOf(ds);
      assert NamesAfter(names, d) + StructNames(UnitOf(ds[1..])) == names + StructNames(UnitOf(ds));
    }
  }

  /** Every declaration has a writing: without modifiers and element types, with proper semantics and registers. */
  function Written(d: TopDecl): CTop {
    match d
    case StructDecl(name, members) => CStruct(name, Fields(members))
    case CBufferDecl(name, register, members) => CBuffer(name, WrittenRegister(register), Fields(members))
    case FunctionDecl(ty, name, params, semantic, body) =>
      CFunction(CType(ty, None), name, Fields(params), WrittenSemantic(semantic), body)
    case GlobalVarDecl(ty, name, register) => CGlobal(CType(ty, None), name, WrittenRegister(register))
  }

  function WrittenSemantic(s: Option<string>): CSemantic { match s { case Some(x) => Proper(x) case None => NoSemantic } }

  function WrittenRegister(r: Option<string>): CRegister {
    match r
    case Some(x) => Clause(KRegister, TIdent(x), [])
    case None => NoRegister
  }

  function Fields(fs: seq<Field>): (cs: seq<CField>)
    ensures |cs| == |fs|
  {
    seq(|fs|, i requires 0 <= i < |fs| => CField(None, CType(fs[i].ty, None), fs[i].name, WrittenSemantic(fs[i].semantic)))
  }

  lemma {:induction false} WrittenStandsFor(d: TopDecl)
    ensures TopOf(Written(d)) == d
  {
    match d
    case StructDecl(_, members) => FieldsStandFor(members);
    case CBufferDecl(_, _, members) => FieldsStandFor(members);
    case FunctionDecl(_, _, params, _, _) => FieldsStandFor(params);
    case GlobalVarDecl(_, _, _) =>
  }

  lemma {:induction false} FieldsStandFor(fs: seq<Field>)
    ensures FieldsOf(Fields(fs)) == fs
  {
    forall i | 0 <= i < |fs| ensures FieldsOf(Fields(fs))[i] == fs[i] {
      assert FieldOf(Fields(fs)[i]) == fs[i];
    }
  }
}
