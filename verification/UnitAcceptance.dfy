/** What the parser accepts as a translation unit: the counterpart of `Acceptance` for declarations. */
module UnitAcceptance {
  import opened Wrappers
  import opened Ast
  import opened Tokens
  import opened Grammar
  import opened Acceptance
  import opened StmtAcceptance
  import opened UnitRoundTrip

  // --- syntax trees ---

  datatype SField = SField(modifier: Option<string>, ty: SType, name: string, colon: Option<Tok>)

  datatype STop =
    | SStruct(name: string, members: seq<SField>)
    | SBuffer(name: string, register: CRegister, members: seq<SField>)
    | SFunction(ty: SType, name: string, params: seq<SField>, colon: Option<Tok>, body: Option<seq<SStmt>>)
    | SGlobal(ty: SType, name: string, register: CRegister)

  // --- their text ---

  function ModifierText(m: Option<string>): Input {
    match m
    case Some(w) => [TIdent(w)]
    case None => []
  }

  function FieldText(f: SField): Input {
    ModifierText(f.modifier) + (TypeText(f.ty) + ([TIdent(f.name)] + ColonText(f.colon)))
  }

  /** Members with their semicolons. */
  function FieldsText(fs: seq<SField>): Input {
    if fs == [] then [] else FieldText(fs[0]) + ([Semicolon] + FieldsText(fs[1..]))
  }

  /** Parameters between commas. */
  function ParamsText(fs: seq<SField>): Input {
    if fs == [] then []
    else if |fs| == 1 then FieldText(fs[0])
    else FieldText(fs[0]) + ([Comma] + ParamsText(fs[1..]))
  }

  function MembersText(fs: seq<SField>): Input {
    [LBrace] + (FieldsText(fs) + ([RBrace] + [Semicolon]))
  }

  function EndText(body: Option<seq<SStmt>>): Input {
    match body
    case Some(ss) => [LBrace] + (StmtsText(ss) + [RBrace])
    case None => [Semicolon]
  }

  function TopText(d: STop): Input {
    match d
    case SStruct(name, members) => [TKeyword(KStruct)] + ([TIdent(name)] + MembersText(members))
    case SBuffer(name, register, members) =>
      [TKeyword(KCBuffer)] + ([TIdent(name)] + (PrintRegister(register) + MembersText(members)))
    case SFunction(ty, name, params, colon, body) =>
      TypeText(ty) + ([TIdent(name)] + ([LParen] + (ParamsText(params) + ([RParen] + (ColonText(colon) + EndText(body))))))
    case SGlobal(ty, name, register) => TypeText(ty) + ([TIdent(name)] + (PrintRegister(register) + [Semicolon]))
  }

  function UnitText(ds: seq<STop>): Input {
    if ds == [] then [] else TopText(ds[0]) + UnitText(ds[1..])
  }

  // --- what they stand for ---

  predicate FieldFits(names: set<string>, f: SField) {
    TypeFits(names, f.ty) && TokType(names, f.ty.tok).Some? && (f.modifier.Some? ==> IsModifier(f.modifier.value))
  }

  predicate FieldsFit(names: set<string>, fs: seq<SField>) {
    fs == [] || (FieldFits(names, fs[0]) && FieldsFit(names, fs[1..]))
  }

  /** Only parameters have modifiers. */
  predicate Plainly(fs: seq<SField>) {
    forall i :: 0 <= i < |fs| ==> fs[i].modifier.None?
  }

  predicate TopFits(names: set<string>, d: STop) {
    match d
    case SStruct(_, members) => FieldsFit(names, members) && Plainly(members)
    case SBuffer(_, register, members) => RegisterWritten(register) && FieldsFit(names, members) && Plainly(members)
    case SFunction(ty, _, params, _, body) =>
      && TypeFits(names, ty) && TokType(names, ty.tok).Some? && FieldsFit(names, params)
      && (body.Some? ==> StmtsFit(names, body.value))
    case SGlobal(ty, _, register) => TypeFits(names, ty) && TokType(names, ty.tok).Some? && RegisterWritten(register)
  }

  function FieldMeant(names: set<string>, f: SField): Field
    requires FieldFits(names, f)
  {
    Field(TokType(names, f.ty.tok).value, f.name, ColonOf(f.colon))
  }

  function FieldsMeant(names: set<string>, fs: seq<SField>): seq<Field>
    requires FieldsFit(names, fs)
  {
    if fs == [] then [] else [FieldMeant(names, fs[0])] + FieldsMeant(names, fs[1..])
  }

  function BodyMeant(names: set<string>, body: Option<seq<SStmt>>): Option<Block>
    requires body.Some? ==> StmtsFit(names, body.value)
  {
    match body
    case Some(ss) => Some(Block(StmtsOf(names, ss)))
    case None => None
  }

  function TopMeant(names: set<string>, d: STop): TopDecl
    requires TopFits(names, d)
  {
    match d
    case SStruct(name, members) => StructDecl(name, FieldsMeant(names, members))
    case SBuffer(name, register, members) => CBufferDecl(name, RegisterOf(register), FieldsMeant(names, members))
    case SFunction(ty, name, params, colon, body) =>
      FunctionDecl(TokType(names, ty.tok).value, name, FieldsMeant(names, params), ColonOf(colon), BodyMeant(names, body))
    case SGlobal(ty, name, register) => GlobalVarDecl(TokType(names, ty.tok).value, name, RegisterOf(register))
  }

  /** A struct is a type from the declaration behind it on. */
  function Known(names: set<string>, d: STop): set<string> {
    if d.SStruct? then names + {d.name} else names
  }

  predicate UnitFits(names: set<string>, ds: seq<STop>)
    decreases |ds|
  {
    ds == [] || (TopFits(names, ds[0]) && UnitFits(Known(names, ds[0]), ds[1..]))
  }

  function UnitMeant(names: set<string>, ds: seq<STop>): seq<TopDecl>
    requires UnitFits(names, ds)
    decreases |ds|
  {
    if ds == [] then [] else [TopMeant(names, ds[0])] + UnitMeant(Known(names, ds[0]), ds[1..])
  }

  // --- registers ---

  lemma {:induction false} SkippedParen(ts: Input) returns (a: Input)
    ensures RParen !in a && (ts == a + ([RParen] + SkipUntilRParen(ts)) || SkipUntilRParen(ts) == [])
  {
    a := [];
    if ts != [] {
      if ts[0] == RParen {
        assert [] + ([RParen] + ts[1..]) == ts;
      } else {
        var b := SkippedParen(ts[1..]);
        a := [ts[0]] + b;
        hide SkipUntilRParen;
        var rest := [RParen] + SkipUntilRParen(ts[1..]);
        assert a + rest == [ts[0]] + (b + rest);
        assert ts == [ts[0]] + ts[1..];
      }
    }
  }

  /** A register clause, or as much of one as there is. */
  lemma {:induction false} RegisterAccepted(ts: Input) returns (c: CRegister)
    ensures var (s, rest) := ParseRegister(ts);
      RegisterWritten(c) && RegisterOf(c) == s && (ts == PrintRegister(c) + rest || rest == [])
  {
    hide SkipUntilRParen;
    c := NoRegister;
    Whole(ts);
    if Eats(ts, Colon) {
      c := BareColon;
      Uncons(ts, Colon);
      var ts1 := Rest(ts);
      if Eats(ts1, TKeyword(KRegister)) {
        c := Keyworded(ts1[0].k);
        Uncons(ts1, ts1[0]);
        var ts2 := Rest(ts1);
        assert ts == ([Colon] + [TKeyword(ts1[0].k)]) + ts2;
        if Eats(ts2, LParen) {
          c := ClauseAccepted(ts1[0].k, ts2);
        }
      }
    }
  }

  lemma {:induction false} ClauseAccepted(k: Keyword, ts: Input) returns (c: CRegister)
    requires Eats(ts, LParen)
    ensures var rest := SkipUntilRParen(Rest(Rest(ts)));
      && RegisterWritten(c) && c.Clause? && c.first == Peek(Rest(ts))
      && ([Colon] + ([TKeyword(k)] + ts) == PrintRegister(c) + rest || rest == [])
  {
    hide SkipUntilRParen, PrintRegister;
    Uncons(ts, LParen);
    var more := SkippedParen(Rest(Rest(ts)));
    c := Clause(k, Peek(Rest(ts)), more);
    if Rest(ts) != [] {
      ClauseTokens(k, c.first, more, SkipUntilRParen(Rest(Rest(ts))));
      assert Rest(ts) == [c.first] + Rest(Rest(ts));
    } else {
      NothingSkipped();
    }
  }

  lemma {:induction false} NothingSkipped()
    ensures SkipUntilRParen([]) == []
  {
  }

  // --- members and parameters ---

  lemma {:induction false} FieldRegroup(f: SField, rest: Input)
    ensures FieldText(f) + rest == ModifierText(f.modifier) + (TypeText(f.ty) + ([TIdent(f.name)] + (ColonText(f.colon) + rest)))
  {
    hide ModifierText, TypeText, ColonText;
    Regroup4(ModifierText(f.modifier), TypeText(f.ty), [TIdent(f.name)], ColonText(f.colon), rest);
  }

  lemma {:induction false} MemberAccepted(names: set<string>, ts: Input) returns (f: SField)
    requires ParseField(names, ts).Ok?
    ensures var (x, rest) := ParseField(names, ts).value;
      f.modifier.None? && FieldFits(names, f) && FieldMeant(names, f) == x && (ts == FieldText(f) + rest || rest == [])
  {
    hide ParseField, TypeFits, TokType, TypeText, ColonText, FieldText;
    var t, c := HeadAccepted(names, ts);
    var (x, rest) := ParseField(names, ts).value;
    f := SField(None, t, x.name, c);
    FieldRegroup(f, rest);
    Whole(TypeText(t) + ([TIdent(x.name)] + (ColonText(c) + rest)));
  }

  /** A parameter: a word that is a modifier is read and dropped. */
  lemma {:induction false} ParamAccepted(names: set<string>, ts: Input) returns (f: SField)
    requires ParseField(names, SkipModifier(ts)).Ok?
    ensures var (x, rest) := ParseField(names, SkipModifier(ts)).value;
      FieldFits(names, f) && FieldMeant(names, f) == x && (ts == FieldText(f) + rest || rest == [])
  {
    hide ParseField, TypeFits, TokType, TypeText, ColonText, FieldText, IsModifier;
    f := MemberAccepted(names, SkipModifier(ts));
    if SkipModifier(ts) != ts {
      var rest := ParseField(names, SkipModifier(ts)).value.1;
      var w := Peek(ts).s;
      ModifiersExact(w);
      FieldRegroup(f, rest);
      Whole(TypeText(f.ty) + ([TIdent(f.name)] + (ColonText(f.colon) + rest)));
      f := f.(modifier := Some(w));
      FieldRegroup(f, rest);
      Uncons(ts, TIdent(w));
    }
  }

  lemma {:induction false} FieldsMore(names: set<string>, f: SField, fs: seq<SField>)
    requires FieldFits(names, f) && FieldsFit(names, fs)
    ensures FieldsFit(names, [f] + fs) && FieldsMeant(names, [f] + fs) == [FieldMeant(names, f)] + FieldsMeant(names, fs)
    ensures FieldsText([f] + fs) == FieldText(f) + ([Semicolon] + FieldsText(fs))
    ensures ParamsText([f] + fs) == if fs == [] then FieldText(f) else FieldText(f) + ([Comma] + ParamsText(fs))
  {
    hide FieldFits, FieldMeant, FieldText;
    assert ([f] + fs)[1..] == fs;
  }

  lemma {:induction false} FieldsAccepted(names: set<string>, ts: Input) returns (fs: seq<SField>)
    requires ParseFields(names, ts).Ok?
    ensures var (xs, rest) := ParseFields(names, ts).value;
      FieldsFit(names, fs) && Plainly(fs) && FieldsMeant(names, fs) == xs && ts == FieldsText(fs) + ([RBrace] + rest)
    decreases |ts|
  {
    hide ParseField, FieldFits, FieldMeant, FieldText;
    fs := [];
    if Eats(ts, RBrace) {
      Uncons(ts, RBrace);
      Whole(ts);
    } else {
      var f := MemberAccepted(names, ts);
      var ts1 := ParseField(names, ts).value.1;
      Uncons(ts1, Semicolon);
      var more := FieldsAccepted(names, Rest(ts1));
      FieldsMore(names, f, more);
      fs := [f] + more;
      Regroup3(FieldText(f), [Semicolon], FieldsText(more), [RBrace] + ParseFields(names, ts).value.1);
    }
  }

  lemma {:induction false} ParamListAccepted(names: set<string>, ts: Input) returns (fs: seq<SField>)
    requires ParseParamList(names, ts).Ok?
    ensures var (xs, rest) := ParseParamList(names, ts).value;
      FieldsFit(names, fs) && FieldsMeant(names, fs) == xs && (ts == ParamsText(fs) + rest || rest == [])
    ensures fs != []
    decreases |ts|
  {
    hide ParseField, SkipModifier, FieldFits, FieldMeant, FieldText;
    var f := ParamAccepted(names, ts);
    var ts1 := ParseField(names, SkipModifier(ts)).value.1;
    fs := [f];
    FieldsMore(names, f, []);
    assert [f] + [] == [f];
    if Eats(ts1, Comma) {
      Uncons(ts1, Comma);
      var more := ParamListAccepted(names, Rest(ts1));
      FieldsMore(names, f, more);
      fs := [f] + more;
      Regroup3(FieldText(f), [Comma], ParamsText(more), ParseParamList(names, ts).value.1);
    }
  }

  lemma {:induction false} ParamsAccepted(names: set<string>, ts: Input) returns (fs: seq<SField>)
    requires ParseParams(names, ts).Ok?
    ensures var (xs, rest) := ParseParams(names, ts).value;
      FieldsFit(names, fs) && FieldsMeant(names, fs) == xs && (ts == ParamsText(fs) + rest || rest == [])
  {
    hide ParseParamList, FieldFits, FieldMeant, FieldText;
    fs := [];
    Whole(ts);
    if Peek(ts) != RParen {
      fs := ParamListAccepted(names, ts);
    }
  }

  // --- declarations ---

  /** A brace, members, a brace and a semicolon. */
  lemma {:induction false} MembersAccepted(names: set<string>, ts: Input) returns (fs: seq<SField>)
    requires Eats(ts, LBrace) && ParseFields(names, Rest(ts)).Ok?
    requires Eats(ParseFields(names, Rest(ts)).value.1, Semicolon)
    ensures var (xs, rest) := ParseFields(names, Rest(ts)).value;
      FieldsFit(names, fs) && Plainly(fs) && FieldsMeant(names, fs) == xs && ts == MembersText(fs) + Rest(rest)
  {
    hide ParseFields, FieldsFit, FieldsMeant, FieldsText, Plainly;
    fs := FieldsAccepted(names, Rest(ts));
    Uncons(ts, LBrace);
    var rest := ParseFields(names, Rest(ts)).value.1;
    Uncons(rest, Semicolon);
    Regroup4([LBrace], FieldsText(fs), [RBrace], [Semicolon], Rest(rest));
  }

  lemma {:induction false} StructAccepted(names: set<string>, ts: Input) returns (d: STop)
    requires ParseStruct(names, ts).Ok? && Peek(ts) == TKeyword(KStruct)
    ensures var (x, rest) := ParseStruct(names, ts).value;
      TopFits(names, d) && TopMeant(names, d) == x && ts == TopText(d) + rest
  {
    hide ParseFields, FieldsFit, FieldsMeant, MembersText, Plainly;
    Uncons(ts, TKeyword(KStruct));
    var name := Peek(Rest(ts)).s;
    Uncons(Rest(ts), TIdent(name));
    var ms := MembersAccepted(names, Rest(Rest(ts)));
    d := SStruct(name, ms);
    Regroup3([TKeyword(KStruct)], [TIdent(name)], MembersText(ms), ParseStruct(names, ts).value.1);
  }

  lemma {:induction false} BufferAccepted(names: set<string>, ts: Input) returns (d: STop)
    requires ParseCBuffer(names, ts).Ok? && Peek(ts) == TKeyword(KCBuffer)
    ensures var (x, rest) := ParseCBuffer(names, ts).value;
      TopFits(names, d) && TopMeant(names, d) == x && ts == TopText(d) + rest
  {
    hide ParseFields, FieldsFit, FieldsMeant, MembersText, Plainly, ParseRegister, RegisterWritten, RegisterOf, PrintRegister;
    Uncons(ts, TKeyword(KCBuffer));
    var name := Peek(Rest(ts)).s;
    Uncons(Rest(ts), TIdent(name));
    var reg := RegisterAccepted(Rest(Rest(ts)));
    var ms := MembersAccepted(names, ParseRegister(Rest(Rest(ts))).1);
    d := SBuffer(name, reg, ms);
    Regroup4([TKeyword(KCBuffer)], [TIdent(name)], PrintRegister(reg), MembersText(ms), ParseCBuffer(names, ts).value.1);
  }

  /** What follows the opening parenthesis of a function. */
  lemma {:induction false} SignatureAccepted(names: set<string>, ts: Input)
    returns (params: seq<SField>, colon: Option<Tok>, body: Option<seq<SStmt>>)
    requires ParseSignature(names, ts).Ok?
    ensures var ((xs, semantic, b), rest) := ParseSignature(names, ts).value;
      && FieldsFit(names, params) && FieldsMeant(names, params) == xs && ColonOf(colon) == semantic
      && (body.Some? ==> StmtsFit(names, body.value)) && BodyMeant(names, body) == b
      && ts == ParamsText(params) + ([RParen] + (ColonText(colon) + (EndText(body) + rest)))
  {
    hide ParseParams, FieldsFit, FieldsMeant, ParamsText, ParseSemantic, ColonText, ColonOf, EndText, ParseBraced;
    params := ParamsAccepted(names, ts);
    var ts1 := ParseParams(names, ts).value.1;
    Uncons(ts1, RParen);
    colon := ColonAccepted(Rest(ts1));
    body := EndAccepted(names, ParseSemantic(Rest(ts1)).1);
  }

  lemma {:induction false} EndAccepted(names: set<string>, ts: Input) returns (body: Option<seq<SStmt>>)
    requires !Eats(ts, Semicolon) ==> Eats(ts, LBrace) && ParseBraced(names, Rest(ts)).Ok?
    ensures body.Some? ==> StmtsFit(names, body.value)
    ensures if Eats(ts, Semicolon) then body.None? && ts == EndText(body) + Rest(ts)
            else var (b, rest) := ParseBraced(names, Rest(ts)).value; BodyMeant(names, body) == Some(b) && ts == EndText(body) + rest
  {
    hide ParseBraced, StmtsFit, StmtsOf, StmtsText;
    body := None;
    if Eats(ts, Semicolon) {
      Uncons(ts, Semicolon);
    } else {
      var ss := BracedAccepted(names, Rest(ts));
      body := Some(ss);
      Uncons(ts, LBrace);
      Regroup3([LBrace], StmtsText(ss), [RBrace], ParseBraced(names, Rest(ts)).value.1);
    }
  }

  lemma {:induction false} FunctionRegroup(d: STop, rest: Input)
    requires d.SFunction?
    ensures TopText(d) + rest == TypeText(d.ty) + ([TIdent(d.name)] + ([LParen] +
      (ParamsText(d.params) + ([RParen] + (ColonText(d.colon) + (EndText(d.body) + rest))))))
  {
    hide TypeText, ParamsText, ColonText, EndText;
    var p, c, e := ParamsText(d.params), ColonText(d.colon), EndText(d.body);
    Regroup6(TypeText(d.ty), [TIdent(d.name)], [LParen], p, [RParen], c + e, rest);
    assert (c + e) + rest == c + (e + rest);
  }

  lemma {:induction false} OtherAccepted(names: set<string>, ts: Input) returns (d: STop)
    requires ParseFunctionOrGlobal(names, ts).Ok?
    ensures var (x, rest) := ParseFunctionOrGlobal(names, ts).value;
      TopFits(names, d) && TopMeant(names, d) == x && ts == TopText(d) + rest && !d.SStruct?
  {
    hide ParseType, TypeFits, TokType, TypeText, ParseSignature, ParseRegister, FieldsFit, FieldsMeant, ParamsText, ColonText,
      ColonOf, EndText, BodyMeant, StmtsFit, RegisterWritten, RegisterOf, PrintRegister, TopText;
    var t := TypeAccepted(names, ts);
    var (ty, ts1) := ParseType(names, ts).value;
    var name := Peek(ts1).s;
    Uncons(ts1, TIdent(name));
    var ts2 := Rest(ts1);
    var rest := ParseFunctionOrGlobal(names, ts).value.1;
    if Peek(ts2) == LParen {
      var params, colon, body := SignatureAccepted(names, Rest(ts2));
      Uncons(ts2, LParen);
      d := SFunction(t, name, params, colon, body);
      FunctionRegroup(d, rest);
    } else {
      var reg := RegisterAccepted(ts2);
      var ts3 := ParseRegister(ts2).1;
      NoColon(ts2);
      Uncons(ts3, Semicolon);
      d := SGlobal(t, name, reg);
      GlobalRegroup(d, rest);
    }
  }

  lemma {:induction false} NoColon(ts: Input)
    ensures Peek(ts) == Semicolon ==> ParseRegister(ts) == (None, ts)
  {
  }

  lemma {:induction false} GlobalRegroup(d: STop, rest: Input)
    requires d.SGlobal?
    ensures TopText(d) + rest == TypeText(d.ty) + ([TIdent(d.name)] + (PrintRegister(d.register) + ([Semicolon] + rest)))
  {
    hide TypeText, PrintRegister;
    Regroup4(TypeText(d.ty), [TIdent(d.name)], PrintRegister(d.register), [Semicolon], rest);
  }

  /** A declaration is accepted only if its tokens are the text of a declaration that stands for the result. */
  lemma {:induction false} TopAccepted(names: set<string>, ts: Input) returns (d: STop)
    requires ParseDecl(names, ts).Ok?
    ensures var (x, rest) := ParseDecl(names, ts).value;
      TopFits(names, d) && TopMeant(names, d) == x && ts == TopText(d) + rest
  {
    hide ParseStruct, ParseCBuffer, ParseFunctionOrGlobal, TopFits, TopMeant, TopText;
    match Peek(ts)
    case TKeyword(KStruct) => d := StructAccepted(names, ts);
    case TKeyword(KCBuffer) => d := BufferAccepted(names, ts);
    case _ => d := OtherAccepted(names, ts);
  }

  /** A file is accepted only if all of its tokens are the text of declarations that stand for the result, every struct
      used as a type being declared in front. */
  lemma {:induction false} UnitAccepted(names: set<string>, ts: Input) returns (ds: seq<STop>)
    requires ParseUnit(names, ts).Ok?
    ensures UnitFits(names, ds) && UnitMeant(names, ds) == ParseUnit(names, ts).value.0 && ts == UnitText(ds)
    decreases |ts|
  {
    hide ParseDecl, TopText;
    ds := [];
    if ts != [] {
      var d := TopAccepted(names, ts);
      var (x, ts1) := ParseDecl(names, ts).value;
      KnownAfter(names, d);
      var more := UnitAccepted(NamesAfter(names, x), ts1);
      ds := [d] + more;
      hide TopFits, TopMeant;
      assert ds[1..] == more;
    }
  }

  lemma {:induction false} KnownAfter(names: set<string>, d: STop)
    requires TopFits(names, d)
    ensures Known(names, d) == NamesAfter(names, TopMeant(names, d))
  {
  }
}
