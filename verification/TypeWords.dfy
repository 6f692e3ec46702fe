/** Which words are types, exactly. */
module TypeWords {
  import opened Wrappers
  import opened Ast
  import opened Tokens

  function NumeralValue(s: string): nat
    requires Numeral(s)
  {
    FromDecimal(Unsigned(s))
  }

  /** `float`, `float3` with two to four components, `float4x4` with at least one row and column. */
  ghost predicate Spells(s: string, ty: Type) {
    exists k: ScalarKind, a: string, b: string :: SpelledBy(s, ty, k, a, b)
  }

  predicate SpelledBy(s: string, ty: Type, k: ScalarKind, a: string, b: string) {
    || (s == KindWord(k) && ty == Scalar(k))
    || (Numeral(a) && s == KindWord(k) + a && 2 <= NumeralValue(a) <= 4 && ty == Vector(k, NumeralValue(a)))
    || (Numeral(a) && Numeral(b) && s == KindWord(k) + (a + ("x" + b))
        && 1 <= NumeralValue(a) < 0x1_0000_0000 && 1 <= NumeralValue(b) < 0x1_0000_0000
        && ty == if NumeralValue(b) > 1 then Matrix(k, NumeralValue(a), NumeralValue(b))
                 else if NumeralValue(a) > 1 then Vector(k, NumeralValue(a)) else Scalar(k))
  }

  lemma {:induction false} ParseNumeral(s: string)
    ensures ParseU32(s) == if Numeral(s) && NumeralValue(s) < 0x1_0000_0000 then Some(NumeralValue(s)) else None
  {
  }

  lemma {:induction false} NoXInNumeral(a: string)
    requires Numeral(a)
    ensures forall i :: 0 <= i < |a| ==> a[i] != 'x'
  {
    forall i | 0 <= i < |a| ensures a[i] != 'x' {
      assert a[0] == '+' && i > 0 ==> a[i] == a[1..][i - 1];
    }
  }

  lemma {:induction false} FindFirstX(a: string, b: string)
    requires forall i :: 0 <= i < |a| ==> a[i] != 'x'
    ensures FindX(a) == None && FindX(a + ("x" + b)) == Some(|a|)
  {
    var s := a + ("x" + b);
    assert s[|a|] == 'x';
    forall j | 0 <= j < |a| ensures s[j] != 'x' {
      assert s[j] == a[j];
    }
  }

  /** The shape behind the kind: nothing, one numeral, or two. */
  ghost predicate ShapeSpelled(s: string, shape: (nat, nat)) {
    || (s == "" && shape == (1, 1))
    || (Numeral(s) && 2 <= NumeralValue(s) <= 4 && shape == (NumeralValue(s), 1))
    || (exists a, b :: IsPair(s, a, b) && shape == (NumeralValue(a), NumeralValue(b)))
  }

  lemma {:induction false} ShapeExact(s: string, shape: (nat, nat))
    ensures DecodeShape(s) == Some(shape) <==> ShapeSpelled(s, shape)
  {
    hide ParseU32, Numeral, NumeralValue, DecodeShape, ShapeSpelled, IsPair;
    if s == "" {
      EmptyShape(shape);
    } else if FindX(s).Some? {
      PairShape(s, FindX(s).value, shape);
    } else {
      VectorShape(s, shape);
    }
  }

  lemma {:induction false} EmptyShape(shape: (nat, nat))
    ensures DecodeShape("") == Some(shape) <==> ShapeSpelled("", shape)
  {
    hide NumeralValue;
    forall a, b ensures !IsPair("", a, b) {
      assert |a + ("x" + b)| > 0;
    }
  }

  lemma {:induction false} VectorShape(s: string, shape: (nat, nat))
    requires s != "" && FindX(s).None?
    ensures DecodeShape(s) == Some(shape) <==> ShapeSpelled(s, shape)
  {
    ParseNumeral(s);
    hide ParseU32, Numeral, NumeralValue;
    forall a, b ensures !IsPair(s, a, b) {
      assert (a + ("x" + b))[|a|] == 'x';
    }
  }

  lemma {:induction false} HasX(s: string, i: nat)
    requires FindX(s) == Some(i)
    ensures !Numeral(s)
  {
    if Numeral(s) {
      NoXInNumeral(s);
    }
  }

  lemma {:induction false} PairShape(s: string, i: nat, shape: (nat, nat))
    requires s != "" && FindX(s) == Some(i)
    ensures DecodeShape(s) == Some(shape) <==> ShapeSpelled(s, shape)
  {
    hide ParseU32, Numeral, NumeralValue;
    var a, b := s[..i], s[i + 1..];
    assert s == a + ("x" + b);
    ParseNumeral(a);
    ParseNumeral(b);
    HasX(s, i);
    forall c, d | IsPair(s, c, d) ensures c == a && d == b {
      PairUnique(s, c, d, i);
    }
    if IsPair(s, a, b) {
      assert DecodeShape(s) == Some((NumeralValue(a), NumeralValue(b)));
    }
  }

  predicate IsPair(s: string, a: string, b: string) {
    && Numeral(a) && Numeral(b) && s == a + ("x" + b)
    && 1 <= NumeralValue(a) < 0x1_0000_0000 && 1 <= NumeralValue(b) < 0x1_0000_0000
  }

  lemma {:induction false} PairUnique(s: string, a: string, b: string, i: nat)
    requires Numeral(a) && s == a + ("x" + b) && FindX(s) == Some(i)
    ensures a == s[..i] && b == s[i + 1..]
  {
    NoXInNumeral(a);
    FindFirstX(a, b);
  }

  /** A word decodes to a type exactly when it spells it. */
  lemma {:induction false} TypeWordExact(s: string, ty: Type)
    ensures DecodeTypeWord(s) == Some(ty) <==> Spells(s, ty)
  {
    if DecodeTypeWord(s) == Some(ty) {
      DecodedSpelled(s, ty);
    }
    if k, a, b :| SpelledBy(s, ty, k, a, b) {
      SpelledDecodes(s, ty, k, a, b);
    }
  }

  lemma {:induction false} DecodedSpelled(s: string, ty: Type)
    requires DecodeTypeWord(s) == Some(ty)
    ensures Spells(s, ty)
  {
    hide DecodeShape, KindWord, WordKind, Numeral, NumeralValue;
    var k := WordKind(s).value;
    var rest := s[|KindWord(k)|..];
    var shape := DecodeShape(rest).value;
    assert s == KindWord(k) + rest;
    ShapeExact(rest, shape);
    if rest == "" && shape == (1, 1) {
      assert SpelledBy(s, ty, k, "", "");
    } else if Numeral(rest) && 2 <= NumeralValue(rest) <= 4 && shape == (NumeralValue(rest), 1) {
      assert SpelledBy(s, ty, k, rest, "");
    } else {
      var a, b :| IsPair(rest, a, b) && shape == (NumeralValue(a), NumeralValue(b));
      assert SpelledBy(s, ty, k, a, b);
    }
  }

  lemma {:induction false} SpelledDecodes(s: string, ty: Type, k: ScalarKind, a: string, b: string)
    requires SpelledBy(s, ty, k, a, b)
    ensures DecodeTypeWord(s) == Some(ty)
  {
    hide DecodeShape, KindWord, WordKind, Numeral, NumeralValue;
    if s == KindWord(k) && ty == Scalar(k) {
      WordKindOf(k, "");
      assert KindWord(k) + "" == s;
      ShapeExact("", (1, 1));
    } else if Numeral(a) && s == KindWord(k) + a && ty == Vector(k, NumeralValue(a)) && 2 <= NumeralValue(a) <= 4 {
      WordKindOf(k, a);
      ShapeExact(a, (NumeralValue(a), 1));
    } else {
      WordKindOf(k, a + ("x" + b));
      assert IsPair(a + ("x" + b), a, b);
      ShapeExact(a + ("x" + b), (NumeralValue(a), NumeralValue(b)));
    }
  }
}
