/**
 What some sentences of the logic expressions (src/Calc/CalcLogicExpression.cc) mean, for all inputs:
 every operator, as a symbol and as a word in either case, their precedence, parentheses and aliases.
 */
module LogicSamples {
  import opened Wrappers
  import opened LogicExpression

  // ---------- tokens of a text ----------

  /** The input that one letter names. */
  function Named(c: char): Token {
    Word([ToUpper(c)])
  }

  /** One letter that no other letter follows. */
  lemma LetterAt(text: string, i: nat)
    requires i < |text| && IsAlpha(text[i])
    requires i + 1 < |text| ==> !IsAlpha(text[i + 1])
    ensures Tokenize(text[i..]) == [Named(text[i])] + Tokenize(text[i + 1..])
  {
    var s := text[i..];
    LetterRunIsMaximal(s, 1);
    assert s[..1] == [text[i]] && Upper([text[i]]) == [ToUpper(text[i])];
    KeywordsAreLonger(ToUpper(text[i]));
    TokenizeFrom(text, i, Named(text[i]), i + 1);
  }

  lemma KeywordsAreLonger(c: char)
    ensures WordToken([c]) == Word([c])
  {
  }

  /** An operator or a parenthesis of one character. */
  lemma SymbolAt(text: string, i: nat, t: Token)
    requires i < |text|
    requires (text[i], t) in {('!', NotOp), ('^', XorOp), ('(', Open), (')', Close)}
    ensures Tokenize(text[i..]) == [t] + Tokenize(text[i + 1..])
  {
    assert text[i..][0] == text[i];
    TokenizeFrom(text, i, t, i + 1);
  }

  lemma DoubleAt(text: string, i: nat, t: Token)
    requires i + 1 < |text| && text[i] == text[i + 1] && (text[i], t) in {('&', AndOp), ('|', OrOp)}
    ensures Tokenize(text[i..]) == [t] + Tokenize(text[i + 2..])
  {
    assert text[i..][0] == text[i] && text[i..][1] == text[i + 1];
    TokenizeFrom(text, i, t, i + 2);
  }

  lemma SpaceAt(text: string, i: nat)
    requires i < |text| && text[i] == ' '
    ensures Tokenize(text[i..]) == Tokenize(text[i + 1..])
  {
    assert text[i..][0] == ' ' && text[i..][1..] == text[i + 1..];
  }

  /** A keyword that ends with a space. */
  lemma KeywordAt(text: string, i: nat, upper: string, t: Token)
    requires upper != "" && i + |upper| < |text| && text[i + |upper|] == ' ' && t == WordToken(upper)
    requires forall k :: i <= k < i + |upper| ==> IsAlpha(text[k]) && ToUpper(text[k]) == upper[k - i]
    ensures Tokenize(text[i..]) == [t] + Tokenize(text[i + |upper| + 1..])
  {
    var n := |upper|;
    var s := text[i..];
    assert forall k :: 0 <= k < n ==> s[k] == text[i + k] && IsAlpha(s[k]) && ToUpper(s[k]) == upper[k];
    LetterRunIsMaximal(s, n);
    assert Upper(s[..n]) == upper;
    TokenizeFrom(text, i, t, i + n);
    SpaceAt(text, i + n);
  }

  lemma ThreeLetters(text: string, i: nat, t: Token)
    requires i + 3 < |text| && text[i + 3] == ' ' && IsAlpha(text[i]) && IsAlpha(text[i + 1]) && IsAlpha(text[i + 2])
    requires t == WordToken([ToUpper(text[i]), ToUpper(text[i + 1]), ToUpper(text[i + 2])])
    ensures Tokenize(text[i..]) == [t] + Tokenize(text[i + 4..])
  {
    KeywordAt(text, i, [ToUpper(text[i]), ToUpper(text[i + 1]), ToUpper(text[i + 2])], t);
  }

  lemma TwoLetters(text: string, i: nat, t: Token)
    requires i + 2 < |text| && text[i + 2] == ' ' && IsAlpha(text[i]) && IsAlpha(text[i + 1])
    requires t == WordToken([ToUpper(text[i]), ToUpper(text[i + 1])])
    ensures Tokenize(text[i..]) == [t] + Tokenize(text[i + 3..])
  {
    KeywordAt(text, i, [ToUpper(text[i]), ToUpper(text[i + 1])], t);
  }

  // ---------- precedence ----------

  /** A || B ^ C && !D, grouped by precedence. */
  function Chain(): Expr {
    Binary(0, Input(0), Binary(1, Input(1), Binary(2, Input(2), Not(Input(3)))))
  }

  function ChainOf(a: Token, b: Token, c: Token, d: Token): seq<Token> {
    [a, OrOp, b, XorOp, c, AndOp, NotOp, d]
  }

  /** The tokens of the first inputs. */
  function Alias(n: nat): Token {
    Word(AliasName(n))
  }

  lemma FirstAliases()
    ensures Alias(1) == Named('A') && Alias(2) == Named('B') && Alias(3) == Named('C') && Alias(4) == Named('D')
    ensures Alias(1) == Named('a') && Alias(2) == Named('b') && Alias(3) == Named('c') && Alias(4) == Named('d')
  {
    assert AliasName(0) == "";
  }

  lemma SpellBinary(k: nat, l: Expr, r: Expr)
    requires k < UNARY
    ensures Spell(Binary(k, l, r)) == Spell(l) + [Operator(k)] + Spell(r)
  {
  }

  lemma SpellInput(i: nat)
    ensures Spell(Input(i)) == [Alias(i + 1)]
  {
  }

  lemma ChainIsSpelled()
    ensures Spell(Chain()) == ChainOf(Alias(1), Alias(2), Alias(3), Alias(4))
  {
    var none, both := Not(Input(3)), Binary(2, Input(2), Not(Input(3)));
    SpellInput(0);
    SpellInput(1);
    SpellInput(2);
    SpellInput(3);
    assert Spell(none) == [NotOp] + [Alias(4)];
    SpellBinary(2, Input(2), none);
    SpellBinary(1, Input(1), both);
    SpellBinary(0, Input(0), Binary(1, Input(1), both));
  }

  lemma ChainIsSound()
    ensures AtLevel(Chain(), 0) && Depth(Chain()) == 1
  {
    assert AtLevel(Binary(2, Input(2), Not(Input(3))), 2);
    assert AtLevel(Binary(1, Input(1), Binary(2, Input(2), Not(Input(3)))), 1);
  }

  lemma ChainUsesAll()
    ensures UsesEvery(Chain(), 4)
  {
    assert Uses(Binary(2, Input(2), Not(Input(3)))) == {2, 3};
    assert Uses(Binary(1, Input(1), Binary(2, Input(2), Not(Input(3))))) == {1, 2, 3};
    assert Uses(Chain()) == {0, 1, 2, 3};
  }

  lemma ChainValue(inputs: seq<bool>)
    requires |inputs| == 4
    ensures Below(Chain(), 4) && Value(Chain(), inputs) == (inputs[0] || (inputs[1] != (inputs[2] && !inputs[3])))
  {
    var none := Not(Input(3));
    var both := Binary(2, Input(2), none);
    var other := Binary(1, Input(1), both);
    assert Below(none, 4) && Below(both, 4) && Below(other, 4);
    assert Value(none, inputs) == !inputs[3];
    assert Value(both, inputs) == (inputs[2] && !inputs[3]);
    assert Value(other, inputs) == (inputs[1] != (inputs[2] && !inputs[3]));
  }

  lemma ChainIsRead(a: Token, b: Token, c: Token, d: Token)
    requires a.Word? && b.Word? && c.Word? && d.Word?
    ensures forall i :: 0 <= i < |ChainOf(a, b, c, d)| ==> ChainOf(a, b, c, d)[i] != Bad
  {
  }

  lemma MeansChain(text: string, inputs: seq<bool>)
    requires |text| <= 4096 && text != "" && |inputs| == 4
    requires Tokenize(text) == ChainOf(Alias(1), Alias(2), Alias(3), Alias(4))
    ensures Evaluate(text, inputs) == Some(inputs[0] || (inputs[1] != (inputs[2] && !inputs[3])))
  {
    var e, toks := Chain(), ChainOf(Alias(1), Alias(2), Alias(3), Alias(4));
    ChainIsRead(Alias(1), Alias(2), Alias(3), Alias(4));
    ChainIsSpelled();
    ChainIsSound();
    ChainUsesAll();
    ChainValue(inputs);
    Means(text, e, toks, inputs);
  }

  /** What a text means whose tokens spell an expression within the limits. */
  lemma Means(text: string, e: Expr, toks: seq<Token>, inputs: seq<bool>)
    requires 1 <= |text| <= MAX_TEXT && Tokenize(text) == toks && Spell(e) == toks
    requires forall i :: 0 <= i < |toks| ==> toks[i] != Bad
    requires 1 <= |inputs| <= MAX_INPUTS && AtLevel(e, 0) && Depth(e) <= MAX_DEPTH && UsesEvery(e, |inputs|)
    requires Below(e, |inputs|)
    ensures Evaluate(text, inputs) == Some(Value(e, inputs))
  {
    TokenizeIffReads(text, toks);
    EvaluateIffSentence(text, inputs, Value(e, inputs));
  }

  /** The text A||B^C&&!D. */
  predicate IsSymbols(s: string) {
    && |s| == 10 && s[0] == 'A' && s[1] == s[2] == '|' && s[3] == 'B' && s[4] == '^'
    && s[5] == 'C' && s[6] == s[7] == '&' && s[8] == '!' && s[9] == 'D'
  }

  lemma Symbols8(s: string)
    requires IsSymbols(s)
    ensures Tokenize(s[8..]) == [NotOp, Named(s[9])]
  {
    LetterAt(s, 9);
    assert s[10..] == "";
    SymbolAt(s, 8, NotOp);
  }

  lemma Symbols5(s: string)
    requires IsSymbols(s)
    ensures Tokenize(s[5..]) == [Named(s[5]), AndOp, NotOp, Named(s[9])]
  {
    Symbols8(s);
    DoubleAt(s, 6, AndOp);
    LetterAt(s, 5);
  }

  lemma Symbols3(s: string)
    requires IsSymbols(s)
    ensures Tokenize(s[3..]) == [Named(s[3]), XorOp, Named(s[5]), AndOp, NotOp, Named(s[9])]
  {
    Symbols5(s);
    SymbolAt(s, 4, XorOp);
    LetterAt(s, 3);
  }

  lemma SymbolTokens(s: string)
    requires IsSymbols(s)
    ensures Tokenize(s) == ChainOf(Named(s[0]), Named(s[3]), Named(s[5]), Named(s[9]))
  {
    Symbols3(s);
    DoubleAt(s, 1, OrOp);
    LetterAt(s, 0);
    assert s[0..] == s;
  }

  /** NOT binds tighter than AND, AND than XOR, and XOR than OR. */
  lemma SymbolsMean(inputs: seq<bool>)
    requires |inputs| == 4
    ensures Evaluate("A||B^C&&!D", inputs) == Some(inputs[0] || (inputs[1] != (inputs[2] && !inputs[3])))
  {
    SymbolTokens("A||B^C&&!D");
    FirstAliases();
    MeansChain("A||B^C&&!D", inputs);
  }

  /** The text a Or b xor c AND not d. */
  predicate IsWords(s: string) {
    && |s| == 22
    && s[0] == 'a' && s[1] == ' ' && s[2] == 'O' && s[3] == 'r' && s[4] == ' '
    && s[5] == 'b' && s[6] == ' ' && s[7] == 'x' && s[8] == 'o' && s[9] == 'r' && s[10] == ' '
    && s[11] == 'c' && s[12] == ' ' && s[13] == 'A' && s[14] == 'N' && s[15] == 'D' && s[16] == ' '
    && s[17] == 'n' && s[18] == 'o' && s[19] == 't' && s[20] == ' ' && s[21] == 'd'
  }

  lemma Words17(s: string)
    requires IsWords(s)
    ensures Tokenize(s[17..]) == [NotOp, Named(s[21])]
  {
    LetterAt(s, 21);
    assert s[22..] == "";
    ThreeLetters(s, 17, NotOp);
  }

  lemma Words12(s: string)
    requires IsWords(s)
    ensures Tokenize(s[12..]) == [AndOp, NotOp, Named(s[21])]
  {
    Words17(s);
    ThreeLetters(s, 13, AndOp);
    SpaceAt(s, 12);
  }

  lemma Words11(s: string)
    requires IsWords(s)
    ensures Tokenize(s[11..]) == [Named(s[11]), AndOp, NotOp, Named(s[21])]
  {
    Words12(s);
    LetterAt(s, 11);
  }

  lemma Words7(s: string)
    requires IsWords(s)
    ensures Tokenize(s[7..]) == [XorOp, Named(s[11]), AndOp, NotOp, Named(s[21])]
  {
    Words11(s);
    ThreeLetters(s, 7, XorOp);
  }

  lemma Words5(s: string)
    requires IsWords(s)
    ensures Tokenize(s[5..]) == [Named(s[5]), XorOp, Named(s[11]), AndOp, NotOp, Named(s[21])]
  {
    Words7(s);
    SpaceAt(s, 6);
    LetterAt(s, 5);
  }

  lemma Words1(s: string)
    requires IsWords(s)
    ensures Tokenize(s[1..]) == [OrOp, Named(s[5]), XorOp, Named(s[11]), AndOp, NotOp, Named(s[21])]
  {
    Words5(s);
    TwoLetters(s, 2, OrOp);
    SpaceAt(s, 1);
  }

  lemma WordTokens(s: string)
    requires IsWords(s)
    ensures Tokenize(s) == ChainOf(Named(s[0]), Named(s[5]), Named(s[11]), Named(s[21]))
  {
    Words1(s);
    LetterAt(s, 0);
    assert s[0..] == s;
  }

  /** Keywords in any case are the same operators. */
  lemma WordsMean(inputs: seq<bool>)
    requires |inputs| == 4
    ensures Evaluate("a Or b xor c AND not d", inputs) == Some(inputs[0] || (inputs[1] != (inputs[2] && !inputs[3])))
  {
    WordTokens("a Or b xor c AND not d");
    FirstAliases();
    MeansChain("a Or b xor c AND not d", inputs);
  }

  // ---------- parentheses ----------

  /** (A || B) && C */
  function Grouped(): Expr {
    Binary(2, Group(Binary(0, Input(0), Input(1))), Input(2))
  }

  function GroupedOf(a: Token, b: Token, c: Token): seq<Token> {
    [Open, a, OrOp, b, Close, AndOp, c]
  }

  lemma GroupedIsSpelled()
    ensures Spell(Grouped()) == GroupedOf(Alias(1), Alias(2), Alias(3))
  {
    var choice := Binary(0, Input(0), Input(1));
    SpellInput(0);
    SpellInput(1);
    SpellInput(2);
    SpellBinary(0, Input(0), Input(1));
    assert Spell(Group(choice)) == [Open] + Spell(choice) + [Close];
    SpellBinary(2, Group(choice), Input(2));
  }

  /** The text (A||B)&&C. */
  predicate IsGroups(s: string) {
    && |s| == 9 && s[0] == '(' && s[1] == 'A' && s[2] == s[3] == '|' && s[4] == 'B'
    && s[5] == ')' && s[6] == s[7] == '&' && s[8] == 'C'
  }

  lemma Groups6(s: string)
    requires IsGroups(s)
    ensures Tokenize(s[6..]) == [AndOp, Named(s[8])]
  {
    LetterAt(s, 8);
    assert s[9..] == "";
    DoubleAt(s, 6, AndOp);
  }

  lemma Groups4(s: string)
    requires IsGroups(s)
    ensures Tokenize(s[4..]) == [Named(s[4]), Close, AndOp, Named(s[8])]
  {
    Groups6(s);
    SymbolAt(s, 5, Close);
    LetterAt(s, 4);
  }

  lemma Groups1(s: string)
    requires IsGroups(s)
    ensures Tokenize(s[1..]) == [Named(s[1]), OrOp, Named(s[4]), Close, AndOp, Named(s[8])]
  {
    Groups4(s);
    DoubleAt(s, 2, OrOp);
    LetterAt(s, 1);
  }

  lemma GroupTokens(s: string)
    requires IsGroups(s)
    ensures Tokenize(s) == GroupedOf(Named(s[1]), Named(s[4]), Named(s[8]))
  {
    Groups1(s);
    SymbolAt(s, 0, Open);
    assert s[0..] == s;
  }

  lemma GroupedIsSound()
    ensures AtLevel(Grouped(), 0) && Depth(Grouped()) == 1 && UsesEvery(Grouped(), 3)
  {
    assert AtLevel(Binary(0, Input(0), Input(1)), 0);
    assert Uses(Group(Binary(0, Input(0), Input(1)))) == {0, 1};
    assert Uses(Grouped()) == {0, 1, 2};
  }

  lemma GroupedValue(inputs: seq<bool>)
    requires |inputs| == 3
    ensures Below(Grouped(), 3) && Value(Grouped(), inputs) == ((inputs[0] || inputs[1]) && inputs[2])
  {
    var choice := Binary(0, Input(0), Input(1));
    assert Below(choice, 3) && Below(Group(choice), 3);
    assert Value(choice, inputs) == (inputs[0] || inputs[1]);
    assert Value(Group(choice), inputs) == Value(choice, inputs);
  }

  lemma GroupedIsRead(a: Token, b: Token, c: Token)
    requires a.Word? && b.Word? && c.Word?
    ensures forall i :: 0 <= i < |GroupedOf(a, b, c)| ==> GroupedOf(a, b, c)[i] != Bad
  {
  }

  lemma MeansGrouped(text: string, inputs: seq<bool>)
    requires |text| <= 4096 && text != "" && |inputs| == 3
    requires Tokenize(text) == GroupedOf(Alias(1), Alias(2), Alias(3))
    ensures Evaluate(text, inputs) == Some((inputs[0] || inputs[1]) && inputs[2])
  {
    var e, toks := Grouped(), GroupedOf(Alias(1), Alias(2), Alias(3));
    GroupedIsRead(Alias(1), Alias(2), Alias(3));
    GroupedIsSpelled();
    GroupedIsSound();
    GroupedValue(inputs);
    Means(text, e, toks, inputs);
  }

  /** Parentheses come first. */
  lemma GroupsMean(inputs: seq<bool>)
    requires |inputs| == 3
    ensures Evaluate("(A||B)&&C", inputs) == Some((inputs[0] || inputs[1]) && inputs[2])
  {
    GroupTokens("(A||B)&&C");
    FirstAliases();
    MeansGrouped("(A||B)&&C", inputs);
  }

  /** After Z comes AA: the 27th input. */
  lemma AliasesGoOn()
    ensures AliasName(26) == "Z" && AliasName(27) == "AA" && AliasName(28) == "AB" && AliasName(256) == "IV"
  {
    assert AliasName(0) == "" && AliasName(1) == "A" && AliasName(9) == "I";
  }

  // ---------- the nesting limit ----------

  /** `n` times ! in front of A. */
  function Negations(n: nat): Expr {
    if n == 0 then Input(0) else Not(Negations(n - 1))
  }

  function NegationText(n: nat): (s: string)
    ensures |s| == n + 1
  {
    if n == 0 then "A" else "!" + NegationText(n - 1)
  }

  function NegationTokens(n: nat): (toks: seq<Token>)
    ensures |toks| == n + 1
    ensures forall i :: 0 <= i < n ==> toks[i] == NotOp
    ensures toks[n] == Alias(1)
  {
    if n == 0 then [Alias(1)] else [NotOp] + NegationTokens(n - 1)
  }

  lemma {:induction false} NegationsAreRead(n: nat)
    ensures Tokenize(NegationText(n)) == NegationTokens(n)
  {
    var s := NegationText(n);
    assert s[0..] == s;
    if n == 0 {
      FirstAliases();
      LetterAt(s, 0);
      assert s[1..] == "";
    } else {
      NegationsAreRead(n - 1);
      SymbolAt(s, 0, NotOp);
      assert s[1..] == NegationText(n - 1);
    }
  }

  lemma {:induction false} NegationsAreSpelled(n: nat)
    ensures Spell(Negations(n)) == NegationTokens(n)
  {
    if n > 0 {
      NegationsAreSpelled(n - 1);
    } else {
      SpellInput(0);
    }
  }

  lemma {:induction false} NegationsAreSound(n: nat)
    ensures AtLevel(Negations(n), UNARY) && Depth(Negations(n)) == n && Below(Negations(n), 1)
  {
    if n > 0 {
      NegationsAreSound(n - 1);
    }
  }

  lemma {:induction false} NegationsUseOne(n: nat)
    ensures Uses(Negations(n)) == {0}
  {
    if n > 0 {
      NegationsUseOne(n - 1);
    }
  }

  function Flipped(n: nat, b: bool): bool {
    if n == 0 then b else !Flipped(n - 1, b)
  }

  lemma {:induction false} FlippedOften(n: nat, b: bool)
    ensures Flipped(n, b) == if n % 2 == 0 then b else !b
  {
    if n > 0 {
      FlippedOften(n - 1, b);
    }
  }

  lemma {:induction false} NegationsFlip(n: nat, inputs: seq<bool>)
    requires |inputs| == 1 && Below(Negations(n), 1)
    ensures Value(Negations(n), inputs) == Flipped(n, inputs[0])
  {
    if n > 0 {
      NegationsFlip(n - 1, inputs);
    }
  }

  lemma NegationsAtTop(n: nat)
    requires AtLevel(Negations(n), UNARY)
    ensures AtLevel(Negations(n), 0)
  {
  }

  /** Nothing else is spelled like that. */
  lemma {:induction false} OnlyNegations(e: Expr, n: nat)
    requires Spell(e) == NegationTokens(n) && AtLevel(e, 0)
    ensures e == Negations(n)
  {
    assert NegationTokens(n)[0] in {NotOp, Alias(1)};
    NoOperatorWithin(n);
    match e
    case Input(i) =>
      assert n == 0 && AliasName(i + 1) == AliasName(1);
      AliasRoundTrip(i + 1);
      AliasRoundTrip(1);
    case Not(o) =>
      assert Spell(e)[0] == NotOp && n > 0;
      assert Spell(o) == Spell(e)[1..] && NegationTokens(n)[1..] == NegationTokens(n - 1);
      assert AtLevel(o, 0);
      OnlyNegations(o, n - 1);
    case Group(i) =>
    case Binary(k, l, r) =>
      OperatorWithin(k, l, r);
  }

  lemma OperatorWithin(k: nat, l: Expr, r: Expr)
    ensures k < UNARY ==> Operator(k) in Spell(Binary(k, l, r))
  {
  }

  lemma NoOperatorWithin(n: nat)
    ensures forall k :: 0 <= k < UNARY ==> Operator(k) !in NegationTokens(n)
  {
  }

  lemma Nested(n: nat, inputs: seq<bool>)
    requires |inputs| == 1 && n <= 64
    ensures Evaluate(NegationText(n), inputs) == Some(if n % 2 == 0 then inputs[0] else !inputs[0])
  {
    NegationsAreRead(n);
    NegationsAreSpelled(n);
    NegationsAreSound(n);
    NegationsAtTop(n);
    NegationsUseOne(n);
    NegationsFlip(n, inputs);
    FlippedOften(n, inputs[0]);
    NegationsHaveNoBad(n);
    Means(NegationText(n), Negations(n), NegationTokens(n), inputs);
  }

  lemma NegationsHaveNoBad(n: nat)
    ensures forall i :: 0 <= i < |NegationTokens(n)| ==> NegationTokens(n)[i] != Bad
  {
  }

  lemma TooDeep(n: nat, e: Expr)
    requires n > 64
    ensures !Sentence(NegationText(n), 1, e)
  {
    if Sentence(NegationText(n), 1, e) {
      NegationsAreRead(n);
      TokenizeIffReads(NegationText(n), Spell(e));
      OnlyNegations(e, n);
      NegationsAreSound(n);
      assert false;
    }
  }

  /** Negations may be nested 64 deep and no deeper. */
  lemma NestingLimit(n: nat, inputs: seq<bool>)
    requires |inputs| == 1
    ensures Evaluate(NegationText(n), inputs) ==
              if n > 64 then None else Some(if n % 2 == 0 then inputs[0] else !inputs[0])
  {
    if n <= 64 {
      Nested(n, inputs);
    } else if Evaluate(NegationText(n), inputs).Some? {
      EvaluateIffSentence(NegationText(n), inputs, Evaluate(NegationText(n), inputs).value);
      forall e ensures !Sentence(NegationText(n), 1, e) {
        TooDeep(n, e);
      }
    }
  }
}
