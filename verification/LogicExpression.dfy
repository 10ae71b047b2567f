/**
 The logic expression evaluator of the Calc module (src/Calc/CalcLogicExpression.cc).

 Three layers. A declarative one says what an expression is: `Reads` relates a text to its
 tokens, `AtLevel`/`Spell` give the grammar NOT > AND > XOR > OR, `Value` its meaning. A
 functional one is the recursive descent `Parse` on tokens. `LogicParser`, at the end, is the
 one-pass parser of the source with its cursor, current token, used flags and nesting counter.

 Every character of a text stands for one byte.
 */
module LogicExpression {
  import opened Wrappers

  const MAX_TEXT := 4096
  const MAX_INPUTS := 256
  const MAX_DEPTH := 64

  // ---------- characters and tokens ----------

  predicate IsSpace(c: char) {
    c == ' ' || '\t' <= c <= '\r'
  }

  predicate IsAlpha(c: char) {
    'a' <= c <= 'z' || 'A' <= c <= 'Z'
  }

  function ToUpper(c: char): (r: char)
    ensures IsAlpha(c) ==> 'A' <= r <= 'Z'
  {
    if 'a' <= c <= 'z' then c - 'a' + 'A' else c
  }

  function Upper(s: string): (r: string)
    ensures |r| == |s|
    ensures forall i :: 0 <= i < |s| ==> r[i] == ToUpper(s[i])
  {
    if s == "" then "" else [ToUpper(s[0])] + Upper(s[1..])
  }

  lemma {:induction false} UpperAppend(s: string, c: char)
    ensures Upper(s + [c]) == Upper(s) + [ToUpper(c)]
  {
    if s != "" {
      UpperAppend(s[1..], c);
      assert (s + [c])[1..] == s[1..] + [c];
    }
  }

  predicate IsLetters(s: string) {
    forall i :: 0 <= i < |s| ==> IsAlpha(s[i])
  }

  predicate IsUpperLetters(s: string) {
    forall i :: 0 <= i < |s| ==> 'A' <= s[i] <= 'Z'
  }

  /** `Bad` stands for a place where the tokenizer gives up. */
  datatype Token = Open | Close | NotOp | AndOp | XorOp | OrOp | Word(name: string) | Bad

  function WordToken(upper: string): Token {
    if upper == "AND" then AndOp
    else if upper == "OR" then OrOp
    else if upper == "XOR" then XorOp
    else if upper == "NOT" then NotOp
    else Word(upper)
  }

  // ---------- what a text spells ----------

  /** The lexemes of each token: the symbol, or the keyword in any case, or an alias. */
  predicate Spells(s: string, t: Token) {
    match t
    case Open => s == "("
    case Close => s == ")"
    case NotOp => s == "!" || (IsLetters(s) && Upper(s) == "NOT")
    case AndOp => s == "&&" || (IsLetters(s) && Upper(s) == "AND")
    case XorOp => s == "^" || (IsLetters(s) && Upper(s) == "XOR")
    case OrOp => s == "||" || (IsLetters(s) && Upper(s) == "OR")
    case Word(w) => s != "" && IsLetters(s) && Upper(s) == w && w !in ["NOT", "AND", "XOR", "OR"]
    case Bad => false
  }

  /** `text` is the lexemes of `toks` in order with optional white space around them;
      letters that touch belong to one lexeme. */
  ghost predicate Reads(text: string, toks: seq<Token>)
    decreases |text|
  {
    if text == "" then toks == []
    else
      || (IsSpace(text[0]) && Reads(text[1..], toks))
      || (toks != [] && exists n :: LexemeAt(text, n, toks[0]) && Reads(text[n..], toks[1..]))
  }

  ghost predicate LexemeAt(text: string, n: int, t: Token) {
    && 1 <= n <= |text|
    && Spells(text[..n], t)
    && (IsAlpha(text[0]) && n < |text| ==> !IsAlpha(text[n]))
  }

  predicate WellFormed(t: Token) {
    t != Bad && (t.Word? ==> t.name != "" && IsUpperLetters(t.name))
  }

  // ---------- the tokenizer as a function ----------

  /** The length of the run of letters at the start of `text`. */
  function LetterRun(text: string): (n: nat)
    ensures n <= |text|
    ensures IsLetters(text[..n])
    ensures n < |text| ==> !IsAlpha(text[n])
  {
    if text != "" && IsAlpha(text[0]) then 1 + LetterRun(text[1..]) else 0
  }

  /** The token that starts at the first character and the number of characters it takes. */
  function FirstToken(text: string): (r: (Token, nat))
    requires text != ""
    ensures 1 <= r.1 <= |text|
  {
    var c := text[0];
    if IsAlpha(c) then (WordToken(Upper(text[..LetterRun(text)])), LetterRun(text))
    else if c == '&' || c == '|' then
      if |text| == 1 || text[1] != c then (Bad, 1)
      else (if c == '&' then AndOp else OrOp, 2)
    else if c == '!' then (NotOp, 1)
    else if c == '^' then (XorOp, 1)
    else if c == '(' then (Open, 1)
    else if c == ')' then (Close, 1)
    else (Bad, 1)
  }

  /** All tokens of `text`; the first `Bad` is the last token. */
  function Tokenize(text: string): (toks: seq<Token>)
    ensures |toks| <= |text|
    decreases |text|
  {
    if text == "" then []
    else if IsSpace(text[0]) then Tokenize(text[1..])
    else
      var (t, n) := FirstToken(text);
      if t == Bad then [Bad] else [t] + Tokenize(text[n..])
  }

  lemma {:induction false} LetterRunIsMaximal(text: string, n: nat)
    requires n <= |text| && IsLetters(text[..n]) && (n < |text| ==> !IsAlpha(text[n]))
    ensures LetterRun(text) == n
  {
    if n > 0 {
      assert IsAlpha(text[..n][0]);
      assert text[1..][..n-1] == text[..n][1..];
      LetterRunIsMaximal(text[1..], n - 1);
    }
  }

  lemma FirstTokenIsLexeme(text: string)
    requires text != "" && FirstToken(text).0 != Bad
    ensures LexemeAt(text, FirstToken(text).1, FirstToken(text).0)
    ensures !IsSpace(text[0])
  {
    if IsAlpha(text[0]) {
      var n := LetterRun(text);
      var s := text[..n];
      assert s[0] == text[0];
    }
  }

  /** Only one lexeme can start a text: the tokenizer finds it. */
  lemma LexemeIsFirstToken(text: string, n: int, t: Token)
    requires LexemeAt(text, n, t)
    ensures !IsSpace(text[0]) && FirstToken(text) == (t, n)
  {
    var s := text[..n];
    assert s[0] == text[0];
    if IsAlpha(text[0]) {
      LetterRunIsMaximal(text, n);
    } else {
      assert !IsLetters(s);
      if n == 2 {
        assert s[1] == text[1];
      }
    }
  }

  /** The tokenizer accepts exactly the texts that read as some tokens, and finds those tokens. */
  lemma {:induction false} TokenizeIffReads(text: string, toks: seq<Token>)
    ensures Reads(text, toks) <==> Tokenize(text) == toks && Bad !in toks
    decreases |text|
  {
    if text != "" {
      if IsSpace(text[0]) {
        TokenizeIffReads(text[1..], toks);
        forall n | toks != [] && LexemeAt(text, n, toks[0]) ensures false {
          LexemeIsFirstToken(text, n, toks[0]);
        }
      } else {
        var (t, n) := FirstToken(text);
        if toks != [] {
          forall m | LexemeAt(text, m, toks[0]) ensures m == n && t == toks[0] {
            LexemeIsFirstToken(text, m, toks[0]);
          }
        }
        if t != Bad {
          FirstTokenIsLexeme(text);
          if toks != [] {
            TokenizeIffReads(text[n..], toks[1..]);
            assert toks == [toks[0]] + toks[1..];
            assert Bad in toks <==> Bad == toks[0] || Bad in toks[1..];
          }
        } else {
          if toks == [Bad] {
            assert Bad in toks;
          }
        }
      }
    }
  }

  // ---------- aliases: bijective base 26 ----------

  function AliasIndex(w: string): (n: nat)
    requires IsUpperLetters(w)
  {
    if w == "" then 0
    else AliasIndex(w[..|w|-1]) * 26 + (w[|w|-1] - 'A') as nat + 1
  }

  function AliasName(n: nat): (w: string)
    ensures IsUpperLetters(w)
    decreases n
  {
    if n == 0 then ""
    else AliasName((n - 1) / 26) + ['A' + ((n - 1) % 26) as char]
  }

  /** A, B, .., Z, AA, AB, ..: every positive number has exactly one alias. */
  lemma {:induction false} AliasRoundTrip(n: nat)
    ensures AliasIndex(AliasName(n)) == n
  {
    if n > 0 {
      AliasRoundTrip((n - 1) / 26);
      var w := AliasName(n);
      assert w[..|w|-1] == AliasName((n - 1) / 26);
    }
  }

  lemma NextLetter(q: nat, d: nat)
    requires d < 26
    ensures AliasName(q * 26 + d + 1) == AliasName(q) + ['A' + d as char]
  {
    assert (q * 26 + d) / 26 == q && (q * 26 + d) % 26 == d;
  }

  lemma {:induction false} AliasUnique(w: string)
    requires IsUpperLetters(w)
    ensures AliasName(AliasIndex(w)) == w
  {
    if w != "" {
      var p := w[..|w|-1];
      AliasUnique(p);
      NextLetter(AliasIndex(p), (w[|w|-1] - 'A') as nat);
      assert w == p + [w[|w|-1]];
    }
  }

  lemma {:induction false} AliasPrefixSmaller(w: string, k: nat)
    requires IsUpperLetters(w) && k <= |w|
    ensures IsUpperLetters(w[..k]) && AliasIndex(w[..k]) <= AliasIndex(w)
    ensures w != "" ==> AliasIndex(w) > 0
    decreases |w|
  {
    if k < |w| {
      var p := w[..|w|-1];
      AliasPrefixSmaller(p, k);
      assert p[..k] == w[..k];
    } else {
      assert w[..k] == w;
    }
  }

  /** No alias that can be configured is spelled like an operator. */
  lemma KeywordsAreNotAliases(n: nat)
    requires 1 <= n <= MAX_INPUTS
    ensures AliasName(n) !in ["NOT", "AND", "XOR", "OR"]
  {
    AliasRoundTrip(n);
    assert "OR"[..1] == "O" && "NOT"[..2] == "NO" && "AND"[..2] == "AN" && "XOR"[..2] == "XO";
    assert "NO"[..1] == "N" && "AN"[..1] == "A" && "XO"[..1] == "X";
    assert "O"[..0] == "" && "N"[..0] == "" && "A"[..0] == "" && "X"[..0] == "";
    assert AliasIndex("O") == 15 && AliasIndex("N") == 14 && AliasIndex("A") == 1 && AliasIndex("X") == 24;
    assert AliasIndex("OR") == 408;
    assert AliasIndex("NO") == 379 && AliasIndex("AN") == 40 && AliasIndex("XO") == 639;
  }

  // ---------- the grammar and its meaning ----------

  /** `Binary(level, ..)`: level 0 is OR, 1 is XOR, 2 is AND. */
  datatype Expr =
    | Input(index: nat)
    | Not(operand: Expr)
    | Group(inner: Expr)
    | Binary(level: nat, left: Expr, right: Expr)

  const UNARY := 3

  function Operator(level: nat): Token
    requires level < UNARY
  {
    if level == 0 then OrOp else if level == 1 then XorOp else AndOp
  }

  /** The grammar: a chain of level k is left associative and its links bind tighter. */
  predicate AtLevel(e: Expr, level: nat)
    decreases e, UNARY - level
  {
    match e
    case Binary(k, l, r) => level <= k < UNARY && AtLevel(l, k) && AtLevel(r, k + 1)
    case Input(_) => level <= UNARY
    case Not(o) => level <= UNARY && AtLevel(o, UNARY)
    case Group(i) => level <= UNARY && AtLevel(i, 0)
  }

  function Spell(e: Expr): (toks: seq<Token>)
    ensures |toks| > 0
  {
    match e
    case Input(i) => [Word(AliasName(i + 1))]
    case Not(o) => [NotOp] + Spell(o)
    case Group(i) => [Open] + Spell(i) + [Close]
    case Binary(k, l, r) => Spell(l) + [if k < UNARY then Operator(k) else Bad] + Spell(r)
  }

  function Depth(e: Expr): nat {
    match e
    case Input(_) => 0
    case Not(o) => 1 + Depth(o)
    case Group(i) => 1 + Depth(i)
    case Binary(_, l, r) => if Depth(l) > Depth(r) then Depth(l) else Depth(r)
  }

  function Uses(e: Expr): set<nat> {
    match e
    case Input(i) => {i}
    case Not(o) => Uses(o)
    case Group(i) => Uses(i)
    case Binary(_, l, r) => Uses(l) + Uses(r)
  }

  predicate Below(e: Expr, n: nat) {
    match e
    case Input(i) => i < n
    case Not(o) => Below(o, n)
    case Group(i) => Below(i, n)
    case Binary(_, l, r) => Below(l, n) && Below(r, n)
  }

  ghost predicate UsesEvery(e: Expr, n: nat) {
    forall i :: i in Uses(e) <==> 0 <= i < n
  }

  lemma {:induction false} BelowIffUses(e: Expr, n: nat)
    ensures Below(e, n) <==> forall i :: i in Uses(e) ==> i < n
  {
    match e
    case Input(i) => assert i in Uses(e);
    case Not(o) =>
      BelowIffUses(o, n);
      assert Uses(e) == Uses(o);
    case Group(g) =>
      BelowIffUses(g, n);
      assert Uses(e) == Uses(g);
    case Binary(_, l, r) =>
      BelowIffUses(l, n);
      BelowIffUses(r, n);
      assert forall i :: i in Uses(e) <==> i in Uses(l) || i in Uses(r);
  }

  function Combine(level: nat, a: bool, b: bool): bool {
    if level == 0 then a || b else if level == 1 then a != b else a && b
  }

  function Value(e: Expr, inputs: seq<bool>): bool
    requires Below(e, |inputs|)
  {
    match e
    case Input(i) => inputs[i]
    case Not(o) => !Value(o, inputs)
    case Group(i) => Value(i, inputs)
    case Binary(k, l, r) => Combine(k, Value(l, inputs), Value(r, inputs))
  }

  /** `e` is an expression that `text` spells, within the limits, using every input. */
  ghost predicate Sentence(text: string, n: nat, e: Expr) {
    && 1 <= |text| <= MAX_TEXT && 1 <= n <= MAX_INPUTS
    && AtLevel(e, 0) && Reads(text, Spell(e))
    && Depth(e) <= MAX_DEPTH
    && UsesEvery(e, n)
  }

  // ---------- recursive descent as a function ----------

  datatype Parsed = Failed | Parsed(expr: Expr, rest: seq<Token>)

  /** Moving to the next token fails when the tokenizer does. */
  predicate Stuck(rest: seq<Token>) {
    rest != [] && rest[0] == Bad
  }

  function Parse(level: nat, toks: seq<Token>, depth: nat, n: nat): (r: Parsed)
    requires level <= UNARY && depth <= MAX_DEPTH
    ensures r.Parsed? ==> |r.rest| < |toks|
    decreases |toks|, UNARY - level, 1
  {
    if level < UNARY then
      match Parse(level + 1, toks, depth, n)
      case Failed => Failed
      case Parsed(e, rest) => Tail(level, e, rest, depth, n)
    else if toks == [] then Failed
    else if toks[0] == NotOp || toks[0] == Open then
      if depth + 1 > MAX_DEPTH || Stuck(toks[1..]) then Failed
      else if toks[0] == NotOp then
        match Parse(UNARY, toks[1..], depth + 1, n)
        case Failed => Failed
        case Parsed(e, rest) => Parsed(Not(e), rest)
      else
        match Parse(0, toks[1..], depth + 1, n)
        case Failed => Failed
        case Parsed(e, rest) =>
          if rest == [] || rest[0] != Close || Stuck(rest[1..]) then Failed
          else Parsed(Group(e), rest[1..])
    else if !toks[0].Word? || !WellFormed(toks[0]) then Failed
    else
      var index := AliasIndex(toks[0].name);
      if index > n || index == 0 || Stuck(toks[1..]) then Failed
      else Parsed(Input(index - 1), toks[1..])
  }

  /** The rest of a chain of level `level` whose links so far make `left`. */
  function Tail(level: nat, left: Expr, toks: seq<Token>, depth: nat, n: nat): (r: Parsed)
    requires level <= UNARY && depth <= MAX_DEPTH
    ensures r.Parsed? ==> |r.rest| <= |toks|
    decreases |toks|, UNARY - level, 0
  {
    if level == UNARY || toks == [] || toks[0] != Operator(level) then Parsed(left, toks)
    else if Stuck(toks[1..]) then Failed
    else
      match Parse(level + 1, toks[1..], depth, n)
      case Failed => Failed
      case Parsed(right, rest) => Tail(level, Binary(level, left, right), rest, depth, n)
  }

  /** A negation from its operator on, one level deeper. */
  function AfterNot(toks: seq<Token>, depth: nat, n: nat): Parsed
    requires toks != [] && depth <= MAX_DEPTH
  {
    if Stuck(toks[1..]) then Failed
    else
      match Parse(UNARY, toks[1..], depth, n)
      case Failed => Failed
      case Parsed(e, rest) => Parsed(Not(e), rest)
  }

  /** A parenthesised expression from its parenthesis on, one level deeper. */
  function AfterOpen(toks: seq<Token>, depth: nat, n: nat): Parsed
    requires toks != [] && depth <= MAX_DEPTH
  {
    if Stuck(toks[1..]) then Failed
    else
      match Parse(0, toks[1..], depth, n)
      case Failed => Failed
      case Parsed(e, rest) =>
        if rest == [] || rest[0] != Close || Stuck(rest[1..]) then Failed else Parsed(Group(e), rest[1..])
  }

  lemma ParseInput(toks: seq<Token>, depth: nat, n: nat)
    requires depth <= MAX_DEPTH && toks != [] && toks[0] != NotOp && toks[0] != Open && WellFormed(toks[0])
    ensures Parse(UNARY, toks, depth, n) ==
              if !toks[0].Word? || AliasIndex(toks[0].name) > n || AliasIndex(toks[0].name) == 0 ||
                 Stuck(toks[1..])
              then Failed
              else Parsed(Input(AliasIndex(toks[0].name) - 1), toks[1..])
  {
  }

  lemma ParseNested(toks: seq<Token>, depth: nat, n: nat)
    requires toks != [] && depth <= MAX_DEPTH && (toks[0] == NotOp || toks[0] == Open)
    ensures Parse(UNARY, toks, depth, n) ==
              if depth + 1 > MAX_DEPTH then Failed
              else if toks[0] == NotOp then AfterNot(toks, depth + 1, n)
              else AfterOpen(toks, depth + 1, n)
  {
  }

  /** The tokens from position `start`, where a token starts. */
  lemma TokenizeFrom(text: string, start: nat, t: Token, end: nat)
    requires start < end <= |text| && !IsSpace(text[start]) && FirstToken(text[start..]) == (t, end - start)
    ensures t == Bad <==> Stuck(Tokenize(text[start..]))
    ensures t != Bad ==> Tokenize(text[start..]) == [t] + Tokenize(text[end..])
  {
    assert text[start..][end - start..] == text[end..];
  }

  /** What the whole evaluation computes. */
  ghost function Evaluate(text: string, inputs: seq<bool>): Option<bool> {
    if |text| == 0 || |text| > MAX_TEXT || |inputs| == 0 || |inputs| > MAX_INPUTS then None
    else if Stuck(Tokenize(text)) then None
    else
      match Parse(0, Tokenize(text), 0, |inputs|)
      case Failed => None
      case Parsed(e, rest) =>
        if rest != [] || !UsesEvery(e, |inputs|) || !Below(e, |inputs|) then None
        else Some(Value(e, inputs))
  }

  // ---------- the parser meets the grammar ----------

  ghost predicate IsParse(level: nat, toks: seq<Token>, depth: nat, n: nat, r: Parsed) {
    r.Parsed? ==>
      && AtLevel(r.expr, level)
      && toks == Spell(r.expr) + r.rest
      && depth + Depth(r.expr) <= MAX_DEPTH
      && Below(r.expr, n)
  }

  /** Whatever the parser returns is a derivation of the tokens it consumed. */
  lemma {:induction false} ParseSound(level: nat, toks: seq<Token>, depth: nat, n: nat)
    requires level <= UNARY && depth <= MAX_DEPTH
    ensures IsParse(level, toks, depth, n, Parse(level, toks, depth, n))
    decreases |toks|, UNARY - level, 1
  {
    if level < UNARY {
      ParseSound(level + 1, toks, depth, n);
      var r := Parse(level + 1, toks, depth, n);
      if r.Parsed? {
        AtLevelUp(r.expr, level);
        TailSound(level, r.expr, r.rest, depth, n);
      }
    } else {
      PrimarySound(toks, depth, n);
    }
  }

  lemma NegationSound(toks: seq<Token>, depth: nat, n: nat)
    requires toks != [] && toks[0] == NotOp && depth < MAX_DEPTH
    requires IsParse(UNARY, toks[1..], depth + 1, n, Parse(UNARY, toks[1..], depth + 1, n))
    ensures IsParse(UNARY, toks, depth, n, AfterNot(toks, depth + 1, n))
  {
    assert toks == [NotOp] + toks[1..];
  }

  lemma GroupSound(toks: seq<Token>, depth: nat, n: nat)
    requires toks != [] && toks[0] == Open && depth < MAX_DEPTH
    requires IsParse(0, toks[1..], depth + 1, n, Parse(0, toks[1..], depth + 1, n))
    ensures IsParse(UNARY, toks, depth, n, AfterOpen(toks, depth + 1, n))
  {
    assert toks == [Open] + toks[1..];
    var p := Parse(0, toks[1..], depth + 1, n);
    if p.Parsed? && p.rest != [] && p.rest[0] == Close {
      assert p.rest == [Close] + p.rest[1..];
    }
  }

  lemma InputSound(toks: seq<Token>, depth: nat, n: nat)
    requires depth <= MAX_DEPTH && (toks == [] || !(toks[0] == NotOp || toks[0] == Open))
    ensures IsParse(UNARY, toks, depth, n, Parse(UNARY, toks, depth, n))
  {
    if toks != [] && toks[0].Word? && WellFormed(toks[0]) {
      assert toks == [toks[0]] + toks[1..];
      AliasUnique(toks[0].name);
    }
  }

  lemma {:induction false} PrimarySound(toks: seq<Token>, depth: nat, n: nat)
    requires depth <= MAX_DEPTH
    ensures IsParse(UNARY, toks, depth, n, Parse(UNARY, toks, depth, n))
    decreases |toks|, 0, 0
  {
    if toks == [] || !(toks[0] == NotOp || toks[0] == Open) {
      InputSound(toks, depth, n);
    } else {
      ParseNested(toks, depth, n);
      if depth == MAX_DEPTH {
      } else if toks[0] == NotOp {
        ParseSound(UNARY, toks[1..], depth + 1, n);
        NegationSound(toks, depth, n);
      } else {
        ParseSound(0, toks[1..], depth + 1, n);
        GroupSound(toks, depth, n);
      }
    }
  }

  /** A chain with one more link spells what the chain, the operator and the link spell. */
  lemma SpellLink(level: nat, left: Expr, right: Expr, rest: seq<Token>, toks: seq<Token>)
    requires level < UNARY && toks != [] && toks[0] == Operator(level) && toks[1..] == Spell(right) + rest
    ensures Spell(left) + toks == Spell(Binary(level, left, right)) + rest
  {
    assert toks == [Operator(level)] + (Spell(right) + rest);
    var l, o, r := Spell(left), [Operator(level)], Spell(right);
    assert l + (o + (r + rest)) == ((l + o) + r) + rest;
  }

  /** One link of a chain. */
  lemma TailLink(level: nat, left: Expr, toks: seq<Token>, depth: nat, n: nat, right: Expr, rest: seq<Token>)
    requires level < UNARY && depth <= MAX_DEPTH
    requires toks != [] && toks[0] == Operator(level) && !Stuck(toks[1..])
    requires Parse(level + 1, toks[1..], depth, n) == Parsed(right, rest)
    ensures Tail(level, left, toks, depth, n) == Tail(level, Binary(level, left, right), rest, depth, n)
  {
  }

  lemma TailFails(level: nat, left: Expr, toks: seq<Token>, depth: nat, n: nat)
    requires level < UNARY && depth <= MAX_DEPTH
    requires toks != [] && toks[0] == Operator(level)
    requires Stuck(toks[1..]) || Parse(level + 1, toks[1..], depth, n).Failed?
    ensures Tail(level, left, toks, depth, n).Failed?
  {
  }

  lemma {:induction false} TailSound(level: nat, left: Expr, toks: seq<Token>, depth: nat, n: nat)
    requires level < UNARY && depth <= MAX_DEPTH
    requires AtLevel(left, level) && depth + Depth(left) <= MAX_DEPTH && Below(left, n)
    ensures IsParse(level, Spell(left) + toks, depth, n, Tail(level, left, toks, depth, n))
    decreases |toks|, UNARY - level, 0
  {
    if toks == [] || toks[0] != Operator(level) {
      assert Tail(level, left, toks, depth, n) == Parsed(left, toks);
    } else if Stuck(toks[1..]) || Parse(level + 1, toks[1..], depth, n).Failed? {
      TailFails(level, left, toks, depth, n);
    } else {
      ParseSound(level + 1, toks[1..], depth, n);
      var r := Parse(level + 1, toks[1..], depth, n);
      TailSound(level, Binary(level, left, r.expr), r.rest, depth, n);
      SpellLink(level, left, r.expr, r.rest, toks);
      TailLink(level, left, toks, depth, n, r.expr, r.rest);
    }
  }

  lemma AtLevelUp(e: Expr, level: nat)
    requires AtLevel(e, level + 1)
    ensures AtLevel(e, level)
  {
  }

  /** `rest` does not go on with an operator that binds tighter than level `level`. */
  predicate Stops(level: nat, rest: seq<Token>) {
    rest != [] ==> rest[0] != Bad && forall k: nat | level < k < UNARY :: rest[0] != Operator(k)
  }

  lemma SpellHeadNotBad(e: Expr, level: nat)
    requires AtLevel(e, level)
    ensures Spell(e)[0] != Bad
  {
    if e.Binary? {
      SpellHeadNotBad(e.left, e.level);
      assert Spell(e)[0] == Spell(e.left)[0];
    }
  }

  lemma ParseThenTail(level: nat, toks: seq<Token>, depth: nat, n: nat, e: Expr, rest: seq<Token>)
    requires level < UNARY && depth <= MAX_DEPTH && Parse(level + 1, toks, depth, n) == Parsed(e, rest)
    ensures Parse(level, toks, depth, n) == Tail(level, e, rest, depth, n)
  {
  }

  /** Any derivation within the limits is found, wherever it stops. */
  lemma {:induction false} ParseComplete(level: nat, e: Expr, rest: seq<Token>, depth: nat, n: nat)
    requires level <= UNARY && AtLevel(e, level)
    requires depth + Depth(e) <= MAX_DEPTH && Below(e, n)
    requires Stops(level, rest)
    ensures Parse(level, Spell(e) + rest, depth, n) == Tail(level, e, rest, depth, n)
    decreases e, UNARY + 1 - level
  {
    if e.Binary? && e.level == level {
      ChainComplete(level, e.left, e.right, rest, depth, n);
    } else if level < UNARY {
      ParseComplete(level + 1, e, rest, depth, n);
      TailStops(level + 1, e, rest, level, depth, n);
      ParseThenTail(level, Spell(e) + rest, depth, n, e, rest);
    } else {
      PrimaryComplete(e, rest, depth, n);
    }
  }

  lemma {:induction false} ChainComplete(level: nat, left: Expr, right: Expr, rest: seq<Token>, depth: nat, n: nat)
    requires level < UNARY && AtLevel(left, level) && AtLevel(right, level + 1)
    requires depth + Depth(left) <= MAX_DEPTH && depth + Depth(right) <= MAX_DEPTH && Below(left, n) && Below(right, n)
    requires Stops(level, rest)
    ensures var e := Binary(level, left, right);
            Parse(level, Spell(e) + rest, depth, n) == Tail(level, e, rest, depth, n)
    decreases Binary(level, left, right), 0
  {
    var rest' := [Operator(level)] + (Spell(right) + rest);
    SpellLink(level, left, right, rest, rest');
    ParseComplete(level, left, rest', depth, n);
    ParseComplete(level + 1, right, rest, depth, n);
    TailStops(level + 1, right, rest, level, depth, n);
    NotStuck(right, level + 1, rest);
    assert rest'[1..] == Spell(right) + rest;
    TailLink(level, left, rest', depth, n, right, rest);
  }

  lemma NotStuck(e: Expr, level: nat, rest: seq<Token>)
    requires AtLevel(e, level)
    ensures !Stuck(Spell(e) + rest)
  {
    SpellHeadNotBad(e, level);
    assert (Spell(e) + rest)[0] == Spell(e)[0];
  }

  lemma {:induction false} PrimaryComplete(e: Expr, rest: seq<Token>, depth: nat, n: nat)
    requires AtLevel(e, UNARY)
    requires depth + Depth(e) <= MAX_DEPTH && Below(e, n)
    requires Stops(UNARY, rest)
    ensures Parse(UNARY, Spell(e) + rest, depth, n) == Parsed(e, rest)
    decreases e, 0
  {
    var toks := Spell(e) + rest;
    match e
    case Input(i) =>
      AliasRoundTrip(i + 1);
      ParseInput(toks, depth, n);
      assert toks[1..] == rest;
    case Not(o) =>
      assert toks[1..] == Spell(o) + rest;
      SpellHeadNotBad(o, UNARY);
      ParseNested(toks, depth, n);
      ParseComplete(UNARY, o, rest, depth + 1, n);
    case Group(g) =>
      var rest' := [Close] + rest;
      assert toks[1..] == Spell(g) + rest';
      SpellHeadNotBad(g, 0);
      ParseNested(toks, depth, n);
      ParseComplete(0, g, rest', depth + 1, n);
      assert rest'[1..] == rest;
  }

  /** A chain that nothing of its level or tighter follows is complete. */
  lemma TailStops(k: nat, e: Expr, rest: seq<Token>, level: nat, depth: nat, n: nat)
    requires level < k <= UNARY && depth <= MAX_DEPTH && Stops(level, rest)
    ensures Tail(k, e, rest, depth, n) == Parsed(e, rest)
  {
  }

  lemma SentenceParses(text: string, n: nat, e: Expr)
    requires Sentence(text, n, e)
    ensures Tokenize(text) == Spell(e) && !Stuck(Tokenize(text))
    ensures Parse(0, Tokenize(text), 0, n) == Parsed(e, [])
  {
    TokenizeIffReads(text, Spell(e));
    SpellHeadNotBad(e, 0);
    assert Spell(e) + [] == Spell(e);
    BelowIffUses(e, n);
    ParseComplete(0, e, [], 0, n);
  }

  lemma {:induction false} SpellHasNoBad(e: Expr, level: nat)
    requires AtLevel(e, level)
    ensures Bad !in Spell(e)
  {
    match e
    case Input(_) =>
    case Not(o) => SpellHasNoBad(o, UNARY);
    case Group(i) => SpellHasNoBad(i, 0);
    case Binary(k, l, r) => SpellHasNoBad(l, k); SpellHasNoBad(r, k + 1);
  }

  /** The evaluator accepts exactly the sentences of the grammar that respect every limit, and
      returns what they mean. */
  lemma EvaluateIffSentence(text: string, inputs: seq<bool>, v: bool)
    ensures Evaluate(text, inputs) == Some(v) <==>
            exists e :: Sentence(text, |inputs|, e) && Below(e, |inputs|) && Value(e, inputs) == v
  {
    if e :| Sentence(text, |inputs|, e) && Below(e, |inputs|) && Value(e, inputs) == v {
      SentenceParses(text, |inputs|, e);
    }
    if Evaluate(text, inputs) == Some(v) {
      var e := Parse(0, Tokenize(text), 0, |inputs|).expr;
      ParseSound(0, Tokenize(text), 0, |inputs|);
      assert Spell(e) + [] == Spell(e);
      SpellHasNoBad(e, 0);
      TokenizeIffReads(text, Spell(e));
      assert Sentence(text, |inputs|, e) && Below(e, |inputs|) && Value(e, inputs) == v;
    }
  }

  /** No text has two readings. */
  lemma SentenceUnique(text: string, n: nat, e: Expr, e': Expr)
    requires Sentence(text, n, e) && Sentence(text, n, e')
    ensures e == e'
  {
    SentenceParses(text, n, e);
    SentenceParses(text, n, e');
  }

  /** Acceptance depends on the text and the number of inputs, never on their values. */
  lemma AcceptanceIgnoresValues(text: string, inputs: seq<bool>, inputs': seq<bool>)
    requires |inputs| == |inputs'|
    ensures Evaluate(text, inputs).Some? <==> Evaluate(text, inputs').Some?
  {
  }

  // ---------- the parser object ----------

  class LogicParser {
    const text: string
    const inputs: seq<bool>
    var used: seq<bool>
    var token: Option<Token>
    var position: nat
    var depth: nat

    constructor (text: string, inputs: seq<bool>)
      ensures this.text == text && this.inputs == inputs
      ensures Fresh()
    {
      this.text, this.inputs := text, inputs;
      used, token, position, depth := seq(|inputs|, _ => false), None, 0, 0;
    }

    ghost predicate Fresh()
      reads this
    {
      used == seq(|inputs|, _ => false) && token == None && position == 0 && depth == 0
    }

    ghost predicate Valid()
      reads this
    {
      && position <= |text| && depth <= MAX_DEPTH && |used| == |inputs|
      && (token == None ==> Tokenize(text[position..]) == [])
      && (token.Some? ==> WellFormed(token.value))
    }

    /** The tokens still to be parsed, the current one first. */
    ghost function Remaining(): seq<Token>
      reads this
      requires position <= |text|
    {
      match token
      case None => []
      case Some(t) => [t] + Tokenize(text[position..])
    }

    method SkipSpaces()
      requires position <= |text|
      modifies this`position
      ensures position <= |text|
      ensures Tokenize(text[position..]) == Tokenize(text[old(position)..])
      ensures position < |text| ==> !IsSpace(text[position])
    {
      while position < |text| && IsSpace(text[position])
        invariant position <= |text|
        invariant Tokenize(text[position..]) == Tokenize(text[old(position)..])
      {
        assert text[position..][1..] == text[position+1..];
        position := position + 1;
      }
    }

    /** Reads the run of letters at the cursor, in upper case. */
    method ReadWord() returns (word: string)
      requires position < |text| && IsAlpha(text[position])
      modifies this`position
      ensures position == old(position) + LetterRun(text[old(position)..])
      ensures word == Upper(text[old(position)..][..LetterRun(text[old(position)..])])
    {
      ghost var here := text[position..];
      var ch := text[position];
      position := position + 1;
      word := [ToUpper(ch)];
      assert here[..1] == [ch];
      ghost var n := 1;
      while position < |text| && IsAlpha(text[position])
        invariant n == position - old(position) && 1 <= n <= |here|
        invariant IsLetters(here[..n]) && word == Upper(here[..n])
      {
        var c := text[position];
        assert here[..n+1] == here[..n] + [c];
        UpperAppend(here[..n], c);
        word := word + [ToUpper(c)];
        position, n := position + 1, n + 1;
      }
      LetterRunIsMaximal(here, n);
    }

    /** Reads the lexeme at the cursor; false is the failure of the source. */
    method ReadToken() returns (ok: bool)
      requires position < |text|
      modifies this`token, this`position
      ensures position <= |text|
      ensures ok <==> FirstToken(text[old(position)..]).0 != Bad
      ensures ok ==>
                token.Some? && FirstToken(text[old(position)..]) == (token.value, position - old(position)) &&
                WellFormed(token.value)
    {
      var ch := text[position];
      if IsAlpha(ch) {
        var word := ReadWord();
        token := Some(WordToken(word));
        return true;
      }
      position := position + 1;
      if ch == '&' || ch == '|' {
        if position == |text| {
          return false;
        }
        var second := text[position];
        position := position + 1;
        if second != ch {
          return false;
        }
        token := Some(if ch == '&' then AndOp else OrOp);
      } else if ch == '!' {
        token := Some(NotOp);
      } else if ch == '^' {
        token := Some(XorOp);
      } else if ch == '(' {
        token := Some(Open);
      } else if ch == ')' {
        token := Some(Close);
      } else {
        return false;
      }
      ok := true;
    }

    /** Moves to the next token from a cursor that stands on one. */
    method NextHere() returns (ok: bool)
      requires position < |text| && !IsSpace(text[position])
      modifies this`token, this`position
      ensures position <= |text|
      ensures ok <==> !Stuck(Tokenize(text[old(position)..]))
      ensures ok ==> token.Some? && WellFormed(token.value) && Remaining() == Tokenize(text[old(position)..])
    {
      ghost var first := FirstToken(text[position..]);
      TokenizeFrom(text, position, first.0, position + first.1);
      ok := ReadToken();
    }

    /** Moves to the next token. */
    method Next() returns (ok: bool)
      requires position <= |text|
      modifies this`token, this`position
      ensures position <= |text|
      ensures ok <==> !Stuck(Tokenize(text[old(position)..]))
      ensures ok ==> Remaining() == Tokenize(text[old(position)..])
      ensures ok && token.Some? ==> WellFormed(token.value)
      ensures ok && token == None ==> Tokenize(text[position..]) == []
    {
      SkipSpaces();
      token := None;
      if position == |text| {
        return true;
      }
      ok := NextHere();
    }

    /** What every parsing method promises: it agrees with `Parse` at its level. */
    ghost predicate Agrees(level: nat, toks: seq<Token>, depth0: nat, used0: seq<bool>, r: Option<bool>)
      requires level <= UNARY && depth0 <= MAX_DEPTH
      reads this
    {
      Follows(Parse(level, toks, depth0, |inputs|), depth0, used0, r)
    }

    ghost predicate Follows(p: Parsed, depth0: nat, used0: seq<bool>, r: Option<bool>)
      reads this
    {
      match p
      case Failed => r == None
      case Parsed(e, rest) =>
        Valid() && Remaining() == rest && depth == depth0 && Meaning(e, used0, r)
    }

    ghost predicate Meaning(e: Expr, used0: seq<bool>, r: Option<bool>)
      reads this
    {
      && Below(e, |inputs|) && r == Some(Value(e, inputs))
      && |used| == |used0| == |inputs|
      && forall i :: 0 <= i < |used| ==> (used[i] <==> used0[i] || i in Uses(e))
    }

    method Or() returns (r: Option<bool>)
      requires Valid()
      modifies this
      ensures Agrees(0, old(Remaining()), old(depth), old(used), r)
      decreases |Remaining()|, UNARY + 1
    {
      r := Xor();
      ParseSound(1, old(Remaining()), old(depth), |inputs|);
      if r == None { return; }
      ghost var e := Parse(1, old(Remaining()), old(depth), |inputs|).expr;
      while token == Some(OrOp)
        invariant Valid() && depth == old(depth) && |Remaining()| < |old(Remaining())|
        invariant Meaning(e, old(used), r)
        invariant Parse(0, old(Remaining()), old(depth), |inputs|) == Tail(0, e, Remaining(), depth, |inputs|)
        decreases |Remaining()|
      {
        ghost var toks := Remaining();
        assert toks[1..] == Tokenize(text[position..]);
        var ok := Next();
        if !ok { return None; }
        ParseSound(1, Remaining(), depth, |inputs|);
        ghost var p := Parse(1, Remaining(), depth, |inputs|);
        var right := Xor();
        if right == None { return None; }
        r := Some(r.value || right.value);
        e := Binary(0, e, p.expr);
      }
    }

    method Xor() returns (r: Option<bool>)
      requires Valid()
      modifies this
      ensures Agrees(1, old(Remaining()), old(depth), old(used), r)
      decreases |Remaining()|, UNARY
    {
      r := And();
      ParseSound(2, old(Remaining()), old(depth), |inputs|);
      if r == None { return; }
      ghost var e := Parse(2, old(Remaining()), old(depth), |inputs|).expr;
      while token == Some(XorOp)
        invariant Valid() && depth == old(depth) && |Remaining()| < |old(Remaining())|
        invariant Meaning(e, old(used), r)
        invariant Parse(1, old(Remaining()), old(depth), |inputs|) == Tail(1, e, Remaining(), depth, |inputs|)
        decreases |Remaining()|
      {
        ghost var toks := Remaining();
        assert toks[1..] == Tokenize(text[position..]);
        var ok := Next();
        if !ok { return None; }
        ParseSound(2, Remaining(), depth, |inputs|);
        ghost var p := Parse(2, Remaining(), depth, |inputs|);
        var right := And();
        if right == None { return None; }
        r := Some(r.value != right.value);
        e := Binary(1, e, p.expr);
      }
    }

    method And() returns (r: Option<bool>)
      requires Valid()
      modifies this
      ensures Agrees(2, old(Remaining()), old(depth), old(used), r)
      decreases |Remaining()|, 2
    {
      r := Unary();
      ParseSound(3, old(Remaining()), old(depth), |inputs|);
      if r == None { return; }
      ghost var e := Parse(3, old(Remaining()), old(depth), |inputs|).expr;
      while token == Some(AndOp)
        invariant Valid() && depth == old(depth) && |Remaining()| < |old(Remaining())|
        invariant Meaning(e, old(used), r)
        invariant Parse(2, old(Remaining()), old(depth), |inputs|) == Tail(2, e, Remaining(), depth, |inputs|)
        decreases |Remaining()|
      {
        ghost var toks := Remaining();
        assert toks[1..] == Tokenize(text[position..]);
        var ok := Next();
        if !ok { return None; }
        ParseSound(3, Remaining(), depth, |inputs|);
        ghost var p := Parse(3, Remaining(), depth, |inputs|);
        var right := Unary();
        if right == None { return None; }
        r := Some(r.value && right.value);
        e := Binary(2, e, p.expr);
      }
    }

    method Unary() returns (r: Option<bool>)
      requires Valid()
      modifies this
      ensures Agrees(3, old(Remaining()), old(depth), old(used), r)
      decreases |Remaining()|, 1
    {
      if token == Some(NotOp) || token == Some(Open) {
        r := Nested();
        return;
      }
      if token == None || token == Some(Close) || token == Some(AndOp) || token == Some(OrOp) || token == Some(XorOp) {
        return None;
      }
      r := Operand();
    }

    /** One input by its alias. */
    method Operand() returns (r: Option<bool>)
      requires Valid() && token.Some? && token.value.Word?
      modifies this
      ensures Agrees(3, old(Remaining()), old(depth), old(used), r)
    {
      ghost var toks := Remaining();
      assert toks[1..] == Tokenize(text[position..]);
      ParseInput(toks, depth, |inputs|);
      var index := LookUp(token.value.name);
      if index == None { return None; }
      used := used[index.value := true];
      var result := inputs[index.value];
      var ok := Next();
      if !ok { return None; }
      return Some(result);
    }

    /** A negation or a parenthesised expression. */
    method Nested() returns (r: Option<bool>)
      requires Valid() && (token == Some(NotOp) || token == Some(Open))
      modifies this
      ensures Agrees(3, old(Remaining()), old(depth), old(used), r)
      decreases |Remaining()|, 0, 1
    {
      ParseNested(Remaining(), depth, |inputs|);
      depth := depth + 1;
      if depth > MAX_DEPTH { return None; }
      if token == Some(NotOp) {
        r := Negated();
      } else {
        r := Grouped();
      }
      if r == None { return; }
      depth := depth - 1;
    }

    method Negated() returns (r: Option<bool>)
      requires Valid() && token == Some(NotOp)
      modifies this
      ensures Follows(AfterNot(old(Remaining()), old(depth), |inputs|), old(depth), old(used), r)
      decreases |Remaining()|, 0, 0
    {
      ghost var toks := Remaining();
      assert toks[1..] == Tokenize(text[position..]);
      var ok := Next();
      if !ok { return None; }
      r := Unary();
      if r == None { return; }
      r := Some(!r.value);
    }

    method Grouped() returns (r: Option<bool>)
      requires Valid() && token == Some(Open)
      modifies this
      ensures Follows(AfterOpen(old(Remaining()), old(depth), |inputs|), old(depth), old(used), r)
      decreases |Remaining()|, 0, 0
    {
      ghost var toks := Remaining();
      assert toks[1..] == Tokenize(text[position..]);
      var ok := Next();
      if !ok { return None; }
      r := Or();
      if r == None { return None; }
      ok := CloseGroup();
      if !ok { return None; }
    }

    /** Moves past a closing parenthesis; false if there is none, or no readable token after it. */
    method CloseGroup() returns (ok: bool)
      requires Valid()
      modifies this`token, this`position
      ensures ok <==> old(Remaining()) != [] && old(Remaining())[0] == Close && !Stuck(old(Remaining())[1..])
      ensures ok ==> Valid() && Remaining() == old(Remaining())[1..]
    {
      if token != Some(Close) { return false; }
      ghost var inner := Remaining();
      assert inner[1..] == Tokenize(text[position..]);
      ok := Next();
    }

    /** The input that an alias names. */
    method LookUp(name: string) returns (r: Option<nat>)
      requires name != "" && IsUpperLetters(name)
      ensures AliasIndex(name) > 0
      ensures r == if AliasIndex(name) > |inputs| then None else Some(AliasIndex(name) - 1)
    {
      var index, k := 0, 0;
      AliasPrefixSmaller(name, 0);
      while k < |name|
        invariant 0 <= k <= |name|
        invariant index == AliasIndex(name[..k]) && index <= |inputs|
      {
        assert name[..k+1][..k] == name[..k];
        AliasPrefixSmaller(name, k + 1);
        index := index * 26 + (name[k] - 'A') as nat + 1;
        if index > |inputs| { return None; }
        k := k + 1;
      }
      assert name[..k] == name;
      return Some(index - 1);
    }

    /** The whole evaluation, on a fresh parser. */
    method Run() returns (r: Option<bool>)
      requires Fresh()
      modifies this
      ensures r == Evaluate(text, inputs)
    {
      if |text| == 0 || |text| > MAX_TEXT || |inputs| == 0 || |inputs| > MAX_INPUTS {
        return None;
      }
      assert text[0..] == text;
      var ok := Next();
      if !ok { return None; }
      ghost var p := Parse(0, Tokenize(text), 0, |inputs|);
      r := Or();
      if r == None { return; }
      if token != None { return None; }
      BelowIffUses(p.expr, |inputs|);
      assert Evaluate(text, inputs) == if UsesEvery(p.expr, |inputs|) then r else None;
      var i := 0;
      while i < |used|
        invariant 0 <= i <= |used|
        invariant forall j :: 0 <= j < i ==> j in Uses(p.expr)
      {
        if !used[i] {
          assert i !in Uses(p.expr);
          return None;
        }
        i := i + 1;
      }
      assert forall j :: j in Uses(p.expr) ==> j < |inputs|;
      assert UsesEvery(p.expr, |inputs|);
    }
  }

  method EvaluateLogicExpression(text: string, inputs: seq<bool>) returns (r: Option<bool>)
    ensures r == Evaluate(text, inputs)
  {
    var parser := new LogicParser(text, inputs);
    r := parser.Run();
  }
}
