/**
 The `{{placeholder}}` engine of src/webhooks/template.ts: scanning strings, and rendering
 JSON templates and header values.
 */
module Template {
  import opened Options
  import opened JsText

  /** A placeholder value; a number is kept as the text JavaScript prints for it. */
  datatype Value = NullValue | StringValue(s: string) | NumberValue(text: string)

  type Vars = map<string, Value>

  // ---- Tokens: {{ spaces name spaces }} ----

  predicate IsNameChar(c: char) {
    'a' <= c <= 'z' || 'A' <= c <= 'Z' || '0' <= c <= '9' || c == '_'
  }

  predicate AllNameChars(s: string) {
    forall i :: 0 <= i < |s| ==> IsNameChar(s[i])
  }

  datatype Token = Token(before: string, name: string, after: string)

  predicate ValidToken(t: Token) {
    AllSpaces(t.before) && t.name != [] && AllNameChars(t.name) && AllSpaces(t.after)
  }

  function TokenText(t: Token): (s: string)
    ensures |s| == |t.before| + |t.name| + |t.after| + 4
  {
    "{{" + (t.before + (t.name + (t.after + "}}")))
  }

  function SpacePrefix(s: string): (p: string)
    ensures p <= s && AllSpaces(p)
    ensures |p| < |s| ==> !IsSpace(s[|p|])
  {
    if s == [] || !IsSpace(s[0]) then [] else [s[0]] + SpacePrefix(s[1..])
  }

  function NamePrefix(s: string): (p: string)
    ensures p <= s && AllNameChars(p)
    ensures |p| < |s| ==> !IsNameChar(s[|p|])
  {
    if s == [] || !IsNameChar(s[0]) then [] else [s[0]] + NamePrefix(s[1..])
  }

  /** Spaces, a name, spaces, and what follows. */
  datatype Scan = Scan(before: string, name: string, after: string, rest: string)

  lemma CutAfter(s: string, p: string)
    requires p <= s
    ensures s == p + s[|p|..]
  {
  }

  function ScanBody(s: string): (r: Scan)
    ensures s == r.before + (r.name + (r.after + r.rest))
    ensures AllSpaces(r.before) && AllNameChars(r.name) && AllSpaces(r.after)
  {
    var before := SpacePrefix(s);
    var s1 := s[|before|..];
    var name := NamePrefix(s1);
    var s2 := s1[|name|..];
    var after := SpacePrefix(s2);
    CutAfter(s, before);
    CutAfter(s1, name);
    CutAfter(s2, after);
    Scan(before, name, after, s2[|after|..])
  }

  /** The token the text starts with, as the regular expression matches it. */
  function MatchAt(s: string): Option<Token> {
    if !("{{" <= s) then None
    else
      var r := ScanBody(s[2..]);
      if r.name == [] || !("}}" <= r.rest) then None else Some(Token(r.before, r.name, r.after))
  }

  lemma {:induction false} SpacePrefixIs(p: string, rest: string)
    requires AllSpaces(p) && (rest == [] || !IsSpace(rest[0]))
    ensures SpacePrefix(p + rest) == p
  {
    if p == [] {
      assert p + rest == rest;
    } else {
      assert (p + rest)[1..] == p[1..] + rest;
      SpacePrefixIs(p[1..], rest);
    }
  }

  lemma {:induction false} NamePrefixIs(p: string, rest: string)
    requires AllNameChars(p) && (rest == [] || !IsNameChar(rest[0]))
    ensures NamePrefix(p + rest) == p
  {
    if p == [] {
      assert p + rest == rest;
    } else {
      assert (p + rest)[1..] == p[1..] + rest;
      NamePrefixIs(p[1..], rest);
    }
  }

  lemma ScanBodyIs(before: string, name: string, after: string, rest: string)
    requires AllSpaces(before) && name != [] && AllNameChars(name) && AllSpaces(after)
    requires rest != [] && !IsSpace(rest[0]) && !IsNameChar(rest[0])
    ensures ScanBody(before + (name + (after + rest))) == Scan(before, name, after, rest)
  {
    var s2 := after + rest;
    var s1 := name + s2;
    SpacePrefixIs(before, s1);
    NamePrefixIs(name, s2);
    SpacePrefixIs(after, rest);
    assert (before + s1)[|before|..] == s1 && s1[|name|..] == s2 && s2[|after|..] == rest;
  }

  /** A match is a token at the front of the text. */
  lemma MatchIsSound(s: string)
    requires MatchAt(s).Some?
    ensures ValidToken(MatchAt(s).value) && TokenText(MatchAt(s).value) <= s
  {
    var r := ScanBody(s[2..]);
    CutAfter(s, "{{");
    CutAfter(r.rest, "}}");
    TokenThenRest(MatchAt(s).value, r.rest[2..]);
  }

  lemma TokenThenRest(t: Token, rest: string)
    ensures TokenText(t) + rest == "{{" + (t.before + (t.name + (t.after + ("}}" + rest))))
  {
  }

  /** Every token at the front is matched, and no other reading of it exists. */
  lemma MatchIsComplete(s: string, t: Token)
    requires ValidToken(t) && TokenText(t) <= s
    ensures MatchAt(s) == Some(t)
  {
    var end := s[|TokenText(t)|..];
    var rest := "}}" + end;
    assert s == TokenText(t) + end;
    TokenThenRest(t, end);
    ScanBodyIs(t.before, t.name, t.after, rest);
    assert s[2..] == t.before + (t.name + (t.after + rest));
  }

  /** Braces open a token only in its first two places. */
  lemma NoBraceInside(t: Token, k: nat)
    requires ValidToken(t) && 2 <= k < |TokenText(t)|
    ensures TokenText(t)[k] != '{'
  {
    var s := TokenText(t);
    var b, n := 2 + |t.before|, 2 + |t.before| + |t.name|;
    if k < b {
      assert s[k] == t.before[k - 2];
    } else if k < n {
      assert s[k] == t.name[k - b];
    } else if k < n + |t.after| {
      assert s[k] == t.after[k - n];
    }
  }

  /** No second `{{` begins inside a token. */
  lemma NoOpenInside(t: Token, p: nat)
    requires ValidToken(t) && 1 <= p < |TokenText(t)|
    ensures TokenText(t)[p] != '{' || (p + 1 < |TokenText(t)| && TokenText(t)[p + 1] != '{')
  {
    NoBraceInside(t, if p >= 2 then p else 2);
  }

  /** Two token occurrences in one text never overlap. */
  lemma TokensNeverOverlap(s: string, i: nat, j: nat, t: Token, u: Token)
    requires ValidToken(t) && ValidToken(u) && i < j <= |s|
    requires TokenText(t) <= s[i..] && TokenText(u) <= s[j..]
    ensures j >= i + |TokenText(t)|
  {
    var x, y := TokenText(t), TokenText(u);
    assert s[j] == y[0] == '{' && s[j + 1] == y[1] == '{';
    assert forall k :: 0 <= k < |x| ==> x[k] == s[i + k];
    if j < i + |x| {
      NoOpenInside(t, j - i);
    }
  }

  // ---- Interpolation ----

  function Text(v: Value): string {
    match v
    case NullValue => ""
    case StringValue(s) => s
    case NumberValue(text) => text
  }

  /** Unknown names stay as written. */
  function Substitute(t: Token, vars: Vars): string {
    if t.name in vars then Text(vars[t.name]) else TokenText(t)
  }

  /** Global replace, left to right; what was put in is not scanned again. */
  function InterpolateString(s: string, vars: Vars): string
    decreases |s|
  {
    if s == [] then []
    else
      match MatchAt(s)
      case Some(t) =>
        MatchIsSound(s);
        Substitute(t, vars) + InterpolateString(s[|TokenText(t)|..], vars)
      case None => [s[0]] + InterpolateString(s[1..], vars)
  }

  /** The characters of a name, by their codes. */
  lemma NamesAreWords(c: char, s: string)
    requires s == "{{" + [c] + "}}"
    ensures MatchAt(s).Some? <==>
            97 <= c as int <= 122 || 65 <= c as int <= 90 || 48 <= c as int <= 57 || c as int == 95
  {
    var t := Token("", [c], "");
    assert TokenText(t) == s;
    if IsNameChar(c) {
      MatchIsComplete(s, t);
    }
  }

  // ---- Texts as literals and tokens in turn ----

  datatype Pieces = End(lit: string) | Piece(lit: string, token: Token, rest: Pieces)

  predicate TokenFree(s: string) {
    forall i :: 0 <= i < |s| ==> MatchAt(s[i..]).None?
  }

  predicate Normal(p: Pieces) {
    match p
    case End(lit) => TokenFree(lit)
    case Piece(lit, t, rest) => TokenFree(lit) && ValidToken(t) && Normal(rest)
  }

  function Print(p: Pieces): string {
    match p
    case End(lit) => lit
    case Piece(lit, t, rest) => lit + TokenText(t) + Print(rest)
  }

  function EvalPieces(p: Pieces, vars: Vars): string {
    match p
    case End(lit) => lit
    case Piece(lit, t, rest) => lit + Substitute(t, vars) + EvalPieces(rest, vars)
  }

  function AddChar(c: char, p: Pieces): Pieces {
    p.(lit := [c] + p.lit)
  }

  function Decompose(s: string): Pieces
    decreases |s|
  {
    if s == [] then End([])
    else
      match MatchAt(s)
      case Some(t) =>
        MatchIsSound(s);
        Piece([], t, Decompose(s[|TokenText(t)|..]))
      case None => AddChar(s[0], Decompose(s[1..]))
  }

  /** A text is the printing of its decomposition. */
  lemma {:induction false} PrintOfDecompose(s: string)
    ensures Print(Decompose(s)) == s
    decreases |s|
  {
    if s != [] {
      match MatchAt(s)
      case Some(t) =>
        MatchIsSound(s);
        var rest := s[|TokenText(t)|..];
        PrintOfDecompose(rest);
        PrintOfToken(t, Decompose(rest), s);
      case None =>
        PrintOfDecompose(s[1..]);
        PrintOfAddChar(s[0], Decompose(s[1..]));
    }
  }

  lemma PrintOfToken(t: Token, rest: Pieces, s: string)
    requires TokenText(t) <= s && Print(rest) == s[|TokenText(t)|..]
    ensures Print(Piece([], t, rest)) == s
  {
  }

  lemma PrintOfAddChar(c: char, p: Pieces)
    ensures Print(AddChar(c, p)) == [c] + Print(p)
  {
  }

  /** Interpolation is evaluation of the decomposition. */
  lemma {:induction false} InterpolationEvaluates(s: string, vars: Vars)
    ensures InterpolateString(s, vars) == EvalPieces(Decompose(s), vars)
    decreases |s|
  {
    if s != [] {
      match MatchAt(s)
      case Some(t) =>
        MatchIsSound(s);
        var rest := s[|TokenText(t)|..];
        InterpolationEvaluates(rest, vars);
        EvalOfToken(t, Decompose(rest), vars);
      case None =>
        InterpolationEvaluates(s[1..], vars);
        EvalOfAddChar(s[0], Decompose(s[1..]), vars);
    }
  }

  lemma EvalOfToken(t: Token, rest: Pieces, vars: Vars)
    ensures EvalPieces(Piece([], t, rest), vars) == Substitute(t, vars) + EvalPieces(rest, vars)
  {
  }

  lemma EvalOfAddChar(c: char, p: Pieces, vars: Vars)
    ensures EvalPieces(AddChar(c, p), vars) == [c] + EvalPieces(p, vars)
  {
  }

  /** The literals of a decomposition hold no token. */
  lemma {:induction false} DecomposeIsNormal(s: string)
    ensures Normal(Decompose(s))
    decreases |s|
  {
    if s != [] {
      match MatchAt(s)
      case Some(t) =>
        MatchIsSound(s);
        DecomposeIsNormal(s[|TokenText(t)|..]);
      case None =>
        DecomposeIsNormal(s[1..]);
        PrintOfDecompose(s[1..]);
        LitStartsPrint(Decompose(s[1..]));
        LongerLiteralIsTokenFree(s, Decompose(s[1..]).lit);
    }
  }

  lemma LitStartsPrint(p: Pieces)
    ensures p.lit <= Print(p)
  {
  }

  lemma NoMatchInPrefix(s: string, front: string)
    requires MatchAt(s).None? && front <= s
    ensures MatchAt(front).None?
  {
    if MatchAt(front).Some? {
      MatchIsSound(front);
      MatchIsComplete(s, MatchAt(front).value);
    }
  }

  lemma TokenFreeCons(c: char, lit: string)
    requires MatchAt([c] + lit).None? && TokenFree(lit)
    ensures TokenFree([c] + lit)
  {
    var longer := [c] + lit;
    forall i | 0 <= i < |longer| ensures MatchAt(longer[i..]).None? {
      if i == 0 {
        assert longer[0..] == longer;
      } else {
        assert longer[i..] == lit[i - 1..];
      }
    }
  }

  lemma LongerLiteralIsTokenFree(s: string, lit: string)
    requires s != [] && MatchAt(s).None? && TokenFree(lit) && lit <= s[1..]
    ensures TokenFree([s[0]] + lit)
  {
    NoMatchInPrefix(s, [s[0]] + lit);
    TokenFreeCons(s[0], lit);
  }

  /** A token-free literal stays free of matches in front of a token, or of nothing. */
  lemma NoMatchAcross(lit: string, next: string)
    requires TokenFree(lit) && lit != []
    requires next == [] || "{{" <= next
    ensures MatchAt(lit + next).None?
  {
    var s := lit + next;
    assert lit[0..] == lit;
    if MatchAt(s).Some? {
      var t := MatchAt(s).value;
      MatchIsSound(s);
      if |TokenText(t)| <= |lit| {
        MatchIsComplete(lit, t);
      } else {
        ShortLiteralCannotOpen(t, lit, next);
      }
    }
  }

  lemma ShortLiteralCannotOpen(t: Token, lit: string, next: string)
    requires ValidToken(t) && lit != [] && |lit| < |TokenText(t)| && TokenText(t) <= lit + next
    ensures !("{{" <= next)
  {
    var x := TokenText(t);
    assert forall k :: |lit| <= k < |x| ==> x[k] == next[k - |lit|];
    NoOpenInside(t, |lit|);
  }

  lemma TokenFreeTail(lit: string)
    requires TokenFree(lit) && lit != []
    ensures TokenFree(lit[1..])
  {
    forall i | 0 <= i < |lit| - 1 ensures MatchAt(lit[1..][i..]).None? {
      assert lit[1..][i..] == lit[i + 1..];
    }
  }

  lemma PrintedAfterLiteral(p: Pieces) returns (next: string)
    ensures Print(p) == p.lit + next && (next == [] || "{{" <= next)
  {
    next := if p.End? then [] else TokenText(p.token) + Print(p.rest);
  }

  lemma PrintedHasNoMatchInLiteral(p: Pieces)
    requires TokenFree(p.lit) && p.lit != []
    ensures MatchAt(Print(p)).None?
  {
    var next := PrintedAfterLiteral(p);
    NoMatchAcross(p.lit, next);
  }

  /** The decomposition is the only alternation of token-free literals and tokens. */
  lemma {:induction false} DecompositionIsUnique(p: Pieces)
    requires Normal(p)
    ensures Decompose(Print(p)) == p
    decreases |Print(p)|
  {
    var s := Print(p);
    if p.lit == [] {
      if p.Piece? {
        var rest := Print(p.rest);
        assert s == TokenText(p.token) + rest;
        MatchIsComplete(s, p.token);
        DecompositionIsUnique(p.rest);
        assert s[|TokenText(p.token)|..] == rest;
      }
    } else {
      var shorter := p.(lit := p.lit[1..]);
      TokenFreeTail(p.lit);
      PrintOfAddChar(p.lit[0], shorter);
      assert AddChar(p.lit[0], shorter) == p by {
        assert [p.lit[0]] + p.lit[1..] == p.lit;
      }
      assert s[1..] == Print(shorter);
      PrintedHasNoMatchInLiteral(p);
      DecompositionIsUnique(shorter);
    }
  }

  /** Every text is in exactly one way an alternation of token-free literals and tokens. */
  lemma EveryTextDecomposesOnce(s: string)
    ensures Normal(Decompose(s))
    ensures forall p :: Normal(p) ==> (Print(p) == s <==> p == Decompose(s))
  {
    DecomposeIsNormal(s);
    PrintOfDecompose(s);
    forall p | Normal(p) && Print(p) == s ensures p == Decompose(s) {
      DecompositionIsUnique(p);
    }
  }

  /** Printing literals and tokens in turn and interpolating is evaluating them in turn. */
  lemma InterpolationOfPrinted(p: Pieces, vars: Vars)
    requires Normal(p)
    ensures InterpolateString(Print(p), vars) == EvalPieces(p, vars)
  {
    DecompositionIsUnique(p);
    InterpolationEvaluates(Print(p), vars);
  }

  /** A placeholder between literals becomes its value's text, nothing for null; an unknown one stays. */
  lemma InterpolationSubstitutes(lit: string, t: Token, rest: Pieces, vars: Vars, s: string)
    requires TokenFree(lit) && ValidToken(t) && Normal(rest) && s == lit + TokenText(t) + Print(rest)
    ensures InterpolateString(s, vars) ==
            lit
            + (if t.name !in vars then TokenText(t)
               else match vars[t.name]
                    case NullValue => ""
                    case StringValue(text) => text
                    case NumberValue(numeral) => numeral)
            + InterpolateString(Print(rest), vars)
  {
    InterpolationOfPrinted(Piece(lit, t, rest), vars);
    InterpolationOfPrinted(rest, vars);
  }
}
