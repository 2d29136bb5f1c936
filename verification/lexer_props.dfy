/** What gettok promises about the tokens it returns: maximal identifier
    and number runs, keywords, comments, EOF and single characters, and a
    round trip from tokens to text and back. */
module LexerProperties {
  import opened Lexer

  /** An identifier run: the token is def / extern exactly when the maximal
      [alpha][alnum_]* run is that word, otherwise an identifier carrying
      the run; the character after the run is the new pushback and has not
      been consumed. */
  lemma IdentifierRun(s: seq<char>, i: nat)
    requires i <= |s|
    requires SkipSpace(s, i) < |s| && IsAlpha(s[SkipSpace(s, i)])
    ensures var p, (t, j) := SkipSpace(s, i), LexSpec(s, i);
      && p < j <= |s|
      && (forall k :: p <= k < j ==> IsIdentChar(s[k]))
      && (j < |s| ==> !IsIdentChar(s[j]))
      && (t == Def <==> s[p..j] == "def")
      && (t == Extern <==> s[p..j] == "extern")
      && (t != Def && t != Extern ==> t == Identifier(s[p..j]))
  {
  }

  /** A number run: it starts on a digit or '.', takes digits and at most one
      '.', and is an error exactly when the character after it is a second
      '.'; otherwise the token carries exactly the run's text. */
  lemma NumberRun(s: seq<char>, i: nat)
    requires i <= |s|
    requires var p := SkipSpace(s, i); p < |s| && (IsDigit(s[p]) || s[p] == '.')
    ensures var p, (t, j) := SkipSpace(s, i), LexSpec(s, i);
      && p < j <= |s|
      && (forall k :: p <= k < j ==> IsDigit(s[k]) || s[k] == '.')
      && (forall k, l :: p <= k < l < j && s[k] == '.' ==> s[l] != '.')
      && (t == Error <==> j < |s| && s[j] == '.')
      && (t != Error ==> t == Number(s[p..j]) && (j < |s| ==> !IsDigit(s[j]) && s[j] != '.'))
  {
    var p := SkipSpace(s, i);
    var (q, decimal) := NumberEnd(s, p, false);
    assert q > p by {
      assert IsNumberChar(s[p], false);
    }
  }

  /** A '#' comment produces no token of its own: the tokens from the '#' on
      are those after the end of the line, or a single error when the
      comment runs into EOF. */
  lemma CommentProducesNoToken(s: seq<char>, i: nat)
    requires i <= |s|
    requires SkipSpace(s, i) < |s| && s[SkipSpace(s, i)] == '#'
    ensures var q := CommentEnd(s, SkipSpace(s, i));
      LexAll(s, i) == if q < |s| then LexAll(s, q) else [Error]
  {
    var q := CommentEnd(s, SkipSpace(s, i));
    if q == |s| {
      assert LexAll(s, q) == [];
    }
  }

  /** Once gettok has returned tok_eof it has consumed everything, and every
      later call returns tok_eof again. */
  lemma EofIsSticky(s: seq<char>, i: nat)
    requires i <= |s| && LexSpec(s, i).0 == Eof
    ensures LexSpec(s, i).1 == |s| && LexSpec(s, |s|) == (Eof, |s|)
  {
  }

  /** Any character that starts no identifier, number or comment is returned
      as its own token and consumed. */
  lemma OtherCharacter(s: seq<char>, i: nat)
    requires i <= |s|
    requires var p := SkipSpace(s, i);
      p < |s| && !IsAlpha(s[p]) && !IsDigit(s[p]) && s[p] != '.' && s[p] != '#'
    ensures var p := SkipSpace(s, i); LexSpec(s, i) == (Char(s[p]), p + 1)
  {
  }

  /** "3.14.15": the second '.' makes the first token an error, and the '.'
      left as pushback starts a new number. */
  lemma SecondPointIsAnError()
    ensures LexAll([' '] + "3.14.15", 0) == [Error, Number(".15")]
  {
    var s := [' '] + "3.14.15";
    FirstTokenIsError(s);
    PushbackStartsNumber(s);
    assert LexAll(s, 8) == [];
  }

  lemma FirstTokenIsError(s: seq<char>)
    requires s == [' '] + "3.14.15"
    ensures LexSpec(s, 0) == (Error, 5)
  {
    assert s[1] == '3' && s[2] == '.' && s[3] == '1' && s[4] == '4' && s[5] == '.';
    assert SkipSpace(s, 1) == 1;
    assert SkipSpace(s, 0) == 1;
    assert NumberEnd(s, 5, true) == (5, true);
    assert NumberEnd(s, 4, true) == (5, true);
    assert NumberEnd(s, 3, true) == (5, true);
    assert NumberEnd(s, 2, false) == (5, true);
    assert NumberEnd(s, 1, false) == (5, true);
  }

  lemma PushbackStartsNumber(s: seq<char>)
    requires s == [' '] + "3.14.15"
    ensures LexSpec(s, 5) == (Number(".15"), 8)
  {
    assert s[5] == '.' && s[6] == '1' && s[7] == '5' && |s| == 8;
    assert SkipSpace(s, 5) == 5;
    assert NumberEnd(s, 8, true) == (8, true);
    assert NumberEnd(s, 7, true) == (8, true);
    assert NumberEnd(s, 6, true) == (8, true);
    assert NumberEnd(s, 5, false) == (8, true);
    assert s[5..8] == ".15";
  }

  // ---------------------------------------------------------------------
  // Round trip: rendering tokens as text and lexing it again

  /** Text that lexes as an identifier other than a keyword. */
  predicate IsIdentifierText(n: string) {
    && |n| > 0 && IsAlpha(n[0])
    && (forall k :: 0 <= k < |n| ==> IsIdentChar(n[k]))
    && n != "def" && n != "extern"
  }

  /** Text that lexes as a number: digits and at most one '.', not empty. */
  predicate IsNumberText(x: string) {
    && |x| > 0
    && (forall k :: 0 <= k < |x| ==> IsDigit(x[k]) || x[k] == '.')
    && (forall k, l :: 0 <= k < l < |x| && x[k] == '.' ==> x[l] != '.')
  }

  /** Tokens gettok can return with a spelling that lexes back to them. */
  predicate Lexable(t: Token) {
    match t
    case Def => true
    case Extern => true
    case Identifier(n) => IsIdentifierText(n)
    case Number(x) => IsNumberText(x)
    case Char(c) => !IsSpace(c) && !IsIdentChar(c) && c != '.' && c != '#'
    case _ => false
  }

  function Spelling(t: Token): string
    requires Lexable(t)
  {
    match t
    case Def => "def"
    case Extern => "extern"
    case Identifier(n) => n
    case Number(x) => x
    case Char(c) => [c]
  }

  /** The tokens written out, each followed by a space. */
  function Render(toks: seq<Token>): string
    requires forall k :: 0 <= k < |toks| ==> Lexable(toks[k])
  {
    if toks == [] then [] else Spelling(toks[0]) + [' '] + Render(toks[1..])
  }

  /** s holds w from index i on. */
  predicate TextAt(s: seq<char>, i: nat, w: string) {
    i + |w| <= |s| && forall k :: 0 <= k < |w| ==> s[i + k] == w[k]
  }

  lemma {:induction false} IdentEndOfRun(s: seq<char>, i: nat, j: nat)
    requires i <= j < |s| && !IsIdentChar(s[j])
    requires forall k :: i <= k < j ==> IsIdentChar(s[k])
    ensures IdentEnd(s, i) == j
    decreases j - i
  {
    if i < j {
      IdentEndOfRun(s, i + 1, j);
    }
  }

  lemma {:induction false} NumberEndOfRun(s: seq<char>, i: nat, j: nat, decimal: bool)
    requires i <= j < |s| && !IsDigit(s[j]) && s[j] != '.'
    requires forall k :: i <= k < j ==> IsDigit(s[k]) || s[k] == '.'
    requires forall k, l :: i <= k < l < j && s[k] == '.' ==> s[l] != '.'
    requires decimal ==> forall k :: i <= k < j ==> s[k] != '.'
    ensures NumberEnd(s, i, decimal).0 == j
    decreases j - i
  {
    if i < j {
      if s[i] == '.' {
        assert forall k :: i + 1 <= k < j ==> s[k] != '.';
      }
      NumberEndOfRun(s, i + 1, j, decimal || s[i] == '.');
    }
  }

  /** A lexable token's spelling followed by a space is read back as that
      token, with the space as the new pushback. */
  lemma LexOne(s: seq<char>, i: nat, t: Token)
    requires Lexable(t) && TextAt(s, i, Spelling(t) + [' '])
    ensures LexSpec(s, i) == (t, i + |Spelling(t)|)
    ensures s[i + |Spelling(t)|] == ' '
  {
    var w := Spelling(t);
    var j := i + |w|;
    SpelledAt(s, i, w);
    assert SkipSpace(s, i) == i;
    match t
    case Def =>
      IdentEndOfRun(s, i, j);
    case Extern =>
      IdentEndOfRun(s, i, j);
    case Identifier(n) =>
      IdentEndOfRun(s, i, j);
    case Number(x) =>
      NumberEndOfRun(s, i, j, false);
    case Char(c) =>
  }

  /** A word followed by a space, read character by character. */
  lemma SpelledAt(s: seq<char>, i: nat, w: string)
    requires |w| > 0 && TextAt(s, i, w + [' '])
    ensures i + |w| < |s| && s[i] == w[0] && s[i + |w|] == ' ' && s[i..i + |w|] == w
    ensures forall k :: i <= k < i + |w| ==> s[k] == w[k - i]
  {
    assert s[i + 0] == (w + [' '])[0];
    assert s[i + |w|] == (w + [' '])[|w|];
    forall k | i <= k < i + |w| ensures s[k] == w[k - i] {
      assert s[i + (k - i)] == (w + [' '])[k - i];
    }
  }

  lemma TextAtSplit(s: seq<char>, i: nat, a: string, b: string)
    requires TextAt(s, i, a + b)
    ensures TextAt(s, i, a) && TextAt(s, i + |a|, b)
  {
    forall k | 0 <= k < |a| ensures s[i + k] == a[k] {
      assert s[i + k] == (a + b)[k];
    }
    forall k | 0 <= k < |b| ensures s[i + |a| + k] == b[k] {
      assert s[i + (|a| + k)] == (a + b)[|a| + k];
    }
  }

  /** A space in front of the pushback changes nothing the lexer returns. */
  lemma SpaceSkipped(s: seq<char>, j: nat)
    requires j < |s| && s[j] == ' '
    ensures LexAll(s, j) == LexAll(s, j + 1)
  {
    assert SkipSpace(s, j) == SkipSpace(s, j + 1);
    assert LexSpec(s, j) == LexSpec(s, j + 1);
  }

  /** Lexing a rendering from index i gives the tokens back. */
  lemma {:induction false} LexRenderAt(s: seq<char>, i: nat, toks: seq<Token>)
    requires forall k :: 0 <= k < |toks| ==> Lexable(toks[k])
    requires TextAt(s, i, Render(toks)) && |s| == i + |Render(toks)|
    ensures LexAll(s, i) == toks
    decreases toks
  {
    if toks != [] {
      var w := Spelling(toks[0]);
      var rest := Render(toks[1..]);
      assert Render(toks) == (w + [' ']) + rest;
      TextAtSplit(s, i, w + [' '], rest);
      LexOne(s, i, toks[0]);
      SpaceSkipped(s, i + |w|);
      LexRenderAt(s, i + |w| + 1, toks[1..]);
      assert [toks[0]] + toks[1..] == toks;
    }
  }

  lemma TextAfterFirst(c: char, r: string)
    ensures TextAt([c] + r, 1, r)
  {
    var s := [c] + r;
    forall k | 0 <= k < |r| ensures s[1 + k] == r[k] { }
  }

  /** Round trip: the lexer, fed the rendering of lexable tokens, returns
      exactly those tokens. */
  lemma LexRender(toks: seq<Token>)
    requires forall k :: 0 <= k < |toks| ==> Lexable(toks[k])
    ensures LexAll([' '] + Render(toks), 0) == toks
  {
    var r := Render(toks);
    var s := [' '] + r;
    TextAfterFirst(' ', r);
    LexRenderAt(s, 1, toks);
    SpaceSkipped(s, 0);
  }
}
