/** The tokenizer of kaleidoscope.cpp (gettok). The C++ function pulls
    characters from stdin one at a time and keeps one character of pushback
    in a static variable LastChar; the model reads a character sequence
    through a cursor, with an explicit end-of-file sentinel. Identifier and
    number text travel in the token instead of the globals IdentifierString
    and NumValue. */
module Lexer {

  /** The values gettok returns: the named tokens tok_eof .. tok_error and,
      for every other character, the character itself. */
  datatype Token =
    | Eof
    | Def
    | Extern
    | Number(text: string)
    | Identifier(name: string)
    | Error
    | Char(c: char)

  /** The pushback character: an input character or EOF. */
  datatype Ch = Chr(c: char) | EndOfFile

  // Character classes of <cctype> in the "C" locale.

  predicate IsSpace(c: char) {
    c == ' ' || c == '\t' || c == '\n' || c == '\U{000B}' || c == '\U{000C}' || c == '\r'
  }

  predicate IsAlpha(c: char) {
    'a' <= c <= 'z' || 'A' <= c <= 'Z'
  }

  predicate IsDigit(c: char) {
    '0' <= c <= '9'
  }

  /** Characters that continue an identifier: isalnum or '_'. */
  predicate IsIdentChar(c: char) {
    IsAlpha(c) || IsDigit(c) || c == '_'
  }

  /** Characters that end a '#' comment. */
  predicate IsLineEnd(c: char) {
    c == '\n' || c == '\r'
  }

  /** Characters that continue a number run, given whether it already has a '.'. */
  predicate IsNumberChar(c: char, decimal: bool) {
    IsDigit(c) || (!decimal && c == '.')
  }

  /** The character at index i, or EOF past the end. */
  function At(s: seq<char>, i: nat): Ch {
    if i < |s| then Chr(s[i]) else EndOfFile
  }

  /** The token at index k of a token sequence; past the end the stream reads
      tok_eof for ever, as gettok does once it has reached EOF. */
  function TokenAt(toks: seq<Token>, k: nat): Token {
    if k < |toks| then toks[k] else Eof
  }

  /** The end of the whitespace run starting at i. */
  function SkipSpace(s: seq<char>, i: nat): (j: nat)
    requires i <= |s|
    ensures i <= j <= |s|
    ensures forall k :: i <= k < j ==> IsSpace(s[k])
    ensures j < |s| ==> !IsSpace(s[j])
    decreases |s| - i
  {
    if i < |s| && IsSpace(s[i]) then SkipSpace(s, i + 1) else i
  }

  /** The end of the identifier run starting at i. */
  function IdentEnd(s: seq<char>, i: nat): (j: nat)
    requires i <= |s|
    ensures i <= j <= |s|
    ensures forall k :: i <= k < j ==> IsIdentChar(s[k])
    ensures j < |s| ==> !IsIdentChar(s[j])
    decreases |s| - i
  {
    if i < |s| && IsIdentChar(s[i]) then IdentEnd(s, i + 1) else i
  }

  /** The end of the comment starting at i: the first line end, or |s|. */
  function CommentEnd(s: seq<char>, i: nat): (j: nat)
    requires i <= |s|
    ensures i <= j <= |s|
    ensures forall k :: i <= k < j ==> !IsLineEnd(s[k])
    ensures j < |s| ==> IsLineEnd(s[j])
    decreases |s| - i
  {
    if i < |s| && !IsLineEnd(s[i]) then CommentEnd(s, i + 1) else i
  }

  /** The end of the number run starting at i, and whether the run (together
      with what came before, `decimal`) holds a '.'. The run takes digits and
      at most one '.'. */
  function NumberEnd(s: seq<char>, i: nat, decimal: bool): (r: (nat, bool))
    requires i <= |s|
    ensures i <= r.0 <= |s|
    ensures forall k :: i <= k < r.0 ==> IsDigit(s[k]) || s[k] == '.'
    ensures decimal ==> forall k :: i <= k < r.0 ==> s[k] != '.'
    ensures forall k, l :: i <= k < l < r.0 && s[k] == '.' ==> s[l] != '.'
    ensures r.1 <==> decimal || exists k :: i <= k < r.0 && s[k] == '.'
    ensures r.0 < |s| ==> !IsNumberChar(s[r.0], r.1)
    decreases |s| - i
  {
    if i < |s| && IsNumberChar(s[i], decimal) then
      NumberEnd(s, i + 1, decimal || s[i] == '.')
    else
      (i, decimal)
  }

  /** The classification of a complete identifier run. */
  function Keyword(w: string): (t: Token)
    ensures t == Def <==> w == "def"
    ensures t == Extern <==> w == "extern"
    ensures t != Def && t != Extern ==> t == Identifier(w)
  {
    if w == "def" then Def else if w == "extern" then Extern else Identifier(w)
  }

  /** One call of gettok with the pushback character at index i of s: the
      token returned and the index of the new pushback character. */
  function LexSpec(s: seq<char>, i: nat): (r: (Token, nat))
    requires i <= |s|
    ensures i <= r.1 <= |s|
    ensures r.0 == Eof ==> r.1 == |s|
    ensures r.0 != Eof ==> r.1 > i
    ensures r.0.Identifier? ==> |r.0.name| > 0 && IsAlpha(r.0.name[0])
    decreases |s| - i
  {
    var p := SkipSpace(s, i);
    if p == |s| then (Eof, p)
    else if IsAlpha(s[p]) then
      var q := IdentEnd(s, p);
      (Keyword(s[p..q]), q)
    else if IsDigit(s[p]) || s[p] == '.' then
      var (q, decimal) := NumberEnd(s, p, false);
      if decimal && q < |s| && s[q] == '.' then (Error, q) else (Number(s[p..q]), q)
    else if s[p] == '#' then
      var q := CommentEnd(s, p);
      if q < |s| then LexSpec(s, q) else (Error, q)
    else
      (Char(s[p]), p + 1)
  }

  /** The tokens gettok returns from index i on, up to (not including) the
      first tok_eof. */
  function LexAll(s: seq<char>, i: nat): (toks: seq<Token>)
    requires i <= |s|
    ensures forall k :: 0 <= k < |toks| ==> toks[k] != Eof
    decreases |s| - i
  {
    var (t, j) := LexSpec(s, i);
    if t == Eof then [] else [t] + LexAll(s, j)
  }

  /** The token returned by the (k+1)-th call of gettok from index i: what
      the parser sees when it pulls tokens lazily. */
  function Pull(s: seq<char>, i: nat, k: nat): (t: Token)
    requires i <= |s|
    ensures LexSpec(s, i).0 == Eof ==> t == Eof
    decreases k
  {
    var (t, j) := LexSpec(s, i);
    if k == 0 then t else Pull(s, j, k - 1)
  }

  /** Lexing the whole input first and reading the result by index gives the
      parser the same tokens as pulling them one at a time. */
  lemma {:induction false} PullAgreesWithLexAll(s: seq<char>, i: nat, k: nat)
    requires i <= |s|
    ensures Pull(s, i, k) == TokenAt(LexAll(s, i), k)
    decreases k
  {
    var (t, j) := LexSpec(s, i);
    if k > 0 {
      PullAgreesWithLexAll(s, j, k - 1);
    }
  }

  /** The lexer state: the characters it will see and the pushback cursor. */
  class Lexer {
    /** The initial pushback character ' ' followed by the input. */
    const stream: seq<char>
    /** Index in stream of LastChar; |stream| once getchar has returned EOF. */
    var cur: nat

    ghost predicate Valid()
      reads this
    {
      cur <= |stream|
    }

    constructor (input: seq<char>)
      ensures stream == [' '] + input && cur == 0 && Valid()
    {
      stream := [' '] + input;
      cur := 0;
    }

    /** LastChar. */
    function LastChar(): Ch
      reads this
    {
      At(stream, cur)
    }

    /** LastChar = getchar(): move to the next character, staying at EOF. */
    method GetChar()
      requires Valid()
      modifies this
      ensures Valid()
      ensures cur == if old(cur) < |stream| then old(cur) + 1 else old(cur)
    {
      if cur < |stream| {
        cur := cur + 1;
      }
    }

    /** The leading `while (isspace(LastChar))` loop of gettok. */
    method SkipWhitespace()
      requires Valid()
      modifies this
      ensures Valid() && cur == SkipSpace(stream, old(cur))
    {
      while LastChar().Chr? && IsSpace(LastChar().c)
        invariant old(cur) <= cur <= |stream|
        invariant SkipSpace(stream, cur) == SkipSpace(stream, old(cur))
        decreases |stream| - cur
      {
        GetChar();
      }
    }

    /** The identifier branch of gettok: accumulates [alnum_]* into
        IdentifierString and leaves the first other character as pushback. */
    method ReadIdentifier() returns (ident: string)
      requires Valid()
      modifies this
      ensures Valid() && cur == IdentEnd(stream, old(cur))
      ensures ident == stream[old(cur)..cur]
    {
      ident := "";
      while LastChar().Chr? && IsIdentChar(LastChar().c)
        invariant old(cur) <= cur <= |stream|
        invariant ident == stream[old(cur)..cur]
        invariant IdentEnd(stream, cur) == IdentEnd(stream, old(cur))
        decreases |stream| - cur
      {
        ident := ident + [LastChar().c];
        GetChar();
      }
    }

    /** The number branch of gettok: accumulates digits and at most one '.'
        into NumStr, and reports whether a '.' was taken. */
    method ReadNumber() returns (numStr: string, decimal: bool)
      requires Valid()
      modifies this
      ensures Valid() && (cur, decimal) == NumberEnd(stream, old(cur), false)
      ensures numStr == stream[old(cur)..cur]
    {
      numStr := "";
      decimal := false;
      while LastChar().Chr? && IsNumberChar(LastChar().c, decimal)
        invariant old(cur) <= cur <= |stream|
        invariant numStr == stream[old(cur)..cur]
        invariant NumberEnd(stream, cur, decimal) == NumberEnd(stream, old(cur), false)
        decreases |stream| - cur
      {
        var c := LastChar().c;
        assert stream[old(cur)..cur + 1] == numStr + [c];
        assert NumberEnd(stream, cur, decimal) == NumberEnd(stream, cur + 1, decimal || c == '.');
        numStr := numStr + [c];
        if c == '.' {
          decimal := true;
        }
        GetChar();
      }
    }

    /** The comment branch of gettok: reads up to the end of the line. */
    method SkipComment()
      requires Valid()
      modifies this
      ensures Valid() && cur == CommentEnd(stream, old(cur))
    {
      while LastChar().Chr? && !IsLineEnd(LastChar().c)
        invariant old(cur) <= cur <= |stream|
        invariant CommentEnd(stream, cur) == CommentEnd(stream, old(cur))
        decreases |stream| - cur
      {
        GetChar();
      }
    }

    /** gettok. */
    method GetTok() returns (t: Token)
      requires Valid()
      modifies this
      ensures Valid() && (t, cur) == LexSpec(stream, old(cur))
      decreases |stream| - cur
    {
      SkipWhitespace();
      var c := LastChar();
      if c.Chr? && IsAlpha(c.c) {
        var ident := ReadIdentifier();
        if ident == "def" {
          t := Def;
        } else if ident == "extern" {
          t := Extern;
        } else {
          t := Identifier(ident);
        }
      } else if c.Chr? && (IsDigit(c.c) || c.c == '.') {
        var numStr, decimal := ReadNumber();
        if decimal && LastChar() == Chr('.') {
          t := Error;
        } else {
          t := Number(numStr);
        }
      } else if c == Chr('#') {
        SkipComment();
        if LastChar() != EndOfFile {
          t := GetTok();
          return;
        }
        t := Error;
      } else if c == EndOfFile {
        t := Eof;
      } else {
        t := Char(c.c);
        GetChar();
      }
    }

    /** Runs gettok until it returns tok_eof, collecting the tokens before it.
        The parser reads these by index (see PullAgreesWithLexAll). */
    method Tokenize() returns (toks: seq<Token>)
      requires Valid()
      modifies this
      ensures Valid() && cur == |stream|
      ensures toks == LexAll(stream, old(cur))
    {
      toks := [];
      ghost var prev := cur;
      var t := GetTok();
      while t != Eof
        invariant Valid() && prev <= |stream|
        invariant (t, cur) == LexSpec(stream, prev)
        invariant toks + LexAll(stream, prev) == LexAll(stream, old(cur))
        decreases |stream| - prev
      {
        toks := toks + [t];
        prev := cur;
        t := GetTok();
      }
    }
  }
}
