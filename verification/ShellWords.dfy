// A word lexer for the quoting rules of the shell command language: blanks separate words,
// single quotes (POSIX Shell Command Language, section 2.2.2), double quotes (section 2.2.3) and
// the backslash (section 2.2.1).  It tells of every character of a word how it is quoted.
// Anything that is not a plain list of words (an operator, an expansion, a pattern, a brace, an
// open quote) has no result.
module ShellWords {

  import opened Options

  datatype Quoting = Bare | Escaped | Single | Double
  datatype Sym = Sym(c: char, how: Quoting)
  type Word = seq<Sym>

  function Marked(s: string, how: Quoting): (w: Word)
    ensures |w| == |s| && forall i :: 0 <= i < |w| ==> w[i] == Sym(s[i], how)
  {
    seq(|s|, i requires 0 <= i < |s| => Sym(s[i], how))
  }

  function Text(w: Word): (s: string)
    ensures |s| == |w| && forall i :: 0 <= i < |s| ==> s[i] == w[i].c
  {
    seq(|w|, i requires 0 <= i < |w| => w[i].c)
  }

  function Texts(ws: seq<Word>): (r: seq<string>)
    ensures |r| == |ws| && forall i :: 0 <= i < |r| ==> r[i] == Text(ws[i])
  {
    seq(|ws|, i requires 0 <= i < |ws| => Text(ws[i]))
  }

  datatype Mode = Between | InWord | InSingle | InDouble

  predicate Blank(c: char) { c == ' ' || c == '\t' }

  // Characters that stand for themselves outside quotes, section 2.2; braces and `!` do not in Bash.
  predicate Plain(c: char) { c !in "|&;<>()$`\\\"' \t\n*?[#~=%{}!" }

  // A backslash keeps its meaning before these inside double quotes.
  predicate Escapable(c: char) { c == '$' || c == '`' || c == '"' || c == '\\' }

  function Cons(w: Word, ws: Option<seq<Word>>): Option<seq<Word>>
  {
    if ws.Some? then Some([w] + ws.value) else None
  }

  // cur is the part of the current word read so far.
  function Lex(mode: Mode, cur: Word, s: string): Option<seq<Word>>
    decreases |s|, if mode.Between? then 1 else 0
  {
    match mode
    case Between =>
      if s == [] then Some([])
      else if Blank(s[0]) then Lex(Between, [], s[1..])
      else if |s| > 1 && s[0] == '\\' && s[1] == '\n' then Lex(Between, [], s[2..])
      else Lex(InWord, [], s)
    case InWord =>
      if s == [] then Some([cur])
      else if Blank(s[0]) then Cons(cur, Lex(Between, [], s[1..]))
      else if s[0] == '\'' then Lex(InSingle, cur, s[1..])
      else if s[0] == '"' then Lex(InDouble, cur, s[1..])
      else if s[0] == '\\' then
        if |s| == 1 then None
        else Lex(InWord, if s[1] == '\n' then cur else cur + [Sym(s[1], Escaped)], s[2..])
      else if Plain(s[0]) then Lex(InWord, cur + [Sym(s[0], Bare)], s[1..])
      else None
    case InSingle =>
      if s == [] then None
      else if s[0] == '\'' then Lex(InWord, cur, s[1..])
      else Lex(InSingle, cur + [Sym(s[0], Single)], s[1..])
    case InDouble =>
      if s == [] then None
      else if s[0] == '"' then Lex(InWord, cur, s[1..])
      else if s[0] == '$' || s[0] == '`' then None
      else if s[0] == '\\' && |s| > 1 && Escapable(s[1]) then Lex(InDouble, cur + [Sym(s[1], Double)], s[2..])
      else if s[0] == '\\' && |s| > 1 && s[1] == '\n' then Lex(InDouble, cur, s[2..])
      else Lex(InDouble, cur + [Sym(s[0], Double)], s[1..])
  }

  function LexWords(s: string): Option<seq<Word>> { Lex(Between, [], s) }

  // Good: the words read are these, quoted like these.  Not good: their texts are others.
  predicate Reads(ws: Option<seq<Word>>, meant: seq<Word>, good: bool)
  {
    if good then ws == Some(meant) else ws.Some? ==> Texts(ws.value) != Texts(meant)
  }

  // What has been read of a word stays its beginning.
  lemma {:induction false} WordGrows(mode: Mode, cur: Word, s: string)
    requires !mode.Between? && Lex(mode, cur, s).Some?
    ensures |Lex(mode, cur, s).value| > 0 && cur <= Lex(mode, cur, s).value[0]
    decreases |s|
  {
    if s != [] && !(mode.InWord? && Blank(s[0])) {
      var next :=
        match mode
        case InSingle => if s[0] == '\'' then (InWord, cur, 1) else (InSingle, cur + [Sym(s[0], Single)], 1)
        case InDouble =>
          if s[0] == '"' then (InWord, cur, 1)
          else if s[0] == '\\' && |s| > 1 && Escapable(s[1]) then (InDouble, cur + [Sym(s[1], Double)], 2)
          else if s[0] == '\\' && |s| > 1 && s[1] == '\n' then (InDouble, cur, 2)
          else (InDouble, cur + [Sym(s[0], Double)], 1)
        case InWord =>
          if s[0] == '\'' then (InSingle, cur, 1)
          else if s[0] == '"' then (InDouble, cur, 1)
          else if s[0] == '\\' then (InWord, if s[1] == '\n' then cur else cur + [Sym(s[1], Escaped)], 2)
          else (InWord, cur + [Sym(s[0], Bare)], 1);
      assert Lex(mode, cur, s) == Lex(next.0, next.1, s[next.2..]);
      WordGrows(next.0, next.1, s[next.2..]);
    }
  }

  predicate AllPlain(w: string) { forall i :: 0 <= i < |w| ==> Plain(w[i]) }

  predicate AllBlank(w: string) { forall i :: 0 <= i < |w| ==> Blank(w[i]) }

  lemma {:induction false} LexPlain(cur: Word, w: string, s: string)
    requires AllPlain(w)
    ensures Lex(InWord, cur, w + s) == Lex(InWord, cur + Marked(w, Bare), s)
    decreases |w|
  {
    if w == [] {
      assert w + s == s && cur + Marked(w, Bare) == cur;
    } else {
      LexPlain(cur + [Sym(w[0], Bare)], w[1..], s);
      assert (w + s)[1..] == w[1..] + s;
      assert cur + [Sym(w[0], Bare)] + Marked(w[1..], Bare) == cur + Marked(w, Bare);
    }
  }

  lemma {:induction false} LexBlanks(w: string, s: string)
    requires AllBlank(w)
    ensures Lex(Between, [], w + s) == Lex(Between, [], s)
    decreases |w|
  {
    if w == [] {
      assert w + s == s;
    } else {
      LexBlanks(w[1..], s);
      assert (w + s)[1..] == w[1..] + s;
    }
  }

  // A plain word, a blank, and more.
  lemma PlainThenBlank(w: string, s: string)
    requires w != [] && AllPlain(w) && s != [] && Blank(s[0])
    ensures Lex(Between, [], w + s) == Cons(Marked(w, Bare), Lex(Between, [], s))
  {
    LexPlain([], w, s);
    assert (w + s)[0] == w[0] && [] + Marked(w, Bare) == Marked(w, Bare);
    assert Lex(Between, [], w + s) == Lex(InWord, [], w + s);
  }

  // A word in front keeps a reading right or wrong.
  lemma ReadsCons(w: Word, ws: Option<seq<Word>>, meant: seq<Word>, good: bool)
    requires Reads(ws, meant, good)
    ensures Reads(Cons(w, ws), [w] + meant, good)
  {
    assert Texts([w] + meant)[1..] == Texts(meant);
    if ws.Some? { assert Texts([w] + ws.value)[1..] == Texts(ws.value); }
  }
}
