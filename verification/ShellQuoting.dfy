// inverse_escape_string: quotes a value so that the shell reads it back as one word.
module ShellQuoting {
  import opened Options
  import opened ShellWords

  // boost::algorithm::replace_all: left to right, without rescanning what was put in.
  function ReplaceAll(s: string, pat: string, rep: string): string
    requires pat != []
    decreases |s|
  {
    if |s| < |pat| then s
    else if s[..|pat|] == pat then rep + ReplaceAll(s[|pat|..], pat, rep)
    else [s[0]] + ReplaceAll(s[1..], pat, rep)
  }

  const DOUBLE_Q := "\""
  const BACK_Q := "`"
  const DOLLAR := "$"
  const DOUBLE_SLASH := "\\\\"

  // The three passes over single characters, and the pass over pairs of backslashes.
  function EscapeMarks(s: string): string
  {
    ReplaceAll(ReplaceAll(ReplaceAll(s, DOUBLE_Q, "\\\""), BACK_Q, "\\`"), DOLLAR, "\\$")
  }

  function FourPasses(s: string): string { ReplaceAll(EscapeMarks(s), DOUBLE_SLASH, "\\\\\\\\") }

  // What one pass from the left makes of the beginning of a value, and of how much of it: a mark gets
  // a backslash, two backslashes become four, and a backslash that such a mark follows becomes four.
  function Unit(s: string): (r: (string, nat))
    requires s != []
    ensures 1 <= r.1 <= |s|
  {
    if s[0] != '\\' then (MarkRep(s[0]), 1)
    else if |s| == 1 then ("\\", 1)
    else if s[1] == '\\' then ("\\\\\\\\", 2)
    else if Mark(s[1]) then ("\\\\\\\\" + [s[1]], 2)
    else (['\\', s[1]], 2)
  }

  function MarkRep(c: char): string { if Mark(c) then ['\\', c] else [c] }

  function Body(s: string): string
    decreases |s|
  {
    if s == [] then [] else Unit(s).0 + Body(s[Unit(s).1..])
  }

  // The text meant: single quotes around a value without one, else double quotes around its body.
  function Quoted(s: string): string
  {
    if '\'' !in s then "'" + s + "'" else "\"" + Body(s) + "\""
  }

  // ---------- When the quoting is right ----------

  // The backslashes that end just before p.
  function RunBefore(s: string, p: nat): nat
    requires p <= |s|
  {
    if p > 0 && s[p - 1] == '\\' then 1 + RunBefore(s, p - 1) else 0
  }

  predicate Mark(c: char) { c == '"' || c == '`' || c == '$' }

  // No single quote, or an even number of backslashes before every ", `, $ and newline, and at
  // the end.
  predicate InDomain(s: string)
  {
    '\'' !in s ||
    forall p :: 0 <= p <= |s| && (p == |s| || Mark(s[p]) || s[p] == '\n') ==> RunBefore(s, p) % 2 == 0
  }

  // The same condition read from the left, two characters at a backslash.
  predicate Paired(s: string)
  {
    if s == [] then true
    else if s[0] != '\\' then Paired(s[1..])
    else |s| > 1 && !Mark(s[1]) && s[1] != '\n' && Paired(s[2..])
  }

  predicate Even(s: string, from: nat)
    requires from <= |s|
  {
    forall p :: from <= p <= |s| && (p == |s| || Mark(s[p]) || s[p] == '\n') ==> RunBefore(s, p) % 2 == 0
  }

  lemma {:induction false} PairedIsEven(s: string, i: nat)
    requires i <= |s| && RunBefore(s, i) % 2 == 0
    ensures Paired(s[i..]) <==> Even(s, i)
    decreases |s| - i
  {
    if i == |s| {
    } else if s[i] != '\\' {
      PairedIsEven(s, i + 1);
      assert s[i..][1..] == s[i + 1..];
    } else if i + 1 == |s| {
      assert RunBefore(s, |s|) == 1 + RunBefore(s, i);
    } else {
      assert s[i..][1] == s[i + 1] && s[i..][2..] == s[i + 2..];
      assert RunBefore(s, i + 1) == 1 + RunBefore(s, i);
      PairedIsEven(s, i + 2);
    }
  }

  lemma DomainIsPaired(s: string)
    ensures InDomain(s) <==> '\'' !in s || Paired(s)
  {
    PairedIsEven(s, 0);
    assert s[0..] == s;
  }

  // ---------- The four passes as one ----------

  lemma ReplaceStep(s: string, pat: string, rep: string)
    requires |pat| == 1 && s != []
    ensures ReplaceAll(s, pat, rep) == (if s[0] == pat[0] then rep else [s[0]]) + ReplaceAll(s[1..], pat, rep)
  {
    assert s[..1] == [s[0]] && pat == [pat[0]];
  }

  lemma ReplaceNothing(pat: string, rep: string)
    requires pat != []
    ensures ReplaceAll([], pat, rep) == []
  {
  }

  lemma {:induction false} ReplaceChar(a: string, b: string, pat: string, rep: string)
    requires |pat| == 1
    ensures ReplaceAll(a + b, pat, rep) == ReplaceAll(a, pat, rep) + ReplaceAll(b, pat, rep)
    decreases |a|
  {
    hide ReplaceAll;
    if a == [] {
      ReplaceNothing(pat, rep);
      assert a + b == b;
    } else {
      ReplaceStep(a, pat, rep);
      ReplaceStep(a + b, pat, rep);
      assert (a + b)[1..] == a[1..] + b && (a + b)[0] == a[0];
      ReplaceChar(a[1..], b, pat, rep);
    }
  }

  lemma ReplaceOne(c: char, pat: string, rep: string)
    requires |pat| == 1
    ensures ReplaceAll([c], pat, rep) == if [c] == pat then rep else [c]
  {
    assert [c][..1] == [c] && [c][1..] == [];
    assert ReplaceAll([c], pat, rep) == if [c] == pat then rep + [] else [c] + [];
  }

  lemma EscapeCons(c: char, s: string)
    ensures EscapeMarks([c] + s) == MarkRep(c) + EscapeMarks(s)
  {
    var s1 := ReplaceAll(s, DOUBLE_Q, "\\\"");
    var s2 := ReplaceAll(s1, BACK_Q, "\\`");
    ReplaceChar([c], s, DOUBLE_Q, "\\\"");
    ReplaceOne(c, DOUBLE_Q, "\\\"");
    var r1 := if c == '"' then "\\\"" else [c];
    ReplaceChar(r1, s1, BACK_Q, "\\`");
    ReplaceTwo(r1, c, BACK_Q, "\\`");
    var r2 := if c == '`' then "\\`" else r1;
    ReplaceChar(r2, s2, DOLLAR, "\\$");
    ReplaceTwo(r2, c, DOLLAR, "\\$");
  }

  // A pass leaves the replacement of an earlier pass alone.
  lemma ReplaceTwo(r: string, c: char, pat: string, rep: string)
    requires |pat| == 1 && pat[0] != '\\' && (r == [c] || (r == ['\\', c] && [c] != pat))
    ensures ReplaceAll(r, pat, rep) == if [c] == pat then rep else r
  {
    ReplaceOne(c, pat, rep);
    ReplaceOne('\\', pat, rep);
    ReplaceChar(['\\'], [c], pat, rep);
    assert ['\\'] + [c] == ['\\', c];
  }

  lemma EscapeEmpty()
    ensures EscapeMarks([]) == []
  {
  }

  // A backslash in front of a character is doubled with it, or kept.
  lemma SlashPass(s: string)
    ensures s == [] ==> ReplaceAll(s, DOUBLE_SLASH, "\\\\\\\\") == []
    ensures s == ['\\'] ==> ReplaceAll(s, DOUBLE_SLASH, "\\\\\\\\") == ['\\']
    ensures s != [] && s[0] != '\\' ==>
              ReplaceAll(s, DOUBLE_SLASH, "\\\\\\\\") == [s[0]] + ReplaceAll(s[1..], DOUBLE_SLASH, "\\\\\\\\")
    ensures |s| > 1 && s[0] == '\\' && s[1] != '\\' ==>
              ReplaceAll(s, DOUBLE_SLASH, "\\\\\\\\") == [s[0]] + ReplaceAll(s[1..], DOUBLE_SLASH, "\\\\\\\\")
    ensures |s| > 1 && s[0] == '\\' && s[1] == '\\' ==>
              ReplaceAll(s, DOUBLE_SLASH, "\\\\\\\\") == "\\\\\\\\" + ReplaceAll(s[2..], DOUBLE_SLASH, "\\\\\\\\")
  {
    if |s| > 1 { assert s[..2] == [s[0], s[1]]; }
  }

  lemma PassesUnit(s: string)
    requires s != []
    ensures Unit(s).1 <= |s| && FourPasses(s) == Unit(s).0 + FourPasses(s[Unit(s).1..])
  {
    hide ReplaceAll, EscapeMarks;
    var c := s[0];
    assert s == [c] + s[1..];
    EscapeCons(c, s[1..]);
    var rest := EscapeMarks(s[1..]);
    if c != '\\' {
      BodyMark(c, rest);
    } else if |s| == 1 {
      EscapeEmpty();
      SlashPass(['\\']);
      SlashPass([]);
      assert EscapeMarks(s) == ['\\'] + [] == ['\\'];
    } else {
      assert s[1..] == [s[1]] + s[2..];
      EscapeCons(s[1], s[2..]);
      BodySlash(s[1], EscapeMarks(s[2..]));
    }
  }

  // The four passes, one after the other over the whole value, amount to the single one.
  lemma {:induction false} PassesAreOne(s: string)
    ensures FourPasses(s) == Body(s)
    decreases |s|
  {
    hide FourPasses;
    if s == [] {
      PassesEmpty();
    } else {
      PassesUnit(s);
      PassesAreOne(s[Unit(s).1..]);
    }
  }

  lemma PassesEmpty()
    ensures FourPasses([]) == []
  {
  }

  lemma BodyUnit(s: string)
    requires s != []
    ensures Unit(s).1 <= |s| && Body(s) == Unit(s).0 + Body(s[Unit(s).1..])
  {
  }

  function SlashesDoubled(s: string): string { ReplaceAll(s, DOUBLE_SLASH, "\\\\\\\\") }

  lemma BodyMark(c: char, rest: string)
    requires c != '\\'
    ensures SlashesDoubled(MarkRep(c) + rest) == MarkRep(c) + SlashesDoubled(rest)
  {
    hide ReplaceAll;
    var t := [c] + rest;
    SlashPass(t);
    assert t[1..] == rest;
    if Mark(c) {
      SlashPass(['\\'] + t);
      assert (['\\'] + t)[1..] == t && ['\\', c] + rest == ['\\'] + t;
    }
  }

  lemma BodySlash(x: char, rest: string)
    ensures SlashesDoubled(['\\'] + (MarkRep(x) + rest))
            == (if x == '\\' then "\\\\\\\\" else if Mark(x) then "\\\\\\\\" + [x] else ['\\', x])
               + SlashesDoubled(rest)
  {
    hide ReplaceAll;
    var e := ['\\'] + (MarkRep(x) + rest);
    SlashPass(e);
    if x == '\\' {
      assert e[2..] == rest;
    } else if Mark(x) {
      var t := [x] + rest;
      assert e[2..] == t;
      SlashPass(t);
      assert t[1..] == rest;
    } else {
      var t := [x] + rest;
      assert e[1..] == t;
      SlashPass(t);
      assert t[1..] == rest;
    }
  }

  // ---------- Reading it back ----------

  // Of the quoted text the shell reads the value back, if the backslashes are paired.
  lemma {:induction false} PairedReadBack(cur: Word, s: string, t: string)
    requires Paired(s)
    ensures Lex(InDouble, cur, Body(s) + "\"" + t) == Lex(InWord, cur + Marked(s, Double), t)
    decreases |s|
  {
    hide Body;
    if s == [] {
      BodyEmpty();
      assert Body(s) + "\"" + t == "\"" + t && ("\"" + t)[1..] == t && cur + Marked(s, Double) == cur;
    } else {
      var (u, n) := Unit(s);
      BodyUnit(s);
      var rest := Body(s[n..]) + "\"" + t;
      assert Body(s) + "\"" + t == u + rest;
      UnitReadBack(cur, s, rest);
      hide Lex;
      PairedReadBack(cur + Marked(s[..n], Double), s[n..], t);
      assert cur + Marked(s[..n], Double) + Marked(s[n..], Double) == cur + Marked(s, Double);
    }
  }

  lemma BodyEmpty()
    ensures Body([]) == []
  {
  }

  lemma UnitReadBack(cur: Word, s: string, rest: string)
    requires s != [] && Paired(s) && rest != []
    ensures Paired(s[Unit(s).1..])
    ensures Lex(InDouble, cur, Unit(s).0 + rest) == Lex(InDouble, cur + Marked(s[..Unit(s).1], Double), rest)
  {
    var (u, n) := Unit(s);
    var e := u + rest;
    if s[0] != '\\' {
      assert Marked(s[..1], Double) == [Sym(s[0], Double)];
      if Mark(s[0]) { assert e[2..] == rest; } else { assert e[1..] == rest; }
    } else if s[1] == '\\' {
      TwoSlashes(cur, rest);
      assert Marked(s[..2], Double) == SLASHES;
    } else {
      var x, y := Sym('\\', Double), Sym(s[1], Double);
      var t := [s[1]] + rest;
      assert e == ['\\'] + t && e[1..] == t && t[1..] == rest;
      assert Lex(InDouble, cur, e) == Lex(InDouble, cur + [x], t);
      assert cur + [x] + [y] == cur + Marked(s[..2], Double);
    }
  }

  const SLASHES: Word := [Sym('\\', Double), Sym('\\', Double)]

  lemma TwoSlashes(cur: Word, rest: string)
    ensures Lex(InDouble, cur, "\\\\\\\\" + rest) == Lex(InDouble, cur + SLASHES, rest)
  {
    var e := "\\\\\\\\" + rest;
    var t := "\\\\" + rest;
    assert e[2..] == t && t[2..] == rest;
    assert cur + [Sym('\\', Double)] + [Sym('\\', Double)] == cur + SLASHES;
  }

  // The first word read has no beginning w.
  predicate Misses(ws: Option<seq<Word>>, w: string)
  {
    ws.Some? ==> |ws.value| > 0 && !(w <= Text(ws.value[0]))
  }

  predicate Calm(t: string) { t == [] || Blank(t[0]) || Plain(t[0]) }

  // A word whose character at i is not that of w.
  lemma WrongAt(mode: Mode, cur: Word, s: string, w: string, i: nat)
    requires !mode.Between? && i < |cur| && i < |w| && cur[i].c != w[i]
    ensures Misses(Lex(mode, cur, s), w)
  {
    if Lex(mode, cur, s).Some? {
      WordGrows(mode, cur, s);
      assert Text(Lex(mode, cur, s).value[0])[i] == cur[i].c;
    }
  }

  // What follows a dropped backslash-newline never brings it back.
  lemma {:induction false} NoContinuation(cur: Word, s: string, t: string)
    requires Calm(t)
    ensures Misses(Lex(InDouble, cur, Body(s) + "\"" + t), Text(cur) + "\\\n")
    decreases |s|
  {
    hide Body;
    if s == [] {
      BodyEmpty();
      assert Body(s) + "\"" + t == "\"" + t && ("\"" + t)[1..] == t;
      WordEnds(cur, t);
    } else {
      var (u, n) := Unit(s);
      BodyUnit(s);
      var rest := Body(s[n..]) + "\"" + t;
      assert Body(s) + "\"" + t == u + rest;
      if |s| > 1 && s[0] == '\\' && s[1] == '\n' {
        var e := u + rest;
        assert e[2..] == rest && e[0] == '\\' && e[1] == '\n';
        NoContinuation(cur, s[2..], t);
      } else {
        hide Lex, Misses;
        if |s| == 1 { BodyEmpty(); assert s[n..] == []; }
        UnitWrong(cur, s, rest, "\\\n");
      }
    }
  }

  // After the closing quote the word ends, or goes on with a plain character.
  lemma WordEnds(cur: Word, t: string)
    requires Calm(t)
    ensures Misses(Lex(InWord, cur, t), Text(cur) + "\\\n")
  {
    var w := Text(cur) + "\\\n";
    if t != [] && Plain(t[0]) {
      var next := cur + [Sym(t[0], Bare)];
      assert Lex(InWord, cur, t) == Lex(InWord, next, t[1..]);
      assert next[|cur|].c != w[|cur|];
      WrongAt(InWord, next, t[1..], w, |cur|);
    }
  }

  // The unit at the front of s is read as something else than w begins with.
  lemma UnitWrong(cur: Word, s: string, rest: string, w: string)
    requires s != [] && rest != [] && |w| > 1 && w[0] == '\\'
    requires s[0] == '\\' && |s| == 1 ==> rest[0] == '"'
    requires s[0] == '\\' && |s| > 1 ==> s[1] != '\n'
    requires if s[0] == '\\' && |s| > 1 && (s[1] == '\\' || Mark(s[1])) then w[1] != '\\'
             else s[0] == '\\' && |s| > 1 ==> w[1] != s[1]
    ensures Misses(Lex(InDouble, cur, Unit(s).0 + rest), Text(cur) + w)
  {
    hide Misses;
    var e, target := Unit(s).0 + rest, Text(cur) + w;
    assert target[|cur|] == '\\';
    if s[0] != '\\' {
      var next := cur + [Sym(s[0], Double)];
      assert e[if Mark(s[0]) then 2 else 1..] == rest && next[|cur|].c == s[0];
      WrongAt(InDouble, next, rest, target, |cur|);
    } else if |s| == 1 {
      var next := cur + [Sym('"', Double)];
      assert e == ['\\'] + rest && next[|cur|].c == '"';
      WrongAt(InDouble, next, e[2..], target, |cur|);
    } else {
      UnitWrongSlash(cur, s, rest, w);
    }
  }

  lemma UnitWrongSlash(cur: Word, s: string, rest: string, w: string)
    requires |s| > 1 && s[0] == '\\' && s[1] != '\n' && rest != [] && |w| > 1 && w[0] == '\\'
    requires if s[1] == '\\' || Mark(s[1]) then w[1] != '\\' else w[1] != s[1]
    ensures Misses(Lex(InDouble, cur, Unit(s).0 + rest), Text(cur) + w)
  {
    hide Misses;
    var e, target := Unit(s).0 + rest, Text(cur) + w;
    assert target[|cur| + 1] == w[1];
    if s[1] == '\\' || Mark(s[1]) {
      hide Lex;
      var next, more := cur + SLASHES, if Mark(s[1]) then [s[1]] + rest else rest;
      assert e == "\\\\\\\\" + more;
      TwoSlashes(cur, more);
      assert next[|cur| + 1].c == '\\';
      WrongAt(InDouble, next, more, target, |cur| + 1);
    } else {
      var x, y := Sym('\\', Double), Sym(s[1], Double);
      var next, more := cur + [x] + [y], [s[1]] + rest;
      assert e == ['\\'] + more && e[1..] == more && more[1..] == rest;
      assert Lex(InDouble, cur, e) == Lex(InDouble, cur + [x], more) == Lex(InDouble, next, rest);
      assert next[|cur| + 1] == y;
      WrongAt(InDouble, next, rest, target, |cur| + 1);
    }
  }

  // A single backslash at the end swallows the closing quote.
  lemma LastMisread(cur: Word, t: string)
    ensures Misses(Lex(InDouble, cur, "\\\"" + t), Text(cur) + "\\")
  {
    hide Misses;
    var next := cur + [Sym('"', Double)];
    assert ("\\\"" + t)[2..] == t && next[|cur|].c == '"' && (Text(cur) + "\\")[|cur|] == '\\';
    WrongAt(InDouble, next, t, Text(cur) + "\\", |cur|);
  }

  // A backslash before a mark becomes two.
  lemma MarkMisread(cur: Word, s: string, rest: string)
    requires |s| > 1 && s[0] == '\\' && Mark(s[1])
    ensures Misses(Lex(InDouble, cur, Unit(s).0 + rest), Text(cur) + s)
  {
    hide Misses, Lex;
    var next := cur + SLASHES;
    TwoSlashes(cur, [s[1]] + rest);
    assert Unit(s).0 + rest == "\\\\\\\\" + ([s[1]] + rest);
    assert next[|cur| + 1].c == '\\' && (Text(cur) + s)[|cur| + 1] == s[1];
    WrongAt(InDouble, next, [s[1]] + rest, Text(cur) + s, |cur| + 1);
  }

  // A backslash before a newline is dropped with it.
  lemma NewlineMisread(cur: Word, s: string, t: string)
    requires |s| > 1 && s[0] == '\\' && s[1] == '\n' && Calm(t)
    ensures Misses(Lex(InDouble, cur, Unit(s).0 + (Body(s[2..]) + "\"" + t)), Text(cur) + s)
  {
    hide Body;
    var rest := Body(s[2..]) + "\"" + t;
    assert (Unit(s).0 + rest)[2..] == rest;
    NoContinuation(cur, s[2..], t);
    assert Text(cur) + "\\\n" <= Text(cur) + s;
  }

  // If they are not paired, the first word read does not begin with the value.
  lemma {:induction false} UnpairedMisread(cur: Word, s: string, t: string)
    requires !Paired(s) && Calm(t)
    ensures Misses(Lex(InDouble, cur, Body(s) + "\"" + t), Text(cur) + s)
    decreases |s|
  {
    hide Body, Lex, Misses, Calm;
    var (u, n) := Unit(s);
    BodyUnit(s);
    var rest := Body(s[n..]) + "\"" + t;
    assert Body(s) + "\"" + t == u + rest;
    if s[0] == '\\' && |s| == 1 {
      BodyEmpty();
      assert s[n..] == [] && u + rest == "\\\"" + t && s == "\\";
      LastMisread(cur, t);
    } else if s[0] == '\\' && Mark(s[1]) {
      MarkMisread(cur, s, rest);
    } else if s[0] == '\\' && s[1] == '\n' {
      NewlineMisread(cur, s, t);
    } else {
      UnitReadBackAny(cur, s, rest);
      var next := cur + Marked(s[..n], Double);
      UnpairedMisread(next, s[n..], t);
      assert Text(next) + s[n..] == Text(cur) + s;
    }
  }

  lemma UnitReadBackAny(cur: Word, s: string, rest: string)
    requires s != [] && rest != []
    requires s[0] == '\\' ==> |s| > 1 && !Mark(s[1]) && s[1] != '\n'
    ensures Paired(s) <==> Paired(s[Unit(s).1..])
    ensures Lex(InDouble, cur, Unit(s).0 + rest) == Lex(InDouble, cur + Marked(s[..Unit(s).1], Double), rest)
  {
    var n := Unit(s).1;
    assert s[..n][n..] == [] && s[..n][..n] == s[..n];
    UnitReadBack(cur, s[..n], rest);
  }

  lemma {:induction false} SingleReadBack(cur: Word, s: string, t: string)
    requires '\'' !in s
    ensures Lex(InSingle, cur, s + "'" + t) == Lex(InWord, cur + Marked(s, Single), t)
    decreases |s|
  {
    var e := s + "'" + t;
    if s == [] {
      assert e[1..] == t && cur + Marked(s, Single) == cur;
    } else {
      var x := Sym(s[0], Single);
      SingleReadBack(cur + [x], s[1..], t);
      assert e[1..] == s[1..] + "'" + t;
      assert cur + [x] + Marked(s[1..], Single) == cur + Marked(s, Single);
    }
  }

  lemma OpenQuote(cur: Word, q: char, x: string)
    requires q == '\'' || q == '"'
    ensures Lex(InWord, cur, [q] + x) == Lex(if q == '"' then InDouble else InSingle, cur, x)
  {
    assert ([q] + x)[1..] == x;
  }

  // The value as it is to be read: every character quoted, and how.
  function Value(s: string): Word { Marked(s, if '\'' in s then Double else Single) }

  // Inside a word, in front of t: the value is read, or the word goes wrong.
  lemma QuotedRead(cur: Word, s: string, t: string)
    requires Calm(t)
    ensures InDomain(s) ==> Lex(InWord, cur, Quoted(s) + t) == Lex(InWord, cur + Value(s), t)
    ensures !InDomain(s) ==> Misses(Lex(InWord, cur, Quoted(s) + t), Text(cur) + s)
  {
    hide Body, Lex, Misses, InDomain;
    DomainIsPaired(s);
    var e := Quoted(s) + t;
    if '\'' !in s {
      assert e == ['\''] + (s + "'" + t);
      OpenQuote(cur, '\'', s + "'" + t);
      SingleReadBack(cur, s, t);
    } else {
      assert e == ['"'] + (Body(s) + "\"" + t);
      OpenQuote(cur, '"', Body(s) + "\"" + t);
      if Paired(s) { PairedReadBack(cur, s, t); } else { UnpairedMisread(cur, s, t); }
    }
  }

  // On the domain the shell reads one word, the value, with every character quoted; on other values
  // it reads something else.
  lemma RoundTripExact(s: string)
    ensures Reads(LexWords(Quoted(s)), [Value(s)], InDomain(s))
    ensures Texts([Value(s)]) == [s]
  {
    hide Body, InDomain;
    QuotedRead([], s, []);
    assert Quoted(s) + [] == Quoted(s) && [] + Value(s) == Value(s) && Text([]) + s == s == Text(Value(s));
    assert LexWords(Quoted(s)) == Lex(InWord, [], Quoted(s));
  }

  method InverseEscapeString(escpStr: string) returns (r: string)
    ensures r == Quoted(escpStr)
    ensures r == if '\'' in escpStr then "\"" + Body(escpStr) + "\"" else "'" + escpStr + "'"
    ensures Reads(LexWords(r), [Value(escpStr)], InDomain(escpStr))
  {
    RoundTripExact(escpStr);
    if '\'' !in escpStr { return "'" + escpStr + "'"; }
    PassesAreOne(escpStr);
    var res := escpStr;
    res := ReplaceAll(res, DOUBLE_Q, "\\\"");
    res := ReplaceAll(res, BACK_Q, "\\`");
    res := ReplaceAll(res, DOLLAR, "\\$");
    res := ReplaceAll(res, DOUBLE_SLASH, "\\\\\\\\");
    return "\"" + res + "\"";
  }
}
