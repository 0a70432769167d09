// Wildcard: what match and seg_num promise about the text of a pattern.
module WildcardEntry {
  import opened WildcardPattern
  import opened WildcardSemantics
  import opened WildcardMatch
  import opened WildcardCommit
  import opened WildcardCodes

  // ---------- Patterns without braces ----------

  predicate BraceFree(e: string) { '{' !in e }

  function Toks(e: string): (r: seq<Tok>)
    ensures |r| == |e|
    ensures forall i :: 0 <= i < |e| ==> r[i] == if e[i] == '*' then Any else Lit(e[i])
  {
    seq(|e|, i requires 0 <= i < |e| => if e[i] == '*' then Any else Lit(e[i]))
  }

  lemma {:induction false} BraceFreeMeaning(e: string, ts: seq<Tok>, nonEmpty: bool)
    requires BraceFree(e)
    ensures WellNested(e) && Committable(ParsePat(e))
    ensures PatExpands(ParsePat(e), ts, nonEmpty) <==> ts == Toks(e)
    decreases |e|
  {
    if e != [] {
      var tail := if ts == [] then [] else ts[1..];
      BraceFreeMeaning(e[1..], tail, nonEmpty);
      assert Toks(e) == [Toks(e)[0]] + Toks(e[1..]);
      if ts != [] { assert ts == [ts[0]] + tail; }
    }
  }

  // match accepts exactly what some prefix of the pattern globs strictly, if the rest of the
  // pattern is made of stars and slashes.
  lemma BraceFreeExact(e: string, c: string)
    requires BraceFree(e)
    ensures Matches(ParsePat(e), c) <==>
              exists k :: 0 <= k <= |e| && Glob(Toks(e[..k]), c) && TailText(e[k..])
  {
    BraceFreeMeaning(e, Toks(e), false);
    ShowParse(e);
    if Matches(ParsePat(e), c) {
      var ts := Sound(ParsePat(e), c);
      BraceFreeMeaning(e, ts, true);
      var q :| 0 <= q <= |ts| && Glob(ts[..q], c) && TailToks(ts[q..]);
      TailTextIs(e, q);
    }
    if k :| 0 <= k <= |e| && Glob(Toks(e[..k]), c) && TailText(e[k..]) {
      TailTextIs(e, k);
      Complete(ParsePat(e), Toks(e), c);
    }
  }

  lemma TailTextIs(e: string, k: nat)
    requires k <= |e|
    ensures Toks(e)[..k] == Toks(e[..k])
    ensures TailToks(Toks(e)[k..]) <==> TailText(e[k..])
  {
    forall i | 0 <= i < |e| - k
      ensures TailTok(Toks(e)[k..][i]) <==> e[k..][i] == '*' || e[k..][i] == '/'
    {
    }
  }

  // ---------- Slashes ----------

  function Slashes(s: string): nat
  {
    if s == [] then 0 else (if s[0] == '/' then 1 else 0) + Slashes(s[1..])
  }

  lemma {:induction false} SlashesCount(s: string)
    ensures Slashes(s) == multiset(s)['/']
  {
    if s != [] {
      SlashesCount(s[1..]);
      assert s == [s[0]] + s[1..];
    }
  }

  lemma {:induction false} SlashesSplit(s: string, k: nat)
    requires k <= |s|
    ensures Slashes(s) == Slashes(s[..k]) + Slashes(s[k..])
    decreases k
  {
    if k == 0 {
      assert s[..0] == [] && s[0..] == s;
    } else {
      SlashesSplit(s[1..], k - 1);
      assert s[..k][1..] == s[1..][..k - 1] && s[1..][k - 1..] == s[k..];
    }
  }

  lemma {:induction false} NoSlashes(s: string)
    requires NoSlash(s)
    ensures Slashes(s) == 0
  {
    if s != [] { NoSlashes(s[1..]); }
  }

  lemma {:induction false} GroupNoSlash(e: string)
    requires ParseAlts(e).Got?
    ensures NoSlash(e[..ParseAlts(e).len])
    decreases |e|, 1
  {
    GroupParts(e);
    hide ParseAlts, ParseElem;
    ElemNoSlash(e);
    var n := ParseElem(e).len;
    assert e[..n + 1] == e[..n] + [e[n]];
    if e[n] == ',' {
      GroupNoSlash(e[n + 1..]);
      TakeSplit(e, n + 1, ParseAlts(e[n + 1..]).len);
    }
  }

  // The first alternative of a group, and the others.
  lemma GroupParts(e: string)
    requires ParseAlts(e).Got?
    ensures ParseElem(e).Got?
    ensures var n := ParseElem(e).len;
            && e[n] != '/'
            && if e[n] == ',' then ParseAlts(e[n + 1..]).Got? && ParseAlts(e).len == n + 1 + ParseAlts(e[n + 1..]).len
               else ParseAlts(e).len == n + 1
  {
    hide ParseElem;
  }

  lemma {:induction false} ElemNoSlash(e: string)
    requires ParseElem(e).Got?
    ensures NoSlash(e[..ParseElem(e).len])
    decreases |e|, 0
  {
    hide ParseAlts, ParseElem;
    ParseLetter(e);
    if e[0] == '{' {
      ParseOpen(e);
      var n := ParseAlts(e[1..]).len;
      GroupNoSlash(e[1..]);
      ElemNoSlash(e[1 + n..]);
      TakeThree(e, n, ParseElem(e[1 + n..]).len);
    } else if e[0] != ',' && e[0] != '}' {
      var n := ParseElem(e[1..]).len;
      ElemNoSlash(e[1..]);
      assert e[..1 + n] == [e[0]] + e[1..][..n];
    }
  }

  lemma {:induction false} TailPattern(e: string)
    requires Tail(ParsePat(e))
    ensures TailText(e)
    decreases |e|
  {
    if e != [] {
      TailPattern(e[1..]);
      assert e == [e[0]] + e[1..];
    }
  }

  // On success the content has the slashes of the pattern, but for those of a skipped tail.
  lemma {:induction false} SlashesConsumed(e: string, c: string) returns (k: nat)
    requires Matches(ParsePat(e), c)
    ensures k <= |e| && TailText(e[k..]) && Slashes(c) + Slashes(e[k..]) == Slashes(e)
    decreases |e|
  {
    if c == [] {
      TailPattern(e);
      k := 0;
      assert e[0..] == e;
    } else if e[0] == '*' {
      SomeSuffixIs(ParsePat(e[1..]), c);
      var m :| 0 <= m <= |c| && NoSlash(c[..m]) && Matches(ParsePat(e[1..]), c[m..]);
      k := SlashesConsumed(e[1..], c[m..]);
      SlashesSplit(c, m);
      NoSlashes(c[..m]);
      assert e[1..][k..] == e[k + 1..];
      k := k + 1;
    } else if e[0] == '{' {
      k := SlashesOfGroup(e, c);
    } else {
      k := SlashesConsumed(e[1..], c[1..]);
      assert e[1..][k..] == e[k + 1..];
      k := k + 1;
    }
  }

  lemma {:induction false} SlashesOfGroup(e: string, c: string) returns (k: nat)
    requires e != [] && e[0] == '{' && c != [] && Matches(ParsePat(e), c)
    ensures k <= |e| && TailText(e[k..]) && Slashes(c) + Slashes(e[k..]) == Slashes(e)
    decreases |e|, 0
  {
    hide ParseElem, ParseAlts, AltsLen;
    var p := ParseAlts(e[1..]);
    var n, m := 1 + p.len, AltsLen(p.node, c);
    k := SlashesConsumed(e[n..], c[m..]);
    GroupNoSlash(e[1..]);
    assert e[..n] == [e[0]] + e[1..][..p.len];
    NoSlashes(e[..n]);
    SlashesSplit(e, n);
    ShowParseAlts(e[1..]);
    AltsLenSound(p.node, c);
    AltsRelax(p.node, c[..m]);
    PlainExpansion(p.node, c[..m]);
    NoSlashes(c[..m]);
    SlashesSplit(c, m);
    assert e[n..][k..] == e[n + k..];
    k := n + k;
  }

  // ---------- A match that committing loses ----------

  function Pair(x: string, y: string): Alts { More(Word(x), One(Word(y))) }

  lemma PairExpands(x: string, y: string, w: string)
    requires PlainWord(x) && PlainWord(y)
    ensures AltsExpands(Pair(x, y), w, false) <==> w == x || w == y
    ensures PlainAlts(Pair(x, y))
  {
    hide ElemExpands;
    WordIs(x, w);
    WordIs(y, w);
    assert AltsExpands(One(Word(y)), w, false) == ElemExpands(Word(y), w, false);
  }

  // {a,ab}c does not match abc, though one of its two expansions is abc.
  lemma CommitLoses() returns (p: Pat)
    ensures PlainPat(p) && NoBad(p) && ShowPat(p) == "{a,ab}c"
    ensures PatExpands(p, Lits("abc"), false) && GlobWithTail(Lits("abc"), "abc")
    ensures !Matches(p, "abc")
  {
    hide AltsExpands, GlobWithTail;
    p := Br(Pair("a", "ab"), Ch('c', Nil));
    assert "ab"[1..] == "b" && "abc"[1..] == "bc";
    PairExpands("a", "ab", "ab");
    assert Lits("ab") <= Lits("abc") && Lits("abc")[2..] == [Lit('c')];
    assert PatExpands(Ch('c', Nil), [Lit('c')], false);
    MatchesItself("abc");
    assert AltsLen(Pair("a", "ab"), "abc") == 1;
  }

  // a{,b} does not match a, though one of its two expansions is a.
  lemma EmptyLoses() returns (p: Pat)
    ensures PlainPat(p) && NoBad(p) && ShowPat(p) == "a{,b}"
    ensures PatExpands(p, Lits("a"), false) && GlobWithTail(Lits("a"), "a")
    ensures !Matches(p, "a")
  {
    hide AltsExpands, ElemExpands, GlobWithTail, ShowPat, NoBad, PlainAlts, ShowAlts;
    var alts := Pair("", "b");
    p := Ch('a', Br(alts, Nil));
    EmptyShape();
    PairExpands("", "b", "");
    assert Lits("") <= [] && Lits("a")[1..] == [];
    assert PatExpands(Br(alts, Nil), [], false);
    MatchesItself("a");
    assert !Matches(Br(alts, Nil), []) && "a"[1..] == [];
  }

  lemma EmptyShape()
    ensures var p := Ch('a', Br(Pair("", "b"), Nil)); NoBad(p) && ShowPat(p) == "a{,b}"
  {
    assert ShowAlts(Pair("", "b")) == ",b}";
  }

  // {{a,ab}c} does not match abc.  The outer group is a code, with the expansions ac and abc; the
  // inner one is not.
  lemma NestedLoses() returns (a: Alts)
    ensures PlainAlts(a) && ShowPat(Br(a, Nil)) == "{{a,ab}c}"
    ensures Code(a) && a.e.Grp? && !Code(a.e.alts)
    ensures AltsExpands(a, "abc", false) && !Matches(Br(a, Nil), "abc")
  {
    a := One(Grp(Pair("a", "ab"), Word("c")));
    NestedShape(a);
    forall u, v | AltsExpands(a, u, false) && AltsExpands(a, v, false) && u <= v
      ensures u == v
    {
      NestedExpands(u);
      NestedExpands(v);
      assert "ac"[1] != "abc"[1];
    }
    NestedExpands([]);
    NestedExpands("abc");
  }

  lemma NestedShape(a: Alts)
    requires a == One(Grp(Pair("a", "ab"), Word("c")))
    ensures PlainAlts(a) && ShowPat(Br(a, Nil)) == "{{a,ab}c}"
    ensures !Code(Pair("a", "ab")) && AltsLen(a, "abc") == 0
  {
    hide AltsExpands;
    PairExpands("a", "ab", "a");
    PairExpands("a", "ab", "ab");
    assert "a" <= "ab";
    assert "abc"[1..] == "bc";
    assert AltsLen(Pair("a", "ab"), "abc") == 1;
    assert ShowAlts(Pair("a", "ab")) == "a,ab}";
  }

  lemma NestedExpands(w: string)
    ensures AltsExpands(One(Grp(Pair("a", "ab"), Word("c"))), w, false) <==> w == "ac" || w == "abc"
  {
    hide AltsExpands;
    var t := Grp(Pair("a", "ab"), Word("c"));
    forall k | 0 <= k <= |w|
      ensures AltsExpands(Pair("a", "ab"), w[..k], false) && ElemExpands(Word("c"), w[k..], false)
              <==> (w[..k] == "a" || w[..k] == "ab") && w[k..] == "c"
    {
      PairExpands("a", "ab", w[..k]);
      WordIs("c", w[k..]);
    }
    assert w == "ac" ==> w[..1] == "a" && w[1..] == "c";
    assert w == "abc" ==> w[..2] == "ab" && w[2..] == "c";
    assert ElemExpands(t, w, false) <==> w == "ac" || w == "abc";
    OneExpands(t, w);
  }

  lemma OneExpands(t: Elem, w: string)
    ensures AltsExpands(One(t), w, false) <==> ElemExpands(t, w, false)
  {
  }

  // ---------- The entry points ----------

  datatype Wildcard = Wildcard(expr: string) {

    // match
    method Match(content: string) returns (b: bool)
      requires Safe(ParsePat(expr), content)
      ensures b == Matches(ParsePat(expr), content) && (b <==> Accepts(ParsePat(expr), content))
      ensures b ==> exists ts :: PatExpands(ParsePat(expr), ts, true) && GlobWithTail(ts, content)
      ensures Committable(ParsePat(expr)) ==>
                (b <==> exists ts :: PatExpands(ParsePat(expr), ts, false) && GlobWithTail(ts, content))
      ensures BraceFree(expr) ==>
                (b <==> exists k :: 0 <= k <= |expr| && Glob(Toks(expr[..k]), content) && TailText(expr[k..]))
      ensures b ==> exists k :: 0 <= k <= |expr| && TailText(expr[k..])
                                && multiset(content)['/'] + multiset(expr[k..])['/'] == SegNum()
    {
      b := WildcardMatch.Match(expr, content);
      ShowParse(expr);
      AcceptsExact(ParsePat(expr), content);
      if Committable(ParsePat(expr)) { MatchesExact(ParsePat(expr), content); }
      if b {
        ghost var ts := Sound(ParsePat(expr), content);
        ghost var k := SlashesConsumed(expr, content);
        SlashesCount(content);
        SlashesCount(expr[k..]);
        SlashesCount(expr);
      }
      if BraceFree(expr) { BraceFreeExact(expr, content); }
    }

    // seg_num
    function SegNum(): (n: nat)
      ensures n == multiset(expr)['/']
    {
      SlashesCount(expr);
      Slashes(expr)
    }
  }
}
