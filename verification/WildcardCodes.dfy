// Committing to the first alternative loses no match exactly for codes: groups of which no
// expansion is empty or a proper prefix of another one.
module WildcardCodes {
  import opened WildcardPattern
  import opened WildcardSemantics

  // ---------- For codes the matcher computes the meaning ----------

  // Committing to the first alternative loses nothing if every group is a code.
  lemma Complete(p: Pat, ts: seq<Tok>, c: string)
    requires PlainPat(p) && Committable(p) && PatExpands(p, ts, false) && GlobWithTail(ts, c)
    ensures Matches(p, c)
  {
    CommittableFinds(p);
    FoundMatches(p, ts, c);
  }

  lemma {:induction false} PatRelax(p: Pat, ts: seq<Tok>)
    requires PatExpands(p, ts, true)
    ensures PatExpands(p, ts, false)
    decreases p
  {
    match p
    case Nil =>
    case Ch(_, rest) => PatRelax(rest, ts[1..]);
    case Star(rest) => PatRelax(rest, ts[1..]);
    case Br(alts, rest) =>
      var w :| AltsExpands(alts, w, true) && Lits(w) <= ts && PatExpands(rest, ts[|w|..], true);
      AltsRelax(alts, w);
      PatRelax(rest, ts[|w|..]);
  }

  // On such patterns the matcher computes the declarative meaning.
  lemma MatchesExact(p: Pat, c: string)
    requires PlainPat(p) && Committable(p)
    ensures Matches(p, c) <==> exists ts :: PatExpands(p, ts, false) && GlobWithTail(ts, c)
  {
    hide Committable, Matches, PatExpands, GlobWithTail;
    if Matches(p, c) {
      var ts := Sound(p, c);
      PatRelax(p, ts);
    }
    if ts :| PatExpands(p, ts, false) && GlobWithTail(ts, c) {
      Complete(p, ts, c);
    }
  }

  // ---------- Nothing is lost exactly for codes ----------

  // Every group but a, and what is nested in a, is a code.
  ghost predicate AltsBut(b: Alts, a: Alts)
    decreases b, 1
  {
    b == a || (Code(b) && InsideBut(b, a))
  }

  ghost predicate InsideBut(b: Alts, a: Alts)
    decreases b, 0
  {
    match b
    case One(e) => ElemBut(e, a)
    case More(e, rest) => ElemBut(e, a) && InsideBut(rest, a)
  }

  ghost predicate ElemBut(t: Elem, a: Alts)
    decreases t, 0
  {
    match t
    case End => true
    case Chr(_, rest) => ElemBut(rest, a)
    case Grp(alts, rest) => AltsBut(alts, a) && ElemBut(rest, a)
  }

  ghost predicate PatBut(p: Pat, a: Alts)
  {
    match p
    case Nil => true
    case Bad(_) => true
    case Ch(_, rest) => PatBut(rest, a)
    case Star(rest) => PatBut(rest, a)
    case Br(alts, rest) => AltsBut(alts, a) && PatBut(rest, a)
  }

  // In every pattern, whatever stands before, after or around this group, no match is lost as long
  // as the other groups are codes.
  ghost predicate LosesNothing(a: Alts)
  {
    forall p, ts, c ::
      PlainPat(p) && PatBut(p, a) && PatExpands(p, ts, false) && GlobWithTail(ts, c) ==> Matches(p, c)
  }

  function Word(w: string): Elem { if w == [] then End else Chr(w[0], Word(w[1..])) }

  predicate PlainWord(w: string) { forall i :: 0 <= i < |w| ==> w[i] !in {'/', '{', '}', ','} }

  lemma {:induction false} WordIs(w: string, v: string)
    requires PlainWord(w)
    ensures PlainElem(Word(w)) && CodesElem(Word(w))
    ensures ElemExpands(Word(w), v, false) <==> v == w
    decreases |w|
  {
    if w != [] {
      WordIs(w[1..], if v == [] then v else v[1..]);
      if v != [] { assert v == [v[0]] + v[1..] && w == [w[0]] + w[1..]; }
    }
  }

  lemma {:induction false} PlainExpansionWord(a: Alts, w: string)
    requires PlainAlts(a) && AltsExpands(a, w, false)
    ensures PlainWord(w)
    decreases a, 1
  {
    match a
    case One(e) => PlainElemWord(e, w);
    case More(e, rest) => if ElemExpands(e, w, false) { PlainElemWord(e, w); } else { PlainExpansionWord(rest, w); }
  }

  lemma {:induction false} PlainElemWord(t: Elem, w: string)
    requires PlainElem(t) && ElemExpands(t, w, false)
    ensures PlainWord(w)
    decreases t, 0
  {
    match t
    case End =>
    case Chr(c, rest) => PlainElemWord(rest, w[1..]); assert w == [c] + w[1..];
    case Grp(alts, rest) =>
      var k :| 0 <= k <= |w| && AltsExpands(alts, w[..k], false) && ElemExpands(rest, w[k..], false);
      PlainExpansionWord(alts, w[..k]);
      PlainElemWord(rest, w[k..]);
      assert w == w[..k] + w[k..];
  }

  lemma {:induction false} GlobItself(w: string)
    ensures Glob(Lits(w), w)
    decreases |w|
  {
    if w != [] {
      GlobItself(w[1..]);
      assert Lits(w)[1..] == Lits(w[1..]);
    }
  }

  lemma MatchesItself(w: string)
    ensures GlobWithTail(Lits(w), w)
  {
    GlobItself(w);
    assert Lits(w)[..|w|] == Lits(w);
  }

  // u and its proper extension v are both expansions: one of two contexts loses a match.
  lemma SomethingLost(a: Alts, u: string, v: string)
    requires PlainAlts(a) && AltsExpands(a, u, false) && AltsExpands(a, v, false) && u <= v && u != v
    ensures !LosesNothing(a)
  {
    var n := AltsLen(a, v);
    MatchesItself(v);
    if n != |v| {
      assert Lits(v)[|v|..] == [];
      var p := Br(a, Nil);
      assert PlainPat(p) && PatBut(p, a) && PatExpands(p, Lits(v), false);
      assert n > 0 ==> !Matches(Nil, v[n..]);
      assert !Matches(p, v);
    } else {
      PlainExpansionWord(a, v);
      LostAfter(a, u, v);
    }
  }

  // The group consumes all of v, so nothing is left for the rest of it after u.
  lemma LostAfter(a: Alts, u: string, v: string)
    requires PlainAlts(a) && PlainWord(v) && AltsExpands(a, u, false) && u <= v && u != v && AltsLen(a, v) == |v|
    ensures !LosesNothing(a)
  {
    hide AltsLen, ElemRun, Code, AltsExpands, Matches, Glob, GlobWithTail, PlainAlts, InsideBut;
    var x := v[|u|..];
    var rest := Br(One(Word(x)), Nil);
    OneWordGroup(a, x);
    assert Lits(u) <= Lits(v) && Lits(v)[|u|..] == Lits(x);
    assert PatBut(Br(a, rest), a) && PatExpands(Br(a, rest), Lits(v), false);
    MatchesItself(v);
    GroupExhausts(a, One(Word(x)), v);
  }

  lemma GroupExhausts(a: Alts, next: Alts, v: string)
    requires v != [] && AltsLen(a, v) == |v|
    ensures !Matches(Br(a, Br(next, Nil)), v)
  {
    assert v[|v|..] == [];
  }

  lemma OneWordGroup(a: Alts, x: string)
    requires PlainWord(x) && x != []
    ensures var p := Br(One(Word(x)), Nil);
            PlainPat(p) && PatBut(p, a) && PatExpands(p, Lits(x), false)
  {
    var b := One(Word(x));
    WordIs(x, x);
    OneWordCode(x);
    WordBut(x, a);
    assert InsideBut(b, a);
    assert AltsExpands(b, x, false) && Lits(x)[|x|..] == [];
  }

  lemma {:induction false} WordBut(x: string, a: Alts)
    ensures ElemBut(Word(x), a)
    decreases |x|
  {
    if x != [] { WordBut(x[1..], a); }
  }

  lemma OneWordCode(x: string)
    requires PlainWord(x) && x != []
    ensures Code(One(Word(x)))
  {
    WordIs(x, []);
    forall u, v | AltsExpands(One(Word(x)), u, false) && AltsExpands(One(Word(x)), v, false) && u <= v
      ensures u == v
    {
      WordIs(x, u);
      WordIs(x, v);
    }
  }

  // A group that may be empty never is: in front of a slash that loses a match.
  lemma EmptyLost(a: Alts)
    requires PlainAlts(a) && AltsExpands(a, [], false)
    ensures !LosesNothing(a)
  {
    var p, ts := Br(a, Ch('/', Nil)), Lits("/");
    assert PatBut(p, a) && PlainPat(p);
    assert Lits([]) <= ts && ts[0..] == ts && ts[1..] == [];
    assert PatExpands(Ch('/', Nil), ts, false);
    assert PatExpands(p, ts, false);
    MatchesItself("/");
    if AltsLen(a, "/") > 0 {
      AltsLenSound(a, "/");
      assert "/"[..AltsLen(a, "/")] == "/";
      AltsRelax(a, "/");
      PlainExpansion(a, "/");
      assert false;
    }
    assert !Matches(p, "/");
  }

  // An expansion on its own is lost if the matcher does not consume all of it.
  lemma OwnLost(a: Alts, w: string)
    requires PlainAlts(a) && AltsExpands(a, w, false) && w != [] && AltsLen(a, w) != |w|
    ensures !LosesNothing(a)
  {
    var p, n := Br(a, Nil), AltsLen(a, w);
    MatchesItself(w);
    assert Lits(w)[|w|..] == [];
    assert PlainPat(p) && PatBut(p, a) && PatExpands(p, Lits(w), false);
    assert n > 0 ==> !Matches(Nil, w[n..]);
    assert !Matches(p, w);
  }

  // ---------- What a longer content can change ----------

  lemma {:induction false} SomeExpansion(t: Elem) returns (w: string)
    ensures ElemExpands(t, w, false)
    decreases t, 0
  {
    match t
    case End => w := [];
    case Chr(c, rest) => w := SomeExpansion(rest); w := [c] + w;
    case Grp(alts, rest) =>
      var u := SomeExpansionOf(alts);
      var v := SomeExpansion(rest);
      GroupThen(alts, rest, u, v);
      w := u + v;
  }

  lemma {:induction false} SomeExpansionOf(a: Alts) returns (w: string)
    ensures AltsExpands(a, w, false)
    decreases a, 1
  {
    w := SomeExpansion(a.e);
  }

  lemma GroupThen(alts: Alts, rest: Elem, u: string, v: string)
    requires AltsExpands(alts, u, false) && ElemExpands(rest, v, false)
    ensures ElemExpands(Grp(alts, rest), u + v, false)
  {
    assert (u + v)[..|u|] == u && (u + v)[|u|..] == v;
  }

  // If more content changes what is consumed, some expansion goes beyond the shorter content.
  lemma {:induction false} ElemOverruns(t: Elem, w: string, c: string) returns (v: string)
    requires w <= c && ElemRun(t, w) != ElemRun(t, c)
    ensures ElemExpands(t, v, false) && w <= v && w != v
    decreases t, 0
  {
    match t
    case Chr(x, rest) =>
      if w == [] {
        v := SomeExpansion(rest);
      } else {
        v := ElemOverruns(rest, w[1..], c[1..]);
        assert w == [w[0]] + w[1..];
      }
      v := [x] + v;
    case Grp(alts, rest) =>
      var n := AltsLen(alts, w);
      if n != AltsLen(alts, c) {
        var u := AltsOverrun(alts, w, c);
        v := SomeExpansion(rest);
        GroupThen(alts, rest, u, v);
        v := u + v;
      } else {
        AltsLenSound(alts, w);
        AltsRelax(alts, w[..n]);
        assert w[n..] <= c[n..];
        v := ElemOverruns(rest, w[n..], c[n..]);
        GroupThen(alts, rest, w[..n], v);
        assert w == w[..n] + w[n..];
        v := w[..n] + v;
      }
  }

  lemma {:induction false} AltsOverrun(a: Alts, w: string, c: string) returns (v: string)
    requires w <= c && AltsLen(a, w) != AltsLen(a, c)
    ensures AltsExpands(a, v, false) && w <= v && w != v
    decreases a, 1
  {
    if a.One? || ElemLen(a.e, w) != ElemLen(a.e, c) {
      v := ElemOverruns(a.e, w, c);
    } else {
      v := AltsOverrun(a.rest, w, c);
    }
  }

  // On its own text the matcher consumes every expansion of the group.
  ghost predicate FindsOwn(a: Alts) { forall w :: AltsExpands(a, w, false) ==> AltsLen(a, w) == |w| }

  // Then so it does whatever follows, if the group is a code.
  lemma OwnThenAll(a: Alts)
    requires Code(a) && FindsOwn(a)
    ensures Finds(a)
  {
    forall w, c | AltsExpands(a, w, false) && w <= c
      ensures w != [] && AltsLen(a, c) == |w|
    {
      if AltsLen(a, c) != AltsLen(a, w) {
        var v := AltsOverrun(a, w, c);
        assert false;
      }
    }
  }

  lemma {:induction false} AltsButFinds(b: Alts, a: Alts)
    requires Finds(a) && AltsBut(b, a)
    ensures Finds(b)
    decreases b, 1
  {
    hide Finds, Code;
    if b != a {
      InsideButFinds(b, a);
      CodeFinds(b);
    }
  }

  lemma {:induction false} InsideButFinds(b: Alts, a: Alts)
    requires Finds(a) && InsideBut(b, a)
    ensures FindsInside(b)
    decreases b, 0
  {
    hide Finds, Code;
    ElemButFinds(b.e, a);
    if b.More? { InsideButFinds(b.rest, a); }
  }

  lemma {:induction false} ElemButFinds(t: Elem, a: Alts)
    requires Finds(a) && ElemBut(t, a)
    ensures FindsElem(t)
    decreases t, 0
  {
    hide Finds, Code;
    if t.Grp? { AltsButFinds(t.alts, a); }
    if !t.End? { ElemButFinds(t.rest, a); }
  }

  lemma {:induction false} PatButFinds(p: Pat, a: Alts)
    requires Finds(a) && PatBut(p, a)
    ensures FindsPat(p)
  {
    hide Finds, Code;
    if p.Br? { AltsButFinds(p.alts, a); }
    if !p.Nil? && !p.Bad? { PatButFinds(p.rest, a); }
  }

  lemma FindsLosesNothing(a: Alts)
    requires Finds(a)
    ensures LosesNothing(a)
  {
    hide Matches, GlobWithTail, PatExpands, Finds;
    forall p, ts, c | PlainPat(p) && PatBut(p, a) && PatExpands(p, ts, false) && GlobWithTail(ts, c)
      ensures Matches(p, c)
    {
      PatButFinds(p, a);
      FoundMatches(p, ts, c);
    }
  }

  // A group loses nothing in any context if and only if it is a code and the matcher consumes each
  // of its expansions when that is the whole content.
  lemma GroupExact(a: Alts)
    requires PlainAlts(a)
    ensures LosesNothing(a) <==> Code(a) && FindsOwn(a)
  {
    hide LosesNothing, Finds;
    if AltsExpands(a, [], false) {
      EmptyLost(a);
    } else if w :| AltsExpands(a, w, false) && AltsLen(a, w) != |w| {
      OwnLost(a, w);
    } else if u, v :| AltsExpands(a, u, false) && AltsExpands(a, v, false) && u <= v && u != v {
      SomethingLost(a, u, v);
    } else {
      OwnThenAll(a);
      FindsLosesNothing(a);
    }
  }

  // If only codes are nested in it, being a code is enough.
  lemma CodeExact(a: Alts)
    requires PlainAlts(a) && CodesInside(a)
    ensures LosesNothing(a) <==> Code(a)
  {
    hide LosesNothing, Finds, Code, FindsOwn;
    GroupExact(a);
    if Code(a) {
      CodesFindInside(a);
      CodeFinds(a);
      FindsLosesNothing(a);
    }
  }

  // Every group loses nothing, nested ones included.
  ghost predicate HarmlessElem(t: Elem)
  {
    match t
    case End => true
    case Chr(_, rest) => HarmlessElem(rest)
    case Grp(alts, rest) => LosesNothing(alts) && HarmlessInside(alts) && HarmlessElem(rest)
  }

  ghost predicate HarmlessInside(a: Alts)
  {
    match a
    case One(e) => HarmlessElem(e)
    case More(e, rest) => HarmlessElem(e) && HarmlessInside(rest)
  }

  ghost predicate Harmless(p: Pat)
  {
    match p
    case Nil => true
    case Bad(_) => true
    case Ch(_, rest) => Harmless(rest)
    case Star(rest) => Harmless(rest)
    case Br(alts, rest) => LosesNothing(alts) && HarmlessInside(alts) && Harmless(rest)
  }

  lemma {:induction false} HarmlessElemExact(t: Elem)
    requires PlainElem(t)
    ensures HarmlessElem(t) <==> CodesElem(t)
    decreases t, 0
  {
    hide LosesNothing, Code;
    if t.Grp? {
      HarmlessInsideExact(t.alts);
      if CodesInside(t.alts) { CodeExact(t.alts); }
    }
    if !t.End? { HarmlessElemExact(t.rest); }
  }

  lemma {:induction false} HarmlessInsideExact(a: Alts)
    requires PlainAlts(a)
    ensures HarmlessInside(a) <==> CodesInside(a)
    decreases a, 0
  {
    HarmlessElemExact(a.e);
    if a.More? { HarmlessInsideExact(a.rest); }
  }

  // Of any pattern: every group loses nothing in any context if and only if every group is a code.
  lemma {:induction false} CommitExact(p: Pat)
    requires PlainPat(p)
    ensures Harmless(p) <==> Committable(p)
    decreases p
  {
    hide LosesNothing, Code;
    if p.Br? {
      HarmlessInsideExact(p.alts);
      if CodesInside(p.alts) { CodeExact(p.alts); }
    }
    if !p.Nil? && !p.Bad? { CommitExact(p.rest); }
  }
}
