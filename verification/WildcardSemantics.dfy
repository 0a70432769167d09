// What a pattern means, and what the matcher computes.
//
// The meaning is declarative: a pattern expands to sequences of literal characters and stars,
// and a star stands for any text without `/`.  The matcher commits to the first alternative of
// a group that consumes something, and may leave a tail of stars and slashes unused.
module WildcardSemantics {
  import opened Options
  import opened WildcardPattern

  // ---------- Declarative semantics ----------

  datatype Tok = Any | Lit(c: char)

  predicate NoSlash(s: string) { '/' !in s }

  // The whole content, the whole sequence.
  ghost predicate Glob(ts: seq<Tok>, c: string)
  {
    if ts == [] then c == []
    else match ts[0]
      case Lit(x) => c != [] && c[0] == x && Glob(ts[1..], c[1..])
      case Any => exists k :: 0 <= k <= |c| && NoSlash(c[..k]) && Glob(ts[1..], c[k..])
  }

  predicate TailTok(t: Tok) { t == Any || t == Lit('/') }

  predicate TailToks(ts: seq<Tok>) { forall i :: 0 <= i < |ts| ==> TailTok(ts[i]) }

  // A prefix matches strictly, and only stars and slashes are left over.
  ghost predicate GlobWithTail(ts: seq<Tok>, c: string)
  {
    exists q :: 0 <= q <= |ts| && Glob(ts[..q], c) && TailToks(ts[q..])
  }

  function Lits(w: string): (r: seq<Tok>)
    ensures |r| == |w| && forall i :: 0 <= i < |r| ==> r[i] == Lit(w[i])
  {
    seq(|w|, i requires 0 <= i < |w| => Lit(w[i]))
  }

  // Brace expansion.  With nonEmpty every group, at every nesting level, is replaced by a
  // non-empty text.
  ghost predicate ElemExpands(t: Elem, w: string, nonEmpty: bool)
  {
    match t
    case End => w == []
    case Chr(c, rest) => w != [] && w[0] == c && ElemExpands(rest, w[1..], nonEmpty)
    case Grp(alts, rest) =>
      exists k :: 0 <= k <= |w| && AltsExpands(alts, w[..k], nonEmpty) && ElemExpands(rest, w[k..], nonEmpty)
  }

  ghost predicate AltsExpands(a: Alts, w: string, nonEmpty: bool)
  {
    (nonEmpty ==> w != []) &&
    match a
    case One(e) => ElemExpands(e, w, nonEmpty)
    case More(e, rest) => ElemExpands(e, w, nonEmpty) || AltsExpands(rest, w, nonEmpty)
  }

  ghost predicate PatExpands(p: Pat, ts: seq<Tok>, nonEmpty: bool)
  {
    match p
    case Nil => ts == []
    case Bad(_) => false
    case Ch(c, rest) => ts != [] && ts[0] == Lit(c) && PatExpands(rest, ts[1..], nonEmpty)
    case Star(rest) => ts != [] && ts[0] == Any && PatExpands(rest, ts[1..], nonEmpty)
    case Br(alts, rest) =>
      exists w :: AltsExpands(alts, w, nonEmpty) && Lits(w) <= ts && PatExpands(rest, ts[|w|..], nonEmpty)
  }

  // ---------- What the matcher computes ----------

  // The length of the prefix of c that an alternative consumes, committing in nested groups.
  function ElemRun(t: Elem, c: string): (r: Option<nat>)
    ensures r.Some? ==> r.value <= |c|
    decreases t, 0
  {
    match t
    case End => Some(0)
    case Chr(x, rest) =>
      if c != [] && c[0] == x then Plus(1, ElemRun(rest, c[1..])) else None
    case Grp(alts, rest) =>
      var n := AltsLen(alts, c);
      if n == 0 then None else Plus(n, ElemRun(rest, c[n..]))
  }

  function Plus(n: nat, r: Option<nat>): Option<nat> { if r.Some? then Some(n + r.value) else None }

  function ElemLen(t: Elem, c: string): (n: nat)
    ensures n <= |c|
    decreases t, 1
  {
    match ElemRun(t, c)
    case Some(n) => n
    case None => 0
  }

  // That of the first alternative that consumes something; 0 if there is none.
  function AltsLen(a: Alts, c: string): (n: nat)
    ensures n <= |c|
    decreases a, 2
  {
    match a
    case One(e) => ElemLen(e, c)
    case More(e, rest) => if ElemLen(e, c) > 0 then ElemLen(e, c) else AltsLen(rest, c)
  }

  predicate Tail(p: Pat)
  {
    match p
    case Nil => true
    case Star(rest) => Tail(rest)
    case Ch(c, rest) => c == '/' && Tail(rest)
    case _ => false
  }

  predicate Matches(p: Pat, c: string)
    decreases p, |c|, 0
  {
    if c == [] then Tail(p)
    else match p
      case Nil => false
      case Bad(_) => false
      case Ch(x, rest) => c[0] == x && Matches(rest, c[1..])
      case Star(rest) => SomeSuffix(rest, c)
      case Br(alts, rest) => AltsLen(alts, c) > 0 && Matches(rest, c[AltsLen(alts, c)..])
  }

  // After a star: try every suffix up to and including the next slash.
  predicate SomeSuffix(p: Pat, c: string)
    decreases p, |c|, 1
  {
    Matches(p, c) || (c != [] && c[0] != '/' && SomeSuffix(p, c[1..]))
  }

  // The matcher does not come to a group in which a nested one is left open.
  predicate Safe(p: Pat, c: string)
    decreases p, |c|, 0
  {
    c == [] ||
    match p
    case Nil => true
    case Bad(nested) => !nested
    case Ch(x, rest) => c[0] == x ==> Safe(rest, c[1..])
    case Star(rest) => SafeSuffix(rest, c)
    case Br(alts, rest) => AltsLen(alts, c) > 0 ==> Safe(rest, c[AltsLen(alts, c)..])
  }

  predicate SafeSuffix(p: Pat, c: string)
    decreases p, |c|, 1
  {
    Safe(p, c) && (!Matches(p, c) && c != [] && c[0] != '/' ==> SafeSuffix(p, c[1..]))
  }

  // ---------- Soundness ----------

  lemma {:induction false} ElemRunSound(t: Elem, c: string)
    requires ElemRun(t, c).Some?
    ensures ElemExpands(t, c[..ElemRun(t, c).value], true)
    decreases t, 0
  {
    var w := c[..ElemRun(t, c).value];
    match t
    case End =>
    case Chr(x, rest) =>
      ElemRunSound(rest, c[1..]);
      assert w[1..] == c[1..][..ElemRun(rest, c[1..]).value];
    case Grp(alts, rest) =>
      var n := AltsLen(alts, c);
      AltsLenSound(alts, c);
      ElemRunSound(rest, c[n..]);
      assert w[..n] == c[..n] && w[n..] == c[n..][..ElemRun(rest, c[n..]).value];
  }

  lemma {:induction false} AltsLenSound(a: Alts, c: string)
    requires AltsLen(a, c) > 0
    ensures AltsExpands(a, c[..AltsLen(a, c)], true)
    decreases a, 1
  {
    match a
    case One(e) => ElemRunSound(e, c);
    case More(e, rest) => if ElemLen(e, c) > 0 { ElemRunSound(e, c); } else { AltsLenSound(rest, c); }
  }

  lemma {:induction false} SomeSuffixIs(p: Pat, c: string)
    ensures SomeSuffix(p, c) <==> exists k :: 0 <= k <= |c| && NoSlash(c[..k]) && Matches(p, c[k..])
    decreases |c|
  {
    if Matches(p, c) { assert c[0..] == c && NoSlash(c[..0]); }
    if c != [] && c[0] != '/' {
      SomeSuffixIs(p, c[1..]);
      forall k | 0 <= k <= |c| - 1 && NoSlash(c[1..][..k]) && Matches(p, c[1..][k..])
        ensures NoSlash(c[..k + 1]) && Matches(p, c[k + 1..])
      {
        assert c[..k + 1] == [c[0]] + c[1..][..k] && c[1..][k..] == c[k + 1..];
      }
    }
    forall k | 0 <= k <= |c| && NoSlash(c[..k]) && Matches(p, c[k..])
      ensures SomeSuffix(p, c)
    {
      if k == 0 { assert c[0..] == c; }
      else {
        assert c[0] in c[..k];
        assert c[1..][..k - 1] == c[..k][1..] && c[1..][k - 1..] == c[k..];
      }
    }
  }

  // The content up to k, without a slash, is the star's, and the rest of the pattern matches the rest.
  ghost predicate AfterStar(p: Pat, c: string)
  {
    exists k :: 0 <= k <= |c| && NoSlash(c[..k]) && Matches(p, c[k..])
  }

  lemma StarExact(p: Pat, c: string)
    requires c != []
    ensures Matches(Star(p), c) <==> AfterStar(p, c)
  {
    SomeSuffixIs(p, c);
  }

  lemma {:induction false} TailExpansion(p: Pat) returns (ts: seq<Tok>)
    requires Tail(p)
    ensures PatExpands(p, ts, true) && TailToks(ts)
  {
    match p
    case Nil => ts := [];
    case Star(rest) => ts := TailExpansion(rest); ts := [Any] + ts;
    case Ch(c, rest) => ts := TailExpansion(rest); ts := [Lit(c)] + ts;
  }

  lemma PrependTok(t: Tok, ts: seq<Tok>, k: nat, c: string)
    requires k <= |c| && GlobWithTail(ts, c[k..])
    requires match t case Lit(x) => k == 1 && c[0] == x case Any => NoSlash(c[..k])
    ensures GlobWithTail([t] + ts, c)
  {
    var q :| 0 <= q <= |ts| && Glob(ts[..q], c[k..]) && TailToks(ts[q..]);
    var us := [t] + ts;
    assert us[..q + 1][1..] == ts[..q] && us[q + 1..] == ts[q..];
    assert Glob(us[..q + 1], c);
  }

  lemma {:induction false} PrependLits(w: string, ts: seq<Tok>, c: string)
    requires w <= c && GlobWithTail(ts, c[|w|..])
    ensures GlobWithTail(Lits(w) + ts, c)
    decreases |w|
  {
    if w == [] {
      assert Lits(w) + ts == ts && c[0..] == c;
    } else {
      assert c[1..][|w[1..]|..] == c[|w|..];
      PrependLits(w[1..], ts, c[1..]);
      PrependTok(Lit(w[0]), Lits(w[1..]) + ts, 1, c);
      assert [Lit(w[0])] + (Lits(w[1..]) + ts) == Lits(w) + ts;
    }
  }

  // Whatever matches is matched by an expansion with no empty group.
  lemma {:induction false} Sound(p: Pat, c: string) returns (ts: seq<Tok>)
    requires Matches(p, c)
    ensures PatExpands(p, ts, true) && GlobWithTail(ts, c)
    decreases p
  {
    if c == [] {
      ts := TailExpansion(p);
      assert Glob(ts[..0], c) && ts[0..] == ts;
    } else {
      match p
      case Ch(x, rest) =>
        ts := Sound(rest, c[1..]);
        PrependTok(Lit(x), ts, 1, c);
        ts := [Lit(x)] + ts;
      case Star(rest) =>
        SomeSuffixIs(rest, c);
        var k :| 0 <= k <= |c| && NoSlash(c[..k]) && Matches(rest, c[k..]);
        ts := Sound(rest, c[k..]);
        PrependTok(Any, ts, k, c);
        ts := [Any] + ts;
      case Br(alts, rest) =>
        var w := c[..AltsLen(alts, c)];
        ts := Sound(rest, c[|w|..]);
        AltsLenSound(alts, c);
        PrependLits(w, ts, c);
        assert (Lits(w) + ts)[|w|..] == ts;
        ts := Lits(w) + ts;
    }
  }

  // ---------- Completeness ----------

  // No expansion of a group is empty, or a proper prefix of another one.
  ghost predicate Code(a: Alts)
  {
    && !AltsExpands(a, [], false)
    && forall u, v :: AltsExpands(a, u, false) && AltsExpands(a, v, false) && u <= v ==> u == v
  }

  // So for every group nested in an alternative, or in the alternatives.
  ghost predicate CodesElem(t: Elem)
  {
    match t
    case End => true
    case Chr(_, rest) => CodesElem(rest)
    case Grp(alts, rest) => Code(alts) && CodesInside(alts) && CodesElem(rest)
  }

  ghost predicate CodesInside(a: Alts)
  {
    match a
    case One(e) => CodesElem(e)
    case More(e, rest) => CodesElem(e) && CodesInside(rest)
  }

  // So for every group of the pattern, nested ones included.
  ghost predicate Committable(p: Pat)
  {
    match p
    case Nil => true
    case Bad(_) => true
    case Ch(_, rest) => Committable(rest)
    case Star(rest) => Committable(rest)
    case Br(alts, rest) => Code(alts) && CodesInside(alts) && Committable(rest)
  }

  // Whatever follows an expansion of the group, the matcher consumes that expansion.
  ghost predicate Finds(a: Alts)
  {
    forall w, c ::
      AltsExpands(a, w, false) && w <= c ==> w != [] && AltsLen(a, c) == |w|
  }

  // So for the groups of an alternative, of the alternatives, and of a pattern.
  ghost predicate FindsElem(t: Elem)
  {
    match t
    case End => true
    case Chr(_, rest) => FindsElem(rest)
    case Grp(alts, rest) => Finds(alts) && FindsElem(rest)
  }

  ghost predicate FindsInside(a: Alts)
  {
    match a
    case One(e) => FindsElem(e)
    case More(e, rest) => FindsElem(e) && FindsInside(rest)
  }

  ghost predicate FindsPat(p: Pat)
  {
    match p
    case Nil => true
    case Bad(_) => true
    case Ch(_, rest) => FindsPat(rest)
    case Star(rest) => FindsPat(rest)
    case Br(alts, rest) => Finds(alts) && FindsPat(rest)
  }

  lemma {:induction false} ElemRelax(t: Elem, w: string)
    requires ElemExpands(t, w, true)
    ensures ElemExpands(t, w, false)
    decreases t, 0
  {
    match t
    case End =>
    case Chr(_, rest) => ElemRelax(rest, w[1..]);
    case Grp(alts, rest) =>
      var k :| 0 <= k <= |w| && AltsExpands(alts, w[..k], true) && ElemExpands(rest, w[k..], true);
      AltsRelax(alts, w[..k]);
      ElemRelax(rest, w[k..]);
  }

  lemma {:induction false} AltsRelax(a: Alts, w: string)
    requires AltsExpands(a, w, true)
    ensures AltsExpands(a, w, false)
    decreases a, 1
  {
    match a
    case One(e) => ElemRelax(e, w);
    case More(e, rest) => if ElemExpands(e, w, true) { ElemRelax(e, w); } else { AltsRelax(rest, w); }
  }

  // An expansion that is a prefix of the content is what the alternative consumes.
  lemma {:induction false} ElemRunComplete(t: Elem, w: string, c: string)
    requires FindsElem(t) && ElemExpands(t, w, false) && w <= c
    ensures ElemRun(t, c) == Some(|w|)
    decreases t
  {
    hide Finds;
    match t
    case End =>
    case Chr(_, rest) => ElemRunComplete(rest, w[1..], c[1..]);
    case Grp(alts, rest) =>
      var k :| 0 <= k <= |w| && AltsExpands(alts, w[..k], false) && ElemExpands(rest, w[k..], false);
      Found(alts, w[..k], c);
      assert w[k..] <= c[k..];
      ElemRunComplete(rest, w[k..], c[k..]);
  }

  lemma Found(a: Alts, w: string, c: string)
    requires Finds(a) && AltsExpands(a, w, false) && w <= c
    ensures w != [] && AltsLen(a, c) == |w|
  {
  }

  // all is the whole group, a what is left of it.
  lemma {:induction false} AltsLenComplete(all: Alts, a: Alts, w: string, c: string)
    requires Code(all) && FindsInside(a) && AltsExpands(a, w, false) && w <= c
    requires forall u :: AltsExpands(a, u, false) ==> AltsExpands(all, u, false)
    ensures w != [] && AltsLen(a, c) == |w|
    decreases a
  {
    assert AltsExpands(all, w, false);
    match a
    case One(e) => ElemRunComplete(e, w, c);
    case More(e, rest) =>
      if ElemExpands(e, w, false) {
        ElemRunComplete(e, w, c);
      } else {
        AltsLenComplete(all, rest, w, c);
        if ElemLen(e, c) > 0 { Comparable(all, a, e, w, c); }
      }
  }

  lemma CodeFinds(a: Alts)
    requires Code(a) && FindsInside(a)
    ensures Finds(a)
  {
    forall w, c | AltsExpands(a, w, false) && w <= c
      ensures w != [] && AltsLen(a, c) == |w|
    {
      AltsLenComplete(a, a, w, c);
    }
  }

  lemma {:induction false} CodesFindInside(a: Alts)
    requires CodesInside(a)
    ensures FindsInside(a)
    decreases a
  {
    CodesFindElem(a.e);
    if a.More? { CodesFindInside(a.rest); }
  }

  lemma {:induction false} CodesFindElem(t: Elem)
    requires CodesElem(t)
    ensures FindsElem(t)
    decreases t
  {
    hide Code, Finds;
    if t.Grp? {
      CodesFindInside(t.alts);
      CodeFinds(t.alts);
    }
    if !t.End? { CodesFindElem(t.rest); }
  }

  lemma {:induction false} CommittableFinds(p: Pat)
    requires Committable(p)
    ensures FindsPat(p)
  {
    hide Code, Finds;
    if p.Br? {
      CodesFindInside(p.alts);
      CodeFinds(p.alts);
    }
    if !p.Nil? && !p.Bad? { CommittableFinds(p.rest); }
  }

  lemma Comparable(all: Alts, a: Alts, e: Elem, w: string, c: string)
    requires Code(all) && AltsExpands(all, w, false) && w <= c
    requires a.More? && a.e == e && ElemLen(e, c) > 0
    requires forall u :: AltsExpands(a, u, false) ==> AltsExpands(all, u, false)
    ensures ElemLen(e, c) == |w|
  {
    var u := c[..ElemLen(e, c)];
    ElemRunSound(e, c);
    ElemRelax(e, u);
    assert AltsExpands(a, u, false);
    assert u <= w || w <= u;
  }

  lemma {:induction false} PlainExpansion(a: Alts, w: string)
    requires PlainAlts(a) && AltsExpands(a, w, false)
    ensures NoSlash(w)
    decreases a, 1
  {
    match a
    case One(e) => PlainElemExpansion(e, w);
    case More(e, rest) =>
      if ElemExpands(e, w, false) { PlainElemExpansion(e, w); } else { PlainExpansion(rest, w); }
  }

  lemma {:induction false} PlainElemExpansion(t: Elem, w: string)
    requires PlainElem(t) && ElemExpands(t, w, false)
    ensures NoSlash(w)
    decreases t, 0
  {
    match t
    case End =>
    case Chr(c, rest) => PlainElemExpansion(rest, w[1..]); assert w == [c] + w[1..];
    case Grp(alts, rest) =>
      var k :| 0 <= k <= |w| && AltsExpands(alts, w[..k], false) && ElemExpands(rest, w[k..], false);
      PlainExpansion(alts, w[..k]);
      PlainElemExpansion(rest, w[k..]);
      assert w == w[..k] + w[k..];
  }

  // On exhausted content only a tail is left.
  lemma {:induction false} EmptyContent(ts: seq<Tok>)
    requires GlobWithTail(ts, [])
    ensures TailToks(ts)
  {
    var q :| 0 <= q <= |ts| && Glob(ts[..q], []) && TailToks(ts[q..]);
    GlobEmpty(ts[..q]);
    assert ts == ts[..q] + ts[q..];
  }

  lemma {:induction false} GlobEmpty(ts: seq<Tok>)
    requires Glob(ts, [])
    ensures TailToks(ts)
    decreases |ts|
  {
    if ts != [] {
      GlobEmpty(ts[1..]);
      assert ts == [ts[0]] + ts[1..];
    }
  }

  lemma {:induction false} TailIfTailToks(p: Pat, ts: seq<Tok>)
    requires PlainPat(p) && FindsPat(p) && PatExpands(p, ts, false) && TailToks(ts)
    ensures Tail(p)
    decreases p
  {
    match p
    case Nil =>
    case Ch(_, rest) => TailIfTailToks(rest, ts[1..]);
    case Star(rest) => TailIfTailToks(rest, ts[1..]);
    case Br(alts, rest) =>
      var w :| AltsExpands(alts, w, false) && Lits(w) <= ts && PatExpands(rest, ts[|w|..], false);
      Found(alts, w, w);
      PlainExpansion(alts, w);
      LitsAreNoTail(w, ts);
      assert false;
  }

  lemma LitsAreNoTail(w: string, ts: seq<Tok>)
    requires w != [] && NoSlash(w) && Lits(w) <= ts
    ensures !TailToks(ts)
  {
    assert ts[0] == Lits(w)[0] == Lit(w[0]) && w[0] in w;
    assert !TailTok(ts[0]);
  }

  lemma SomethingGlobs(ts: seq<Tok>, c: string)
    requires c != [] && GlobWithTail(ts, c)
    ensures ts != []
  {
  }

  lemma GlobHead(ts: seq<Tok>, c: string) returns (k: nat)
    requires ts != [] && c != [] && GlobWithTail(ts, c)
    ensures k <= |c| && GlobWithTail(ts[1..], c[k..])
    ensures match ts[0] case Lit(x) => k == 1 && c[0] == x case Any => NoSlash(c[..k])
  {
    var q :| 0 <= q <= |ts| && Glob(ts[..q], c) && TailToks(ts[q..]);
    assert q > 0;
    assert ts[..q][1..] == ts[1..][..q - 1] && ts[q..] == ts[1..][q - 1..];
    if ts[0] == Any {
      k :| 0 <= k <= |c| && NoSlash(c[..k]) && Glob(ts[..q][1..], c[k..]);
    } else {
      k := 1;
    }
    assert Glob(ts[1..][..q - 1], c[k..]);
  }

  lemma {:induction false} GlobLits(w: string, ts: seq<Tok>, c: string)
    requires Lits(w) <= ts && GlobWithTail(ts, c) && NoSlash(w)
    ensures w <= c && GlobWithTail(ts[|w|..], c[|w|..])
    decreases |w|
  {
    if w == [] {
      assert ts[0..] == ts && c[0..] == c;
    } else {
      assert ts[0] == Lits(w)[0];
      if c == [] { EmptyContent(ts); LitsAreNoTail(w, ts); assert false; }
      var k := GlobHead(ts, c);
      assert Lits(w[1..]) == Lits(w)[1..] <= ts[1..];
      GlobLits(w[1..], ts[1..], c[1..]);
      assert ts[1..][|w| - 1..] == ts[|w|..] && c[1..][|w| - 1..] == c[|w|..];
    }
  }

  // Committing to the first alternative loses nothing if every group finds its expansions.
  lemma {:induction false} FoundMatches(p: Pat, ts: seq<Tok>, c: string)
    requires PlainPat(p) && FindsPat(p) && PatExpands(p, ts, false) && GlobWithTail(ts, c)
    ensures Matches(p, c)
    decreases p
  {
    hide Finds;
    if c == [] {
      EmptyContent(ts);
      TailIfTailToks(p, ts);
    } else {
      SomethingGlobs(ts, c);
      match p
      case Ch(_, rest) =>
        var _ := GlobHead(ts, c);
        FoundMatches(rest, ts[1..], c[1..]);
      case Star(rest) =>
        var k := GlobHead(ts, c);
        FoundMatches(rest, ts[1..], c[k..]);
        SomeSuffixIs(rest, c);
      case Br(alts, rest) =>
        var w :| AltsExpands(alts, w, false) && Lits(w) <= ts && PatExpands(rest, ts[|w|..], false);
        PlainExpansion(alts, w);
        GlobLits(w, ts, c);
        Found(alts, w, c);
        FoundMatches(rest, ts[|w|..], c[|w|..]);
    }
  }
}
