// The matcher's meaning for every pattern, as a relation: a group takes what the first of its
// alternatives takes that takes anything, a star takes any text without a slash.
module WildcardCommit {
  import opened Options
  import opened WildcardPattern
  import opened WildcardSemantics

  // The alternatives of a group, in order.
  function Choices(a: Alts): (r: seq<Elem>)
    ensures |r| > 0 && forall i :: 0 <= i < |r| ==> r[i] < a
  {
    match a
    case One(e) => [e]
    case More(e, rest) => [e] + Choices(rest)
  }

  // The alternative takes the first n characters of c.
  ghost predicate ElemTakes(t: Elem, c: string, n: nat)
    decreases t, 0
  {
    match t
    case End => n == 0
    case Chr(x, rest) => n > 0 && c != [] && c[0] == x && ElemTakes(rest, c[1..], n - 1)
    case Grp(alts, rest) =>
      exists m :: 0 < m <= n && m <= |c| && GroupTakes(alts, c, m) && ElemTakes(rest, c[m..], n - m)
  }

  // The group takes the first n characters: the alternative of least index that takes anything does.
  ghost predicate GroupTakes(a: Alts, c: string, n: nat)
    decreases a, 1
  {
    exists i :: 0 <= i < |Choices(a)| && n > 0 && ElemTakes(Choices(a)[i], c, n) && NoneBefore(a, i, c)
  }

  ghost predicate NoneBefore(a: Alts, i: nat, c: string)
    requires i <= |Choices(a)|
    decreases a, 0
  {
    forall j, m: nat :: 0 <= j < i && m > 0 ==> !ElemTakes(Choices(a)[j], c, m)
  }

  predicate TailText(e: string) { forall i :: 0 <= i < |e| ==> e[i] == '*' || e[i] == '/' }

  // The pattern accepts the whole content; once that is used up, stars and slashes may be left over.
  ghost predicate Accepts(p: Pat, c: string)
    decreases p
  {
    if c == [] then NoBad(p) && TailText(ShowPat(p))
    else match p
      case Nil => false
      case Bad(_) => false
      case Ch(x, rest) => c[0] == x && Accepts(rest, c[1..])
      case Star(rest) => exists k :: 0 <= k <= |c| && NoSlash(c[..k]) && Accepts(rest, c[k..])
      case Br(alts, rest) => exists n :: 0 < n <= |c| && GroupTakes(alts, c, n) && Accepts(rest, c[n..])
  }

  // ---------- The matching function is this relation ----------

  lemma {:induction false} ElemRunExact(t: Elem, c: string, n: nat)
    ensures ElemTakes(t, c, n) <==> ElemRun(t, c) == Some(n)
    decreases t, 0
  {
    match t
    case End =>
    case Chr(x, rest) => if n > 0 && c != [] { ElemRunExact(rest, c[1..], n - 1); }
    case Grp(alts, rest) =>
      forall m | 0 < m <= n && m <= |c|
        ensures GroupTakes(alts, c, m) && ElemTakes(rest, c[m..], n - m)
                <==> AltsLen(alts, c) == m && ElemRun(rest, c[m..]) == Some(n - m)
      {
        AltsLenExact(alts, c, m);
        ElemRunExact(rest, c[m..], n - m);
      }
  }

  // The length consumed is that of the alternative of least index that consumes anything.
  lemma {:induction false} AltsLenExact(a: Alts, c: string, n: nat)
    ensures GroupTakes(a, c, n) <==> n > 0 && AltsLen(a, c) == n
    decreases a, 2
  {
    FirstExact(a.e, c, n);
    FirstExact(a.e, c, ElemLen(a.e, c));
    if a.More? {
      AltsLenExact(a.rest, c, n);
      if ElemLen(a.e, c) > 0 { FirstTakes(a, c, n); } else { OthersTake(a, c, n); }
    } else {
      FirstTakes(a, c, n);
    }
  }

  lemma {:induction false} FirstExact(t: Elem, c: string, n: nat)
    ensures n > 0 ==> (ElemTakes(t, c, n) <==> ElemLen(t, c) == n)
    ensures ElemLen(t, c) == 0 ==> forall m: nat :: m > 0 ==> !ElemTakes(t, c, m)
    decreases t, 1
  {
    forall m: nat
      ensures ElemTakes(t, c, m) <==> ElemRun(t, c) == Some(m)
    {
      ElemRunExact(t, c, m);
    }
  }

  lemma FirstTakes(a: Alts, c: string, n: nat)
    requires n > 0 ==> (ElemTakes(a.e, c, n) <==> ElemLen(a.e, c) == n)
    requires a.One? || (ElemLen(a.e, c) > 0 && ElemTakes(a.e, c, ElemLen(a.e, c)))
    ensures GroupTakes(a, c, n) <==> n > 0 && ElemLen(a.e, c) == n
  {
    hide ElemTakes, ElemLen;
    assert Choices(a)[0] == a.e && NoneBefore(a, 0, c);
    forall i | 0 < i < |Choices(a)|
      ensures !NoneBefore(a, i, c)
    {
      assert ElemTakes(Choices(a)[0], c, ElemLen(a.e, c));
    }
  }

  lemma OthersTake(a: Alts, c: string, n: nat)
    requires a.More? && forall m: nat :: m > 0 ==> !ElemTakes(a.e, c, m)
    ensures GroupTakes(a, c, n) <==> GroupTakes(a.rest, c, n)
  {
    hide ElemTakes;
    var all, others := Choices(a), Choices(a.rest);
    assert all == [a.e] + others;
    if i :| 0 <= i < |all| && n > 0 && ElemTakes(all[i], c, n) && NoneBefore(a, i, c) {
      assert i > 0 && all[i] == others[i - 1];
      forall j, m: nat | 0 <= j < i - 1 && m > 0
        ensures !ElemTakes(others[j], c, m)
      {
        assert others[j] == all[j + 1];
      }
      assert NoneBefore(a.rest, i - 1, c);
    }
    if i :| 0 <= i < |others| && n > 0 && ElemTakes(others[i], c, n) && NoneBefore(a.rest, i, c) {
      assert others[i] == all[i + 1];
      forall j, m: nat | 0 <= j < i + 1 && m > 0
        ensures !ElemTakes(all[j], c, m)
      {
        if j > 0 { assert all[j] == others[j - 1]; }
      }
      assert NoneBefore(a, i + 1, c);
    }
  }

  lemma {:induction false} TailExact(p: Pat)
    requires PlainPat(p)
    ensures Tail(p) <==> NoBad(p) && TailText(ShowPat(p))
  {
    match p
    case Nil =>
    case Bad(_) =>
    case Ch(c, rest) => TailExact(rest); if NoBad(rest) { TailTextCons(c, ShowPat(rest)); }
    case Star(rest) => TailExact(rest); if NoBad(rest) { TailTextCons('*', ShowPat(rest)); }
    case Br(alts, rest) => if NoBad(p) { assert ShowPat(p)[0] == '{'; }
  }

  lemma TailTextCons(c: char, e: string)
    ensures TailText([c] + e) <==> (c == '*' || c == '/') && TailText(e)
  {
    if TailText([c] + e) {
      assert ([c] + e)[0] == c;
      forall i | 0 <= i < |e|
        ensures e[i] == '*' || e[i] == '/'
      {
        assert ([c] + e)[i + 1] == e[i];
      }
    }
  }

  // For every pattern and content the matcher accepts exactly these.
  lemma {:induction false} AcceptsExact(p: Pat, c: string)
    requires PlainPat(p)
    ensures Matches(p, c) <==> Accepts(p, c)
    decreases p
  {
    if c == [] {
      TailExact(p);
    } else {
      match p
      case Nil =>
      case Bad(_) =>
      case Ch(x, rest) => AcceptsExact(rest, c[1..]);
      case Star(rest) =>
        SomeSuffixIs(rest, c);
        forall k | 0 <= k <= |c|
          ensures Matches(rest, c[k..]) <==> Accepts(rest, c[k..])
        {
          AcceptsExact(rest, c[k..]);
        }
      case Br(alts, rest) =>
        var n := AltsLen(alts, c);
        AcceptsExact(rest, c[n..]);
        forall m | 0 < m <= |c|
          ensures GroupTakes(alts, c, m) <==> n == m
        {
          AltsLenExact(alts, c, m);
        }
    }
  }
}
