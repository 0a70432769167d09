// The matcher itself: three mutually recursive methods that scan with indices, and the entry
// points of Wildcard.
module WildcardMatch {
  import opened Options
  import opened WildcardPattern
  import opened WildcardSemantics

  // ---------- The loops follow the syntax ----------

  // What an alternative consumes in all, if j characters are consumed and t is left.
  function Finish(t: Elem, j: nat, c: string): nat
  {
    match ElemRun(t, c)
    case Some(n) => j + n
    case None => 0
  }

  lemma {:induction false} ElemOnNothing(t: Elem)
    ensures ElemLen(t, []) == 0
    decreases t, 0
  {
    if t.Grp? { AltsOnNothing(t.alts); }
  }

  lemma {:induction false} AltsOnNothing(a: Alts)
    ensures AltsLen(a, []) == 0
    decreases a, 1
  {
    ElemOnNothing(a.e);
    if a.More? { AltsOnNothing(a.rest); }
  }

  lemma NestedScan(e: string)
    ensures ParseAlts(e).Stuck? <==> Scan(e, 0) == NestedOpen
    ensures ParseAlts(e).Fail? <==> Scan(e, 0) == Open
    ensures ParseAlts(e).Got? ==> Scan(e, 0) == At(ParseAlts(e).len)
  {
    GroupClose(e);
  }

  lemma SliceSlice(c: string, j: nat, k: nat)
    requires j + k <= |c|
    ensures c[j..][k..] == c[j + k..]
  {
  }

  // Where the scan of an alternative is: i characters of it read, j characters of the content
  // consumed, or dead after a mismatch.
  predicate ElemState(expr: string, cont: string, i: nat, j: nat, dead: bool)
  {
    && i <= |expr| && j <= |cont| && (dead ==> j == 0)
    && match ParseElem(expr)
       case Got(t, n) =>
         && ParseElem(expr[i..]).Got? && n == i + ParseElem(expr[i..]).len
         && ElemLen(t, cont) == if dead then 0 else Finish(ParseElem(expr[i..]).node, j, cont[j..])
       case Fail => ParseElem(expr[i..]).Fail?
       case Stuck => false
  }

  lemma ElemStart(expr: string, cont: string)
    requires !ParseElem(expr).Stuck?
    ensures ElemState(expr, cont, 0, 0, false)
  {
    assert expr[0..] == expr && cont[0..] == cont;
  }

  lemma ElemStop(expr: string, cont: string, i: nat, j: nat, dead: bool)
    requires ElemState(expr, cont, i, j, dead)
    ensures i == |expr| || expr[i] == '/' ==> ParseElem(expr).Fail?
    ensures i < |expr| && (expr[i] == ',' || expr[i] == '}') ==>
              ParseElem(expr).Got? && ParseElem(expr).len == i && ElemLen(ParseElem(expr).node, cont) == j
  {
  }

  lemma ElemChar(expr: string, cont: string, i: nat, j: nat, dead: bool)
    requires ElemState(expr, cont, i, j, dead) && i < |expr| && expr[i] !in {'/', ',', '{', '}'}
    ensures !dead && j < |cont| && cont[j] == expr[i] ==> ElemState(expr, cont, i + 1, j + 1, false)
    ensures !(!dead && j < |cont| && cont[j] == expr[i]) ==> ElemState(expr, cont, i + 1, 0, true)
  {
    var e := expr[i..];
    assert e[1..] == expr[i + 1..];
    if j < |cont| { assert cont[j..][1..] == cont[j + 1..] && cont[j..][0] == cont[j]; }
  }

  lemma GroupHead(expr: string, i: nat)
    requires i < |expr| && expr[i] == '{' && !ParseElem(expr[i..]).Stuck?
    ensures var p := ParseAlts(expr[i..][1..]);
            && p.Got? && i + 1 + p.len <= |expr|
            && match ParseElem(expr[i + 1 + p.len..])
               case Got(rest, m) => ParseElem(expr[i..]) == Got(Grp(p.node, rest), 1 + p.len + m)
               case Fail => ParseElem(expr[i..]).Fail?
               case Stuck => false
  {
    hide ParseAlts, ParseElem;
    ParseOpen(expr[i..]);
    SliceSlice(expr, i, 1 + ParseAlts(expr[i..][1..]).len);
  }

  lemma ElemGroup(expr: string, cont: string, i: nat, j: nat, dead: bool)
    requires ElemState(expr, cont, i, j, dead) && i < |expr| && expr[i] == '{'
    ensures ParseAlts(expr[i..][1..]).Got?
    ensures dead ==> j == 0
    ensures var p := ParseAlts(expr[i..][1..]);
            var i', n := i + 1 + p.len, AltsLen(p.node, cont[j..]);
            if !dead && n != 0 then ElemState(expr, cont, i', j + n, false)
            else ElemState(expr, cont, i', 0, true)
  {
    hide ParseElem, ParseAlts, AltsLen;
    GroupHead(expr, i);
    var p := ParseAlts(expr[i..][1..]);
    SliceSlice(cont, j, AltsLen(p.node, cont[j..]));
  }

  // The end of an alternative and what it consumes, or (-1, -1) if the text ends or `/` comes first.
  function ElementResult(expr: string, cont: string): (int, int)
  {
    match ParseElem(expr)
    case Got(t, n) => (n as int, ElemLen(t, cont) as int)
    case _ => (-1, -1)
  }

  // The position just past the group whose text after the `{` is body, and what it consumes, or
  // (-1, -1) if it is not closed.
  function BracketResult(body: string, cont: string): (int, int)
  {
    match ParseAlts(body)
    case Got(alts, n) => (n as int + 1, AltsLen(alts, cont) as int)
    case _ => (-1, -1)
  }

  // Counting nesting depth, the group ends at size, or nowhere.
  predicate ClosesAt(body: string, size: int)
  {
    match Scan(body, 0)
    case At(n) => size == n + 1
    case _ => size == -1
  }

  method MatchElement(expr: string, cont: string) returns (r: (int, int))
    requires !ParseElem(expr).Stuck?
    ensures r == ElementResult(expr, cont)
    decreases |expr|, 1
  {
    hide ElemState, ParseElem, ParseAlts, ElemLen, AltsLen;
    var i, j, contSz := 0, 0, |cont|;
    ghost var dead := false;
    ElemStart(expr, cont);
    while i < |expr|
      invariant 0 <= i <= |expr| && 0 <= j <= |cont| && (dead ==> j == 0)
      invariant ElemState(expr, cont, i, j, dead)
      invariant contSz == if dead then 0 else |cont|
      decreases |expr| - i
    {
      ElemStop(expr, cont, i, j, dead);
      match expr[i]
      case '/' => return (-1, -1);
      case ',' => return (i, j);
      case '}' => return (i, j);
      case '{' =>
        ElemGroup(expr, cont, i, j, dead);
        assert j <= |cont| && cont[j..|cont|] == cont[j..];
        if dead { AltsOnNothing(ParseAlts(expr[i..][1..]).node); }
        var res := MatchBracket(expr[i..], cont[j..contSz]);
        if res.0 != 0 { i := i + res.0; } else { assert false; }
        if res.1 != 0 {
          j := j + res.1;
        } else {
          j, contSz, dead := 0, 0, true;
        }
      case _ =>
        ElemChar(expr, cont, i, j, dead);
        if j < contSz && cont[j] == expr[i] {
          j := j + 1;
        } else {
          j, contSz, dead := 0, 0, true;
        }
        i := i + 1;
    }
    ElemStop(expr, cont, i, j, dead);
    return (-1, -1);
  }

  // Where the scan of a group is: the text of the alternatives read up to i, and j characters
  // consumed by one of those, or 0.
  predicate AltsState(body: string, cont: string, i: nat, j: nat)
  {
    && i <= |body| && j <= |cont|
    && match ParseAlts(body)
       case Got(alts, n) =>
         && ParseAlts(body[i..]).Got? && n == i + ParseAlts(body[i..]).len
         && AltsLen(alts, cont) == if j > 0 then j else AltsLen(ParseAlts(body[i..]).node, cont)
       case Fail => ParseAlts(body[i..]).Fail?
       case Stuck => false
  }

  lemma AltsStart(body: string, cont: string)
    requires !ParseAlts(body).Stuck?
    ensures AltsState(body, cont, 0, 0)
  {
    assert body[0..] == body;
  }

  // The next alternative is read; k is what it consumes of what is left of the content.
  lemma AltsNext(body: string, cont: string, i: nat, j: nat)
    requires AltsState(body, cont, i, j)
    ensures !ParseElem(body[i..]).Stuck?
    ensures !ParseElem(body[i..]).Got? ==> ParseAlts(body).Fail?
    ensures ParseElem(body[i..]).Got? ==>
              var p := ParseElem(body[i..]);
              var k := ElemLen(p.node, if j > 0 then [] else cont);
              && i + p.len < |body|
              && (body[i + p.len] == ',' ==>
                    AltsState(body, cont, i + p.len + 1, if k != 0 then k else j))
              && (body[i + p.len] != ',' ==>
                    && body[i + p.len] == '}'
                    && ParseAlts(body).Got? && ParseAlts(body).len == i + p.len + 1
                    && AltsLen(ParseAlts(body).node, cont) == if k != 0 then k else j)
  {
    var e := body[i..];
    if ParseElem(e).Got? {
      var n := ParseElem(e).len;
      assert e[n + 1..] == body[i + n + 1..] && e[n] == body[i + n];
      ElemOnNothing(ParseElem(e).node);
    }
  }

  // The length of the group, or -1 if it is not closed, and the length consumed.
  method MatchBracket(expr: string, cont: string) returns (r: (int, int))
    requires |expr| > 0 && expr[0] == '{' && !ParseAlts(expr[1..]).Stuck?
    ensures r == BracketResult(expr[1..], cont)
    ensures ClosesAt(expr[1..], r.0)
    decreases |expr|, 0
  {
    hide AltsState, ParseElem, ParseAlts, ElemLen, AltsLen, Scan;
    var i, j, contSz := 0, 0, |cont|;
    var more := true;
    ghost var body := expr[1..];
    NestedScan(body);
    AltsStart(body, cont);
    while more
      invariant 0 <= i < |expr| && 0 <= j
      invariant contSz == if j > 0 then 0 else |cont|
      invariant more ==> AltsState(body, cont, i, j)
      invariant !more ==> expr[i] == '}' && ParseAlts(body).Got? && ParseAlts(body).len == i
                          && AltsLen(ParseAlts(body).node, cont) == j
      decreases |expr| - i, more
    {
      AltsNext(body, cont, i, j);
      i := i + 1;
      assert expr[i..] == body[i - 1..];
      assert cont[..contSz] == if j > 0 then [] else cont;
      var tk := MatchElement(expr[i..], cont[..contSz]);
      if tk.0 >= 0 { i := i + tk.0; } else { return (-1, -1); }
      assert expr[i] == body[i - 1];
      if tk.1 != 0 {
        j := tk.1;
        assert j <= contSz;
        contSz := 0;
      }
      more := expr[i] == ',';
    }
    assert i < |expr| && expr[i] == '}';
    return (i + 1, j);
  }

  // ---------- The glob loop ----------

  lemma SkipOneStar(p: Pat, c: string)
    ensures SomeSuffix(Star(p), c) == SomeSuffix(p, c)
    decreases |c|
  {
    if c != [] {
      SkipOneStar(p, c[1..]);
    }
  }

  lemma PatOpen(e: string)
    requires e != [] && e[0] == '{'
    ensures match ParseAlts(e[1..])
            case Got(alts, n) => ParsePat(e) == Br(alts, ParsePat(e[1 + n..]))
            case Fail => ParsePat(e) == Bad(false)
            case Stuck => ParsePat(e) == Bad(true)
  {
    hide ParseElem, ParseAlts;
  }

  // i characters of the pattern and j of the content are dealt with.
  predicate MatchState(expr: string, cont: string, i: nat, j: nat)
  {
    && i <= |expr| && j <= |cont| && Safe(ParsePat(expr[i..]), cont[j..])
    && Matches(ParsePat(expr), cont) == Matches(ParsePat(expr[i..]), cont[j..])
  }

  lemma GroupStep(alts: Alts, rest: Pat, c: string)
    requires c != []
    ensures var n := AltsLen(alts, c);
            && (Matches(Br(alts, rest), c) <==> n > 0 && Matches(rest, c[n..]))
            && (Safe(Br(alts, rest), c) <==> (n > 0 ==> Safe(rest, c[n..])))
  {
  }

  lemma OpenStep(nested: bool, c: string)
    requires c != []
    ensures !Matches(Bad(nested), c) && (Safe(Bad(nested), c) <==> !nested)
  {
  }

  // A group at the front of the pattern.
  lemma GroupCase(e: string, c: string)
    requires e != [] && e[0] == '{' && c != [] && Safe(ParsePat(e), c)
    ensures var p := ParseAlts(e[1..]);
            && !p.Stuck?
            && if p.Got? && AltsLen(p.node, c) > 0 then
                 var rest, left := ParsePat(e[1 + p.len..]), c[AltsLen(p.node, c)..];
                 && 1 + p.len <= |e| && AltsLen(p.node, c) <= |c|
                 && Safe(rest, left) && (Matches(ParsePat(e), c) <==> Matches(rest, left))
               else !Matches(ParsePat(e), c)
  {
    hide *;
    PatOpen(e);
    var p := ParseAlts(e[1..]);
    if p.Got? { GroupStep(p.node, ParsePat(e[1 + p.len..]), c); } else { OpenStep(p.Stuck?, c); }
  }

  // n characters of the pattern and m of the content go together.
  lemma MatchJump(expr: string, cont: string, i: nat, j: nat, n: nat, m: nat)
    requires MatchState(expr, cont, i, j) && i + n <= |expr| && j + m <= |cont|
    requires Safe(ParsePat(expr[i..][n..]), cont[j..][m..])
    requires Matches(ParsePat(expr[i..]), cont[j..]) <==> Matches(ParsePat(expr[i..][n..]), cont[j..][m..])
    ensures MatchState(expr, cont, i + n, j + m)
  {
    hide ParsePat, Matches, Safe;
    SliceSlice(expr, i, n);
    SliceSlice(cont, j, m);
  }

  lemma GroupReadable(expr: string, cont: string, i: nat, j: nat)
    requires MatchState(expr, cont, i, j) && i < |expr| && j < |cont| && expr[i] == '{'
    ensures !ParseAlts(expr[i..][1..]).Stuck?
  {
    MatchHere(expr, cont, i, j);
    GroupCase(expr[i..], cont[j..]);
  }

  lemma GroupTaken(expr: string, cont: string, i: nat, j: nat, alts: Alts, n: nat)
    requires MatchState(expr, cont, i, j) && i < |expr| && j < |cont| && expr[i] == '{'
    requires ParseAlts(expr[i..][1..]) == Got(alts, n) && AltsLen(alts, cont[j..]) > 0
    ensures MatchState(expr, cont, i + 1 + n, j + AltsLen(alts, cont[j..]))
  {
    hide *;
    MatchHere(expr, cont, i, j);
    GroupCase(expr[i..], cont[j..]);
    MatchJump(expr, cont, i, j, 1 + n, AltsLen(alts, cont[j..]));
  }

  lemma GroupRefused(expr: string, cont: string, i: nat, j: nat)
    requires MatchState(expr, cont, i, j) && i < |expr| && j < |cont| && expr[i] == '{'
    requires var p := ParseAlts(expr[i..][1..]); p.Got? ==> AltsLen(p.node, cont[j..]) == 0
    ensures !Matches(ParsePat(expr), cont)
  {
    hide *;
    MatchHere(expr, cont, i, j);
    GroupCase(expr[i..], cont[j..]);
  }

  lemma MatchHere(expr: string, cont: string, i: nat, j: nat)
    requires MatchState(expr, cont, i, j)
    ensures i <= |expr| && j <= |cont| && Safe(ParsePat(expr[i..]), cont[j..])
    ensures Matches(ParsePat(expr), cont) == Matches(ParsePat(expr[i..]), cont[j..])
  {
    hide ParsePat, Matches, Safe;
  }

  lemma MatchChar(expr: string, cont: string, i: nat, j: nat)
    requires MatchState(expr, cont, i, j) && i < |expr| && j < |cont| && expr[i] !in {'*', '{'}
    ensures if expr[i] == cont[j] then MatchState(expr, cont, i + 1, j + 1) else !Matches(ParsePat(expr), cont)
  {
    SliceSlice(expr, i, 1);
    SliceSlice(cont, j, 1);
  }

  lemma TailChar(expr: string, i: nat)
    requires i < |expr| && (expr[i] == '*' || expr[i] == '/')
    ensures Tail(ParsePat(expr[i..])) == Tail(ParsePat(expr[i + 1..]))
  {
    SliceSlice(expr, i, 1);
  }

  lemma TailEnd(e: string)
    requires e == [] || (e[0] != '*' && e[0] != '/')
    ensures Tail(ParsePat(e)) <==> e == []
  {
  }

  lemma MatchExit(expr: string, cont: string, i: nat, j: nat)
    requires MatchState(expr, cont, i, j) && (i == |expr| || j == |cont|)
    ensures Matches(ParsePat(expr), cont) <==> j == |cont| && Tail(ParsePat(expr[i..]))
  {
  }

  method Match(expr: string, cont: string) returns (b: bool)
    requires Safe(ParsePat(expr), cont)
    ensures b == Matches(ParsePat(expr), cont)
    decreases |expr|, 2
  {
    hide ParseElem, ParseAlts, ElemLen, AltsLen, Scan, ParsePat, Matches, Safe;
    var i, j := 0, 0;
    assert expr[0..] == expr && cont[0..] == cont;
    while i < |expr| && j < |cont|
      invariant 0 <= i && 0 <= j && MatchState(expr, cont, i, j)
      decreases |expr| - i
    {
      if expr[i] == '*' {
        b := MatchStar(expr, i, cont[j..]);
        return;
      } else if expr[i] == '{' {
        GroupReadable(expr, cont, i, j);
        var matchSz := MatchBracket(expr[i..], cont[j..]);
        if matchSz.0 > 0 && matchSz.1 > 0 {
          GroupTaken(expr, cont, i, j, ParseAlts(expr[i..][1..]).node, ParseAlts(expr[i..][1..]).len);
          i := i + matchSz.0;
          j := j + matchSz.1;
        } else if matchSz.1 <= 0 {
          GroupRefused(expr, cont, i, j);
          return false;
        } else {
          assert false;  // the source's "not a close bracket structure"
        }
      } else {
        MatchChar(expr, cont, i, j);
        if expr[i] != cont[j] { return false; }
        i, j := i + 1, j + 1;
      }
    }
    ghost var tail := Tail(ParsePat(expr[i..]));
    MatchExit(expr, cont, i, j);
    while i < |expr| && (expr[i] == '*' || expr[i] == '/')
      invariant 0 <= i <= |expr|
      invariant Tail(ParsePat(expr[i..])) == tail
    {
      TailChar(expr, i);
      i := i + 1;
    }
    TailEnd(expr[i..]);
    return i == |expr| && j == |cont|;
  }

  // The case of a star: skip the run of stars, then try every suffix of the segment.
  method MatchStar(expr: string, start: nat, cont: string) returns (b: bool)
    requires start < |expr| && expr[start] == '*' && |cont| > 0 && Safe(ParsePat(expr[start..]), cont)
    ensures b == Matches(ParsePat(expr[start..]), cont)
    ensures b <==> AfterStar(ParsePat(expr[start + 1..]), cont)
    decreases |expr|, 1
  {
    var i := start + 1;
    SliceSlice(expr, start, 1);
    StarExact(ParsePat(expr[start + 1..]), cont);
    while i < |expr| && expr[i] == '*'
      invariant start < i <= |expr| && SafeSuffix(ParsePat(expr[i..]), cont)
      invariant SomeSuffix(ParsePat(expr[i..]), cont) == Matches(ParsePat(expr[start..]), cont)
    {
      SliceSlice(expr, i, 1);
      SkipOneStar(ParsePat(expr[i + 1..]), cont);
      i := i + 1;
    }
    var k := 0;
    assert cont[0..] == cont;
    while k < |cont| && cont[k] != '/'
      invariant 0 <= k <= |cont| && SafeSuffix(ParsePat(expr[i..]), cont[k..])
      invariant SomeSuffix(ParsePat(expr[i..]), cont[k..]) == Matches(ParsePat(expr[start..]), cont)
    {
      var found := Match(expr[i..], cont[k..]);
      if found { return true; }
      SliceSlice(cont, k, 1);
      k := k + 1;
    }
    b := Match(expr[i..], cont[k..]);
  }

  lemma NestedGroupRest(e: string)
    requires e != [] && e[0] == '{' && WellNested(e)
    ensures match ParseAlts(e[1..])
            case Got(_, n) => WellNested(e[1 + n..])
            case Fail => true
            case Stuck => false
  {
    NestedScan(e[1..]);
    hide Scan, ParseAlts;
  }

  // If every group nested in another one is closed before the next `/`, the precondition holds of
  // every content.
  lemma {:induction false} WellNestedSafe(e: string, c: string)
    requires WellNested(e)
    ensures Safe(ParsePat(e), c)
    decreases |e|, 1
  {
    hide ParseAlts, ParseElem, Scan, AltsLen, Matches;
    if e != [] && c != [] {
      if e[0] == '{' {
        GroupSafe(e, c);
      } else if e[0] == '*' {
        SuffixSafe(e[1..], c);
      } else {
        WellNestedSafe(e[1..], c[1..]);
      }
    }
  }

  lemma {:induction false} GroupSafe(e: string, c: string)
    requires WellNested(e) && e != [] && e[0] == '{' && c != []
    ensures Safe(ParsePat(e), c)
    decreases |e|, 0
  {
    hide ParseAlts, ParseElem, Scan, AltsLen, Matches, Safe, ParsePat, WellNested;
    NestedGroupRest(e);
    PatOpen(e);
    var p := ParseAlts(e[1..]);
    if p.Got? {
      var n := AltsLen(p.node, c);
      GroupStep(p.node, ParsePat(e[1 + p.len..]), c);
      if n > 0 { WellNestedSafe(e[1 + p.len..], c[n..]); }
    } else {
      OpenStep(false, c);
    }
  }

  lemma {:induction false} SuffixSafe(e: string, c: string)
    requires WellNested(e)
    ensures SafeSuffix(ParsePat(e), c)
    decreases |e| + 1, 0, |c|
  {
    WellNestedSafe(e, c);
    if c != [] { SuffixSafe(e, c[1..]); }
  }
}
