// The patterns of Wildcard: their text, their syntax trees, and the way between the two.
//
// At top level `*` is a wildcard and `{` opens a group of alternatives separated by commas.
// Inside a group `*` is an ordinary character, groups nest, and `/` is not allowed.
module WildcardPattern {

  // An alternative of a group, and the alternatives of a group.
  datatype Elem = End | Chr(c: char, rest: Elem) | Grp(alts: Alts, rest: Elem)
  datatype Alts = One(e: Elem) | More(e: Elem, rest: Alts)

  // Bad stands for a group that is not closed, or not before the next `/`, with all that follows;
  // nested tells whether it is the group itself or one nested in it.
  datatype Pat = Nil | Bad(nested: bool) | Ch(c: char, rest: Pat) | Star(rest: Pat) | Br(alts: Alts, rest: Pat)

  // Got carries the length of the text read.  Fail: the text ended, or `/` came, in this group.
  // Stuck: in a group nested in it; there the source moves its index backwards.
  datatype Parsed<+T> = Got(node: T, len: nat) | Fail | Stuck

  // An alternative, up to the `,` or `}` that ends it.
  function ParseElem(e: string): (r: Parsed<Elem>)
    ensures r.Got? ==> r.len < |e| && (e[r.len] == ',' || e[r.len] == '}')
    decreases |e|, 0
  {
    if e == [] || e[0] == '/' then Fail
    else if e[0] == ',' || e[0] == '}' then Got(End, 0)
    else if e[0] == '{' then
      match ParseAlts(e[1..])
      case Got(alts, n) =>
        (match ParseElem(e[1 + n..])
         case Got(rest, m) => Got(Grp(alts, rest), 1 + n + m)
         case Fail => Fail
         case Stuck => Stuck)
      case _ => Stuck
    else
      match ParseElem(e[1..])
      case Got(rest, m) => Got(Chr(e[0], rest), 1 + m)
      case Fail => Fail
      case Stuck => Stuck
  }

  // The alternatives after a `{` or a `,`, up to and including the `}` that closes the group.
  function ParseAlts(e: string): (r: Parsed<Alts>)
    ensures r.Got? ==> 1 <= r.len <= |e|
    decreases |e|, 1
  {
    match ParseElem(e)
    case Got(elem, n) =>
      if e[n] == '}' then Got(One(elem), n + 1)
      else (match ParseAlts(e[n + 1..])
            case Got(rest, m) => Got(More(elem, rest), n + 1 + m)
            case Fail => Fail
            case Stuck => Stuck)
    case Fail => Fail
    case Stuck => Stuck
  }

  function ParsePat(e: string): Pat
    decreases |e|
  {
    if e == [] then Nil
    else if e[0] == '*' then Star(ParsePat(e[1..]))
    else if e[0] == '{' then
      match ParseAlts(e[1..])
      case Got(alts, n) => Br(alts, ParsePat(e[1 + n..]))
      case Fail => Bad(false)
      case Stuck => Bad(true)
    else Ch(e[0], ParsePat(e[1..]))
  }

  // ---------- The shape of a group, by counting braces ----------

  datatype Close = At(len: nat) | Open | NestedOpen

  // Looks for the brace that closes the current group, from depth d of groups nested in it.
  function Scan(e: string, d: nat): (r: Close)
    ensures r.At? ==> 1 <= r.len <= |e|
    decreases |e|
  {
    if e == [] || e[0] == '/' then if d == 0 then Open else NestedOpen
    else if e[0] == '}' && d == 0 then At(1)
    else Shift(Scan(e[1..], if e[0] == '{' then d + 1 else if e[0] == '}' then d - 1 else d), 1)
  }

  function Shift(c: Close, n: nat): Close { if c.At? then At(c.len + n) else c }

  // Every group nested in another one is closed before the next `/`.  A group that is not
  // nested may be left open.
  predicate WellNested(e: string)
    decreases |e|
  {
    if e == [] then true
    else if e[0] == '{' then
      match Scan(e[1..], 0)
      case At(n) => WellNested(e[1 + n..])
      case Open => true
      case NestedOpen => false
    else WellNested(e[1..])
  }

  function ToClose<T>(p: Parsed<T>): Close
  {
    match p
    case Got(_, n) => At(n)
    case Fail => Open
    case Stuck => NestedOpen
  }

  lemma DropDrop(e: string, n: nat, m: nat)
    requires n + m <= |e|
    ensures e[n..][m..] == e[n + m..]
  {
  }

  predicate ElemScanned(e: string, d: nat)
  {
    match ParseElem(e)
    case Got(_, n) => Scan(e, d) == Shift(Scan(e[n..], d), n)
    case Fail => Scan(e, d) == if d == 0 then Open else NestedOpen
    case Stuck => Scan(e, d) == NestedOpen
  }

  predicate AltsScanned(e: string, d: nat)
  {
    match ParseAlts(e)
    case Got(_, n) => Scan(e, d) == if d == 0 then At(n) else Shift(Scan(e[n..], d - 1), n)
    case Fail => Scan(e, d) == if d == 0 then Open else NestedOpen
    case Stuck => Scan(e, d) == NestedOpen
  }

  lemma {:induction false} ElemScan(e: string, d: nat)
    ensures ElemScanned(e, d)
    decreases |e|, 0
  {
    if e == [] || e[0] == '/' {
    } else if e[0] == ',' || e[0] == '}' {
      assert e[0..] == e;
    } else if e[0] == '{' {
      AltsScan(e[1..], d + 1);
      if ParseAlts(e[1..]).Got? { ElemScan(e[1 + ParseAlts(e[1..]).len..], d); }
      ElemScanGroup(e, d);
    } else {
      ElemScan(e[1..], d);
      ElemScanChar(e, d);
    }
  }

  lemma ElemScanChar(e: string, d: nat)
    requires e != [] && e[0] !in {'/', ',', '{', '}'} && ElemScanned(e[1..], d)
    ensures ElemScanned(e, d)
  {
    var t := e[1..];
    assert Scan(e, d) == Shift(Scan(t, d), 1);
    if ParseElem(t).Got? { DropDrop(e, 1, ParseElem(t).len); }
  }

  // How an alternative that begins with a nested group is read.
  lemma ParseOpen(e: string)
    requires e != [] && e[0] == '{'
    ensures match ParseAlts(e[1..])
            case Got(alts, n) =>
              (match ParseElem(e[1 + n..])
               case Got(rest, m) => ParseElem(e) == Got(Grp(alts, rest), 1 + n + m)
               case Fail => ParseElem(e) == Fail
               case Stuck => ParseElem(e) == Stuck)
            case _ => ParseElem(e) == Stuck
  {
    hide ParseAlts;
  }

  // How one that begins with anything else is read.
  lemma ParseLetter(e: string)
    ensures e == [] || e[0] == '/' ==> ParseElem(e) == Fail
    ensures e != [] && (e[0] == ',' || e[0] == '}') ==> ParseElem(e) == Got(End, 0)
    ensures e != [] && e[0] !in {'/', ',', '{', '}'} ==>
              match ParseElem(e[1..])
              case Got(rest, m) => ParseElem(e) == Got(Chr(e[0], rest), 1 + m)
              case Fail => ParseElem(e) == Fail
              case Stuck => ParseElem(e) == Stuck
  {
    hide ParseAlts;
  }

  lemma ScanOpen(e: string, d: nat)
    requires e != [] && e[0] == '{'
    ensures Scan(e, d) == Shift(Scan(e[1..], d + 1), 1)
  {
  }

  lemma ElemScanGroup(e: string, d: nat)
    requires e != [] && e[0] == '{' && AltsScanned(e[1..], d + 1)
    requires ParseAlts(e[1..]).Got? ==> ElemScanned(e[1 + ParseAlts(e[1..]).len..], d)
    ensures ElemScanned(e, d)
  {
    hide ParseAlts, ParseElem, Scan;
    ScanOpen(e, d);
    ParseOpen(e);
    if ParseAlts(e[1..]).Got? {
      var n := ParseAlts(e[1..]).len;
      DropDrop(e, 1, n);
      ElemScanShift(e, d, 1 + n);
    }
  }

  // The group at the front is n long; what follows it is read as its own alternative would be.
  lemma ElemScanShift(e: string, d: nat, n: nat)
    requires n <= |e| && ElemScanned(e[n..], d) && Scan(e, d) == Shift(Scan(e[n..], d), n)
    ensures match ParseElem(e[n..])
            case Got(_, m) => n + m <= |e| && Scan(e, d) == Shift(Scan(e[n + m..], d), n + m)
            case Fail => Scan(e, d) == if d == 0 then Open else NestedOpen
            case Stuck => Scan(e, d) == NestedOpen
  {
    hide ParseElem, Scan;
    if ParseElem(e[n..]).Got? { DropDrop(e, n, ParseElem(e[n..]).len); }
  }

  lemma {:induction false} AltsScan(e: string, d: nat)
    ensures AltsScanned(e, d)
    decreases |e|, 1
  {
    ElemScan(e, d);
    if ParseElem(e).Got? && e[ParseElem(e).len] == ',' { AltsScan(e[ParseElem(e).len + 1..], d); }
    AltsScanOne(e, d);
  }

  lemma AltsScanOne(e: string, d: nat)
    requires ElemScanned(e, d)
    requires ParseElem(e).Got? && e[ParseElem(e).len] == ',' ==> AltsScanned(e[ParseElem(e).len + 1..], d)
    ensures AltsScanned(e, d)
  {
    hide ParseElem, Scan;
    if ParseElem(e).Got? {
      var n := ParseElem(e).len;
      var t, u := e[n..], e[n + 1..];
      assert t[1..] == u by { DropDrop(e, n, 1); }
      ScanSeparator(t, d);
      if e[n] == ',' && ParseAlts(u).Got? { DropDrop(e, n + 1, ParseAlts(u).len); }
    }
  }

  lemma ScanSeparator(e: string, d: nat)
    requires e != [] && (e[0] == ',' || e[0] == '}')
    ensures Scan(e, d) == if e[0] == ',' then Shift(Scan(e[1..], d), 1)
                          else if d == 0 then At(1) else Shift(Scan(e[1..], d - 1), 1)
  {
  }

  // The parser reads a group exactly to the brace that counting finds.
  lemma GroupClose(e: string)
    ensures ToClose(ParseAlts(e)) == Scan(e, 0)
  {
    AltsScan(e, 0);
  }

  // ---------- Printing is the inverse of parsing ----------

  function ShowElem(t: Elem): string
  {
    match t
    case End => ""
    case Chr(c, rest) => [c] + ShowElem(rest)
    case Grp(alts, rest) => "{" + ShowAlts(alts) + ShowElem(rest)
  }

  function ShowAlts(a: Alts): string
  {
    match a
    case One(e) => ShowElem(e) + "}"
    case More(e, rest) => ShowElem(e) + "," + ShowAlts(rest)
  }

  function ShowPat(p: Pat): string
    requires NoBad(p)
  {
    match p
    case Nil => ""
    case Ch(c, rest) => [c] + ShowPat(rest)
    case Star(rest) => "*" + ShowPat(rest)
    case Br(alts, rest) => "{" + ShowAlts(alts) + ShowPat(rest)
  }

  predicate NoBad(p: Pat)
  {
    match p
    case Nil => true
    case Bad(_) => false
    case Ch(_, rest) => NoBad(rest)
    case Star(rest) => NoBad(rest)
    case Br(_, rest) => NoBad(rest)
  }

  // Trees whose characters can stand for themselves.
  predicate PlainElem(t: Elem)
  {
    match t
    case End => true
    case Chr(c, rest) => c != '/' && c != '{' && c != '}' && c != ',' && PlainElem(rest)
    case Grp(alts, rest) => PlainAlts(alts) && PlainElem(rest)
  }

  predicate PlainAlts(a: Alts)
  {
    match a
    case One(e) => PlainElem(e)
    case More(e, rest) => PlainElem(e) && PlainAlts(rest)
  }

  predicate PlainPat(p: Pat)
  {
    match p
    case Nil => true
    case Bad(_) => true
    case Ch(c, rest) => c != '*' && c != '{' && PlainPat(rest)
    case Star(rest) => PlainPat(rest)
    case Br(alts, rest) => PlainAlts(alts) && PlainPat(rest)
  }

  lemma Cons(c: char, x: string, y: string, s: string)
    ensures var e := [c] + x + y + s; e != [] && e[0] == c && e[1..] == x + (y + s)
    ensures var e := [c] + x + y + s; e[1 + |x|..] == y + s
  {
  }

  lemma {:induction false} ParseShowElem(t: Elem, s: string)
    requires PlainElem(t) && s != [] && (s[0] == ',' || s[0] == '}')
    ensures ParseElem(ShowElem(t) + s) == Got(t, |ShowElem(t)|)
    decreases t, 0
  {
    hide ParseAlts, ShowAlts;
    match t
    case End =>
      assert ShowElem(t) + s == s;
    case Chr(c, rest) =>
      ParseShowElem(rest, s);
      ParseShowChar(c, rest, s);
    case Grp(alts, rest) =>
      ParseShowElem(rest, s);
      ParseShowAlts(alts, ShowElem(rest) + s);
      ParseShowGroup(alts, rest, s);
  }

  lemma ShowParts(c: char, alts: Alts, rest: Elem)
    ensures ShowElem(Chr(c, rest)) == [c] + ShowElem(rest)
    ensures ShowElem(Grp(alts, rest)) == ['{'] + ShowAlts(alts) + ShowElem(rest)
  {
  }

  lemma ParseShowChar(c: char, rest: Elem, s: string)
    requires c !in {'/', '{', '}', ','}
    requires ParseElem(ShowElem(rest) + s) == Got(rest, |ShowElem(rest)|)
    ensures ParseElem(ShowElem(Chr(c, rest)) + s) == Got(Chr(c, rest), |ShowElem(Chr(c, rest))|)
  {
    hide *;
    ShowParts(c, One(End), rest);
    var e := [c] + ShowElem(rest) + s;
    assert e[0] == c && e[1..] == ShowElem(rest) + s;
    ParseLetter(e);
  }

  lemma ParseShowGroup(alts: Alts, rest: Elem, s: string)
    requires ParseElem(ShowElem(rest) + s) == Got(rest, |ShowElem(rest)|)
    requires ParseAlts(ShowAlts(alts) + (ShowElem(rest) + s)) == Got(alts, |ShowAlts(alts)|)
    ensures ParseElem(ShowElem(Grp(alts, rest)) + s) == Got(Grp(alts, rest), |ShowElem(Grp(alts, rest))|)
  {
    hide *;
    ShowParts('{', alts, rest);
    Cons('{', ShowAlts(alts), ShowElem(rest), s);
    ParseOpen(['{'] + ShowAlts(alts) + ShowElem(rest) + s);
  }

  lemma {:induction false} ParseShowAlts(a: Alts, s: string)
    requires PlainAlts(a)
    ensures ParseAlts(ShowAlts(a) + s) == Got(a, |ShowAlts(a)|)
    decreases a, 1
  {
    hide ParseElem, ShowElem;
    match a
    case One(t) =>
      ParseShowElem(t, "}" + s);
      Separator(ShowElem(t), '}', "", s);
      assert ShowAlts(a) == ShowElem(t) + ['}'] + "";
    case More(t, rest) =>
      ParseShowElem(t, "," + (ShowAlts(rest) + s));
      ParseShowAlts(rest, s);
      Separator(ShowElem(t), ',', ShowAlts(rest), s);
  }

  lemma Separator(x: string, c: char, y: string, s: string)
    ensures x + [c] + y + s == x + ([c] + (y + s)) && (x + [c] + y + s)[|x|] == c
    ensures (x + [c] + y + s)[|x| + 1..] == y + s
    ensures y == [] ==> x + [c] + y + s == x + ([c] + s)
  {
  }

  lemma {:induction false} ParseShow(p: Pat)
    requires PlainPat(p) && NoBad(p)
    ensures ParsePat(ShowPat(p)) == p
  {
    var e := ShowPat(p);
    match p
    case Nil =>
    case Ch(c, rest) => ParseShow(rest); assert e[1..] == ShowPat(rest);
    case Star(rest) => ParseShow(rest); assert e[1..] == ShowPat(rest);
    case Br(alts, rest) =>
      ParseShow(rest);
      ParseShowAlts(alts, ShowPat(rest));
      Cons('{', ShowAlts(alts), ShowPat(rest), "");
      assert e + "" == e && ShowPat(rest) + "" == ShowPat(rest);
  }

  lemma TakeSplit(e: string, n: nat, m: nat)
    requires n + m <= |e|
    ensures e[..n + m] == e[..n] + e[n..][..m]
  {
  }

  lemma {:induction false} ShowParseElem(e: string)
    requires ParseElem(e).Got?
    ensures PlainElem(ParseElem(e).node) && ShowElem(ParseElem(e).node) == e[..ParseElem(e).len]
    decreases |e|, 1
  {
    if e[0] == '{' {
      ShowParseGroup(e);
    } else if e[0] == ',' || e[0] == '}' {
      assert e[..0] == "";
    } else {
      var t := e[1..];
      ShowParseElem(t);
      assert e[..1 + ParseElem(t).len] == [e[0]] + t[..ParseElem(t).len];
    }
  }

  lemma {:induction false} ShowParseGroup(e: string)
    requires ParseElem(e).Got? && e[0] == '{'
    ensures PlainElem(ParseElem(e).node) && ShowElem(ParseElem(e).node) == e[..ParseElem(e).len]
    decreases |e|, 0
  {
    hide ParseElem, ParseAlts, ShowAlts, PlainAlts;
    ParseOpen(e);
    var n := ParseAlts(e[1..]).len;
    ShowParseAlts(e[1..]);
    ShowParseElem(e[1 + n..]);
    TakeThree(e, n, ParseElem(e[1 + n..]).len);
  }

  lemma TakeThree(e: string, n: nat, m: nat)
    requires 1 + n + m <= |e|
    ensures e[..1 + n + m] == [e[0]] + e[1..][..n] + e[1 + n..][..m]
  {
  }

  lemma {:induction false} ShowParseAlts(e: string)
    requires ParseAlts(e).Got?
    ensures PlainAlts(ParseAlts(e).node) && ShowAlts(ParseAlts(e).node) == e[..ParseAlts(e).len]
    decreases |e|, 2
  {
    ShowParseElem(e);
    var n := ParseElem(e).len;
    TakeSplit(e, n, 1);
    assert e[n..][..1] == [e[n]];
    if e[n] == ',' {
      ShowParseAlts(e[n + 1..]);
      TakeSplit(e, n + 1, ParseAlts(e[n + 1..]).len);
    }
  }

  lemma SplitGroup(e: string, n: nat)
    requires 1 + n <= |e|
    ensures e == [e[0]] + e[1..][..n] + e[1 + n..]
  {
  }

  lemma {:induction false} ShowParse(e: string)
    ensures PlainPat(ParsePat(e)) && (NoBad(ParsePat(e)) ==> ShowPat(ParsePat(e)) == e)
    decreases |e|
  {
    hide ParseAlts, ParseElem, ShowAlts, PlainAlts;
    if e == [] {
    } else if e[0] == '{' {
      if ParseAlts(e[1..]).Got? {
        var n := ParseAlts(e[1..]).len;
        ShowParseAlts(e[1..]);
        ShowParse(e[1 + n..]);
        SplitGroup(e, n);
      }
    } else {
      ShowParse(e[1..]);
      assert e == [e[0]] + e[1..];
    }
  }

  // A text without open groups is read as the one plain tree that prints as it.
  lemma ParseExact(e: string, p: Pat)
    requires PlainPat(p) && NoBad(p)
    ensures ParsePat(e) == p <==> ShowPat(p) == e
  {
    ShowParse(e);
    ParseShow(p);
  }
}
