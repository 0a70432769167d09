// ParsedCommand::flags: one flag with its quoted values, as a fragment of a command line.
module CommandFlags {
  import opened Options
  import opened ShellWords
  import opened ShellQuoting

  // str::join.
  function Join<T>(sep: seq<T>, words: seq<seq<T>>): seq<T>
  {
    if words == [] then [] else if |words| == 1 then words[0] else words[0] + sep + Join(sep, words[1..])
  }

  function QuotedAll(values: seq<string>): (r: seq<string>)
    ensures |r| == |values| && forall i :: 0 <= i < |r| ==> r[i] == Quoted(values[i])
  {
    seq(|values|, i requires 0 <= i < |values| => Quoted(values[i]))
  }

  function FlagsText(flag: string, values: seq<string>, sep: string): string
  {
    if values == [] then flag
    else if |values| == 1 then flag + " " + Quoted(values[0])
    else if sep == [] then flag + " " + Join(" " + flag + " ", QuotedAll(values))
    else flag + " " + Join(sep, QuotedAll(values))
  }

  // ---------- The words meant ----------

  // "-k v -k v", "-k v v v" or "-k v,v,v".
  function Intended(flag: string, values: seq<string>, sep: string): seq<string>
  {
    if values == [] then [flag]
    else if sep == [] then Alternating(flag, values)
    else if AllBlank(sep) then [flag] + values
    else [flag, Join(sep, values)]
  }

  function Alternating<T>(flag: T, values: seq<T>): seq<T>
  {
    if values == [] then [] else [flag, values[0]] + Alternating(flag, values[1..])
  }

  function Values(values: seq<string>): (r: seq<Word>)
    ensures |r| == |values| && forall i :: 0 <= i < |r| ==> r[i] == Value(values[i])
  {
    seq(|values|, i requires 0 <= i < |values| => Value(values[i]))
  }

  // The same words, the characters of the flag and of a separator bare, all those of values quoted.
  function IntendedWords(flag: string, values: seq<string>, sep: string): seq<Word>
  {
    var bare := Marked(flag, Bare);
    if values == [] then [bare]
    else if sep == [] then Alternating(bare, Values(values))
    else if AllBlank(sep) then [bare] + Values(values)
    else [bare, Join(Marked(sep, Bare), Values(values))]
  }

  lemma TextMarked(s: string, how: Quoting)
    ensures Text(Marked(s, how)) == s && Text(Value(s)) == s
  {
  }

  lemma TextValues(values: seq<string>)
    ensures Texts(Values(values)) == values
  {
    forall i | 0 <= i < |values|
      ensures Texts(Values(values))[i] == values[i]
    {
      TextMarked(values[i], Bare);
    }
  }

  lemma {:induction false} TextAlternating(flag: string, values: seq<string>)
    ensures Texts(Alternating(Marked(flag, Bare), Values(values))) == Alternating(flag, values)
    decreases |values|
  {
    if values != [] {
      ValuesTail(values);
      TextAlternating(flag, values[1..]);
      TextMarked(flag, Bare);
      TextMarked(values[0], Bare);
      var first, more := [Marked(flag, Bare), Value(values[0])], Alternating(Marked(flag, Bare), Values(values[1..]));
      assert Texts(first + more) == Texts(first) + Texts(more) && Texts(first) == [flag, values[0]];
    }
  }

  lemma {:induction false} TextJoined(sep: string, values: seq<string>)
    ensures Text(Join(Marked(sep, Bare), Values(values))) == Join(sep, values)
    decreases |values|
  {
    if |values| > 1 {
      var x, y, z := Value(values[0]), Marked(sep, Bare), Join(Marked(sep, Bare), Values(values[1..]));
      ValuesTail(values);
      TextJoined(sep, values[1..]);
      TextMarked(sep, Bare);
      TextMarked(values[0], Bare);
      assert Text(x + y + z) == Text(x) + Text(y) + Text(z);
    } else if |values| == 1 {
      TextMarked(values[0], Bare);
    }
  }

  // The marked words spell the words meant.
  lemma IntendedTexts(flag: string, values: seq<string>, sep: string)
    ensures Texts(IntendedWords(flag, values, sep)) == Intended(flag, values, sep)
  {
    hide Join, Alternating;
    TextMarked(flag, Bare);
    TextValues(values);
    TextAlternating(flag, values);
    TextJoined(sep, values);
    var bare := Marked(flag, Bare);
    assert Texts([bare]) == [flag] && Texts([bare] + Values(values)) == [flag] + values;
    assert Texts([bare, Join(Marked(sep, Bare), Values(values))]) == [flag, Join(sep, values)];
  }

  predicate AllInDomain(values: seq<string>) { forall i :: 0 <= i < |values| ==> InDomain(values[i]) }

  lemma QuotedTail(values: seq<string>)
    requires values != []
    ensures QuotedAll(values)[0] == Quoted(values[0]) && QuotedAll(values)[1..] == QuotedAll(values[1..])
    ensures AllInDomain(values) <==> InDomain(values[0]) && AllInDomain(values[1..])
  {
    assert values == [values[0]] + values[1..];
    assert forall i :: 1 <= i < |values| ==> values[i] == values[1..][i - 1];
  }

  lemma ValuesTail(values: seq<string>)
    requires values != []
    ensures Values(values)[0] == Value(values[0]) && Values(values)[1..] == Values(values[1..])
    ensures Values(values) == [Value(values[0])] + Values(values[1..])
  {
  }

  // ---------- Readings, right or wrong ----------

  // A first word that does not begin like the first one meant.
  lemma ReadsWrong(ws: Option<seq<Word>>, meant: seq<Word>, w: string)
    requires Misses(ws, w) && meant != [] && w <= Text(meant[0])
    ensures Reads(ws, meant, false)
  {
    assert Texts(meant)[0] == Text(meant[0]);
    if ws.Some? { assert Texts(ws.value)[0] == Text(ws.value[0]); }
  }

  // A quoted value at the start of a word, in front of t.
  lemma ValueRead(v: string, t: string)
    requires Calm(t)
    ensures InDomain(v) ==> Lex(Between, [], Quoted(v) + t) == Lex(InWord, Value(v), t)
    ensures !InDomain(v) ==> Misses(Lex(Between, [], Quoted(v) + t), v)
  {
    hide InDomain, Body;
    QuotedRead([], v, t);
    assert [] + Value(v) == Value(v) && Text([]) + v == v;
    assert Lex(Between, [], Quoted(v) + t) == Lex(InWord, [], Quoted(v) + t);
  }

  // The first value, and then the others as more.
  lemma ValueThenWords(v: string, t: string, rest: string, more: seq<Word>, good: bool)
    requires t != [] && Blank(t[0]) && Lex(Between, [], t[1..]) == Lex(Between, [], rest)
    requires Reads(Lex(Between, [], rest), more, good)
    ensures Reads(Lex(Between, [], Quoted(v) + t), [Value(v)] + more, InDomain(v) && good)
  {
    ValueRead(v, t);
    assert Lex(InWord, Value(v), t) == Cons(Value(v), Lex(Between, [], t[1..]));
    hide Lex, InDomain, Quoted, Misses;
    ReadsCons(Value(v), Lex(Between, [], rest), more, good);
    TextMarked(v, Bare);
    if !InDomain(v) { ReadsWrong(Lex(Between, [], Quoted(v) + t), [Value(v)] + more, v); }
  }

  lemma LastValue(v: string)
    ensures Reads(Lex(Between, [], Quoted(v)), [Value(v)], InDomain(v))
  {
    ValueRead(v, []);
    assert Quoted(v) + [] == Quoted(v) && Lex(InWord, Value(v), []) == Some([Value(v)]);
    hide Lex, InDomain, Quoted, Misses;
    TextMarked(v, Bare);
    if !InDomain(v) { ReadsWrong(Lex(Between, [], Quoted(v)), [Value(v)], v); }
  }

  // ---------- Values as separate words ----------

  lemma {:induction false} SpacedExact(sep: string, values: seq<string>)
    requires values != [] && sep != [] && AllBlank(sep)
    ensures Reads(Lex(Between, [], Join(sep, QuotedAll(values))), Values(values), AllInDomain(values))
    decreases |values|
  {
    hide InDomain, Quoted, Lex, Reads, AllInDomain, Value;
    var v, more := values[0], values[1..];
    QuotedTail(values);
    ValuesTail(values);
    if more == [] {
      LastValue(v);
      assert Values(values) == [Value(v)] && AllInDomain(more) by { NoneOutside(); }
    } else {
      var rest := Join(sep, QuotedAll(more));
      var t := sep + rest;
      assert Join(sep, QuotedAll(values)) == Quoted(v) + t;
      assert t[0] == sep[0] && t[1..] == sep[1..] + rest;
      LexBlanks(sep[1..], rest);
      SpacedExact(sep, more);
      ValueThenWords(v, t, rest, Values(more), AllInDomain(more));
    }
  }

  lemma NoneOutside()
    ensures AllInDomain([])
  {
  }

  // ---------- Values after a flag each ----------

  lemma {:induction false} RepeatedExact(flag: string, values: seq<string>)
    requires values != [] && flag != [] && AllPlain(flag)
    ensures var text := flag + " " + Join(" " + flag + " ", QuotedAll(values));
            Reads(Lex(Between, [], text), Alternating(Marked(flag, Bare), Values(values)), AllInDomain(values))
    decreases |values|
  {
    hide InDomain, Quoted, Lex, Reads, AllInDomain, Value;
    var v, more := values[0], values[1..];
    var bare, sep := Marked(flag, Bare), " " + flag + " ";
    var all := Join(sep, QuotedAll(values));
    QuotedTail(values);
    ValuesTail(values);
    var others := Alternating(bare, Values(more));
    assert Alternating(bare, Values(values)) == [bare] + ([Value(v)] + others);
    if more == [] {
      LastValue(v);
      NoneOutside();
      assert all == Quoted(v) && [Value(v)] + others == [Value(v)];
    } else {
      var rest := flag + " " + Join(sep, QuotedAll(more));
      var t := " " + rest;
      assert all == Quoted(v) + t && t[1..] == rest;
      RepeatedExact(flag, more);
      ValueThenWords(v, t, rest, others, AllInDomain(more));
    }
    FlagThen(flag, all, [Value(v)] + others, AllInDomain(values));
  }

  lemma FlagThen(flag: string, text: string, words: seq<Word>, good: bool)
    requires flag != [] && AllPlain(flag) && Reads(Lex(Between, [], text), words, good)
    ensures Reads(Lex(Between, [], flag + " " + text), [Marked(flag, Bare)] + words, good)
  {
    PlainThenBlank(flag, " " + text);
    assert flag + " " + text == flag + (" " + text) && (" " + text)[1..] == text;
    assert Lex(Between, [], " " + text) == Lex(Between, [], text);
    hide Lex, Reads;
    ReadsCons(Marked(flag, Bare), Lex(Between, [], text), words, good);
  }

  // ---------- Values joined in one word ----------

  lemma JoinCons<T>(sep: seq<T>, words: seq<seq<T>>)
    requires |words| > 1
    ensures Join(sep, words) == words[0] + (sep + Join(sep, words[1..]))
  {
  }

  lemma {:induction false} JoinedExact(cur: Word, sep: string, values: seq<string>)
    requires values != [] && sep != [] && AllPlain(sep)
    ensures Reads(Lex(InWord, cur, Join(sep, QuotedAll(values))), [cur + Join(Marked(sep, Bare), Values(values))],
                  AllInDomain(values))
    decreases |values|
  {
    hide InDomain, Quoted, Lex, Misses, AllInDomain, Reads, Value;
    var v, more := values[0], values[1..];
    QuotedTail(values);
    ValuesTail(values);
    if more == [] {
      JoinedLast(cur, v);
      NoneOutside();
      assert QuotedAll(values) == [Quoted(v)] && Values(values) == [Value(v)];
    } else {
      var next, bare := cur + Value(v) + Marked(sep, Bare), Marked(sep, Bare);
      JoinedExact(next, sep, more);
      hide Join;
      JoinCons(bare, Values(values));
      JoinCons(sep, QuotedAll(values));
      var tail := Join(bare, Values(more));
      JoinedNext(cur, v, sep, Join(sep, QuotedAll(more)), tail, AllInDomain(more));
      assert next + tail == cur + (Value(v) + (bare + tail));
    }
  }

  lemma JoinedLast(cur: Word, v: string)
    ensures Reads(Lex(InWord, cur, Quoted(v)), [cur + Value(v)], InDomain(v))
  {
    QuotedRead(cur, v, []);
    assert Quoted(v) + [] == Quoted(v) && Lex(InWord, cur + Value(v), []) == Some([cur + Value(v)]);
    hide Lex, InDomain, Quoted, Misses;
    TextMarked(v, Bare);
    assert Text(cur) + v == Text(cur + Value(v));
    if !InDomain(v) { ReadsWrong(Lex(InWord, cur, Quoted(v)), [cur + Value(v)], Text(cur) + v); }
  }

  // The next value, the separator and the text of the others, which is to be read as tail.
  lemma JoinedNext(cur: Word, v: string, sep: string, rest: string, tail: Word, good: bool)
    requires sep != [] && AllPlain(sep)
    requires var next := cur + Value(v) + Marked(sep, Bare); Reads(Lex(InWord, next, rest), [next + tail], good)
    ensures Reads(Lex(InWord, cur, Quoted(v) + (sep + rest)), [cur + Value(v) + Marked(sep, Bare) + tail],
                  InDomain(v) && good)
  {
    hide InDomain, Quoted, Lex, Misses, Value;
    var t := sep + rest;
    assert t[0] == sep[0];
    QuotedRead(cur, v, t);
    LexPlain(cur + Value(v), sep, rest);
    TextMarked(v, Bare);
    var whole := cur + Value(v) + Marked(sep, Bare) + tail;
    assert Text(cur) + v <= Text(whole);
    if !InDomain(v) { ReadsWrong(Lex(InWord, cur, Quoted(v) + t), [whole], Text(cur) + v); }
  }

  lemma JoinedWord(sep: string, values: seq<string>)
    requires values != [] && sep != [] && AllPlain(sep)
    ensures Reads(Lex(Between, [], Join(sep, QuotedAll(values))), [Join(Marked(sep, Bare), Values(values))],
                  AllInDomain(values))
  {
    hide InDomain, AllInDomain, Body, Reads;
    JoinedExact([], sep, values);
    QuotedTail(values);
    var word := Join(Marked(sep, Bare), Values(values));
    assert [] + word == word;
    var text := Join(sep, QuotedAll(values));
    assert text != [] && text[0] == Quoted(values[0])[0];
    WordBegins(text);
  }

  lemma WordBegins(text: string)
    requires text != [] && (text[0] == '\'' || text[0] == '"')
    ensures Lex(Between, [], text) == Lex(InWord, [], text)
  {
  }

  // ---------- The whole fragment ----------

  // A flag of plain characters, and a separator that leaves the values apart or joins them.
  predicate Readable(flag: string, sep: string)
  {
    flag != [] && AllPlain(flag) && (AllBlank(sep) || AllPlain(sep))
  }

  // If every value is in the quoting domain the shell reads the intended words, with every character
  // of a value quoted and no other; if not, it reads other words, or none.
  lemma FlagsRead(flag: string, values: seq<string>, sep: string)
    requires Readable(flag, sep)
    ensures Reads(LexWords(FlagsText(flag, values, sep)), IntendedWords(flag, values, sep), AllInDomain(values))
    ensures Texts(IntendedWords(flag, values, sep)) == Intended(flag, values, sep)
  {
    IntendedTexts(flag, values, sep);
    hide InDomain, Quoted, Lex, Reads, AllInDomain, Intended;
    if values == [] {
      FlagAlone(flag);
      NoneOutside();
    } else {
      SingleValue(flag, values, sep);
      if sep == [] {
        RepeatedExact(flag, values);
      } else if AllBlank(sep) {
        SpacedExact(sep, values);
        FlagThen(flag, Join(sep, QuotedAll(values)), Values(values), AllInDomain(values));
      } else {
        JoinedWord(sep, values);
        var word := Join(Marked(sep, Bare), Values(values));
        FlagThen(flag, Join(sep, QuotedAll(values)), [word], AllInDomain(values));
        assert [Marked(flag, Bare)] + [word] == [Marked(flag, Bare), word];
      }
    }
  }

  lemma FlagAlone(flag: string)
    requires flag != [] && AllPlain(flag)
    ensures Reads(LexWords(flag), [Marked(flag, Bare)], true)
  {
    LexPlain([], flag, []);
    assert flag + [] == flag && [] + Marked(flag, Bare) == Marked(flag, Bare);
    assert LexWords(flag) == Lex(InWord, [], flag);
  }

  lemma SingleValue(flag: string, values: seq<string>, sep: string)
    requires values != []
    ensures FlagsText(flag, values, sep)
            == flag + " " + Join(if sep == [] then " " + flag + " " else sep, QuotedAll(values))
  {
  }

  lemma FlagsExact(flag: string, values: seq<string>, sep: string)
    requires Readable(flag, sep)
    ensures LexWords(FlagsText(flag, values, sep)) == Some(IntendedWords(flag, values, sep)) <==> AllInDomain(values)
  {
    hide Lex, FlagsText, IntendedWords, AllInDomain;
    FlagsRead(flag, values, sep);
  }

  method Flags(prefix: string, key: string, values: seq<string>, multitokenSep: string) returns (r: string)
    ensures r == FlagsText(prefix + key, values, multitokenSep)
    ensures Readable(prefix + key, multitokenSep) ==>
              Reads(LexWords(r), IntendedWords(prefix + key, values, multitokenSep), AllInDomain(values))
  {
    var flag := prefix + key;
    if Readable(flag, multitokenSep) {
      FlagsRead(flag, values, multitokenSep);
    }
    if values == [] { return flag; }
    var items := values;
    var i := 0;
    while i < |items|
      invariant 0 <= i <= |items| == |values|
      invariant forall k :: 0 <= k < i ==> items[k] == Quoted(values[k])
      invariant forall k :: i <= k < |items| ==> items[k] == values[k]
    {
      var item := InverseEscapeString(items[i]);
      items := items[i := item];
      i := i + 1;
    }
    assert items == QuotedAll(values);
    if |items| == 1 { return flag + " " + items[0]; }
    if multitokenSep == [] { return flag + " " + Join(" " + flag + " ", items); }
    return flag + " " + Join(multitokenSep, items);
  }
}
