/** Python's `split` and `join` on strings. */
module Strings {

  /** `s.split(c)` for a one-character separator: never empty, and "a" splits to ["a"]. */
  function Split(s: string, c: char): (parts: seq<string>)
    ensures |parts| >= 1
    ensures |parts| == 1 <==> c !in s
  {
    if s == "" then [""]
    else
      assert s == [s[0]] + s[1..];
      var rest := Split(s[1..], c);
      if s[0] == c then [""] + rest else [[s[0]] + rest[0]] + rest[1..]
  }

  /** `sep.join(parts)`. */
  function Join(parts: seq<string>, c: char): string {
    if parts == [] then ""
    else if |parts| == 1 then parts[0]
    else parts[0] + [c] + Join(parts[1..], c)
  }

  lemma JoinCons(p: string, rest: seq<string>, c: char)
    requires rest != []
    ensures Join([p] + rest, c) == p + [c] + Join(rest, c)
  {
    assert ([p] + rest)[1..] == rest;
  }

  lemma JoinExtendFirst(x: char, rest: seq<string>, c: char)
    requires rest != []
    ensures Join([[x] + rest[0]] + rest[1..], c) == [x] + Join(rest, c)
  {
    if |rest| > 1 {
      JoinCons([x] + rest[0], rest[1..], c);
      assert rest == [rest[0]] + rest[1..];
      JoinCons(rest[0], rest[1..], c);
    }
  }

  /** Joining the parts of a split gives the string back. */
  lemma {:induction false} JoinSplit(s: string, c: char)
    ensures Join(Split(s, c), c) == s
  {
    if s != "" {
      JoinSplit(s[1..], c);
      assert s == [s[0]] + s[1..];
      if s[0] == c {
        JoinCons("", Split(s[1..], c), c);
      } else {
        JoinExtendFirst(s[0], Split(s[1..], c), c);
      }
    }
  }

  lemma {:induction false} SplitAppend(a: string, c: char, s: string)
    requires c !in a
    ensures Split(a + [c] + s, c) == [a] + Split(s, c)
  {
    if a == "" {
      assert "" + [c] + s == [c] + s;
      assert ([c] + s)[1..] == s;
    } else {
      SplitAppend(a[1..], c, s);
      assert a == [a[0]] + a[1..];
      assert (a + [c] + s)[1..] == a[1..] + [c] + s;
      assert ([a[1..]] + Split(s, c))[1..] == Split(s, c);
    }
  }

  /** A split of `a + c + s` has two parts exactly when neither side contains the separator. */
  lemma SplitPairExactly(a: string, c: char, s: string)
    ensures Split(a + [c] + s, c) == [a, s] <==> c !in a && c !in s
  {
    if Split(a + [c] + s, c) == [a, s] {
      PartsHaveNoSeparator(a + [c] + s, c);
      assert [a, s][0] == a && [a, s][1] == s;
    }
    if c !in a && c !in s {
      SplitAppend(a, c, s);
      NoSeparator(s, c);
    }
  }

  /** Text before and after the first separator is determined by the whole. */
  lemma FirstSeparator(d1: string, l1: string, d2: string, l2: string, c: char)
    requires d1 + [c] + l1 == d2 + [c] + l2
    requires c !in d1 && c !in d2
    ensures d1 == d2 && l1 == l2
  {
    var s := d1 + [c] + l1;
    assert s[|d1|] == c && s[|d2|] == c;
    assert |d1| == |d2|;
    assert d1 == s[..|d1|] && l1 == s[|d1| + 1..];
  }

  lemma {:induction false} NoSeparator(s: string, c: char)
    requires c !in s || Split(s, c) == [s]
    ensures c !in s && Split(s, c) == [s]
  {
    if s != "" && c !in s {
      assert s == [s[0]] + s[1..];
      NoSeparator(s[1..], c);
    }
  }

  lemma {:induction false} PartsHaveNoSeparator(s: string, c: char)
    ensures forall i | 0 <= i < |Split(s, c)| :: c !in Split(s, c)[i]
  {
    if s != "" { PartsHaveNoSeparator(s[1..], c); }
  }

  /** White space, in ASCII. */
  predicate Space(c: char) { c == ' ' || '\t' <= c <= '\r' || '\U{1C}' <= c <= '\U{1F}' }

  /** `s.split()`: the maximal runs of non-space characters. */
  function Words(s: string): (ws: seq<string>)
    ensures forall i | 0 <= i < |ws| :: ws[i] != ""
  {
    WordsFrom("", s)
  }

  /** The words of `cur + s`, where `cur` is the word being read. */
  function WordsFrom(cur: string, s: string): (ws: seq<string>)
    ensures forall i | 0 <= i < |ws| :: ws[i] != ""
    decreases s
  {
    if s == "" then (if cur == "" then [] else [cur])
    else if Space(s[0]) then (if cur == "" then [] else [cur]) + WordsFrom("", s[1..])
    else WordsFrom(cur + [s[0]], s[1..])
  }

  predicate Blank(s: string) { forall c | c in s :: Space(c) }

  predicate Solid(s: string) { s != "" && forall c | c in s :: !Space(c) }

  lemma {:induction false} WordsOfBlank(s: string)
    requires Blank(s)
    ensures Words(s) == []
  {
    if s != "" {
      WordsOfBlank(s[1..]);
      assert s == [s[0]] + s[1..];
    }
  }

  /** The first word is what is between the space in front and the next space, or the end; the other words
      are those of the rest. */
  lemma WordsFirst(gap: string, word: string, rest: string)
    requires Blank(gap) && Solid(word) && (rest == "" || Space(rest[0]))
    ensures Words(gap + word + rest) == [word] + Words(rest)
  {
    SkipGap(gap, word + rest);
    assert gap + (word + rest) == gap + word + rest;
    ReadWord("", word, rest);
    assert "" + word == word;
    if rest == "" { assert [word] + [] == [word]; } else { assert "" + [rest[0]] + rest[1..] == rest; }
  }

  lemma {:induction false} SkipGap(gap: string, s: string)
    requires Blank(gap)
    ensures Words(gap + s) == Words(s)
  {
    if gap == "" {
      assert gap + s == s;
    } else {
      assert gap == [gap[0]] + gap[1..] && (gap + s)[1..] == gap[1..] + s;
      SkipGap(gap[1..], s);
      assert [] + Words(s) == Words(s);
    }
  }

  lemma {:induction false} ReadWord(cur: string, word: string, rest: string)
    requires (word != "" ==> Solid(word)) && (rest == "" || Space(rest[0]))
    ensures WordsFrom(cur, word + rest) == WordsFrom(cur + word, rest)
    decreases word
  {
    if word == "" {
      assert word + rest == rest && cur + word == cur;
    } else {
      assert word == [word[0]] + word[1..] && (word + rest)[1..] == word[1..] + rest;
      ReadWord(cur + [word[0]], word[1..], rest);
      assert (cur + [word[0]]) + word[1..] == cur + word;
    }
  }

  /** Splitting takes words that were joined by a space apart again. */
  lemma {:induction false} WordsJoin(ws: seq<string>)
    requires forall w | w in ws :: Solid(w)
    ensures Words(Join(ws, ' ')) == ws
  {
    if ws == [] {
    } else {
      assert ws[0] in ws && ws == [ws[0]] + ws[1..];
      forall w | w in ws[1..] ensures Solid(w) { assert w in ws; }
      WordsJoin(ws[1..]);
      var rest := if |ws| == 1 then "" else [' '] + Join(ws[1..], ' ');
      assert Join(ws, ' ') == "" + ws[0] + rest;
      WordsFirst("", ws[0], rest);
      if |ws| > 1 { SkipGap([' '], Join(ws[1..], ' ')); }
    }
  }
}
