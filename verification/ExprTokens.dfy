/** Splitting the text of an expression into tokens at white space. */
module ExprTokens {

  predicate IsSpace(c: char) {
    c == ' ' || ('\t' <= c <= '\r')
  }

  predicate AllSpace(s: string) {
    forall i | 0 <= i < |s| :: IsSpace(s[i])
  }

  // A token: not empty, and without white space.
  predicate IsWord(s: string) {
    |s| > 0 && NoSpace(s)
  }

  predicate NoSpace(s: string) {
    forall i | 0 <= i < |s| :: !IsSpace(s[i])
  }

  // How long the word at the start of a text is.
  function WordLength(s: string): (n: nat)
    ensures n <= |s| && NoSpace(s[..n]) && (n < |s| ==> IsSpace(s[n]))
  {
    if s == "" || IsSpace(s[0]) then 0
    else
      var n := WordLength(s[1..]);
      assert s[..n + 1] == [s[0]] + s[1..][..n];
      n + 1
  }

  // The words of a text.
  function Words(s: string): (r: seq<string>)
    ensures forall w <- r :: IsWord(w)
    decreases |s|
  {
    if s == "" then []
    else if IsSpace(s[0]) then Words(s[1..])
    else
      var n := WordLength(s);
      [s[..n]] + Words(s[n..])
  }

  lemma {:induction false} WordLengthIs(word: string, rest: string)
    requires NoSpace(word) && (rest != "" ==> IsSpace(rest[0]))
    ensures WordLength(word + rest) == |word|
  {
    if word == "" {
      assert word + rest == rest;
    } else {
      assert (word + rest)[0] == word[0] && (word + rest)[1..] == word[1..] + rest;
      WordLengthIs(word[1..], rest);
    }
  }

  // A word and what follows it.
  lemma WordFirst(word: string, rest: string)
    requires IsWord(word) && (rest != "" ==> IsSpace(rest[0]))
    ensures Words(word + rest) == [word] + Words(rest)
  {
    var s := word + rest;
    WordLengthIs(word, rest);
    assert s[0] == word[0];
    assert s[..|word|] == word && s[|word|..] == rest;
  }

  // Under way: the tokens so far are the words before `prev`, and no white space stands between `prev` and `it`.
  predicate Cut(expr: string, tokens: seq<string>, prev: nat, it: nat) {
    prev <= it <= |expr| && NoSpace(expr[prev..it]) && tokens + Words(expr[prev..]) == Words(expr)
  }

  /** The tokens are the words of the text: one walk, cutting at every white space. */
  method Tokenize(expr: string) returns (tokens: seq<string>)
    ensures tokens == Words(expr)
  {
    tokens := [];
    var it, prev := 0, 0;
    CutStart(expr);
    while it < |expr|
      invariant 0 <= it <= |expr| && 0 <= prev && Cut(expr, tokens, prev, it)
    {
      if IsSpace(expr[it]) {
        CutAtSpace(expr, tokens, prev, it);
        if it != prev {
          tokens := tokens + [expr[prev..it]];
        }
        prev := it + 1;
      } else {
        CutInWord(expr, tokens, prev, it);
      }
      it := it + 1;
    }
    assert it == |expr|;
    CutEnd(expr, tokens, prev);
    if prev != |expr| {
      tokens := tokens + [expr[prev..]];
    }
  }

  lemma CutStart(expr: string)
    ensures Cut(expr, [], 0, 0)
  {
    assert expr[0..] == expr;
  }

  lemma CutAtSpace(expr: string, tokens: seq<string>, prev: nat, it: nat)
    requires Cut(expr, tokens, prev, it) && it < |expr| && IsSpace(expr[it])
    ensures Cut(expr, if it == prev then tokens else tokens + [expr[prev..it]], it + 1, it + 1)
  {
    AtSpace(expr, prev, it);
  }

  lemma CutInWord(expr: string, tokens: seq<string>, prev: nat, it: nat)
    requires Cut(expr, tokens, prev, it) && it < |expr| && !IsSpace(expr[it])
    ensures Cut(expr, tokens, prev, it + 1)
  {
    assert expr[prev..it + 1] == expr[prev..it] + [expr[it]];
  }

  lemma CutEnd(expr: string, tokens: seq<string>, prev: nat)
    requires Cut(expr, tokens, prev, |expr|)
    ensures Words(expr) == if prev == |expr| then tokens else tokens + [expr[prev..]]
  {
    assert expr[prev..] == expr[prev..|expr|];
    if prev != |expr| { LastWord(expr[prev..]); }
  }

  lemma LastWord(word: string)
    requires IsWord(word)
    ensures Words(word) == [word]
  {
    WordFirst(word, "");
    assert word + "" == word && Words("") == [];
  }

  lemma AtSpace(expr: string, prev: nat, it: nat)
    requires prev <= it < |expr| && NoSpace(expr[prev..it]) && IsSpace(expr[it])
    ensures Words(expr[prev..]) == (if it == prev then [] else [expr[prev..it]]) + Words(expr[it + 1..])
  {
    assert expr[it..][0] == expr[it] && expr[it..][1..] == expr[it + 1..];
    if prev < it {
      assert expr[prev..] == expr[prev..it] + expr[it..];
      WordFirst(expr[prev..it], expr[it..]);
    }
  }

  // Words with white space between them, and perhaps around them.
  function Spaced(words: seq<string>, gaps: seq<string>): string
    requires |gaps| == |words| + 1
  {
    if words == [] then gaps[0] else gaps[0] + words[0] + Spaced(words[1..], gaps[1..])
  }

  predicate AreGaps(gaps: seq<string>) {
    && (forall i | 0 <= i < |gaps| :: AllSpace(gaps[i]))
    && (forall i | 0 < i < |gaps| - 1 :: gaps[i] != "")
  }

  lemma {:induction false} SkipSpace(gap: string, rest: string)
    requires AllSpace(gap)
    ensures Words(gap + rest) == Words(rest)
  {
    if gap == "" {
      assert gap + rest == rest;
    } else {
      assert (gap + rest)[0] == gap[0] && (gap + rest)[1..] == gap[1..] + rest;
      SkipSpace(gap[1..], rest);
    }
  }

  lemma SpacedStart(words: seq<string>, gaps: seq<string>)
    requires |gaps| == |words| + 1 && AllSpace(gaps[0]) && (words != [] ==> gaps[0] != "")
    ensures Spaced(words, gaps) != "" ==> IsSpace(Spaced(words, gaps)[0])
  {
  }

  /** Writing words with white space between them and splitting the text gives the words back. */
  lemma {:induction false} WordsOfSpaced(words: seq<string>, gaps: seq<string>)
    requires |gaps| == |words| + 1 && AreGaps(gaps) && forall w <- words :: IsWord(w)
    ensures Words(Spaced(words, gaps)) == words
  {
    if words == [] {
      SkipSpace(gaps[0], "");
      assert gaps[0] + "" == gaps[0];
    } else {
      var rest := Spaced(words[1..], gaps[1..]);
      assert words[0] in words && forall w <- words[1..] :: w in words;
      WordsOfSpaced(words[1..], gaps[1..]);
      SpacedStart(words[1..], gaps[1..]);
      assert Spaced(words, gaps) == gaps[0] + (words[0] + rest);
      SkipSpace(gaps[0], words[0] + rest);
      WordFirst(words[0], rest);
    }
  }

  lemma LongerGap(words: seq<string>, gaps: seq<string>, c: char)
    requires |gaps| == |words| + 1 && AreGaps(gaps) && IsSpace(c)
    ensures var more := gaps[0 := [c] + gaps[0]];
            AreGaps(more) && Spaced(words, more) == [c] + Spaced(words, gaps)
  {
    var more := gaps[0 := [c] + gaps[0]];
    assert more[1..] == gaps[1..];
    if words != [] {
      assert ([c] + gaps[0]) + words[0] + Spaced(words[1..], gaps[1..]) ==
             [c] + (gaps[0] + words[0] + Spaced(words[1..], gaps[1..]));
    }
  }

  lemma OneMoreWord(word: string, words: seq<string>, gaps: seq<string>)
    requires |gaps| == |words| + 1 && AreGaps(gaps) && (words != [] ==> gaps[0] != "")
    ensures AreGaps([""] + gaps) && Spaced([word] + words, [""] + gaps) == word + Spaced(words, gaps)
  {
    assert ([""] + gaps)[1..] == gaps && ([word] + words)[1..] == words;
    assert "" + word + Spaced(words, gaps) == word + Spaced(words, gaps);
  }

  /** Every text is its words with white space between them. */
  lemma {:induction false} TextIsSpaced(s: string) returns (gaps: seq<string>)
    ensures |gaps| == |Words(s)| + 1 && AreGaps(gaps) && Spaced(Words(s), gaps) == s
    ensures s != "" && IsSpace(s[0]) ==> gaps[0] != ""
    decreases |s|
  {
    if s == "" {
      gaps := [""];
    } else if IsSpace(s[0]) {
      var rest := TextIsSpaced(s[1..]);
      LongerGap(Words(s[1..]), rest, s[0]);
      gaps := rest[0 := [s[0]] + rest[0]];
    } else {
      var n := WordLength(s);
      var rest := TextIsSpaced(s[n..]);
      OneMoreWord(s[..n], Words(s[n..]), rest);
      gaps := [""] + rest;
    }
  }
}
