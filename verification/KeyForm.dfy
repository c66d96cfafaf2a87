/** The form of a cache key: the words of the text in capitals, one space between them, without closing semicolons. */
module KeyForm {
  import opened Lexer
  import opened Spellings
  import opened LruCache
  import opened CacheKeys

  predicate Solid(w: string) { w != "" && forall i :: 0 <= i < |w| ==> !IsSpace(w[i]) }

  // Words, each with the white space behind it; only the last word may have none.
  predicate SpreadOk(words: seq<string>, gaps: seq<string>) {
    && |gaps| == |words|
    && forall i :: 0 <= i < |words| ==> Solid(words[i]) && Blank(gaps[i]) && (i + 1 < |words| ==> gaps[i] != "")
  }

  function Spread(words: seq<string>, gaps: seq<string>): string
    requires |gaps| == |words|
  {
    if words == [] then "" else words[0] + gaps[0] + Spread(words[1..], gaps[1..])
  }

  function Spaced(words: seq<string>): string {
    if words == [] then "" else UpperAll(words[0]) + (if |words| == 1 then "" else " " + Spaced(words[1..]))
  }

  function Closing(k: nat): string { seq(k, i => ';') }

  // ---- Words and gaps ----

  lemma {:induction false} SqWord(w: string, rest: string, skip: bool)
    requires Solid(w)
    ensures Sq(w + rest, skip) == UpperAll(w) + Sq(rest, false)
  {
    var all := w + rest;
    assert all[0] == w[0] && all[1..] == w[1..] + rest;
    assert UpperAll(w) == [ToUpper(w[0])] + UpperAll(w[1..]);
    if |w| == 1 {
      assert w[1..] + rest == rest;
    } else {
      SqWord(w[1..], rest, false);
    }
  }

  lemma {:induction false} SqGap(g: string, rest: string)
    requires Blank(g)
    ensures Sq(g + rest, true) == Sq(rest, true)
    ensures g != "" ==> Sq(g + rest, false) == " " + Sq(rest, true)
  {
    if g == "" {
      assert g + rest == rest;
    } else {
      assert (g + rest)[0] == g[0] && (g + rest)[1..] == g[1..] + rest;
      SqGap(g[1..], rest);
    }
  }

  lemma SpreadRest(words: seq<string>, gaps: seq<string>)
    requires words != [] && SpreadOk(words, gaps)
    ensures SpreadOk(words[1..], gaps[1..]) && Solid(words[0]) && Blank(gaps[0]) && (|words| > 1 ==> gaps[0] != "")
  {
    hide Solid, Blank;
    forall i | 0 <= i < |words| - 1
      ensures Solid(words[1..][i]) && Blank(gaps[1..][i]) && (i + 2 < |words| ==> gaps[1..][i] != "")
    {
      assert words[1..][i] == words[i + 1] && gaps[1..][i] == gaps[i + 1];
    }
  }

  lemma {:induction false} SqSpread(words: seq<string>, gaps: seq<string>)
    requires SpreadOk(words, gaps)
    ensures Sq(Spread(words, gaps), true) == Spaced(words) + if words == [] || gaps[|gaps| - 1] == "" then "" else " "
  {
    hide Sq, Solid, Blank, UpperAll;
    if words == [] {
      NoWords();
    } else {
      SpreadRest(words, gaps);
      var rest := Spread(words[1..], gaps[1..]);
      assert words[0] + gaps[0] + rest == words[0] + (gaps[0] + rest);
      SqWord(words[0], gaps[0] + rest, true);
      SqGap(gaps[0], rest);
      SqSpread(words[1..], gaps[1..]);
      if |words| == 1 {
        assert rest == "" && gaps[0] + rest == gaps[0];
        NoWords();
      }
    }
  }

  lemma NoWords()
    ensures Sq("", true) == "" && Sq("", false) == ""
  {
  }

  // ---- Semicolons ----

  lemma {:induction false} SemicolonsDropped(s: string) returns (k: nat)
    ensures var r := DropSemicolons(s); s == r + Closing(k) && (r == "" || r[|r| - 1] != ';')
  {
    if s != "" && s[|s| - 1] == ';' {
      k := SemicolonsDropped(s[..|s| - 1]);
      assert Closing(k + 1) == Closing(k) + [';'];
      assert s == s[..|s| - 1] + [';'];
      k := k + 1;
    } else {
      k := 0;
    }
  }

  lemma {:induction false} LastLetter(words: seq<string>)
    requires words != [] && forall i :: 0 <= i < |words| ==> Solid(words[i])
    ensures Spaced(words) != "" && Spaced(words)[|Spaced(words)| - 1] != ' '
  {
    var w := words[0];
    if |words| == 1 {
      assert Spaced(words) == UpperAll(w);
      assert UpperAll(w)[|w| - 1] == ToUpper(w[|w| - 1]);
    } else {
      LastLetter(words[1..]);
    }
  }

  // The key of every text: with its closing semicolons it is the words in capitals, one space apart.
  lemma KeyOfWords(lead: string, words: seq<string>, gaps: seq<string>) returns (k: nat)
    requires Blank(lead) && SpreadOk(words, gaps)
    ensures var key := Normalize(lead + Spread(words, gaps));
            Spaced(words) == key + Closing(k) && (key == "" || key[|key| - 1] != ';')
  {
    hide Sq, Squeeze, Spread, Spaced, DropSemicolons, Closing, Solid, Blank;
    var text := lead + Spread(words, gaps);
    SqueezeIsSq(text, "", false);
    assert "" + Sq(text, true) == Sq(text, true);
    SqGap(lead, Spread(words, gaps));
    SqSpread(words, gaps);
    if words != [] { LastLetter(words); } else { NothingSpaced(); }
    assert DropSpace(Sq(text, true)) == Spaced(words);
    k := SemicolonsDropped(Spaced(words));
  }

  lemma NothingSpaced()
    ensures Spaced([]) == ""
  {
  }

  // Every text is made of words and white space.
  lemma {:induction false} WordsOf(q: string) returns (lead: string, words: seq<string>, gaps: seq<string>)
    ensures Blank(lead) && SpreadOk(words, gaps) && q == lead + Spread(words, gaps)
    ensures q != "" && !IsSpace(q[0]) ==> lead == "" && words != []
  {
    hide Spread;
    if q == "" {
      lead, words, gaps := "", [], [];
      NothingSpread();
    } else {
      lead, words, gaps := WordsOf(q[1..]);
      if IsSpace(q[0]) {
        lead := [q[0]] + lead;
        assert q == [q[0]] + q[1..];
      } else if lead == "" && words != [] {
        LongerWord(q[0], words, gaps);
        words := words[0 := [q[0]] + words[0]];
      } else {
        NewWord(q[0], lead, words, gaps);
        words, gaps, lead := [[q[0]]] + words, [lead] + gaps, "";
      }
    }
  }

  lemma NothingSpread()
    ensures Spread([], []) == ""
  {
  }

  lemma LongerWord(c: char, words: seq<string>, gaps: seq<string>)
    requires words != [] && SpreadOk(words, gaps) && !IsSpace(c)
    ensures var longer := words[0 := [c] + words[0]];
            SpreadOk(longer, gaps) && Spread(longer, gaps) == [c] + Spread(words, gaps)
  {
    var longer := words[0 := [c] + words[0]];
    assert longer[1..] == words[1..];
    assert Spread(longer, gaps) == [c] + words[0] + gaps[0] + Spread(words[1..], gaps[1..]);
  }

  lemma NewWord(c: char, lead: string, words: seq<string>, gaps: seq<string>)
    requires SpreadOk(words, gaps) && !IsSpace(c) && Blank(lead) && (words != [] ==> lead != "")
    ensures SpreadOk([[c]] + words, [lead] + gaps)
    ensures Spread([[c]] + words, [lead] + gaps) == [c] + (lead + Spread(words, gaps))
  {
    assert ([[c]] + words)[1..] == words && ([lead] + gaps)[1..] == gaps;
  }
}
