/** The whitespace normalization keeps a text's words (packages/agent/src/reviewContract.ts:274-276). */
module ReviewWords {
  import opened ReviewText

  /** The longest runs of visible characters, in order. */
  function Words(s: string): (words: seq<string>)
    ensures s != "" && !White(s[0]) ==> words != []
  {
    if s == "" then []
    else if White(s[0]) then Words(s[1..])
    else if |s| == 1 || White(s[1]) then [[s[0]]] + Words(s[1..])
    else
      var rest := Words(s[1..]);
      [[s[0]] + rest[0]] + rest[1..]
  }

  lemma {:induction false} SqueezeKeepsWords(s: string)
    ensures Words(Squeeze(s)) == Words(s)
    decreases |s|
  {
    if s != "" {
      SqueezeKeepsWords(s[1..]);
      SqueezeSqueezes(s[1..]);
      var rest := Squeeze(s[1..]);
      if !White(s[0]) {
        assert ([s[0]] + rest)[1..] == rest;
        SqueezedStart(s[1..]);
      } else if |s| == 1 || !White(s[1]) {
        assert (" " + rest)[1..] == rest;
      }
    }
  }

  /** What is left of a text starts with the same kind of character, and is empty only for an empty one. */
  lemma {:induction false} SqueezedStart(s: string)
    ensures Squeeze(s) == "" <==> s == ""
    ensures s != "" ==> (White(Squeeze(s)[0]) <==> White(s[0]))
    decreases |s|
  {
    if s != "" {
      SqueezedStart(s[1..]);
    }
  }

  lemma {:induction false} SkipKeepsWords(s: string)
    ensures Words(SkipWhite(s)) == Words(s)
  {
    if s != "" && White(s[0]) {
      SkipKeepsWords(s[1..]);
    }
  }

  lemma {:induction false} WhiteAtEnd(s: string, c: char)
    requires White(c)
    ensures Words(s + [c]) == Words(s)
  {
    if s != "" {
      assert (s + [c])[1..] == s[1..] + [c];
      WhiteAtEnd(s[1..], c);
    }
  }

  lemma {:induction false} TrimEndKeepsWords(s: string)
    ensures Words(TrimEnd(s)) == Words(s)
  {
    if s != "" && White(s[|s| - 1]) {
      TrimEndKeepsWords(s[..|s| - 1]);
      WhiteAtEnd(s[..|s| - 1], s[|s| - 1]);
      assert s == s[..|s| - 1] + [s[|s| - 1]];
    }
  }

  /** Normalizing whitespace changes only what is between the words, to one space each, and trims the ends. */
  lemma CollapseKeepsWords(s: string)
    ensures Words(Collapse(s)) == Words(s)
    ensures Squeezed(Collapse(s)) && Trimmed(Collapse(s))
  {
    SqueezeKeepsWords(s);
    SkipKeepsWords(Squeeze(s));
    TrimEndKeepsWords(SkipWhite(Squeeze(s)));
    CollapseNormalizes();
    SqueezeSqueezes(s);
    var i, j := TrimIsPart(Squeeze(s));
    assert OneRow(Collapse(s));
  }

  /** Trimming keeps the words as well. */
  lemma TrimKeepsWords(s: string)
    ensures Words(Trim(s)) == Words(s)
  {
    SkipKeepsWords(s);
    TrimEndKeepsWords(SkipWhite(s));
  }
}
