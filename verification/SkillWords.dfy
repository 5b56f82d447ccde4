/**
  What normalising a skill name means: its words, joined by single hyphens. The
  words are what lies between hyphens and underscores, with everything dropped
  that is not a lower-case letter or digit.
 */
module SkillWords {
  import opened SkillNames

  predicate Separates(c: char) {
    c == '-' || c == '_'
  }

  /** A lower-case ASCII letter or digit, by its code. */
  predicate StaysInName(c: char) {
    48 <= c as int <= 57 || 97 <= c as int <= 122
  }

  /** The pieces between separators, empty ones included, each without the characters that do not stay. */
  function Words(s: string): (words: seq<string>)
    ensures words != []
  {
    if s == "" then [""]
    else
      var rest := Words(s[1..]);
      if Separates(s[0]) then [""] + rest
      else if StaysInName(s[0]) then [[s[0]] + rest[0]] + rest[1..]
      else rest
  }

  /** The words that are not empty, with a hyphen between each two. */
  function Hyphenated(words: seq<string>): (name: string) {
    if words == [] then ""
    else
      var rest := Hyphenated(words[1..]);
      if words[0] == "" then rest
      else if rest == "" then words[0]
      else words[0] + "-" + rest
  }

  // --------------------------------------------------- stage by stage

  /** Mapping underscores to hyphens and dropping foreign characters changes no word. */
  lemma {:induction false} KeepingKeepsWords(s: string)
    ensures Words(KeepAlphabet(Hyphenate(s))) == Words(s)
  {
    if s == "" {
    } else {
      KeepingKeepsWords(s[1..]);
      var h := Hyphenate(s);
      assert h[1..] == Hyphenate(s[1..]);
      var kept := KeepAlphabet(h[1..]);
      if IsAlphabet(h[0]) {
        assert KeepAlphabet(h) == [h[0]] + kept;
        assert ([h[0]] + kept)[1..] == kept;
      } else {
        assert KeepAlphabet(h) == kept;
      }
    }
  }

  /** Runs of hyphens only make empty words, after the first piece. */
  lemma {:induction false} CollapsingKeepsWords(s: string)
    ensures Words(Collapse(s))[0] == Words(s)[0]
    ensures Hyphenated(Words(Collapse(s))[1..]) == Hyphenated(Words(s)[1..])
  {
    if |s| < 2 {
    } else {
      CollapsingKeepsWords(s[1..]);
      var rest, rest' := Words(s[1..]), Words(Collapse(s[1..]));
      if s[0] == '-' && s[1] == '-' {
        assert rest[0] == "";
        assert Words(s)[1..] == rest;
      } else {
        assert Collapse(s) == [s[0]] + Collapse(s[1..]);
        assert Collapse(s)[1..] == Collapse(s[1..]);
        assert Hyphenated(rest) == Hyphenated(rest') by { SameHyphenated(rest, rest'); }
      }
    }
  }

  lemma {:induction false} SameHyphenated(a: seq<string>, b: seq<string>)
    requires a != [] && b != [] && a[0] == b[0] && Hyphenated(a[1..]) == Hyphenated(b[1..])
    ensures Hyphenated(a) == Hyphenated(b)
  {
  }

  lemma {:induction false} LeftStripKeepsWords(s: string)
    ensures Hyphenated(Words(LeftStrip(s))) == Hyphenated(Words(s))
  {
    if s != "" && s[0] == '-' {
      LeftStripKeepsWords(s[1..]);
      assert Words(s)[1..] == Words(s[1..]);
    }
  }

  lemma {:induction false} WordsOfTrailingHyphen(s: string)
    ensures Words(s + "-") == Words(s) + [""]
  {
    if s == "" {
      assert s + "-" == "-" && "-"[1..] == "";
    } else {
      assert (s + "-")[1..] == s[1..] + "-";
      WordsOfTrailingHyphen(s[1..]);
    }
  }

  lemma {:induction false} EmptyLastWord(words: seq<string>)
    ensures Hyphenated(words + [""]) == Hyphenated(words)
  {
    if words == [] {
      assert [""][1..] == [];
    } else {
      assert (words + [""])[1..] == words[1..] + [""];
      EmptyLastWord(words[1..]);
    }
  }

  lemma {:induction false} RightStripKeepsWords(s: string)
    ensures Hyphenated(Words(RightStrip(s))) == Hyphenated(Words(s))
  {
    if s != "" && s[|s| - 1] == '-' {
      var t := s[..|s| - 1];
      RightStripKeepsWords(t);
      assert s == t + "-";
      WordsOfTrailingHyphen(t);
      EmptyLastWord(Words(t));
    }
  }

  /** A name without leading, trailing or double hyphens is its words, hyphenated. */
  lemma {:induction false} ScannedIsItsWords(s: string, hyphenBefore: bool)
    requires Scan(s, hyphenBefore)
    ensures if s != "" && s[0] == '-' then Words(s)[0] == "" && Hyphenated(Words(s)[1..]) == s[1..] != ""
            else Hyphenated(Words(s)) == s && (s != "" ==> Words(s)[0] != "")
  {
    if s == "" {
      assert [""][1..] == [];
    } else {
      var t := s[1..];
      ScannedIsItsWords(t, s[0] == '-');
      assert s == [s[0]] + t;
      var words := Words(t);
      if s[0] == '-' {
        assert Words(s)[1..] == words;
      } else {
        assert Words(s)[0] == [s[0]] + words[0] && Words(s)[1..] == words[1..];
      }
    }
  }

  /**
    Normalisation, for every input and whatever lower-casing does: the result is
    the words of the lower-cased name with single hyphens between them.
   */
  lemma NormalizedIsItsWords(lower: string -> string, name: string)
    ensures Normalize(lower, name) == Hyphenated(Words(lower(name)))
  {
    var kept := KeepAlphabet(Hyphenate(lower(name)));
    var r := Normalize(lower, name);
    KeepingKeepsWords(lower(name));
    CollapsingKeepsWords(kept);
    SameHyphenated(Words(Collapse(kept)), Words(kept));
    LeftStripKeepsWords(Collapse(kept));
    RightStripKeepsWords(LeftStrip(Collapse(kept)));
    NormalizedIsEmptyOrInPattern(lower, name);
    if r == "" {
      assert [""][1..] == [];
    } else {
      PatternIffScan(r);
      ScannedIsItsWords(r, true);
    }
  }

  // ------------------------------------------------------ the validator's errors

  /** Lower-case letters, digits and single hyphens inside. */
  ghost predicate PlainName(s: string) {
    && s != "" && s[0] != '-' && s[|s| - 1] != '-'
    && (forall k :: 0 <= k < |s| ==> StaysInName(s[k]) || s[k] == '-')
    && (forall k :: 0 < k < |s| ==> !(s[k - 1] == '-' && s[k] == '-'))
  }

  lemma {:induction false} NoDoubleHyphenByPosition(s: string)
    ensures NoDoubleHyphen(s) <==> forall k :: 0 < k < |s| ==> !(s[k - 1] == '-' && s[k] == '-')
  {
    if |s| < 2 {
    } else {
      NoDoubleHyphenByPosition(s[1..]);
      assert forall k :: 0 < k < |s| - 1 ==> s[1..][k - 1] == s[k] && s[1..][k] == s[k + 1];
      if NoDoubleHyphen(s) {
        forall k | 0 < k < |s|
          ensures !(s[k - 1] == '-' && s[k] == '-')
        {
          if k > 1 {
            assert s[1..][k - 2] == s[k - 1] && s[1..][k - 1] == s[k];
          }
        }
      }
      if forall k :: 0 < k < |s| ==> !(s[k - 1] == '-' && s[k] == '-') {
        forall k | 0 < k < |s[1..]|
          ensures !(s[1..][k - 1] == '-' && s[1..][k] == '-')
        {
          assert s[1..][k - 1] == s[k + 1 - 1] && s[1..][k] == s[k + 1];
        }
        assert !(s[1 - 1] == '-' && s[1] == '-');
      }
    }
  }

  lemma {:induction false} PatternIsPlain(s: string)
    ensures InPattern(s) <==> PlainName(s)
  {
    PatternIffScan(s);
    ScanMeans(s, true);
    NoDoubleHyphenByPosition(s);
    hide InPattern, Scan, NoDoubleHyphen;
    if PlainName(s) {
      forall c | c in s
        ensures IsAlphabet(c)
      {
        var k :| 0 <= k < |s| && s[k] == c;
      }
    }
    if OverAlphabet(s) {
      forall k | 0 <= k < |s|
        ensures StaysInName(s[k]) || s[k] == '-'
      {
        assert s[k] in s;
      }
    }
  }

  /**
    The error list by character: only the empty name is called empty, only names
    over 64 characters too long, and only names of the wrong form bad, where one
    final newline is overlooked; a length error comes first.
   */
  lemma {:induction false} ErrorsByCharacter(name: string)
    ensures var long := name != "" && |name| > 64;
            var bad := name != "" && !PlainName(name) && forall t :: name == t + "\n" ==> !PlainName(t);
            ErrorList(name) ==
            if name == "" then [EmptyName]
            else if long && bad then [TooLong(|name|), BadPattern]
            else if long then [TooLong(|name|)]
            else if bad then [BadPattern]
            else []
  {
    PatternIsPlain(name);
    hide InPattern, PlainName;
    if name != "" {
      var cut := name[..|name| - 1];
      PatternIsPlain(cut);
      if name[|name| - 1] == '\n' {
        assert name == cut + "\n";
      }
      forall t | name == t + "\n"
        ensures t == cut && name[|name| - 1] == '\n'
      {
      }
    }
  }
}
