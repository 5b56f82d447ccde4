/**
  Normalising a legacy skill name into the AgentSkills name pattern. str.lower
  is a parameter: all that matters is that it keeps lower-case names as they are.
 */
module SkillNames {

  predicate IsNameChar(c: char) {
    'a' <= c <= 'z' || '0' <= c <= '9'
  }

  predicate IsAlphabet(c: char) {
    IsNameChar(c) || c == '-'
  }

  // ------------------------------------------------------------- the pattern

  /** [a-z0-9]+ */
  predicate Segment(s: string) {
    s != "" && forall c :: c in s ==> IsNameChar(c)
  }

  /** (-[a-z0-9]+)* */
  ghost predicate Segments(s: string)
    decreases |s|
  {
    s == "" || exists k :: 1 < k <= |s| && s[0] == '-' && Segment(s[1..k]) && Segments(s[k..])
  }

  /** [a-z0-9]+(-[a-z0-9]+)*, the whole text. */
  ghost predicate InPattern(s: string) {
    exists k :: 0 < k <= |s| && Segment(s[..k]) && Segments(s[k..])
  }

  /** SKILL_NAME_PATTERN.match: the closing `$` also matches before a final newline. */
  ghost predicate PatternMatches(s: string) {
    InPattern(s) || (s != "" && s[|s| - 1] == '\n' && InPattern(s[..|s| - 1]))
  }

  /** One pass over the text: a hyphen must follow and be followed by a name character. */
  predicate Scan(s: string, hyphenBefore: bool) {
    if s == "" then !hyphenBefore
    else if s[0] == '-' then !hyphenBefore && Scan(s[1..], true)
    else IsNameChar(s[0]) && Scan(s[1..], false)
  }

  lemma {:induction false} ScanSegment(a: string, t: string, hyphenBefore: bool)
    requires Segment(a)
    ensures Scan(a + t, hyphenBefore) <==> Scan(t, false)
  {
    assert a[0] in a;
    assert (a + t)[1..] == a[1..] + t;
    if |a| == 1 {
      assert a[1..] + t == t;
    } else {
      ScanSegment(a[1..], t, false);
    }
  }

  /** The longest prefix of name characters. */
  function Run(s: string): (n: nat)
    ensures n <= |s|
    ensures forall c :: c in s[..n] ==> IsNameChar(c)
    ensures n < |s| ==> !IsNameChar(s[n])
  {
    if s == "" || !IsNameChar(s[0]) then 0
    else
      var n := 1 + Run(s[1..]);
      assert s[..n] == [s[0]] + s[1..][..n - 1];
      n
  }

  lemma {:induction false} SegmentsScan(s: string)
    requires Segments(s)
    ensures Scan(s, false) && (s == "" || s[0] == '-')
    decreases |s|
  {
    if s == "" {
    } else {
      var k :| 1 < k <= |s| && s[0] == '-' && Segment(s[1..k]) && Segments(s[k..]);
      hide Segments, Segment;
      SegmentsScan(s[k..]);
      assert s[1..] == s[1..k] + s[k..];
      ScanSegment(s[1..k], s[k..], true);
    }
  }

  /** A text that starts with a name character is its longest segment and the rest. */
  lemma FirstSegment(s: string) returns (k: nat)
    requires s != "" && IsNameChar(s[0])
    ensures 0 < k <= |s| && Segment(s[..k]) && s == s[..k] + s[k..]
    ensures k < |s| ==> !IsNameChar(s[k])
  {
    k := Run(s);
  }

  lemma {:induction false} ScanSegments(s: string)
    requires Scan(s, false) && (s == "" || s[0] == '-')
    ensures Segments(s)
    decreases |s|
  {
    if s == "" {
    } else {
      var t := s[1..];
      assert Scan(t, true);
      var n := FirstSegment(t);
      ScanSegment(t[..n], t[n..], true);
      hide Segment, IsNameChar;
      var k := n + 1;
      assert t[..n] == s[1..k] && t[n..] == s[k..];
      RestStartsWithHyphen(t[n..]);
      ScanSegments(s[k..]);
      assert 1 < k <= |s| && Segment(s[1..k]) && Segments(s[k..]);
    }
  }

  lemma {:induction false} RestStartsWithHyphen(s: string)
    requires Scan(s, false) && (s == "" || !IsNameChar(s[0]))
    ensures s == "" || s[0] == '-'
  {
  }

  /** The pattern is what the one-pass scan accepts. */
  lemma {:induction false} PatternIffScan(s: string)
    ensures InPattern(s) <==> Scan(s, true)
  {
    if InPattern(s) {
      var k :| 0 < k <= |s| && Segment(s[..k]) && Segments(s[k..]);
      SegmentsScan(s[k..]);
      assert s == s[..k] + s[k..];
      ScanSegment(s[..k], s[k..], true);
    }
    if Scan(s, true) {
      var k := FirstSegment(s);
      ScanSegment(s[..k], s[k..], true);
      RestStartsWithHyphen(s[k..]);
      ScanSegments(s[k..]);
      assert Segment(s[..k]) && Segments(s[k..]);
    }
  }

  // ----------------------------------------------------------- normalisation

  /** str.replace("_", "-") */
  function Hyphenate(s: string): (r: string) {
    seq(|s|, i requires 0 <= i < |s| => if s[i] == '_' then '-' else s[i])
  }

  /** re.sub(r"[^a-z0-9-]", "", s) */
  function KeepAlphabet(s: string): (r: string)
    ensures forall c :: c in r ==> IsAlphabet(c)
  {
    if s == "" then "" else (if IsAlphabet(s[0]) then [s[0]] else "") + KeepAlphabet(s[1..])
  }

  /** re.sub(r"-+", "-", s) */
  function Collapse(s: string): (r: string) {
    if |s| < 2 then s
    else if s[0] == '-' && s[1] == '-' then Collapse(s[1..])
    else [s[0]] + Collapse(s[1..])
  }

  function LeftStrip(s: string): (r: string) {
    if s != "" && s[0] == '-' then LeftStrip(s[1..]) else s
  }

  function RightStrip(s: string): (r: string) {
    if s != "" && s[|s| - 1] == '-' then RightStrip(s[..|s| - 1]) else s
  }

  function Normalize(lower: string -> string, name: string): (normalized: string) {
    RightStrip(LeftStrip(Collapse(KeepAlphabet(Hyphenate(lower(name))))))
  }

  /** str.lower leaves text alone that has only lower-case letters, digits and hyphens. */
  ghost predicate KeepsLowerCase(lower: string -> string) {
    forall s :: (forall c :: c in s ==> IsAlphabet(c)) ==> lower(s) == s
  }

  ghost predicate OverAlphabet(s: string) {
    forall c :: c in s ==> IsAlphabet(c)
  }

  predicate NoDoubleHyphen(s: string) {
    |s| < 2 || (!(s[0] == '-' && s[1] == '-') && NoDoubleHyphen(s[1..]))
  }

  lemma {:induction false} CollapseCollapses(s: string)
    requires OverAlphabet(s)
    ensures OverAlphabet(Collapse(s)) && NoDoubleHyphen(Collapse(s))
    ensures s != "" ==> Collapse(s) != "" && Collapse(s)[0] == s[0]
  {
    if |s| < 2 {
    } else {
      CollapseCollapses(s[1..]);
      assert ([s[0]] + Collapse(s[1..]))[1..] == Collapse(s[1..]);
    }
  }

  lemma {:induction false} LeftStripStrips(s: string)
    requires OverAlphabet(s) && NoDoubleHyphen(s)
    ensures var r := LeftStrip(s); OverAlphabet(r) && NoDoubleHyphen(r) && (r != "" ==> r[0] != '-')
  {
    if s != "" && s[0] == '-' {
      LeftStripStrips(s[1..]);
    }
  }

  lemma {:induction false} NoDoubleHyphenInPrefix(s: string)
    requires s != "" && NoDoubleHyphen(s)
    ensures NoDoubleHyphen(s[..|s| - 1])
  {
    if |s| <= 2 {
    } else {
      NoDoubleHyphenInPrefix(s[1..]);
      assert s[..|s| - 1][1..] == s[1..][..|s[1..]| - 1];
    }
  }

  lemma {:induction false} RightStripStrips(s: string)
    requires OverAlphabet(s) && NoDoubleHyphen(s) && (s != "" ==> s[0] != '-')
    ensures var r := RightStrip(s);
            OverAlphabet(r) && NoDoubleHyphen(r) && (r != "" ==> r[0] != '-' && r[|r| - 1] != '-')
  {
    if s != "" && s[|s| - 1] == '-' {
      NoDoubleHyphenInPrefix(s);
      RightStripStrips(s[..|s| - 1]);
    }
  }

  /** Over the alphabet, the scan accepts exactly the texts without a leading, trailing or double hyphen. */
  lemma {:induction false} ScanMeans(s: string, hyphenBefore: bool)
    ensures Scan(s, hyphenBefore) <==>
            && OverAlphabet(s) && NoDoubleHyphen(s)
            && (if s == "" then !hyphenBefore else s[|s| - 1] != '-' && (hyphenBefore ==> s[0] != '-'))
  {
    if s == "" {
    } else {
      var t := s[1..];
      ScanMeans(t, s[0] == '-');
      assert s == [s[0]] + t && s[0] in s;
      assert OverAlphabet(s) <==> IsAlphabet(s[0]) && OverAlphabet(t);
      assert t != "" ==> s[|s| - 1] == t[|t| - 1] && s[1] == t[0];
    }
  }

  /** Whatever the input and however lower-casing works, the result is empty or in the pattern. */
  lemma NormalizedIsEmptyOrInPattern(lower: string -> string, name: string)
    ensures var r := Normalize(lower, name); r == "" || InPattern(r)
  {
    var kept := KeepAlphabet(Hyphenate(lower(name)));
    CollapseCollapses(kept);
    LeftStripStrips(Collapse(kept));
    RightStripStrips(LeftStrip(Collapse(kept)));
    var r := Normalize(lower, name);
    ScanMeans(r, true);
    PatternIffScan(r);
  }

  lemma {:induction false} KeepAlphabetKeeps(s: string)
    requires OverAlphabet(s)
    ensures KeepAlphabet(s) == s
  {
    if s == "" {
    } else {
      KeepAlphabetKeeps(s[1..]);
      assert s == [s[0]] + s[1..];
    }
  }

  lemma {:induction false} CollapseKeeps(s: string)
    requires NoDoubleHyphen(s)
    ensures Collapse(s) == s
  {
    if |s| < 2 {
    } else {
      CollapseKeeps(s[1..]);
      assert s == [s[0]] + s[1..];
    }
  }

  /** Normalisation leaves a text alone exactly when it is empty or in the pattern. */
  lemma FixedIffInPattern(lower: string -> string, s: string)
    requires KeepsLowerCase(lower)
    ensures Normalize(lower, s) == s <==> s == "" || InPattern(s)
  {
    if s == "" || InPattern(s) {
      PatternIffScan(s);
      ScanMeans(s, true);
      assert OverAlphabet(s) && NoDoubleHyphen(s);
      assert lower(s) == s;
      assert forall i :: 0 <= i < |s| ==> s[i] in s;
      assert Hyphenate(s) == s;
      KeepAlphabetKeeps(s);
      CollapseKeeps(s);
    } else {
      NormalizedIsEmptyOrInPattern(lower, s);
    }
  }

  lemma NormalizeIsIdempotent(lower: string -> string, name: string)
    requires KeepsLowerCase(lower)
    ensures Normalize(lower, Normalize(lower, name)) == Normalize(lower, name)
  {
    NormalizedIsEmptyOrInPattern(lower, name);
    FixedIffInPattern(lower, Normalize(lower, name));
  }

  // -------------------------------------------------------------- validation

  datatype NameError = EmptyName | TooLong(length: nat) | BadPattern

  /** SKILL_NAME_PATTERN.match as a computation. */
  predicate Matches(s: string) {
    Scan(s, true) || (s != "" && s[|s| - 1] == '\n' && Scan(s[..|s| - 1], true))
  }

  /** The errors a name deserves, by the pattern read as a regular expression. */
  ghost function ErrorList(name: string): (errors: seq<NameError>) {
    if name == "" then [EmptyName]
    else
      (if |name| > 64 then [TooLong(|name|)] else []) +
      (if PatternMatches(name) then [] else [BadPattern])
  }

  method ValidateSkillName(name: string) returns (errors: seq<NameError>)
    ensures errors == ErrorList(name)
  {
    errors := [];
    if name == "" {
      errors := errors + [EmptyName];
      return;
    }
    PatternIffScan(name);
    PatternIffScan(name[..|name| - 1]);
    if |name| > 64 {
      errors := errors + [TooLong(|name|)];
    }
    if !Matches(name) {
      errors := errors + [BadPattern];
    }
  }

  /** The errors of a normalised name: it may be empty or too long, and the pattern is never violated. */
  lemma NormalizedFailsOnlyOnLength(lower: string -> string, name: string)
    ensures var r := Normalize(lower, name);
            && BadPattern !in ErrorList(r)
            && ErrorList(r) == (if r == "" then [EmptyName] else if |r| > 64 then [TooLong(|r|)] else [])
  {
    NormalizedIsEmptyOrInPattern(lower, name);
  }

  /** A name the validator accepts is fixed by normalisation exactly when it does not end in a newline. */
  lemma AcceptedNameFixedIffNoNewline(lower: string -> string, name: string)
    requires KeepsLowerCase(lower) && PatternMatches(name)
    ensures Normalize(lower, name) == name <==> name[|name| - 1] != '\n'
  {
    FixedIffInPattern(lower, name);
    if InPattern(name) {
      PatternIffScan(name);
      ScanMeans(name, true);
      assert name[|name| - 1] in name;
    }
  }

  /** The validator does accept such a name. */
  lemma NewlineNameAccepted()
    ensures ErrorList("pdf\n") == [] && !InPattern("pdf\n")
  {
    hide InPattern;
    var s := "pdf\n";
    var name := s[..3];
    assert name == "pdf" == ['p', 'd', 'f'];
    assert name[1..] == ['d', 'f'] && name[1..][1..] == ['f'] && name[1..][1..][1..] == [];
    assert Scan(name[1..][1..], false);
    assert Scan(name[1..], false);
    assert Scan(name, true);
    PatternIffScan(name);
    PatternIffScan(s);
    ScanMeans(s, true);
    assert s[3] in s;
  }
}
