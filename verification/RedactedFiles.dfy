/**
  Redaction of whole exported files: a JSON document, or newline-delimited JSON
  handled line by line. The text is what read_text returns; json.loads, json.dumps
  and str.strip are parameters.
 */
module RedactedFiles {
  import opened Prelude
  import opened JsonModel
  import opened Redaction

  /** json.loads (None for JSONDecodeError), json.dumps, and str.strip. */
  datatype Codec = Codec(parse: string -> Option<Json>, dump: Json -> string, strip: string -> string)

  // -------------------------------------------------------------- splitlines

  /** The characters str.splitlines breaks at. */
  predicate IsBoundary(c: char) {
    c in {'\n', '\r', '\U{0B}', '\U{0C}', '\U{1C}', '\U{1D}', '\U{1E}', '\U{85}', '\U{2028}', '\U{2029}'}
  }

  /** The length of the first line of a text, its terminator included. */
  function FirstLine(s: string): (n: nat)
    requires s != ""
    ensures 1 <= n <= |s|
  {
    if s[0] == '\r' && |s| > 1 && s[1] == '\n' then 2
    else if IsBoundary(s[0]) || |s| == 1 then 1
    else 1 + FirstLine(s[1..])
  }

  /** raw.splitlines(keepends=True) */
  function SplitLines(raw: string): (lines: seq<string>) {
    if raw == "" then [] else [raw[..FirstLine(raw)]] + SplitLines(raw[FirstLine(raw)..])
  }

  function Concat(lines: seq<string>): (text: string) {
    if lines == [] then "" else lines[0] + Concat(lines[1..])
  }

  lemma {:induction false} ConcatAppend(lines: seq<string>, line: string)
    ensures Concat(lines + [line]) == Concat(lines) + line
  {
    if lines == [] {
      assert [line][1..] == [];
    } else {
      assert (lines + [line])[1..] == lines[1..] + [line];
      ConcatAppend(lines[1..], line);
    }
  }

  /** Each entry is exactly the first line of what follows it. */
  ghost predicate Lines(lines: seq<string>) {
    lines != [] ==>
      && lines[0] != ""
      && FirstLine(Concat(lines)) == |lines[0]|
      && Lines(lines[1..])
  }

  lemma {:induction false} SplitLinesAreLines(raw: string)
    ensures Concat(SplitLines(raw)) == raw && Lines(SplitLines(raw))
  {
    if raw == "" {
    } else {
      var lines := SplitLines(raw);
      SplitLinesAreLines(raw[FirstLine(raw)..]);
      assert lines[1..] == SplitLines(raw[FirstLine(raw)..]);
      assert raw == raw[..FirstLine(raw)] + raw[FirstLine(raw)..];
    }
  }

  lemma {:induction false} LinesSplitBack(lines: seq<string>)
    requires Lines(lines)
    ensures SplitLines(Concat(lines)) == lines
  {
    if lines == [] {
    } else {
      LinesSplitBack(lines[1..]);
      var raw := Concat(lines);
      assert raw[..|lines[0]|] == lines[0] && raw[|lines[0]|..] == Concat(lines[1..]);
      assert lines == [lines[0]] + lines[1..];
    }
  }

  /** Whether a line is complete does not depend on what follows, unless "\r" might join a "\n". */
  lemma {:induction false} CompleteLine(line: string, rest: string, rest': string)
    requires line != "" && FirstLine(line + rest) == |line|
    requires rest' == "" || rest != ""
    requires rest' != "" && rest'[0] == '\n' ==> rest != "" && rest[0] == '\n'
    ensures FirstLine(line + rest') == |line|
  {
    var a, b := line + rest, line + rest';
    if |line| > 1 {
      assert a[0] == line[0] == b[0] && a[1] == line[1] == b[1];
      assert a[1..] == line[1..] + rest && b[1..] == line[1..] + rest';
      if !(a[0] == '\r' && a[1] == '\n') && !IsBoundary(a[0]) {
        CompleteLine(line[1..], rest, rest');
      }
    } else {
      assert a[0] == b[0] == line[0];
      assert rest != "" ==> a[1] == rest[0];
      assert rest' != "" ==> b[1] == rest'[0];
    }
  }

  /** Text without boundaries, then possibly a terminator, is one line. */
  lemma {:induction false} PlainLine(text: string, newline: string, rest: string)
    requires text != "" && forall c :: c in text ==> !IsBoundary(c)
    requires if newline == "" then rest == "" else |newline| == 1 && IsBoundary(newline[0]) && newline != "\r"
    ensures FirstLine(text + newline + rest) == |text + newline|
  {
    var s := text + newline + rest;
    assert s[0] == text[0] && text[0] in text;
    if |text| > 1 {
      assert s[1..] == text[1..] + newline + rest;
      PlainLine(text[1..], newline, rest);
    } else if newline != "" {
      assert s[1..] == newline + rest;
      assert s[1] == newline[0];
    }
  }

  /** Every line but the last ends with a boundary character. */
  lemma {:induction false} OnlyLastLineUnterminated(raw: string, i: nat)
    requires i + 1 < |SplitLines(raw)|
    ensures var line := SplitLines(raw)[i]; line != "" && IsBoundary(line[|line| - 1])
  {
    if i > 0 {
      OnlyLastLineUnterminated(raw[FirstLine(raw)..], i - 1);
    } else {
      FirstLineTerminated(raw);
    }
  }

  lemma {:induction false} FirstLineTerminated(raw: string)
    requires raw != "" && FirstLine(raw) < |raw|
    ensures IsBoundary(raw[FirstLine(raw) - 1])
  {
    if !(raw[0] == '\r' && raw[1] == '\n') && !IsBoundary(raw[0]) {
      FirstLineTerminated(raw[1..]);
    }
  }

  /** The line ends of str.splitlines by code point. */
  predicate EndsLine(c: char) {
    || 10 <= c as int <= 13 || 28 <= c as int <= 30
    || c as int == 133 || c as int == 8232 || c as int == 8233
  }

  /** A line of text: nothing in it ends a line before its last character, save the "\r" of a final "\r\n". */
  ghost predicate IsLine(line: string) {
    line != "" && forall k :: 0 <= k < |line| - 1 && EndsLine(line[k]) ==>
                                k == |line| - 2 && line[k] == '\r' && line[k + 1] == '\n'
  }

  /** The lines are cut nowhere else: each but the last is ended, and no "\r\n" is cut in two. */
  ghost predicate CutAtEnds(lines: seq<string>) {
    forall i :: 0 <= i < |lines| - 1 && lines[i] != "" && lines[i + 1] != "" ==>
                  && EndsLine(lines[i][|lines[i]| - 1])
                  && !(lines[i][|lines[i]| - 1] == '\r' && lines[i + 1][0] == '\n')
  }

  lemma {:induction false} FirstLineIsLine(s: string)
    requires s != ""
    ensures var n := FirstLine(s);
            && IsLine(s[..n])
            && (n < |s| ==> EndsLine(s[n - 1]) && !(s[n - 1] == '\r' && s[n] == '\n'))
  {
    var n := FirstLine(s);
    if (s[0] == '\r' && |s| > 1 && s[1] == '\n') || IsBoundary(s[0]) || |s| == 1 {
    } else {
      FirstLineIsLine(s[1..]);
      var rest := s[1..][..n - 1];
      assert s[..n] == [s[0]] + rest;
      forall k | 0 <= k < n - 1 && EndsLine(s[k])
        ensures k == n - 2 && s[k] == '\r' && s[k + 1] == '\n'
      {
        assert k > 0 && EndsLine(rest[k - 1]);
      }
    }
  }

  lemma OneMoreLine(line: string, rest: seq<string>)
    requires line != "" && CutAtEnds(rest)
    requires rest != [] && rest[0] != "" ==>
               EndsLine(line[|line| - 1]) && !(line[|line| - 1] == '\r' && rest[0][0] == '\n')
    ensures CutAtEnds([line] + rest)
  {
    hide EndsLine;
    var lines := [line] + rest;
    forall i | 0 <= i < |lines| - 1 && lines[i] != "" && lines[i + 1] != ""
      ensures EndsLine(lines[i][|lines[i]| - 1])
      ensures !(lines[i][|lines[i]| - 1] == '\r' && lines[i + 1][0] == '\n')
    {
      if i > 0 {
        assert lines[i] == rest[i - 1] && lines[i + 1] == rest[i - 1 + 1];
      }
    }
  }

  /** The first character of the first line is the text's. */
  lemma {:induction false} FirstOfLines(raw: string)
    requires raw != ""
    ensures var lines := SplitLines(raw); lines != [] && lines[0] != "" && lines[0][0] == raw[0]
  {
  }

  /** Splitting by character: the pieces make up the text, each is one line, and cuts are made at line ends only. */
  lemma {:induction false} SplitLinesByCharacter(raw: string)
    ensures Concat(SplitLines(raw)) == raw
    ensures forall line :: line in SplitLines(raw) ==> IsLine(line)
    ensures CutAtEnds(SplitLines(raw))
  {
    SplitLinesAreLines(raw);
    if raw == "" {
    } else {
      var n := FirstLine(raw);
      var rest := SplitLines(raw[n..]);
      assert SplitLines(raw) == [raw[..n]] + rest;
      assert n == |raw| ==> rest == [];
      FirstLineIsLine(raw);
      if n < |raw| {
        FirstOfLines(raw[n..]);
      }
      SplitLinesByCharacter(raw[n..]);
      hide IsLine, FirstLine, EndsLine, SplitLines, CutAtEnds, Concat;
      OneMoreLine(raw[..n], rest);
    }
  }

  // ------------------------------------------------------------ line by line

  /** The JSON value of a line, unless it is blank or does not parse. */
  function ValueOf(codec: Codec, line: string): (value: Option<Json>) {
    var stripped := codec.strip(line);
    if stripped == "" then None else codec.parse(stripped)
  }

  predicate EndsWithNewline(line: string) {
    line != "" && line[|line| - 1] == '\n'
  }

  /** What the loop appends for one line. */
  function RedactLine(codec: Codec, line: string): (redacted: string) {
    match ValueOf(codec, line)
    case None => line
    case Some(j) => codec.dump(Redact(j)) + (if EndsWithNewline(line) then "\n" else "")
  }

  function RedactLines(codec: Codec, lines: seq<string>): (r: seq<string>)
    ensures |r| == |lines|
  {
    seq(|lines|, i requires 0 <= i < |lines| => RedactLine(codec, lines[i]))
  }

  ghost predicate LineHoldsSecret(codec: Codec, line: string) {
    ValueOf(codec, line).Some? && HoldsSecret(ValueOf(codec, line).value)
  }

  /** Some line of the text holds a secret, so that the text is replaced at all. */
  ghost predicate AnySecret(codec: Codec, raw: string) {
    exists line :: line in SplitLines(raw) && LineHoldsSecret(codec, line)
  }

  /** The lines of an exported JSON-lines text: the redacted ones, or the original ones if it is not replaced. */
  ghost function ExportedLines(codec: Codec, raw: string): (lines: seq<string>) {
    if AnySecret(codec, raw) then RedactLines(codec, SplitLines(raw)) else SplitLines(raw)
  }

  /** What ends up in the archive for a JSON-lines text. */
  ghost function Exported(codec: Codec, raw: string): (text: string) {
    Concat(ExportedLines(codec, raw))
  }

  datatype Suffix = JsonSuffix | JsonLinesSuffix | OtherSuffix

  /** redacted_file_bytes, for a file whose text could (Some) or could not (None) be read. */
  method RedactedFileText(codec: Codec, suffix: Suffix, text: Option<string>) returns (result: Option<string>)
    ensures suffix.OtherSuffix? || text.None? ==> result == None
    ensures suffix.JsonSuffix? && text.Some? ==>
              result == match codec.parse(text.value)
                        case None => None
                        case Some(j) => if Redact(j) == j then None else Some(codec.dump(Redact(j)))
    ensures suffix.JsonLinesSuffix? && text.Some? ==>
              var lines := SplitLines(text.value);
              && (result.None? <==> forall line :: line in lines ==> !LineHoldsSecret(codec, line))
              && (result.Some? ==> result.value == Concat(RedactLines(codec, lines)))
              && Exported(codec, text.value) == (if result.Some? then result.value else text.value)
  {
    if suffix.OtherSuffix? || text.None? {
      return None;
    }
    if suffix.JsonSuffix? {
      var parsed := codec.parse(text.value);
      if parsed.None? || Redact(parsed.value) == parsed.value {
        return None;
      }
      return Some(codec.dump(Redact(parsed.value)));
    }
    var lines := SplitLines(text.value);
    var changed, outLines := false, [];
    var i := 0;
    while i < |lines|
      invariant 0 <= i <= |lines|
      invariant outLines == RedactLines(codec, lines[..i])
      invariant changed <==> exists k :: 0 <= k < i && LineHoldsSecret(codec, lines[k])
    {
      var line := lines[i];
      ghost var before := outLines;
      var stripped := codec.strip(line);
      if stripped == "" {
        outLines := outLines + [line];
      } else {
        var parsed := codec.parse(stripped);
        if parsed.None? {
          outLines := outLines + [line];
        } else {
          ChangesIffSecret(parsed.value);
          if Redact(parsed.value) != parsed.value {
            changed := true;
          }
          var newline := if EndsWithNewline(line) then "\n" else "";
          outLines := outLines + [codec.dump(Redact(parsed.value)) + newline];
        }
      }
      assert outLines == before + [RedactLine(codec, line)];
      i := i + 1;
    }
    assert lines[..|lines|] == lines;
    result := if changed then Some(Concat(outLines)) else None;
    SplitLinesAreLines(text.value);
  }

  /** json.dumps writes this value on one line of plain characters, and json.loads and strip undo it. */
  ghost predicate Printable(codec: Codec, j: Json) {
    var text := codec.dump(j);
    && text != "" && (forall c :: c in text ==> !IsBoundary(c))
    && codec.parse(text) == Some(j)
    && codec.strip(text) == text && codec.strip(text + "\n") == text
  }

  /** Whatever json.loads returns can be written and read back once it is redacted. */
  ghost predicate Lawful(codec: Codec) {
    forall text :: codec.parse(text).Some? ==> Printable(codec, Redact(codec.parse(text).value))
  }

  /** Blank and unparsable lines are kept verbatim; a parsed line reads back as its redacted value, free of secrets. */
  lemma RedactedLineReadsBack(codec: Codec, line: string)
    requires Lawful(codec)
    ensures ValueOf(codec, line).None? ==> RedactLine(codec, line) == line
    ensures ValueOf(codec, line).Some? ==>
              ValueOf(codec, RedactLine(codec, line)) == Some(Redact(ValueOf(codec, line).value))
    ensures !LineHoldsSecret(codec, RedactLine(codec, line))
  {
    if ValueOf(codec, line).Some? {
      var j := Redact(ValueOf(codec, line).value);
      NothingSecretRemains(ValueOf(codec, line).value);
      assert codec.dump(j) + "" == codec.dump(j);
      assert codec.dump(j) != "";
    } else {
      assert RedactLine(codec, line) == line;
    }
  }

  /** Every line that was parsed, except possibly the last, ends in a newline character. */
  ghost predicate ParsedLinesEndInNewline(codec: Codec, lines: seq<string>) {
    forall i :: 0 <= i < |lines| - 1 && ValueOf(codec, lines[i]).Some? ==> EndsWithNewline(lines[i])
  }

  lemma {:induction false} RedactedLinesAreLines(codec: Codec, lines: seq<string>)
    requires Lawful(codec) && Lines(lines) && ParsedLinesEndInNewline(codec, lines)
    ensures Lines(RedactLines(codec, lines))
    ensures lines != [] ==> Concat(RedactLines(codec, lines)) != ""
    ensures lines != [] && Concat(RedactLines(codec, lines))[0] == '\n' ==> Concat(lines)[0] == '\n'
  {
    if lines == [] {
    } else {
      var line, rest := lines[0], lines[1..];
      var out, outRest := RedactLine(codec, line), RedactLines(codec, rest);
      var outs := RedactLines(codec, lines);
      assert forall i :: 0 <= i < |rest| ==> rest[i] == lines[i + 1];
      assert outs[0] == out && outs[1..] == outRest;
      RedactedLinesAreLines(codec, rest);
      match ValueOf(codec, line)
      case None =>
        assert rest == [] ==> outRest == [];
        CompleteLine(line, Concat(rest), Concat(outRest));
      case Some(j) =>
        var newline := if EndsWithNewline(line) then "\n" else "";
        assert newline == "" ==> rest == [] && outRest == [];
        var text := codec.dump(Redact(j));
        PlainLine(text, newline, Concat(outRest));
        assert text[0] in text;
    }
  }

  /**
    The exported text has the redacted lines for its lines exactly when it was
    not replaced or every parsed line but the last ended in a newline character:
    splitlines also breaks at other separators, and those are not written back.
   */
  lemma {:induction false} LineStructureKeptIff(codec: Codec, raw: string)
    requires Lawful(codec)
    ensures SplitLines(Exported(codec, raw)) == ExportedLines(codec, raw) <==>
            !AnySecret(codec, raw) || ParsedLinesEndInNewline(codec, SplitLines(raw))
  {
    var lines := SplitLines(raw);
    var outs := RedactLines(codec, lines);
    SplitLinesAreLines(raw);
    if !AnySecret(codec, raw) {
    } else if ParsedLinesEndInNewline(codec, lines) {
      RedactedLinesAreLines(codec, lines);
      LinesSplitBack(outs);
    } else if SplitLines(Concat(outs)) == outs {
      var i :| 0 <= i < |lines| - 1 && ValueOf(codec, lines[i]).Some? && !EndsWithNewline(lines[i]);
      DumpedWithoutNewline(codec, lines[i]);
      OnlyLastLineUnterminated(Concat(outs), i);
    }
  }

  lemma DumpedWithoutNewline(codec: Codec, line: string)
    requires Lawful(codec) && ValueOf(codec, line).Some? && !EndsWithNewline(line)
    ensures var out := RedactLine(codec, line); out != "" && !IsBoundary(out[|out| - 1])
  {
    var text := codec.dump(Redact(ValueOf(codec, line).value));
    assert RedactLine(codec, line) == text + "" == text;
    assert text[|text| - 1] in text;
  }

  /** Two secret-holding documents separated by a form feed are exported glued together on one line. */
  lemma {:induction false} FormFeedIsLost(codec: Codec, j: Json)
    requires Lawful(codec) && Printable(codec, j) && HoldsSecret(j)
    requires codec.strip(codec.dump(j) + "\U{0C}") == codec.dump(j)
    ensures var raw := codec.dump(j) + "\U{0C}" + codec.dump(j);
            && |SplitLines(raw)| == 2
            && AnySecret(codec, raw) && !ParsedLinesEndInNewline(codec, SplitLines(raw))
            && Exported(codec, raw) == codec.dump(Redact(j)) + codec.dump(Redact(j))
            && SplitLines(Exported(codec, raw)) == [Exported(codec, raw)]
  {
    hide SplitLines, FirstLine, IsBoundary, HoldsSecret, Redact, Concat;
    var text, redacted := codec.dump(j), codec.dump(Redact(j));
    var raw := text + "\U{0C}" + text;
    var lines := [text + "\U{0C}", text];
    FormFeedLines(text);
    FormFeedValues(codec, j);
    assert lines[0] in SplitLines(raw) && LineHoldsSecret(codec, lines[0]);
    assert Exported(codec, raw) == redacted + redacted by { ConcatTwo(redacted); }
    assert Printable(codec, Redact(j));
    OneLine(redacted + redacted);
  }

  lemma ConcatTwo(line: string)
    ensures Concat([line, line]) == line + line
  {
    assert [line, line][1..] == [line] && [line][1..] == [];
    assert Concat([line]) == line + "" == line;
  }

  lemma {:induction false} FormFeedValues(codec: Codec, j: Json)
    requires Printable(codec, j) && codec.strip(codec.dump(j) + "\U{0C}") == codec.dump(j)
    ensures var text := codec.dump(j);
            var lines := [text + "\U{0C}", text];
            && ValueOf(codec, lines[0]) == ValueOf(codec, lines[1]) == Some(j)
            && !EndsWithNewline(lines[0])
            && RedactLines(codec, lines) == [codec.dump(Redact(j)), codec.dump(Redact(j))]
  {
    hide HoldsSecret, Redact;
    var text, redacted := codec.dump(j), codec.dump(Redact(j));
    assert text[|text| - 1] in text;
    assert redacted + "" == redacted;
  }

  lemma {:induction false} FormFeedLines(text: string)
    requires text != "" && forall c :: c in text ==> !IsBoundary(c)
    ensures SplitLines(text + "\U{0C}" + text) == [text + "\U{0C}", text]
  {
    var lines := [text + "\U{0C}", text];
    assert lines[1..] == [text] && [text][1..] == [];
    assert text + "" == text && text + "" + "" == text;
    assert Concat(lines[1..]) == text;
    PlainLine(text, "", "");
    PlainLine(text, "\U{0C}", text);
    assert Lines(lines[1..]);
    assert Lines(lines) && Concat(lines) == text + "\U{0C}" + text;
    LinesSplitBack(lines);
  }

  lemma {:induction false} OneLine(text: string)
    requires text != "" && forall c :: c in text ==> !IsBoundary(c)
    ensures SplitLines(text) == [text]
  {
    assert text + "" + "" == text + "" == text;
    PlainLine(text, "", "");
  }
}
