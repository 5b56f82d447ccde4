/**
  Redaction of the usual JSON-lines file, one document to a line: which documents
  reach the archive redacted.
 */
module ExportedDocuments {
  import opened Prelude
  import opened JsonModel
  import opened Redaction
  import opened RedactedFiles

  /** The text of a file with one document to a line. */
  function FileOf(docs: seq<string>): (raw: string) {
    if docs == [] then "" else docs[0] + "\n" + FileOf(docs[1..])
  }

  predicate HasBoundary(d: string) {
    exists k :: 0 <= k < |d| && IsBoundary(d[k])
  }

  ghost predicate DocumentHoldsSecret(codec: Codec, d: string) {
    codec.parse(d).Some? && HoldsSecret(codec.parse(d).value)
  }

  /** A document as it is written to its own line: trimmed, and without the line ends JSON escapes in strings. */
  ghost predicate Trimmed(codec: Codec, d: string) {
    && d != "" && !IsBoundary(d[|d| - 1])
    && '\n' !in d && '\r' !in d
    && codec.strip(d + "\n") == d
  }

  /** The closing bracket of a list or object comes last in a text that strip leaves alone: nothing shorter parses. */
  ghost predicate PrefixesDoNotParse(codec: Codec) {
    forall d: string, n: nat ::
      && n < |d| && codec.strip(d + "\n") == d && codec.parse(d).Some?
      && (codec.parse(d).value.JArray? || codec.parse(d).value.JObject?)
      ==> ValueOf(codec, d[..n]).None?
  }

  // ------------------------------------------------------ document by document

  lemma {:induction false} FirstLineWithin(a: string, b: string)
    ensures FirstLine(a + "\n" + b) == FirstLine(a + "\n") <= |a| + 1
  {
    var s, t := a + "\n", a + "\n" + b;
    if a == "" {
      assert s[0] == t[0] == '\n';
    } else {
      assert s[0] == t[0] == a[0] && s[1] == t[1];
      assert s[1..] == a[1..] + "\n" && t[1..] == a[1..] + "\n" + b;
      FirstLineWithin(a[1..], b);
    }
  }

  lemma {:induction false} SplitStep(line: string, rest: string)
    requires line != "" && FirstLine(line + rest) == |line|
    ensures SplitLines(line + rest) == [line] + SplitLines(rest)
  {
    hide FirstLine;
    var s := line + rest;
    assert s[..|line|] == line && s[|line|..] == rest;
  }

  lemma CutWithin(a: string, b: string, n: nat)
    requires n <= |a|
    ensures a + "\n" == a[..n] + (a[n..] + "\n")
    ensures a + "\n" + b == a[..n] + (a[n..] + "\n" + b)
  {
  }

  /** A newline character always ends a line: what follows it splits on its own. */
  lemma {:induction false} SplitAfterNewline(a: string, b: string)
    ensures SplitLines(a + "\n" + b) == SplitLines(a + "\n") + SplitLines(b)
    decreases |a|
  {
    var s, n := a + "\n", FirstLine(a + "\n");
    FirstLineWithin(a, b);
    assert SplitLines("") == [];
    hide SplitLines, FirstLine;
    if n == |s| {
      assert s + "" == s;
      SplitStep(s, "");
      SplitStep(s, b);
    } else {
      var rest := a[n..];
      CutWithin(a, b, n);
      SplitStep(a[..n], rest + "\n");
      SplitStep(a[..n], rest + "\n" + b);
      SplitAfterNewline(rest, b);
    }
  }

  lemma {:induction false} ConcatConcat(a: seq<string>, b: seq<string>)
    ensures Concat(a + b) == Concat(a) + Concat(b)
  {
    if a == [] {
      assert [] + b == b;
    } else {
      assert (a + b)[0] == a[0] && (a + b)[1..] == a[1..] + b;
      ConcatConcat(a[1..], b);
    }
  }

  lemma RedactLinesConcat(codec: Codec, a: seq<string>, b: seq<string>)
    ensures RedactLines(codec, a + b) == RedactLines(codec, a) + RedactLines(codec, b)
  {
  }

  /** What a document's line, or lines, are redacted to. */
  function Region(codec: Codec, d: string): (text: string) {
    Concat(RedactLines(codec, SplitLines(d + "\n")))
  }

  function Regions(codec: Codec, docs: seq<string>): (text: string) {
    if docs == [] then "" else Region(codec, docs[0]) + Regions(codec, docs[1..])
  }

  /** Redacting a file is redacting its documents one by one. */
  lemma {:induction false} RedactedDocumentByDocument(codec: Codec, docs: seq<string>)
    ensures Concat(RedactLines(codec, SplitLines(FileOf(docs)))) == Regions(codec, docs)
  {
    if docs == [] {
    } else {
      hide SplitLines, RedactLine;
      var first, rest := SplitLines(docs[0] + "\n"), SplitLines(FileOf(docs[1..]));
      SplitAfterNewline(docs[0], FileOf(docs[1..]));
      RedactLinesConcat(codec, first, rest);
      ConcatConcat(RedactLines(codec, first), RedactLines(codec, rest));
      RedactedDocumentByDocument(codec, docs[1..]);
    }
  }

  // ------------------------------------------------------- what is exported

  /** What the archive holds where the original file has document i. */
  ghost function ExportedDocument(codec: Codec, docs: seq<string>, i: nat): (text: string)
    requires i < |docs|
  {
    if AnySecret(codec, FileOf(docs)) then Region(codec, docs[i]) else docs[i] + "\n"
  }

  /** The exported documents of a file, in order. */
  ghost function ExportedParts(codec: Codec, docs: seq<string>): (parts: seq<string>)
    ensures |parts| == |docs|
  {
    seq(|docs|, i requires 0 <= i < |docs| => ExportedDocument(codec, docs, i))
  }

  lemma {:induction false} ConcatRegions(codec: Codec, docs: seq<string>, parts: seq<string>)
    requires |parts| == |docs| && forall i :: 0 <= i < |docs| ==> parts[i] == Region(codec, docs[i])
    ensures Concat(parts) == Regions(codec, docs)
  {
    hide Region;
    if docs == [] {
    } else {
      ConcatRegions(codec, docs[1..], parts[1..]);
    }
  }

  lemma {:induction false} ConcatDocuments(docs: seq<string>, parts: seq<string>)
    requires |parts| == |docs| && forall i :: 0 <= i < |docs| ==> parts[i] == docs[i] + "\n"
    ensures Concat(parts) == FileOf(docs)
  {
    if docs == [] {
    } else {
      ConcatDocuments(docs[1..], parts[1..]);
    }
  }

  /** The exported text is made of the exported documents, in order and with nothing between them. */
  lemma {:induction false} ExportedByDocument(codec: Codec, docs: seq<string>)
    ensures Exported(codec, FileOf(docs)) == Concat(ExportedParts(codec, docs))
  {
    hide Region, Concat, FileOf, SplitLines, AnySecret;
    if AnySecret(codec, FileOf(docs)) {
      RedactedDocumentByDocument(codec, docs);
      ConcatRegions(codec, docs, ExportedParts(codec, docs));
    } else {
      SplitLinesAreLines(FileOf(docs));
      ConcatDocuments(docs, ExportedParts(codec, docs));
    }
  }

  /** A line of a document is a line of the file. */
  lemma {:induction false} LineOfFile(docs: seq<string>, i: nat, line: string)
    requires i < |docs| && line in SplitLines(docs[i] + "\n")
    ensures line in SplitLines(FileOf(docs))
  {
    hide SplitLines;
    SplitAfterNewline(docs[0], FileOf(docs[1..]));
    if i == 0 {
    } else {
      LineOfFile(docs[1..], i - 1, line);
    }
  }

  /** A document free of separators is one line of the file, and is redacted as a whole. */
  lemma {:induction false} UnbrokenDocument(codec: Codec, d: string)
    requires Trimmed(codec, d) && !HasBoundary(d) && codec.parse(d).Some?
    ensures SplitLines(d + "\n") == [d + "\n"]
    ensures ValueOf(codec, d + "\n") == codec.parse(d)
    ensures Region(codec, d) == codec.dump(Redact(codec.parse(d).value)) + "\n"
  {
    forall c | c in d
      ensures !IsBoundary(c)
    {
      var k :| 0 <= k < |d| && d[k] == c;
      assert !IsBoundary(d[k]);
    }
    assert d + "\n" + "" == d + "\n";
    PlainLine(d, "\n", "");
    SplitStep(d + "\n", "");
    assert SplitLines("") == [];
    hide SplitLines, FirstLine, IsBoundary, Redact;
    var out := RedactLine(codec, d + "\n");
    assert RedactLines(codec, [d + "\n"]) == [out];
    assert Concat([out]) == out + Concat([]) == out by { assert [out][1..] == []; }
  }

  /** A separator inside a trimmed document ends a first line short of the document's end. */
  lemma {:induction false} FirstBreak(d: string)
    requires d != "" && HasBoundary(d) && !IsBoundary(d[|d| - 1]) && '\n' !in d && '\r' !in d
    ensures var n := FirstLine(d + "\n"); n < |d| && IsBoundary(d[n - 1])
  {
    var s := d + "\n";
    assert s[0] == d[0] && d[0] in d;
    if IsBoundary(d[0]) {
    } else {
      var k :| 0 <= k < |d| && IsBoundary(d[k]);
      assert d[1..][k - 1] == d[k];
      assert s[1..] == d[1..] + "\n";
      FirstBreak(d[1..]);
    }
  }

  lemma SecretsAreInContainers(j: Json)
    requires HoldsSecret(j)
    ensures j.JArray? || j.JObject?
  {
    var path :| SecretAt(j, path);
  }

  /** A first line that does not parse is exported as it stands. */
  lemma {:induction false} FirstLineVerbatim(codec: Codec, s: string)
    requires s != "" && ValueOf(codec, s[..FirstLine(s)]).None?
    ensures s[..FirstLine(s)] <= Concat(RedactLines(codec, SplitLines(s)))
  {
    hide ValueOf, FirstLine, SplitLines;
    var n := FirstLine(s);
    var line, rest := s[..n], SplitLines(s[n..]);
    assert s == line + s[n..];
    SplitStep(line, s[n..]);
    RedactLinesConcat(codec, [line], rest);
    ConcatConcat(RedactLines(codec, [line]), RedactLines(codec, rest));
    assert RedactLines(codec, [line]) == [line];
    assert Concat([line]) == line + Concat([]) == line by { assert [line][1..] == []; }
  }

  lemma PrefixDoesNotParse(codec: Codec, d: string, n: nat)
    requires PrefixesDoNotParse(codec) && codec.strip(d + "\n") == d && DocumentHoldsSecret(codec, d) && n < |d|
    ensures ValueOf(codec, d[..n]).None?
  {
    SecretsAreInContainers(codec.parse(d).value);
  }

  lemma {:induction false} UnparsedStart(codec: Codec, d: string, n: nat)
    requires d != "" && n == FirstLine(d + "\n") < |d| && ValueOf(codec, d[..n]).None?
    ensures d[..n] <= Region(codec, d)
  {
    hide ValueOf, FirstLine, SplitLines, RedactLines, Concat;
    assert (d + "\n")[..n] == d[..n];
    FirstLineVerbatim(codec, d + "\n");
  }

  /** A document broken by a separator starts with such a line. */
  lemma {:induction false} BrokenDocument(codec: Codec, d: string)
    requires PrefixesDoNotParse(codec) && Trimmed(codec, d) && HasBoundary(d) && DocumentHoldsSecret(codec, d)
    ensures var n := FirstLine(d + "\n"); n < |d| && IsBoundary(d[n - 1]) && d[..n] <= Region(codec, d)
  {
    hide HasBoundary, DocumentHoldsSecret, PrefixesDoNotParse, FirstLine, IsBoundary, ValueOf, Region;
    FirstBreak(d);
    PrefixDoesNotParse(codec, d, FirstLine(d + "\n"));
    UnparsedStart(codec, d, FirstLine(d + "\n"));
  }

  /** A text that starts with a broken document's first line is no redacted document. */
  lemma PieceIsNotRedacted(codec: Codec, j: Json, text: string, piece: string)
    requires Printable(codec, j)
    requires piece != "" && piece <= text && IsBoundary(piece[|piece| - 1]) && piece[|piece| - 1] != '\n'
    ensures text != codec.dump(j) + "\n"
  {
    var k, dumped := |piece| - 1, codec.dump(j);
    assert text[k] == piece[k];
    if k < |dumped| {
      assert dumped[k] in dumped;
      assert (dumped + "\n")[k] == dumped[k];
    }
  }

  /** Each secret-holding document has json.dumps of its redacted value for its part of the archived text. */
  ghost predicate EverySecretDocumentRedacted(codec: Codec, parts: seq<string>, docs: seq<string>)
    requires |parts| == |docs|
  {
    forall i: nat :: i < |docs| && DocumentHoldsSecret(codec, docs[i]) ==>
                       parts[i] == codec.dump(Redact(codec.parse(docs[i]).value)) + "\n"
  }

  lemma SecretDocumentRedactedIff(codec: Codec, docs: seq<string>, i: nat)
    requires Lawful(codec) && PrefixesDoNotParse(codec)
    requires i < |docs| && DocumentHoldsSecret(codec, docs[i]) && Trimmed(codec, docs[i])
    ensures ExportedDocument(codec, docs, i) == codec.dump(Redact(codec.parse(docs[i]).value)) + "\n"
       <==> !HasBoundary(docs[i])
  {
    hide FileOf, SplitLines, FirstLine, Redact, HoldsSecret, Region;
    var d := docs[i];
    var j := codec.parse(d).value;
    if HasBoundary(d) {
      BrokenDocument(codec, d);
      var n := FirstLine(d + "\n");
      assert d[n - 1] in d;
      PieceIsNotRedacted(codec, Redact(j), ExportedDocument(codec, docs, i), d[..n]);
    } else {
      UnbrokenDocument(codec, d);
      LineOfFile(docs, i, d + "\n");
      assert LineHoldsSecret(codec, d + "\n");
    }
  }

  /**
    Which files are exported redacted: the exported text is the exported
    documents one after the other, and in it every document that holds a secret is
    replaced by its redacted form exactly when none of those documents contains a
    separator other than the newline that str.splitlines also breaks at, as JSON
    allows inside strings.
   */
  lemma {:induction false} SecretsRedactedIffUnbroken(codec: Codec, docs: seq<string>)
    requires Lawful(codec) && PrefixesDoNotParse(codec)
    requires forall i: nat :: i < |docs| && DocumentHoldsSecret(codec, docs[i]) ==> Trimmed(codec, docs[i])
    ensures Exported(codec, FileOf(docs)) == Concat(ExportedParts(codec, docs))
    ensures EverySecretDocumentRedacted(codec, ExportedParts(codec, docs), docs) <==>
            forall i: nat :: i < |docs| && DocumentHoldsSecret(codec, docs[i]) ==> !HasBoundary(docs[i])
  {
    ExportedByDocument(codec, docs);
    hide HoldsSecret, HasBoundary, ExportedDocument, Trimmed, Lawful, PrefixesDoNotParse, Redact;
    forall i: nat | i < |docs| && DocumentHoldsSecret(codec, docs[i])
      ensures ExportedDocument(codec, docs, i) == codec.dump(Redact(codec.parse(docs[i]).value)) + "\n"
         <==> !HasBoundary(docs[i])
    {
      SecretDocumentRedactedIff(codec, docs, i);
    }
  }

  // ------------------------------------------------------------- an instance

  /** A document with a credential and, elsewhere, a line separator inside a string. */
  const SECRET_DOCUMENT :=
    JObject([Member("api_key", JString("sk")), Member("n", JString("a\U{2028}b"))])

  /** The document as compact JSON without escapes: up to the separator, the separator, and the rest. */
  const BEFORE_SEPARATOR := "{\"api_key\":\"sk\",\"n\":\"a"
  const AFTER_SEPARATOR := "b\"}"
  const PERSISTED := BEFORE_SEPARATOR + "\U{2028}" + AFTER_SEPARATOR

  /** The document, and its redacted form, as json.dumps writes them. */
  const DUMPED := "{\"api_key\": \"sk\", \"n\": \"a\\u2028b\"}"
  const DUMPED_REDACTED := "{\"api_key\": \"**********\", \"n\": \"a\\u2028b\"}"

  lemma SecretDocumentHoldsSecret()
    ensures HoldsSecret(SECRET_DOCUMENT) && Redact(SECRET_DOCUMENT) != SECRET_DOCUMENT
  {
    assert [0][1..] == [];
    assert At(SECRET_DOCUMENT, [0]) == Some(JString("sk"));
    assert SecretAt(SECRET_DOCUMENT, [0]);
    ChangesIffSecret(SECRET_DOCUMENT);
  }

  /** That document, alone on its line, is exported as it stands, credential included. */
  lemma SeparatorKeepsSecret(codec: Codec)
    requires codec.parse(PERSISTED) == Some(SECRET_DOCUMENT)
    requires ValueOf(codec, BEFORE_SEPARATOR + "\U{2028}").None? && ValueOf(codec, AFTER_SEPARATOR + "\n").None?
    ensures DocumentHoldsSecret(codec, PERSISTED)
    ensures SplitLines(PERSISTED + "\n") == [BEFORE_SEPARATOR + "\U{2028}", AFTER_SEPARATOR + "\n"]
    ensures Exported(codec, PERSISTED + "\n") == PERSISTED + "\n"
  {
    SecretDocumentHoldsSecret();
    PersistedLines();
    hide SplitLines, ValueOf, HoldsSecret;
    assert !AnySecret(codec, PERSISTED + "\n");
    assert Concat(SplitLines(PERSISTED + "\n")) == PERSISTED + "\n" by { SplitLinesAreLines(PERSISTED + "\n"); }
  }

  lemma NoBoundaries()
    ensures forall c :: c in BEFORE_SEPARATOR ==> !IsBoundary(c)
    ensures forall c :: c in AFTER_SEPARATOR ==> !IsBoundary(c)
    ensures forall c :: c in DUMPED ==> !IsBoundary(c)
    ensures forall c :: c in DUMPED_REDACTED ==> !IsBoundary(c)
  {
  }

  lemma PersistedLines()
    ensures SplitLines(PERSISTED + "\n") == [BEFORE_SEPARATOR + "\U{2028}", AFTER_SEPARATOR + "\n"]
  {
    NoBoundaries();
    var first, rest := BEFORE_SEPARATOR + "\U{2028}", AFTER_SEPARATOR + "\n";
    PlainLine(BEFORE_SEPARATOR, "\U{2028}", rest);
    PlainLine(AFTER_SEPARATOR, "\n", "");
    assert rest + "" == rest && PERSISTED + "\n" == first + rest;
    SplitStep(first, rest);
    SplitStep(rest, "");
  }

  function SampleParse(text: string): (j: Option<Json>) {
    if text == PERSISTED || text == PERSISTED + "\n" || text == DUMPED then Some(SECRET_DOCUMENT)
    else if text == DUMPED_REDACTED then Some(Redact(SECRET_DOCUMENT))
    else None
  }

  function SampleDump(j: Json): (text: string) {
    if j == SECRET_DOCUMENT then DUMPED else DUMPED_REDACTED
  }

  /** Drops the trailing separators. */
  function SampleStrip(text: string): (stripped: string)
    ensures stripped <= text
    ensures stripped != "" ==> !IsBoundary(stripped[|stripped| - 1])
  {
    if text != "" && IsBoundary(text[|text| - 1]) then SampleStrip(text[..|text| - 1]) else text
  }

  /** A codec that knows these three texts only, and like json.loads accepts one of them with white space after it. */
  const SAMPLE := Codec(SampleParse, SampleDump, SampleStrip)

  /** The three texts differ in their fourteenth character, and end in a bracket. */
  lemma ThreeTexts()
    ensures |PERSISTED| > 14 && |DUMPED| > 14 && |DUMPED_REDACTED| > 14
    ensures PERSISTED[13] == 'k' && DUMPED[13] == 's' && DUMPED_REDACTED[13] == '*'
    ensures PERSISTED[|PERSISTED| - 1] == DUMPED[|DUMPED| - 1] == DUMPED_REDACTED[|DUMPED_REDACTED| - 1] == '}'
  {
    assert AFTER_SEPARATOR[2] == '}' && |AFTER_SEPARATOR| == 3;
    assert |BEFORE_SEPARATOR| > 14 && BEFORE_SEPARATOR[13] == 'k';
  }

  lemma {:induction false} StripDropsOne(text: string, c: char)
    requires IsBoundary(c)
    requires text != "" ==> !IsBoundary(text[|text| - 1])
    ensures SampleStrip(text + [c]) == text
  {
    assert (text + [c])[..|text|] == text;
  }

  lemma SamplePrintable(j: Json)
    requires j == SECRET_DOCUMENT || j == Redact(SECRET_DOCUMENT)
    ensures Printable(SAMPLE, j)
  {
    SecretDocumentHoldsSecret();
    NoBoundaries();
    ThreeTexts();
    StripDropsOne(SampleDump(j), '\n');
    hide IsBoundary, Redact, HoldsSecret;
    assert !IsBoundary('}') by { assert '}' in AFTER_SEPARATOR by { assert AFTER_SEPARATOR[2] == '}'; } }
  }

  lemma SampleLawful()
    ensures Lawful(SAMPLE)
  {
    hide Printable, HoldsSecret, Redact;
    RedactIsIdempotent(SECRET_DOCUMENT);
    SamplePrintable(Redact(SECRET_DOCUMENT));
  }

  /** No unpadded text is a known one extended. */
  lemma KnownCutShort(d: string, s: string)
    requires d == PERSISTED || d == DUMPED || d == DUMPED_REDACTED
    requires s <= d && |s| < |d|
    ensures SampleParse(s) == None
  {
    ThreeTexts();
    hide Redact;
    assert |s| > 13 ==> s[13] == d[13];
    assert |PERSISTED + "\n"| == |PERSISTED| + 1 && (PERSISTED + "\n")[13] == PERSISTED[13];
  }

  lemma {:induction false} Unpadded(d: string)
    requires d != "" && SampleStrip(d + "\n") == d && SampleParse(d).Some?
    ensures d == PERSISTED || d == DUMPED || d == DUMPED_REDACTED
  {
    hide Redact, SampleStrip;
    assert (PERSISTED + "\n")[|PERSISTED|] == '\n';
  }

  lemma {:induction false} SampleValue(line: string)
    ensures SampleParse(SampleStrip(line)) == None ==> ValueOf(SAMPLE, line) == None
  {
    hide Redact, SampleStrip, SampleParse;
  }

  /** No text the codec knows, and strip leaves alone, is another one extended. */
  lemma {:induction false} SamplePrefixes(d: string, n: nat)
    requires n < |d| && SampleStrip(d + "\n") == d && SampleParse(d).Some?
    ensures ValueOf(SAMPLE, d[..n]).None?
  {
    hide *;
    Unpadded(d);
    KnownCutShort(d, SampleStrip(d[..n]));
    assert ValueOf(SAMPLE, d[..n]) == None by { SampleValue(d[..n]); }
  }

  lemma SamplePersisted()
    ensures Trimmed(SAMPLE, PERSISTED) && DocumentHoldsSecret(SAMPLE, PERSISTED) && HasBoundary(PERSISTED)
  {
    SecretDocumentHoldsSecret();
    NoBoundaries();
    ThreeTexts();
    StripDropsOne(PERSISTED, '\n');
    hide Redact, HoldsSecret, SampleStrip;
    assert IsBoundary(PERSISTED[|BEFORE_SEPARATOR|]);
    assert '\n' !in PERSISTED && '\r' !in PERSISTED;
  }

  lemma SampleDumped()
    ensures Trimmed(SAMPLE, DUMPED) && DocumentHoldsSecret(SAMPLE, DUMPED) && !HasBoundary(DUMPED)
    ensures SAMPLE.strip(DUMPED + "\U{0C}") == DUMPED
  {
    SecretDocumentHoldsSecret();
    NoBoundaries();
    ThreeTexts();
    StripDropsOne(DUMPED, '\n');
    StripDropsOne(DUMPED, '\U{0C}');
    hide Redact, HoldsSecret, SampleStrip;
    assert '\n' !in DUMPED && '\r' !in DUMPED;
  }

  lemma SamplePieces()
    ensures ValueOf(SAMPLE, BEFORE_SEPARATOR + "\U{2028}").None?
    ensures ValueOf(SAMPLE, AFTER_SEPARATOR + "\n").None?
  {
    ThreeTexts();
    StripDropsOne(BEFORE_SEPARATOR, '\U{2028}');
    StripDropsOne(AFTER_SEPARATOR, '\n');
    hide Redact, SampleStrip, IsBoundary;
    assert |AFTER_SEPARATOR| == 3 && |BEFORE_SEPARATOR| < |PERSISTED|;
    assert BEFORE_SEPARATOR[13] == PERSISTED[13];
  }

  /** The laws assumed of json and str can be met, together with every other hypothesis made here. */
  lemma SampleIsLawful()
    ensures Lawful(SAMPLE) && PrefixesDoNotParse(SAMPLE)
    ensures Trimmed(SAMPLE, PERSISTED) && DocumentHoldsSecret(SAMPLE, PERSISTED) && HasBoundary(PERSISTED)
    ensures Trimmed(SAMPLE, DUMPED) && DocumentHoldsSecret(SAMPLE, DUMPED) && !HasBoundary(DUMPED)
    ensures Printable(SAMPLE, SECRET_DOCUMENT) && SAMPLE.strip(DUMPED + "\U{0C}") == DUMPED
    ensures SAMPLE.parse(PERSISTED + "\n") == SAMPLE.parse(PERSISTED) == Some(SECRET_DOCUMENT)
    ensures ValueOf(SAMPLE, BEFORE_SEPARATOR + "\U{2028}").None? && ValueOf(SAMPLE, AFTER_SEPARATOR + "\n").None?
  {
    hide Lawful, Trimmed, DocumentHoldsSecret, HasBoundary, Printable, ValueOf;
    SampleLawful();
    SamplePersisted();
    SampleDumped();
    SamplePrintable(SECRET_DOCUMENT);
    SamplePieces();
    forall d: string, n: nat | n < |d| && SAMPLE.strip(d + "\n") == d && SAMPLE.parse(d).Some?
      ensures ValueOf(SAMPLE, d[..n]).None?
    {
      SamplePrefixes(d, n);
    }
  }
}
