/** Python string comparison, str.split with one separator character, and str.join. */
module Strings {

  /** Python's `a < b` on strings: code point by code point, a proper prefix first. */
  predicate Less(a: string, b: string) {
    if b == "" then false
    else if a == "" then true
    else if a[0] != b[0] then a[0] < b[0]
    else Less(a[1..], b[1..])
  }

  /** Where the strings first differ, or one ends, the smaller one has ended or has the smaller character. */
  lemma {:induction false} LessAtFirstDifference(a: string, b: string)
    ensures Less(a, b) <==>
            exists k :: && 0 <= k <= |a| && k < |b| && a[..k] == b[..k]
                        && (k == |a| || a[k] < b[k])
  {
    if a == "" || b == "" || a[0] != b[0] {
      if Less(a, b) {
        assert a[..0] == b[..0];
      } else {
        forall k | 0 < k <= |a| && k < |b|
          ensures a[..k] != b[..k]
        {
          assert a[..k][0] == a[0] && b[..k][0] == b[0];
        }
      }
    } else {
      LessAtFirstDifference(a[1..], b[1..]);
      if Less(a, b) {
        var k :| && 0 <= k <= |a[1..]| && k < |b[1..]| && a[1..][..k] == b[1..][..k]
                 && (k == |a[1..]| || a[1..][k] < b[1..][k]);
        assert a[..k + 1] == [a[0]] + a[1..][..k] && b[..k + 1] == [b[0]] + b[1..][..k];
      }
      forall k | && 0 <= k <= |a| && k < |b| && a[..k] == b[..k]
                 && (k == |a| || a[k] < b[k])
        ensures Less(a, b)
      {
        assert a[1..][..k - 1] == a[..k][1..] && b[1..][..k - 1] == b[..k][1..];
      }
    }
  }

  lemma {:induction false} LessIrreflexive(a: string)
    ensures !Less(a, a)
  {
    if a != "" { LessIrreflexive(a[1..]); }
  }

  lemma {:induction false} LessTransitive(a: string, b: string, c: string)
    requires Less(a, b) && Less(b, c)
    ensures Less(a, c)
  {
    if a != "" && a[0] == b[0] && b[0] == c[0] {
      LessTransitive(a[1..], b[1..], c[1..]);
    }
  }

  lemma {:induction false} LessTotal(a: string, b: string)
    ensures a == b || Less(a, b) || Less(b, a)
  {
    if a != "" && b != "" && a[0] == b[0] {
      LessTotal(a[1..], b[1..]);
      if a[1..] == b[1..] {
        assert a == [a[0]] + a[1..] && b == [b[0]] + b[1..];
      }
    }
  }

  /** Comparing two strings with prefixes of one length: the prefixes decide unless equal. */
  lemma {:induction false} LessByPrefix(a: string, x: string, b: string, y: string)
    requires |a| == |b|
    ensures Less(a + x, b + y) <==> Less(a, b) || (a == b && Less(x, y))
  {
    if a == "" {
      assert a + x == x && b + y == y;
    } else {
      assert (a + x)[1..] == a[1..] + x && (b + y)[1..] == b[1..] + y;
      LessByPrefix(a[1..], x, b[1..], y);
      assert a == [a[0]] + a[1..] && b == [b[0]] + b[1..];
    }
  }

  lemma EqualByPrefix(a: string, x: string, b: string, y: string)
    requires |a| == |b|
    ensures a + x == b + y <==> a == b && x == y
  {
    assert (a + x)[..|a|] == a && (b + y)[..|b|] == b;
    assert (a + x)[|a|..] == x && (b + y)[|b|..] == y;
  }

  /** The pieces of s between occurrences of sep. */
  function Split(s: string, sep: char): (parts: seq<string>)
    ensures |parts| > 0
  {
    if s == "" then [""]
    else
      var rest := Split(s[1..], sep);
      if s[0] == sep then [""] + rest
      else [[s[0]] + rest[0]] + rest[1..]
  }

  function Join(parts: seq<string>, sep: char): (joined: string)
    requires |parts| > 0
  {
    if |parts| == 1 then parts[0] else parts[0] + [sep] + Join(parts[1..], sep)
  }

  lemma {:induction false} SplitAtSeparator(head: string, tail: string, sep: char)
    requires sep !in head
    ensures Split(head + [sep] + tail, sep) == [head] + Split(tail, sep)
  {
    var s := head + [sep] + tail;
    if head == "" {
      assert s[1..] == tail;
    } else {
      assert s[1..] == head[1..] + [sep] + tail;
      SplitAtSeparator(head[1..], tail, sep);
      assert head == [head[0]] + head[1..];
    }
  }

  lemma {:induction false} SplitWithoutSeparator(s: string, sep: char)
    requires sep !in s
    ensures Split(s, sep) == [s]
  {
    if s == "" {
    } else {
      SplitWithoutSeparator(s[1..], sep);
      assert s == [s[0]] + s[1..];
    }
  }

  /** Splitting inverts joining when no piece contains the separator. */
  lemma {:induction false} SplitInvertsJoin(parts: seq<string>, sep: char)
    requires |parts| > 0 && forall p :: p in parts ==> sep !in p
    ensures Split(Join(parts, sep), sep) == parts
  {
    if |parts| == 1 {
      SplitWithoutSeparator(parts[0], sep);
    } else {
      SplitInvertsJoin(parts[1..], sep);
      SplitAtSeparator(parts[0], Join(parts[1..], sep), sep);
      assert parts == [parts[0]] + parts[1..];
    }
  }

  lemma {:induction false} JoinOnto(x: string, parts: seq<string>, sep: char)
    requires |parts| > 0
    ensures Join([x + parts[0]] + parts[1..], sep) == x + Join(parts, sep)
  {
    var parts' := [x + parts[0]] + parts[1..];
    assert parts'[1..] == parts[1..];
    if |parts| > 1 {
      assert x + (parts[0] + [sep] + Join(parts[1..], sep)) == x + parts[0] + [sep] + Join(parts[1..], sep);
    }
  }

  lemma {:induction false} JoinEmptyFirst(parts: seq<string>, sep: char)
    requires |parts| > 0
    ensures Join([""] + parts, sep) == [sep] + Join(parts, sep)
  {
    assert ([""] + parts)[1..] == parts;
    assert "" + [sep] == [sep];
  }

  /** And joining inverts splitting, into pieces without the separator: for every text there is one way to split it. */
  lemma {:induction false} JoinInvertsSplit(s: string, sep: char)
    ensures Join(Split(s, sep), sep) == s
    ensures forall part :: part in Split(s, sep) ==> sep !in part
  {
    if s == "" {
    } else {
      var rest := Split(s[1..], sep);
      JoinInvertsSplit(s[1..], sep);
      JoinEmptyFirst(rest, sep);
      JoinOnto([s[0]], rest, sep);
      hide Join;
      assert s == [s[0]] + s[1..];
    }
  }

  lemma {:induction false} JoinThree(a: string, b: string, c: string, sep: char)
    ensures Join([a, b, c], sep) == a + [sep] + b + [sep] + c
  {
    assert [a, b, c][1..] == [b, c] && [b, c][1..] == [c];
    assert Join([b, c], sep) == b + [sep] + c;
    assert a + [sep] + (b + [sep] + c) == a + [sep] + b + [sep] + c;
  }

  lemma {:induction false} JoinFour(a: string, b: string, c: string, d: string, sep: char)
    ensures Join([a, b, c, d], sep) == a + [sep] + b + [sep] + c + [sep] + d
  {
    assert [a, b, c, d][1..] == [b, c, d];
    JoinThree(b, c, d, sep);
    assert a + [sep] + (b + [sep] + c + [sep] + d) == a + [sep] + b + [sep] + c + [sep] + d;
  }

  lemma {:induction false} JoinFirst(parts: seq<string>, sep: char)
    requires |parts| > 0
    ensures Join(parts, sep) == if |parts| == 1 then parts[0] else parts[0] + [sep] + Join(parts[1..], sep)
  {
  }
}
