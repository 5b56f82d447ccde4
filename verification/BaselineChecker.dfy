/**
  The forbidden-attribute baseline: a multiset of known calls that checked code
  may not exceed, and that may only shrink from commit to commit.
 */
module BaselineChecker {
  import opened Prelude

  const SDK_ROOT := "suricate-sdk/"
  const PYTHON_SUFFIX := ".py"

  datatype Key = Key(file: string, name: string, digest: string)

  datatype Violation = Violation(line: nat, name: string, digest: string)

  datatype Entry = Entry(key: Key, line: nat)

  type Baseline = multiset<Key>

  /** A checkout: the violations of each source file, and the other paths that exist. */
  datatype Tree = Tree(sources: map<string, seq<Violation>>, others: set<string>)

  predicate Exists(tree: Tree, path: string) {
    path in tree.sources || path in tree.others
  }

  predicate IsSdkSource(path: string) {
    && SDK_ROOT <= path
    && |path| >= |PYTHON_SUFFIX| && path[|path| - |PYTHON_SUFFIX|..] == PYTHON_SUFFIX
  }

  /** Everything named like an SDK source is one that can be read and parsed. */
  ghost predicate WellFormed(tree: Tree) {
    forall p :: p in tree.others ==> !IsSdkSource(p)
  }

  /** Every Python file anywhere below the SDK root, and nothing else. */
  lemma SdkSourcesByPath(path: string)
    ensures IsSdkSource(path) <==> exists below :: path == "suricate-sdk/" + below + ".py"
  {
    var cut := |path| - 3;
    if IsSdkSource(path) {
      assert path[cut] == path[cut..][0] == '.' && path[cut + 1] == path[cut..][1] == 'p';
      assert path[12] == SDK_ROOT[12] == '/' && path[11] == SDK_ROOT[11] == 'k';
      assert cut >= 13;
      assert path == "suricate-sdk/" + path[13..cut] + ".py";
    }
    forall below | path == "suricate-sdk/" + below + ".py"
      ensures IsSdkSource(path)
    {
      assert path[cut..] == ".py";
    }
  }

  // --------------------------------------------------------- current entries

  function FileEntries(path: string, vs: seq<Violation>): (es: seq<Entry>)
    ensures |es| == |vs|
  {
    seq(|vs|, i requires 0 <= i < |vs| => Entry(Key(path, vs[i].name, vs[i].digest), vs[i].line))
  }

  /** All violations across the paths, in path order. */
  function Entries(tree: Tree, paths: seq<string>): (entries: seq<Entry>)
    requires forall p :: p in paths ==> p in tree.sources
  {
    if paths == [] then []
    else Entries(tree, paths[..|paths| - 1]) + FileEntries(paths[|paths| - 1], tree.sources[paths[|paths| - 1]])
  }

  function Keys(entries: seq<Entry>): (keys: multiset<Key>) {
    if entries == [] then multiset{}
    else Keys(entries[..|entries| - 1]) + multiset{entries[|entries| - 1].key}
  }

  lemma {:induction false} KeysOfOneMore(entries: seq<Entry>, e: Entry)
    ensures Keys(entries + [e]) == Keys(entries) + multiset{e.key}
  {
    assert (entries + [e])[..|entries|] == entries;
  }

  /** The lines of a file on which a call with this name and digest was found. */
  function Occurrences(vs: seq<Violation>, name: string, digest: string): (lines: seq<nat>) {
    if vs == [] then []
    else
      var last := vs[|vs| - 1];
      Occurrences(vs[..|vs| - 1], name, digest) +
      (if last.name == name && last.digest == digest then [last.line] else [])
  }

  /** How often a checkout contains a call: the occurrences of its name and digest in its own file. */
  ghost function CountIn(tree: Tree, k: Key): (count: nat) {
    if k.file in tree.sources then |Occurrences(tree.sources[k.file], k.name, k.digest)| else 0
  }

  /** The lines of the entries under one key. */
  function LinesOf(entries: seq<Entry>, k: Key): (lines: seq<nat>) {
    if entries == [] then []
    else
      var last := entries[|entries| - 1];
      LinesOf(entries[..|entries| - 1], k) + (if last.key == k then [last.line] else [])
  }

  lemma {:induction false} LinesCountKeys(entries: seq<Entry>, k: Key)
    ensures |LinesOf(entries, k)| == Keys(entries)[k]
  {
    if entries == [] {
    } else {
      LinesCountKeys(entries[..|entries| - 1], k);
    }
  }

  /** A file's entries are its violations: under a key of that file, the lines of its name and digest. */
  lemma {:induction false} FileEntriesAreItsViolations(path: string, vs: seq<Violation>, k: Key)
    ensures LinesOf(FileEntries(path, vs), k) == if k.file == path then Occurrences(vs, k.name, k.digest) else []
    ensures Keys(FileEntries(path, vs))[k] == if k.file == path then |Occurrences(vs, k.name, k.digest)| else 0
  {
    LinesCountKeys(FileEntries(path, vs), k);
    if vs == [] {
    } else {
      var rest := vs[..|vs| - 1];
      FileEntriesAreItsViolations(path, rest, k);
      assert FileEntries(path, vs)[..|vs| - 1] == FileEntries(path, rest);
    }
  }

  ghost predicate DistinctPaths(paths: seq<string>) {
    forall i, j :: 0 <= i < j < |paths| ==> paths[i] != paths[j]
  }

  lemma {:induction false} LinesOfConcat(a: seq<Entry>, b: seq<Entry>, k: Key)
    ensures LinesOf(a + b, k) == LinesOf(a, k) + LinesOf(b, k)
  {
    if b == [] {
      assert a + b == a;
    } else {
      var rest, last := b[..|b| - 1], b[|b| - 1];
      LinesOfConcat(a, rest, k);
      assert (a + b)[..|a + b| - 1] == a + rest && (a + b)[|a + b| - 1] == last;
    }
  }

  /** Over distinct paths each key stands for its occurrences in its own file, line by line, and for nothing else. */
  lemma {:induction false} EntriesCountEachFileOnce(tree: Tree, paths: seq<string>, k: Key)
    requires forall p :: p in paths ==> p in tree.sources
    requires DistinctPaths(paths)
    ensures LinesOf(Entries(tree, paths), k) ==
            if k.file in paths then Occurrences(tree.sources[k.file], k.name, k.digest) else []
    ensures Keys(Entries(tree, paths))[k] == if k.file in paths then CountIn(tree, k) else 0
  {
    hide Occurrences, Keys, LinesOf, FileEntries;
    if paths == [] {
      NoEntries(k);
    } else {
      var rest, last := paths[..|paths| - 1], paths[|paths| - 1];
      EntriesCountEachFileOnce(tree, rest, k);
      LinesOfConcat(Entries(tree, rest), FileEntries(last, tree.sources[last]), k);
      assert last !in rest;
      assert forall p :: p in paths <==> p in rest || p == last;
      FileEntriesAreItsViolations(last, tree.sources[last], k);
    }
    LinesCountKeys(Entries(tree, paths), k);
  }

  lemma {:induction false} NoEntries(k: Key)
    ensures LinesOf([], k) == [] && Keys([])[k] == 0
  {
  }

  /** The two nested loops that collect the entries. */
  method CurrentEntries(tree: Tree, paths: seq<string>) returns (entries: seq<Entry>)
    requires forall p :: p in paths ==> p in tree.sources
    ensures entries == Entries(tree, paths)
  {
    entries := [];
    var i := 0;
    while i < |paths|
      invariant 0 <= i <= |paths|
      invariant entries == Entries(tree, paths[..i])
    {
      var vs := tree.sources[paths[i]];
      ghost var before := entries;
      var j := 0;
      while j < |vs|
        invariant 0 <= j <= |vs|
        invariant entries == before + FileEntries(paths[i], vs)[..j]
      {
        entries := entries + [Entry(Key(paths[i], vs[j].name, vs[j].digest), vs[j].line)];
        j := j + 1;
      }
      assert paths[..i + 1][..i] == paths[..i];
      i := i + 1;
    }
    assert paths[..|paths|] == paths;
  }

  // ------------------------------------------------------------ the check

  /** The occurrences to report: of each key the first ones, as many as are in excess. */
  function Report(current: seq<Entry>, excess: multiset<Key>): (reported: seq<Entry>) {
    if current == [] then []
    else
      var rest, last := current[..|current| - 1], current[|current| - 1];
      Report(rest, excess) + (if Keys(rest)[last.key] < excess[last.key] then [last] else [])
  }

  function Min(a: nat, b: nat): (least: nat) {
    if a < b then a else b
  }

  /** Reported are the first occurrences: of the lines found under a key, as many from the front as are in excess. */
  lemma {:induction false} FirstLinesAreReported(current: seq<Entry>, excess: multiset<Key>, k: Key)
    ensures Min(|LinesOf(current, k)|, excess[k]) <= |LinesOf(current, k)|
    ensures LinesOf(Report(current, excess), k) == LinesOf(current, k)[..Min(|LinesOf(current, k)|, excess[k])]
  {
    if current == [] {
    } else {
      var rest, last := current[..|current| - 1], current[|current| - 1];
      assert rest + [last] == current;
      assert LinesOf(current, k) == LinesOf(rest, k) + (if last.key == k then [last.line] else []);
      hide Report, Keys, LinesOf;
      FirstLinesAreReported(rest, excess, k);
      LinesCountKeys(rest, k);
      ReportLines(rest, last, excess, k);
      FrontGrows(LinesOf(rest, k), last.line, excess[k]);
    }
  }

  lemma FrontGrows(lines: seq<nat>, line: nat, n: nat)
    ensures (lines + [line])[..Min(|lines| + 1, n)] ==
            lines[..Min(|lines|, n)] + (if |lines| < n then [line] else [])
  {
  }

  lemma {:induction false} ReportCounts(current: seq<Entry>, excess: multiset<Key>, k: Key)
    ensures Keys(Report(current, excess))[k] == Min(Keys(current)[k], excess[k])
  {
    hide Report, Keys, LinesOf;
    FirstLinesAreReported(current, excess, k);
    LinesCountKeys(current, k);
    LinesCountKeys(Report(current, excess), k);
  }

  lemma {:induction false} ReportLines(rest: seq<Entry>, last: Entry, excess: multiset<Key>, k: Key)
    ensures LinesOf(Report(rest + [last], excess), k) ==
            LinesOf(Report(rest, excess), k) +
            (if last.key == k && Keys(rest)[k] < excess[k] then [last.line] else [])
  {
    ReportOfOneMore(rest, last, excess);
    var reported := Report(rest, excess);
    if Keys(rest)[last.key] < excess[last.key] {
      assert (reported + [last])[..|reported|] == reported;
    } else {
      assert reported + [] == reported;
    }
  }

  /** Each key is reported at the first of its lines, exactly as often as its occurrences exceed the baseline. */
  lemma {:induction false} ReportedExactlyTheExcess(current: seq<Entry>, baseline: Baseline, k: Key)
    ensures var (cur, reported) := (Keys(current)[k], Report(current, Keys(current) - baseline));
            var excess := if cur > baseline[k] then cur - baseline[k] else 0;
            && Keys(reported)[k] == excess
            && excess <= |LinesOf(current, k)| && LinesOf(reported, k) == LinesOf(current, k)[..excess]
  {
    hide Report, Keys, LinesOf;
    ReportCounts(current, Keys(current) - baseline, k);
    LinesCountKeys(current, k);
    FirstLinesAreReported(current, Keys(current) - baseline, k);
  }

  lemma {:induction false} ReportOfOneMore(entries: seq<Entry>, e: Entry, excess: multiset<Key>)
    ensures Report(entries + [e], excess) ==
            Report(entries, excess) + (if Keys(entries)[e.key] < excess[e.key] then [e] else [])
  {
    assert (entries + [e])[..|entries|] == entries;
  }

  /** The loop's test on the decremented counter asks whether this occurrence is one of the first in excess. */
  lemma {:induction false} CounterTestMeansExcess(
    counter: multiset<Key>, done: seq<Entry>, current: multiset<Key>, baseline: Baseline, k: Key)
    requires Balanced(counter, Report(done, current - baseline), current)
    ensures counter[k] > baseline[k] <==> Keys(done)[k] < (current - baseline)[k]
  {
    hide Report, Keys;
    ReportCounts(done, current - baseline, k);
  }

  /** What is left in the counter plus what was reported is what there was. */
  ghost predicate Balanced(counter: multiset<Key>, reported: seq<Entry>, current: multiset<Key>) {
    forall k :: counter[k] + Keys(reported)[k] == current[k]
  }

  lemma DecrementKeepsBalance(counter: multiset<Key>, reported: seq<Entry>, current: multiset<Key>, e: Entry)
    requires Balanced(counter, reported, current) && counter[e.key] > 0
    ensures Balanced(counter[e.key := counter[e.key] - 1], reported + [e], current)
  {
    hide Keys;
    KeysOfOneMore(reported, e);
  }

  lemma {:induction false} BalanceAtTheEnd(counter: multiset<Key>, current: seq<Entry>, baseline: Baseline)
    requires Balanced(counter, Report(current, Keys(current) - baseline), Keys(current))
    ensures forall k :: counter[k] == Min(Keys(current)[k], baseline[k])
  {
    hide Keys, Report;
    forall k
      ensures counter[k] == Min(Keys(current)[k], baseline[k])
    {
      ReportedExactlyTheExcess(current, baseline, k);
    }
  }

  /**
    The loop that reports new violations and decrements the very counter it
    tests. What is left in the counter is the smaller of both counts per key.
   */
  method NewViolations(current: seq<Entry>, baseline: Baseline) returns (reported: seq<Entry>, counter: multiset<Key>)
    ensures reported == Report(current, Keys(current) - baseline)
    ensures forall k :: counter[k] == Min(Keys(current)[k], baseline[k])
  {
    hide Report, Keys, Balanced, Min;
    counter := Keys(current);
    reported := [];
    ghost var excess := Keys(current) - baseline;
    NothingToReport(current, excess);
    var i := 0;
    while i < |current|
      invariant 0 <= i <= |current|
      invariant reported == Report(current[..i], excess)
      invariant Balanced(counter, reported, Keys(current))
    {
      var key := current[i].key;
      assert current[..i + 1] == current[..i] + [current[i]];
      ReportOfOneMore(current[..i], current[i], excess);
      CounterTestMeansExcess(counter, current[..i], Keys(current), baseline, key);
      if counter[key] > baseline[key] {
        DecrementKeepsBalance(counter, reported, Keys(current), current[i]);
        reported := reported + [current[i]];
        counter := counter[key := counter[key] - 1];
      }
      i := i + 1;
    }
    assert current[..|current|] == current;
    BalanceAtTheEnd(counter, current, baseline);
  }

  lemma {:induction false} NothingToReport(current: seq<Entry>, excess: multiset<Key>)
    ensures Report(current[..0], excess) == [] && Balanced(Keys(current), [], Keys(current))
  {
  }

  /** Baseline entries the code no longer has, in files that were checked or are gone. */
  ghost function Stale(tree: Tree, paths: seq<string>, baseline: Baseline): (stale: set<Key>)
    requires forall p :: p in paths ==> p in tree.sources
  {
    set k | k in baseline && baseline[k] > Keys(Entries(tree, paths))[k] && (k.file in paths || !Exists(tree, k.file))
  }

  method StaleEntries(tree: Tree, paths: seq<string>, baseline: Baseline, counter: multiset<Key>)
    returns (stale: set<Key>)
    ensures stale == set k | k in baseline && baseline[k] > counter[k] && (k.file in paths || !Exists(tree, k.file))
  {
    var missing := baseline - counter;
    stale := set k | k in missing && (k.file in paths || !Exists(tree, k.file));
  }

  /** Staleness read off the decremented counter is staleness of the true counts. */
  lemma {:induction false} DecrementingDoesNotHideStaleness(
    tree: Tree, paths: seq<string>, baseline: Baseline, counter: multiset<Key>)
    requires forall p :: p in paths ==> p in tree.sources
    requires forall k :: counter[k] == Min(Keys(Entries(tree, paths))[k], baseline[k])
    ensures Stale(tree, paths, baseline) ==
            set k | k in baseline && baseline[k] > counter[k] && (k.file in paths || !Exists(tree, k.file))
  {
    hide Keys, Entries, Exists;
    forall k
      ensures baseline[k] > counter[k] <==> baseline[k] > Keys(Entries(tree, paths))[k]
    {
    }
  }

  ghost predicate Passes(tree: Tree, paths: seq<string>, baseline: Baseline, reference: Option<Baseline>)
    requires forall p :: p in paths ==> p in tree.sources
  {
    && (reference.Some? ==> baseline - reference.value == multiset{})
    && Report(Entries(tree, paths), Keys(Entries(tree, paths)) - baseline) == []
    && Stale(tree, paths, baseline) == {}
  }

  /** The committed baseline file and the command that checks or rewrites it. */
  class BaselineFile {
    var entries: Baseline

    constructor (entries: Baseline)
      ensures this.entries == entries
    {
      this.entries := entries;
    }

    /** Exit status of one invocation; no paths means every SDK source. */
    method Run(tree: Tree, args: seq<string>, update: bool, reference: Option<Baseline>)
      returns (code: int, ghost paths: seq<string>)
      requires forall p :: p in args ==> p in tree.sources
      modifies this
      ensures if args != [] then paths == args
              else DistinctPaths(paths) && forall p :: p in paths <==> p in tree.sources && IsSdkSource(p)
      ensures update && reference.Some? ==> code == 2 && unchanged(this)
      ensures update && reference.None? ==> code == 0 && entries == Keys(Entries(tree, paths))
      ensures !update ==> unchanged(this) && (code == 0 || code == 1)
      ensures !update ==> (code == 0 <==> Passes(tree, paths, entries, reference))
    {
      hide Keys, Entries, Report, Stale, Exists, IsSdkSource;
      var checked := args;
      if args == [] {
        checked := DiscoverSdkFiles(tree);
      }
      paths := checked;
      if update && reference.Some? {
        return 2, paths;
      }
      if reference.Some? {
        var additions := entries - reference.value;
        if additions != multiset{} {
          return 1, paths;
        }
      }
      var current := CurrentEntries(tree, checked);
      if update {
        entries := Keys(current);
        return 0, paths;
      }
      var reported, counter := NewViolations(current, entries);
      var stale := StaleEntries(tree, checked, entries, counter);
      DecrementingDoesNotHideStaleness(tree, checked, entries, counter);
      code := if reported != [] || stale != {} then 1 else 0;
    }
  }

  method DiscoverSdkFiles(tree: Tree) returns (paths: seq<string>)
    ensures DistinctPaths(paths)
    ensures forall p :: p in paths <==> p in tree.sources && IsSdkSource(p)
  {
    paths := [];
    var rest := tree.sources.Keys;
    while rest != {}
      invariant rest <= tree.sources.Keys
      invariant DistinctPaths(paths)
      invariant forall p :: p in paths <==> p in tree.sources.Keys - rest && IsSdkSource(p)
      decreases rest
    {
      var p :| p in rest;
      rest := rest - {p};
      if IsSdkSource(p) {
        paths := paths + [p];
      }
    }
  }

  // ------------------------------------------------------------- properties

  /** A passing check, key by key: nothing above the baseline, and nothing below it in checked or deleted files. */
  lemma {:induction false} PassesKeyByKey(
    tree: Tree, paths: seq<string>, baseline: Baseline, reference: Option<Baseline>)
    requires forall p :: p in paths ==> p in tree.sources
    ensures Passes(tree, paths, baseline, reference) <==>
            && (reference.Some? ==> forall k :: baseline[k] <= reference.value[k])
            && forall k :: var cur := Keys(Entries(tree, paths))[k];
                           && cur <= baseline[k]
                           && (cur < baseline[k] ==>
                                 k.file !in paths && (k.file in tree.sources || k.file in tree.others))
  {
    var current := Entries(tree, paths);
    var excess := Keys(current) - baseline;
    if Report(current, excess) == [] {
      forall k
        ensures Keys(current)[k] <= baseline[k]
      {
        ReportCounts(current, excess, k);
      }
    } else {
      var last := Report(current, excess)[|Report(current, excess)| - 1];
      ReportCounts(current, excess, last.key);
      assert Keys(Report(current, excess))[last.key] > 0;
      assert Keys(current)[last.key] > baseline[last.key];
    }
    if reference.Some? {
      var additions := baseline - reference.value;
      if additions != multiset{} {
        var k :| k in additions;
        assert baseline[k] > reference.value[k];
      } else {
        forall k
          ensures baseline[k] <= reference.value[k]
        {
          assert additions[k] == 0;
        }
      }
    }
    forall k
      ensures k in Stale(tree, paths, baseline) <==>
              Keys(current)[k] < baseline[k] && (k.file in paths || !Exists(tree, k.file))
    {
    }
    if Stale(tree, paths, baseline) != {} {
      var k :| k in Stale(tree, paths, baseline);
      assert Keys(current)[k] < baseline[k];
    }
  }

  /** A check of the same paths right after an update passes. */
  lemma {:induction false} UpdateThenCheckPasses(tree: Tree, paths: seq<string>)
    requires forall p :: p in paths ==> p in tree.sources
    ensures Passes(tree, paths, Keys(Entries(tree, paths)), None)
  {
    PassesKeyByKey(tree, paths, Keys(Entries(tree, paths)), None);
  }

  datatype Commit = Commit(tree: Tree, baseline: Baseline, paths: seq<string>)

  /** The commit's paths are those auto-discovery finds in its tree. */
  ghost predicate Discovered(c: Commit) {
    && WellFormed(c.tree)
    && DistinctPaths(c.paths)
    && forall p :: p in c.paths <==> p in c.tree.sources && IsSdkSource(p)
  }

  /** --baseline-ref names the predecessor; the first commit is checked without one. */
  function ReferenceOf(commits: seq<Commit>, n: nat): (reference: Option<Baseline>)
    requires n < |commits|
  {
    if n == 0 then None else Some(commits[n - 1].baseline)
  }

  ghost predicate PassesAt(commits: seq<Commit>, n: nat)
    requires n < |commits|
  {
    && Discovered(commits[n])
    && Passes(commits[n].tree, commits[n].paths, commits[n].baseline, ReferenceOf(commits, n))
  }

  /** Every commit passes the auto-discovery check against its predecessor's baseline. */
  ghost predicate PassingHistory(commits: seq<Commit>) {
    forall n: nat :: n < |commits| ==> PassesAt(commits, n)
  }

  /** In a passing commit the baseline of an SDK key is its count. */
  lemma PassingBaselineIsExact(c: Commit, reference: Option<Baseline>, k: Key)
    requires Discovered(c) && Passes(c.tree, c.paths, c.baseline, reference)
    requires IsSdkSource(k.file)
    ensures c.baseline[k] == CountIn(c.tree, k)
  {
    PassesKeyByKey(c.tree, c.paths, c.baseline, reference);
    EntriesCountEachFileOnce(c.tree, c.paths, k);
  }

  /** From one passing commit to the next. */
  lemma CommitDoesNotGrow(commits: seq<Commit>, n: nat, k: Key)
    requires 0 < n < |commits| && PassesAt(commits, n - 1) && PassesAt(commits, n) && IsSdkSource(k.file)
    ensures CountIn(commits[n].tree, k) <= CountIn(commits[n - 1].tree, k)
  {
    hide CountIn, Passes, IsSdkSource, WellFormed, DistinctPaths;
    var c, c' := commits[n - 1], commits[n];
    PassingBaselineIsExact(c, ReferenceOf(commits, n - 1), k);
    PassingBaselineIsExact(c', Some(c.baseline), k);
    PassesKeyByKey(c'.tree, c'.paths, c'.baseline, Some(c.baseline));
  }

  /**
    The ratchet: along any sequence of passing commits no call under the SDK
    root ever becomes more frequent.
   */
  lemma {:induction false} ForbiddenCallsOnlyShrink(commits: seq<Commit>, m: nat, n: nat, k: Key)
    requires PassingHistory(commits) && m <= n < |commits| && IsSdkSource(k.file)
    ensures CountIn(commits[n].tree, k) <= CountIn(commits[m].tree, k)
  {
    hide CountIn, PassesAt, IsSdkSource;
    if m == n {
    } else {
      ForbiddenCallsOnlyShrink(commits, m, n - 1, k);
      CommitDoesNotGrow(commits, n, k);
    }
  }
}
