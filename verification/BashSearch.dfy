/**
  The bash event directory: the directory scan behind a search, pages that
  follow a cursor while the directory changes, and retention.
 */
module BashSearch {
  import opened Prelude
  import opened Strings
  import opened BashNames

  // -------------------------------------------------------------- ordering

  /** The requested sort order: TIMESTAMP, or TIMESTAMP_DESC when descending. */
  predicate Before(descending: bool, a: string, b: string) {
    if descending then Less(b, a) else Less(a, b)
  }

  ghost predicate Ordered(names: seq<string>, descending: bool) {
    forall i, j :: 0 <= i < j < |names| ==> Before(descending, names[i], names[j])
  }

  lemma BeforeTransitive(descending: bool, a: string, b: string, c: string)
    requires Before(descending, a, b) && Before(descending, b, c)
    ensures Before(descending, a, c)
  {
    if descending { LessTransitive(c, b, a); } else { LessTransitive(a, b, c); }
  }

  lemma BeforeIsStrict(descending: bool, a: string, b: string)
    ensures !(Before(descending, a, b) && Before(descending, b, a))
    ensures !Before(descending, a, a)
    ensures a == b || Before(descending, a, b) || Before(descending, b, a)
  {
    LessIrreflexive(a);
    LessTotal(a, b);
    if Less(a, b) && Less(b, a) { LessTransitive(a, b, a); }
  }

  ghost function Elements(names: seq<string>): (elements: set<string>) {
    set n | n in names
  }

  /** A strictly ordered listing has as many entries as distinct names. */
  lemma {:induction false} OrderedLength(names: seq<string>, descending: bool)
    requires Ordered(names, descending)
    ensures |Elements(names)| == |names|
  {
    hide Before;
    if names == [] {
    } else {
      var last, rest := names[|names| - 1], names[..|names| - 1];
      OrderedLength(rest, descending);
      if last in rest {
        var i :| 0 <= i < |rest| && rest[i] == last;
        assert Before(descending, names[i], names[|names| - 1]);
        BeforeIsStrict(descending, last, last);
      }
      assert Elements(names) == Elements(rest) + {last};
    }
  }

  // ------------------------------------------------------- sorting a listing

  /** Insertion into an ordered listing. */
  function Insert(names: seq<string>, n: string, descending: bool): (r: seq<string>)
    ensures |r| == |names| + 1
    ensures forall m :: m in r <==> m == n || m in names
  {
    if names == [] then [n]
    else if Before(descending, n, names[0]) then [n] + names
    else [names[0]] + Insert(names[1..], n, descending)
  }

  lemma {:induction false} InsertKeepsOrder(names: seq<string>, n: string, descending: bool)
    requires Ordered(names, descending) && n !in names
    ensures Ordered(Insert(names, n, descending), descending)
  {
    hide Before;
    if names == [] {
    } else {
      if Before(descending, n, names[0]) {
        forall j | 0 < j < |names|
          ensures Before(descending, n, names[j])
        {
          BeforeTransitive(descending, n, names[0], names[j]);
        }
      } else {
        BeforeIsStrict(descending, n, names[0]);
        InsertKeepsOrder(names[1..], n, descending);
        var r := Insert(names[1..], n, descending);
        forall j | 0 <= j < |r|
          ensures Before(descending, names[0], r[j])
        {
          assert r[j] in r;
          if r[j] != n {
            var i :| 0 < i < |names| && names[i] == r[j];
          }
        }
      }
    }
  }

  /** list.sort(reverse=descending) */
  function Sorted(names: seq<string>, descending: bool): (r: seq<string>)
    ensures forall m :: m in r <==> m in names
  {
    if names == [] then [] else Insert(Sorted(names[1..], descending), names[0], descending)
  }

  ghost predicate Distinct(names: seq<string>) {
    forall i, j :: 0 <= i < j < |names| ==> names[i] != names[j]
  }

  lemma {:induction false} SortedIsOrdered(names: seq<string>, descending: bool)
    requires Distinct(names)
    ensures Ordered(Sorted(names, descending), descending)
  {
    hide Before;
    if names == [] {
    } else {
      SortedIsOrdered(names[1..], descending);
      InsertKeepsOrder(Sorted(names[1..], descending), names[0], descending);
    }
  }

  // ------------------------------------------------------------------ pages

  datatype Page = Page(names: seq<string>, next: Option<string>)

  ghost function Matching(files: set<string>, q: Query): (names: set<string>) {
    set n | n in files && NameMatches(n, q)
  }

  /** The matching names a page may show: from the cursor on, or all when the cursor is not among them. */
  ghost function From(matching: set<string>, descending: bool, cursor: Option<string>): (names: set<string>) {
    if cursor.Some? && cursor.value in matching
    then set n | n in matching && !Before(descending, n, cursor.value)
    else matching
  }

  /** The page holds the first `limit` available names in order and points at the one after them. */
  ghost predicate IsPage(page: Page, matching: set<string>, descending: bool, cursor: Option<string>, limit: nat) {
    var available := From(matching, descending, cursor);
    && Ordered(page.names, descending)
    && (forall n :: n in page.names ==> n in available)
    && (forall n, m :: n in available && n !in page.names && m in page.names ==> Before(descending, m, n))
    && |page.names| == (if |available| <= limit then |available| else limit)
    && (page.next.None? <==> |available| <= limit)
    && (page.next.Some? ==>
          && page.next.value in available && page.next.value !in page.names
          && forall n ::
               n in available && n !in page.names && n != page.next.value ==> Before(descending, page.next.value, n))
  }

  lemma SuffixIsFrom(names: seq<string>, start: nat, matching: set<string>, descending: bool, cursor: Option<string>)
    requires Ordered(names, descending) && Elements(names) == matching && start <= |names|
    requires if cursor.Some? && cursor.value in matching
             then start < |names| && names[start] == cursor.value
             else start == 0
    ensures Elements(names[start..]) == From(matching, descending, cursor)
  {
    hide Before;
    if cursor.Some? && cursor.value in matching {
      forall i | 0 <= i < |names|
        ensures start <= i <==> !Before(descending, names[i], cursor.value)
      {
        BeforeIsStrict(descending, names[i], cursor.value);
      }
      assert forall n :: n in names[start..] <==> exists i :: start <= i < |names| && names[i] == n;
      assert forall n :: n in matching <==> n in names;
    } else {
      assert names[0..] == names;
    }
  }

  /** A prefix of an ordered listing: the rest comes after it, the first of the rest first. */
  lemma PrefixOfOrdered(tail: seq<string>, e: nat, descending: bool)
    requires Ordered(tail, descending) && e <= |tail|
    ensures Ordered(tail[..e], descending)
    ensures forall n, m :: n in tail && n !in tail[..e] && m in tail[..e] ==> Before(descending, m, n)
    ensures e < |tail| ==> tail[e] !in tail[..e]
    ensures e < |tail| ==> forall n :: n in tail && n !in tail[..e] && n != tail[e] ==> Before(descending, tail[e], n)
  {
    hide Before;
    assert forall i :: 0 <= i < e ==> tail[i] in tail[..e];
    assert forall n :: n in tail && n !in tail[..e] ==> exists i :: e <= i < |tail| && tail[i] == n;
    if e < |tail| && tail[e] in tail[..e] {
      var i :| 0 <= i < e && tail[i] == tail[e];
      BeforeIsStrict(descending, tail[e], tail[e]);
    }
  }

  /** The first `limit` entries of an ordered listing of what is available make the page. */
  lemma PrefixIsPage(tail: seq<string>, matching: set<string>, descending: bool, cursor: Option<string>, limit: nat)
    requires Ordered(tail, descending) && Elements(tail) == From(matching, descending, cursor)
    ensures var e := if limit < |tail| then limit else |tail|;
            IsPage(Page(tail[..e], if e < |tail| then Some(tail[e]) else None), matching, descending, cursor, limit)
  {
    var e := if limit < |tail| then limit else |tail|;
    OrderedLength(tail, descending);
    PrefixOfOrdered(tail, e, descending);
    assert forall n :: n in tail <==> n in Elements(tail);
    assert forall n :: n in tail[..e] ==> n in tail;
    hide Before, From, Ordered, Elements;
  }

  lemma SliceIsPage(
    names: seq<string>, start: nat, matching: set<string>, descending: bool, cursor: Option<string>, limit: nat)
    requires Ordered(names, descending) && start <= |names|
    requires Elements(names[start..]) == From(matching, descending, cursor)
    ensures var end := if start + limit <= |names| then start + limit else |names|;
            var next := if end < |names| then Some(names[end]) else None;
            IsPage(Page(names[start..end], next), matching, descending, cursor, limit)
  {
    hide Before, From, IsPage;
    var end := if start + limit <= |names| then start + limit else |names|;
    PrefixIsPage(names[start..], matching, descending, cursor, limit);
    assert names[start..end] == names[start..][..end - start];
  }

  // --------------------------------------------------------- the directory

  predicate Hidden(name: string) {
    name != "" && name[0] == '.'
  }

  /** What a retention pass removes: visible names below the cutoff that can be unlinked. */
  ghost function Expired(files: set<string>, cutoff: Timestamp, canUnlink: string -> bool): (names: set<string>) {
    set n | n in files && !Hidden(n) && Less(n, TimestampText(cutoff)) && canUnlink(n)
  }

  class BashEventDirectory {
    var files: set<string>

    constructor ()
      ensures files == {}
    {
      files := {};
    }

    method Save(e: Event)
      modifies this
      ensures files == old(files) + {FileName(e)}
    {
      files := files + {FileName(e)};
    }

    /** One pass over the directory in whatever order it lists its entries, then a sort. */
    method Scan(q: Query, descending: bool) returns (matched: seq<string>)
      ensures Ordered(matched, descending)
      ensures Elements(matched) == Matching(files, q)
    {
      matched := [];
      var rest := files;
      while rest != {}
        invariant rest <= files
        invariant Distinct(matched)
        invariant Elements(matched) == Matching(files - rest, q)
        decreases rest
      {
        ghost var seen, before := files - rest, matched;
        var name :| name in rest;
        rest := rest - {name};
        if NameMatches(name, q) {
          assert name !in Elements(matched);
          matched := matched + [name];
          assert Elements(matched) == Elements(before) + {name};
        }
        assert files - rest == seen + {name};
        assert Matching(seen + {name}, q) == Matching(seen, q) + (if NameMatches(name, q) then {name} else {});
      }
      assert files - {} == files;
      SortedIsOrdered(matched, descending);
      matched := Sorted(matched, descending);
    }

    method Search(q: Query, descending: bool, cursor: Option<string>, limit: nat) returns (page: Page)
      ensures IsPage(page, Matching(files, q), descending, cursor, limit)
    {
      var matched := Scan(q, descending);
      var start := 0;
      if cursor.Some? {
        var i := 0;
        while i < |matched|
          invariant 0 <= i <= |matched|
          invariant start == 0
          invariant forall k :: 0 <= k < i ==> matched[k] != cursor.value
        {
          if matched[i] == cursor.value {
            start := i;
            break;
          }
          i := i + 1;
        }
        assert cursor.value in matched <==> cursor.value in Elements(matched);
      }
      var end := if start + limit <= |matched| then start + limit else |matched|;
      page := Page(matched[start..end], if end < |matched| then Some(matched[end]) else None);
      SuffixIsFrom(matched, start, Matching(files, q), descending, cursor);
      SliceIsPage(matched, start, Matching(files, q), descending, cursor, limit);
    }

    /** Every visible name in ascending order. */
    method SortedListing() returns (listing: seq<string>)
      ensures Ordered(listing, false)
      ensures Elements(listing) == set n | n in files && !Hidden(n)
    {
      listing := [];
      var rest := files;
      while rest != {}
        invariant rest <= files
        invariant Distinct(listing)
        invariant Elements(listing) == set n | n in files - rest && !Hidden(n)
        decreases rest
      {
        ghost var before := listing;
        var name :| name in rest;
        rest := rest - {name};
        if !Hidden(name) {
          assert name !in Elements(listing);
          listing := listing + [name];
          assert Elements(listing) == Elements(before) + {name};
        }
      }
      assert files - {} == files;
      SortedIsOrdered(listing, false);
      listing := Sorted(listing, false);
    }

    /** Walks the ascending listing, unlinking, and stops at the first name at or past the cutoff. */
    method DeleteEventsOlderThan(cutoff: Timestamp, canUnlink: string -> bool) returns (count: nat)
      modifies this
      ensures files == old(files) - Expired(old(files), cutoff, canUnlink)
      ensures count == |Expired(old(files), cutoff, canUnlink)|
    {
      var listing := SortedListing();
      var text := TimestampText(cutoff);
      count := 0;
      ghost var removed: set<string> := {};
      var k := 0;
      while k < |listing|
        invariant 0 <= k <= |listing|
        invariant forall i :: 0 <= i < k ==> Less(listing[i], text)
        invariant removed == set i | 0 <= i < k && canUnlink(listing[i]) :: listing[i]
        invariant files == old(files) - removed
        invariant count == |removed|
      {
        if !Less(listing[k], text) {
          break;
        }
        if canUnlink(listing[k]) {
          if listing[k] in removed {
            var i :| 0 <= i < k && listing[i] == listing[k];
            assert Before(false, listing[i], listing[k]);
            BeforeIsStrict(false, listing[k], listing[k]);
          }
          files := files - {listing[k]};
          removed := removed + {listing[k]};
          count := count + 1;
        }
        k := k + 1;
      }
      StopsAtCutoff(listing, k, text);
      forall n
        ensures n in removed <==> n in Expired(old(files), cutoff, canUnlink)
      {
        assert n in listing <==> n in Elements(listing);
        if n in Expired(old(files), cutoff, canUnlink) {
          var i :| 0 <= i < |listing| && listing[i] == n;
        }
      }
      assert removed == Expired(old(files), cutoff, canUnlink);
    }
  }

  /** In an ascending listing everything from the first name at or past the bound is at or past it. */
  lemma {:induction false} StopsAtCutoff(listing: seq<string>, k: nat, text: string)
    requires Ordered(listing, false) && k <= |listing|
    requires k < |listing| ==> !Less(listing[k], text)
    ensures forall i :: k <= i < |listing| ==> !Less(listing[i], text)
  {
    forall i | k < i < |listing|
      ensures !Less(listing[i], text)
    {
      assert Before(false, listing[k], listing[i]);
      if Less(listing[i], text) {
        LessTransitive(listing[k], listing[i], text);
      }
    }
  }
}
