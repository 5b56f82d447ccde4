/**
  What a client of the bash event search can rely on: that names stand for
  events, that following the cursor over a changing directory loses and repeats
  nothing, and that retention leaves later searches alone.
 */
module BashPaging {
  import opened Prelude
  import opened Strings
  import opened BashNames
  import opened BashSearch

  // ------------------------------------------- the index is a plain search

  ghost function NamesOf(events: set<Event>): (names: set<string>) {
    set e | e in events :: FileName(e)
  }

  /** The plain search over the events themselves. */
  ghost function Selected(events: set<Event>, q: Query): (selected: set<Event>) {
    set e | e in events && Satisfies(e, q)
  }

  /** The scan of a directory of saved events matches exactly the events the query describes, one name each. */
  lemma ScanIsPlainSearch(events: set<Event>, q: Query)
    requires ValidQuery(q) && forall e :: e in events ==> ValidEvent(e)
    ensures Matching(NamesOf(events), q) == NamesOf(Selected(events, q))
    ensures |NamesOf(Selected(events, q))| == |Selected(events, q)|
  {
    hide NameMatches, Satisfies, FileName, ValidEvent, ValidQuery;
    forall e | e in events
      ensures NameMatches(FileName(e), q) <==> Satisfies(e, q)
    {
      NameFilterIsPlainSearch(e, q);
    }
    NamesCountEvents(Selected(events, q));
  }

  lemma {:induction false} NamesCountEvents(events: set<Event>)
    requires forall e :: e in events ==> ValidEvent(e)
    ensures |NamesOf(events)| == |events|
  {
    hide ValidEvent, FileName;
    if events == {} {
    } else {
      var f :| f in events;
      var rest := events - {f};
      NamesCountEvents(rest);
      if FileName(f) in NamesOf(rest) {
        var e :| e in rest && FileName(e) == FileName(f);
        NamesAreUnique(e, f);
      }
      assert NamesOf(events) == NamesOf(rest) + {FileName(f)};
    }
  }

  /** Names in sort order are events in time order, newest first when descending. */
  lemma NameOrderListsEventsByTime(events: seq<Event>, descending: bool, i: nat, j: nat)
    requires forall e :: e in events ==> ValidEvent(e)
    requires Ordered(seq(|events|, k requires 0 <= k < |events| => FileName(events[k])), descending)
    requires i < j < |events|
    ensures if descending then !Earlier(events[i].timestamp, events[j].timestamp)
            else !Earlier(events[j].timestamp, events[i].timestamp)
  {
    hide FileName, Less;
    var names := seq(|events|, k requires 0 <= k < |events| => FileName(events[k]));
    assert Before(descending, names[i], names[j]);
    assert events[i] in events && events[j] in events;
    NameOrderIsTimeOrder(events[i], events[j]);
    NameOrderIsTimeOrder(events[j], events[i]);
  }

  // ------------------------------------------------- following the cursor

  /** The pages of a client that follows next_page_id while the directory changes between requests. */
  ghost predicate Followed(snapshots: seq<set<string>>, pages: seq<Page>, descending: bool, limit: nat) {
    && |snapshots| == |pages| > 0
    && IsPage(pages[0], snapshots[0], descending, None, limit)
    && forall k :: 0 <= k < |pages| - 1 ==>
                     pages[k].next.Some? && IsPage(pages[k + 1], snapshots[k + 1], descending, pages[k].next, limit)
  }

  /** Each returned cursor is still there when the next request is made. */
  ghost predicate CursorsSurvive(snapshots: seq<set<string>>, pages: seq<Page>)
    requires |snapshots| == |pages|
  {
    forall k :: 0 <= k < |pages| - 1 ==> pages[k].next.Some? && pages[k].next.value in snapshots[k + 1]
  }

  /** Every name of the first n pages, in the order the client saw them. */
  ghost function Seen(pages: seq<Page>, n: nat): (seen: seq<string>)
    requires n <= |pages|
  {
    if n == 0 then [] else Seen(pages, n - 1) + pages[n - 1].names
  }

  /** How far a client has come after a page: strictly ordered, all before the next cursor, nothing skipped. */
  ghost predicate Progress(seen: seq<string>, next: Option<string>, everywhere: set<string>, descending: bool) {
    && Ordered(seen, descending)
    && (next.Some? ==> forall n :: n in seen ==> Before(descending, n, next.value))
    && (forall n :: n in everywhere && (next.Some? ==> Before(descending, n, next.value)) ==> n in seen)
  }

  /** One more page, requested with a cursor that is still there. */
  lemma PageMakesProgress(
    seen: seq<string>, cursor: string, everywhere: set<string>, page: Page, matching: set<string>,
    descending: bool, limit: nat)
    requires Progress(seen, Some(cursor), everywhere, descending)
    requires IsPage(page, matching, descending, Some(cursor), limit) && cursor in matching
    ensures Progress(seen + page.names, page.next, everywhere * matching, descending)
  {
    hide Before;
    var next := page.next;
    forall n, m | n in seen && m in From(matching, descending, Some(cursor))
      ensures Before(descending, n, m)
    {
      BeforeIsStrict(descending, m, cursor);
      if m != cursor {
        BeforeTransitive(descending, n, cursor, m);
      }
    }
    forall m | m in page.names && next.Some?
      ensures Before(descending, m, next.value)
    {
    }
    forall n | n in everywhere * matching && (next.Some? ==> Before(descending, n, next.value))
      ensures n in seen + page.names
    {
      if !Before(descending, n, cursor) && n !in page.names {
        assert n in From(matching, descending, Some(cursor));
        if next.None? {
          WholeRemainderShown(page, matching, descending, Some(cursor), limit);
        } else {
          BeforeIsStrict(descending, n, next.value);
        }
      }
    }
  }

  /** Without a next page everything available was shown. */
  lemma WholeRemainderShown(page: Page, matching: set<string>, descending: bool, cursor: Option<string>, limit: nat)
    requires IsPage(page, matching, descending, cursor, limit) && page.next.None?
    ensures forall n :: n in From(matching, descending, cursor) ==> n in page.names
  {
    hide Before, From;
    OrderedLength(page.names, descending);
    var available := From(matching, descending, cursor);
    var shown := Elements(page.names);
    assert shown <= available;
    if shown != available {
      var n :| n in available && n !in shown;
      SubsetSize(shown, available - {n});
    }
  }

  lemma {:induction false} SubsetSize(a: set<string>, b: set<string>)
    requires a <= b
    ensures |a| <= |b|
  {
    if a == {} {
    } else {
      var x :| x in a;
      SubsetSize(a - {x}, b - {x});
    }
  }

  lemma FirstPageMakesProgress(page: Page, matching: set<string>, descending: bool, limit: nat)
    requires IsPage(page, matching, descending, None, limit)
    ensures Progress(page.names, page.next, matching, descending)
  {
    hide Before;
    forall n | n in matching && (page.next.Some? ==> Before(descending, n, page.next.value))
      ensures n in page.names
    {
      if page.next.None? {
        WholeRemainderShown(page, matching, descending, None, limit);
      } else {
        BeforeIsStrict(descending, n, page.next.value);
      }
    }
  }

  /** The matching names that were there at every one of the first n requests. */
  ghost function Everywhere(snapshots: seq<set<string>>, n: nat): (names: set<string>)
    requires 0 < n <= |snapshots|
  {
    if n == 1 then snapshots[0] else Everywhere(snapshots, n - 1) * snapshots[n - 1]
  }

  lemma {:induction false} EverywhereMeans(snapshots: seq<set<string>>, n: nat, name: string)
    requires 0 < n <= |snapshots|
    ensures name in Everywhere(snapshots, n) <==> forall k :: 0 <= k < n ==> name in snapshots[k]
  {
    if n > 1 { EverywhereMeans(snapshots, n - 1, name); }
  }

  lemma {:induction false} FollowingMakesProgress(
    snapshots: seq<set<string>>, pages: seq<Page>, descending: bool, limit: nat, n: nat)
    requires Followed(snapshots, pages, descending, limit) && CursorsSurvive(snapshots, pages)
    requires 0 < n <= |pages|
    ensures Progress(Seen(pages, n), pages[n - 1].next, Everywhere(snapshots, n), descending)
  {
    hide Progress, IsPage;
    if n == 1 {
      FirstPageMakesProgress(pages[0], snapshots[0], descending, limit);
      assert Seen(pages, 0) == [];
      assert Seen(pages, 1) == pages[0].names;
    } else {
      FollowingMakesProgress(snapshots, pages, descending, limit, n - 1);
      assert IsPage(pages[n - 2 + 1], snapshots[n - 2 + 1], descending, pages[n - 2].next, limit);
      assert pages[n - 2].next.value in snapshots[n - 2 + 1];
      PageMakesProgress(
        Seen(pages, n - 1), pages[n - 2].next.value, Everywhere(snapshots, n - 1),
        pages[n - 1], snapshots[n - 1], descending, limit);
    }
  }

  /**
    Cursor pagination over a changing directory: as long as each cursor survives
    to the next request, the followed pages are in strict sort order (so no name
    repeats) and, once there is no next page, hold every name that matched at
    every request.
   */
  lemma {:induction false} FollowedPagesAreComplete(
    snapshots: seq<set<string>>, pages: seq<Page>, descending: bool, limit: nat)
    requires Followed(snapshots, pages, descending, limit) && CursorsSurvive(snapshots, pages)
    ensures Ordered(Seen(pages, |pages|), descending) && Distinct(Seen(pages, |pages|))
    ensures pages[|pages| - 1].next.None? ==>
              forall name ::
                (forall k :: 0 <= k < |snapshots| ==> name in snapshots[k]) ==> name in Seen(pages, |pages|)
  {
    hide Before, IsPage;
    FollowingMakesProgress(snapshots, pages, descending, limit, |pages|);
    var seen := Seen(pages, |pages|);
    forall i, j | 0 <= i < j < |seen|
      ensures seen[i] != seen[j]
    {
      BeforeIsStrict(descending, seen[i], seen[j]);
      assert Before(descending, seen[i], seen[j]);
    }
    forall name | forall k :: 0 <= k < |snapshots| ==> name in snapshots[k]
      ensures name in Everywhere(snapshots, |snapshots|)
    {
      EverywhereMeans(snapshots, |snapshots|, name);
    }
  }

  /**
    Over a directory that does not change, following the cursor lists exactly the
    matching names, each once and in order, on pages that are full except the last.
   */
  lemma {:induction false} UnchangedDirectoryIsListed(
    matching: set<string>, pages: seq<Page>, descending: bool, limit: nat)
    requires Followed(seq(|pages|, _ => matching), pages, descending, limit)
    requires pages[|pages| - 1].next.None?
    ensures Ordered(Seen(pages, |pages|), descending) && Elements(Seen(pages, |pages|)) == matching
    ensures |Seen(pages, |pages|)| == |matching|
    ensures forall k :: 0 <= k < |pages| - 1 ==> |pages[k].names| == limit
    ensures |pages[|pages| - 1].names| <= limit
  {
    hide Before;
    var snapshots := seq(|pages|, _ => matching);
    forall k: nat | k < |pages|
      ensures |pages[k].names| <= limit && (pages[k].next.Some? ==> |pages[k].names| == limit)
      ensures pages[k].next.Some? ==> pages[k].next.value in matching
      ensures forall n :: n in pages[k].names ==> n in matching
    {
      PageOfFollowed(snapshots, pages, descending, limit, k);
    }
    hide IsPage, Ordered;
    FollowedPagesAreComplete(snapshots, pages, descending, limit);
    SeenComesFromPages(pages, matching, |pages|);
    OrderedLength(Seen(pages, |pages|), descending);
  }

  /** One page of a followed sequence, by its own request. */
  lemma PageOfFollowed(snapshots: seq<set<string>>, pages: seq<Page>, descending: bool, limit: nat, k: nat)
    requires Followed(snapshots, pages, descending, limit) && k < |pages|
    ensures |pages[k].names| <= limit && (pages[k].next.Some? ==> |pages[k].names| == limit)
    ensures pages[k].next.Some? ==> pages[k].next.value in snapshots[k]
    ensures forall n :: n in pages[k].names ==> n in snapshots[k]
  {
    hide Before, Ordered;
    if k > 0 {
      assert IsPage(pages[k - 1 + 1], snapshots[k - 1 + 1], descending, pages[k - 1].next, limit);
    }
  }

  lemma {:induction false} SeenComesFromPages(pages: seq<Page>, matching: set<string>, n: nat)
    requires n <= |pages| && forall k: nat :: k < n ==> forall m :: m in pages[k].names ==> m in matching
    ensures forall m :: m in Seen(pages, n) ==> m in matching
  {
    if n == 0 {
    } else {
      SeenComesFromPages(pages, matching, n - 1);
    }
  }

  /** A cursor that is gone is ignored: the page is the first page again. */
  lemma LostCursorRestarts(page: Page, matching: set<string>, descending: bool, cursor: string, limit: nat)
    requires cursor !in matching
    ensures IsPage(page, matching, descending, Some(cursor), limit) <==> IsPage(page, matching, descending, None, limit)
  {
    hide Before;
    assert From(matching, descending, Some(cursor)) == From(matching, descending, None);
  }

  // ------------------------------------------------------------- retention

  /** Among saved events retention removes exactly those older than the cutoff that can be unlinked. */
  lemma ExpiredAreTheOlderEvents(files: set<string>, e: Event, cutoff: Timestamp, canUnlink: string -> bool)
    requires ValidEvent(e) && FourDigitYear(cutoff) && FileName(e) in files
    ensures FileName(e) in Expired(files, cutoff, canUnlink) <==>
            Earlier(e.timestamp, cutoff) && canUnlink(FileName(e))
  {
    hide Less, FileName, Earlier, TimestampText;
    NameAgainstTimestamp(e, cutoff);
    NameStartsWithTimestamp(e);
    var text := TimestampText(e.timestamp);
    var rest :| rest != "" && FileName(e) == text + rest;
    assert text[0] in text;
    assert FileName(e)[0] == text[0];
  }

  /** Any file, by its name: dot files stay, and of the others those whose name sorts below the cutoff's text go. */
  lemma {:induction false} ExpiredByName(
    files: set<string>, name: string, cutoff: Timestamp, canUnlink: string -> bool)
    ensures name in Expired(files, cutoff, canUnlink) <==>
            name in files && canUnlink(name) && !("." <= name) && Less(name, TimestampText(cutoff))
  {
  }

  /** A second pass with the same cutoff finds nothing more to remove. */
  lemma SecondPassDeletesNothing(files: set<string>, cutoff: Timestamp, canUnlink: string -> bool)
    ensures Expired(files - Expired(files, cutoff, canUnlink), cutoff, canUnlink) == {}
  {
  }

  /** A search that starts at or after the cutoff sees the same names before and after the pass. */
  lemma RetentionLeavesLaterSearchesAlone(
    files: set<string>, q: Query, cutoff: Timestamp, canUnlink: string -> bool,
    page: Page, descending: bool, cursor: Option<string>, limit: nat)
    requires ValidQuery(q) && FourDigitYear(cutoff)
    requires q.notBefore.Some? && !Earlier(q.notBefore.value, cutoff)
    ensures var kept := files - Expired(files, cutoff, canUnlink);
            && Matching(kept, q) == Matching(files, q)
            && (IsPage(page, Matching(kept, q), descending, cursor, limit) <==>
                IsPage(page, Matching(files, q), descending, cursor, limit))
  {
    hide Less, Earlier, TimestampText, IsPage, Split;
    var bound := TimestampText(q.notBefore.value);
    forall n | n in files && NameMatches(n, q)
      ensures n !in Expired(files, cutoff, canUnlink)
    {
      if Less(n, TimestampText(cutoff)) {
        TextOrderIsTimeOrder(q.notBefore.value, cutoff);
        LessTotal(TimestampText(cutoff), bound);
        if Less(TimestampText(cutoff), bound) {
          LessTransitive(n, TimestampText(cutoff), bound);
        }
      }
    }
    assert Matching(files - Expired(files, cutoff, canUnlink), q) == Matching(files, q);
  }
}
