/** Cursor pagination of notifications (notification-service/app/repository.py). A table is listed
    newest first, as ORDER BY created_at DESC lists it. */
module Pagination {
  import opened Division
  import opened Options

  type Instant = int

  datatype Notification = Notification(id: nat, user: string, status: string, createdAt: Instant)

  predicate Matches(n: Notification, user: string, status: string) {
    && n.user == user
    && if status in ["unread", "read", "archived"] then n.status == status else n.status != "archived"
  }

  function Matching(table: seq<Notification>, user: string, status: string): seq<Notification> {
    if table == [] then []
    else (if Matches(table[0], user, status) then [table[0]] else []) + Matching(table[1..], user, status)
  }

  predicate Before(n: Notification, cursor: Option<Instant>) {
    cursor.Some? ==> n.createdAt < cursor.value
  }

  /** WHERE created_at < cursor. */
  function Older(rows: seq<Notification>, cursor: Option<Instant>): (older: seq<Notification>)
    ensures |older| <= |rows|
    ensures forall n :: n in older <==> n in rows && Before(n, cursor)
  {
    if rows == [] then []
    else (if Before(rows[0], cursor) then [rows[0]] else []) + Older(rows[1..], cursor)
  }

  /** One page and the cursor of the next. */
  datatype Page = Page(items: seq<Notification>, next: Option<Instant>)

  /** What list_notifications makes of the rows its query returns. */
  function Slice(rows: seq<Notification>, limit: nat): Page
    requires limit >= 1
  {
    var fetched := if |rows| > limit then rows[..limit + 1] else rows;
    if |fetched| > limit then Page(fetched[..limit], Some(fetched[|fetched| - 2].createdAt)) else Page(fetched, None)
  }

  function ListNotifications(table: seq<Notification>, user: string, status: string, limit: nat, cursor: Option<Instant>): Page
    requires limit >= 1
  {
    Slice(Older(Matching(table, user, status), cursor), limit)
  }

  ghost predicate NewestFirst(rows: seq<Notification>) {
    forall i, j :: 0 <= i < j < |rows| ==> rows[i].createdAt >= rows[j].createdAt
  }

  ghost predicate DistinctTimes(rows: seq<Notification>) {
    forall i, j :: 0 <= i < j < |rows| ==> rows[i].createdAt != rows[j].createdAt
  }

  // ---- What the query selects ----

  /** The user's rows of the asked status, or for any other status those that are not archived. */
  predicate Asked(n: Notification, user: string, status: string) {
    && n.user == user
    && if status == "unread" || status == "read" || status == "archived" then n.status == status else n.status != "archived"
  }

  lemma MatchesIsAsked(n: Notification, user: string, status: string)
    ensures Matches(n, user, status) <==> Asked(n, user, status)
  {
  }

  /** The query selects just the rows asked for, each as often as the table has it. */
  lemma {:induction false} MatchingSelects(table: seq<Notification>, user: string, status: string, n: Notification)
    ensures multiset(Matching(table, user, status))[n] == if Asked(n, user, status) then multiset(table)[n] else 0
  {
    if table != [] {
      var head, rest := table[0], table[1..];
      MatchesIsAsked(head, user, status);
      MatchingSelects(rest, user, status, n);
      assert table == [head] + rest;
      CountInCons(head, rest, n);
      if Matches(head, user, status) {
        CountInCons(head, Matching(rest, user, status), n);
      } else {
        assert Matching(table, user, status) == [] + Matching(rest, user, status) == Matching(rest, user, status);
      }
    }
  }

  lemma CountInCons(head: Notification, rest: seq<Notification>, n: Notification)
    ensures multiset([head] + rest)[n] == multiset(rest)[n] + if head == n then 1 else 0
  {
  }

  // ---- Following the cursor ----

  lemma {:induction false} OlderDropsTheCursorRow(rows: seq<Notification>, cursor: Option<Instant>, c: Instant, k: nat)
    requires k < |Older(rows, cursor)| && Older(rows, cursor)[k].createdAt == c
    ensures |Older(rows, Some(c))| < |Older(rows, cursor)|
    decreases |rows|
  {
    assert Before(Older(rows, cursor)[k], cursor);
    var head := if Before(rows[0], cursor) then 1 else 0;
    if k < head {
      OlderMonotone(rows[1..], cursor, c);
    } else {
      OlderDropsTheCursorRow(rows[1..], cursor, c, k - head);
    }
  }

  lemma {:induction false} OlderMonotone(rows: seq<Notification>, cursor: Option<Instant>, c: Instant)
    requires cursor.Some? ==> c <= cursor.value
    ensures |Older(rows, Some(c))| <= |Older(rows, cursor)|
  {
    if rows != [] {
      OlderMonotone(rows[1..], cursor, c);
    }
  }

  lemma {:induction false} OlderTwice(rows: seq<Notification>, cursor: Option<Instant>, c: Instant)
    requires cursor.Some? ==> c <= cursor.value
    ensures Older(Older(rows, cursor), Some(c)) == Older(rows, Some(c))
  {
    if rows != [] {
      OlderTwice(rows[1..], cursor, c);
      var rest := Older(rows[1..], cursor);
      assert Older(rows, cursor) == (if Before(rows[0], cursor) then [rows[0]] else []) + rest;
      if Before(rows[0], cursor) {
        assert ([rows[0]] + rest)[1..] == rest;
      } else {
        assert [] + rest == rest;
      }
    }
  }

  /** All pages from the given cursor on, one request after another, until no cursor comes back. */
  function Follow(table: seq<Notification>, user: string, status: string, limit: nat, cursor: Option<Instant>): (pages: seq<Page>)
    requires limit >= 1
    decreases |Older(Matching(table, user, status), cursor)|
  {
    var page := ListNotifications(table, user, status, limit, cursor);
    if page.next.None? then [page]
    else
      OlderDropsTheCursorRow(Matching(table, user, status), cursor, page.next.value, limit - 1);
      [page] + Follow(table, user, status, limit, page.next)
  }

  function Items(pages: seq<Page>): seq<Notification> {
    if pages == [] then [] else pages[0].items + Items(pages[1..])
  }

  /** The same walk over the rows that are left. */
  function Walk(rows: seq<Notification>, limit: nat): (pages: seq<Page>)
    requires limit >= 1
    decreases |rows|
  {
    var page := Slice(rows, limit);
    if page.next.None? then [page]
    else
      OlderThanOwnRow(rows, limit - 1);
      [page] + Walk(Older(rows, page.next), limit)
  }

  lemma {:induction false} OlderThanOwnRow(rows: seq<Notification>, k: nat)
    requires k < |rows|
    ensures |Older(rows, Some(rows[k].createdAt))| < |rows|
  {
    OlderNoneIsAll(rows);
    OlderDropsTheCursorRow(rows, None, rows[k].createdAt, k);
  }

  lemma {:induction false} OlderNoneIsAll(rows: seq<Notification>)
    ensures Older(rows, None) == rows
  {
    if rows != [] {
      OlderNoneIsAll(rows[1..]);
    }
  }

  lemma {:induction false} FollowIsWalk(table: seq<Notification>, user: string, status: string, limit: nat, cursor: Option<Instant>)
    requires limit >= 1
    ensures Follow(table, user, status, limit, cursor) == Walk(Older(Matching(table, user, status), cursor), limit)
    decreases |Older(Matching(table, user, status), cursor)|
  {
    var rows := Older(Matching(table, user, status), cursor);
    var page := Slice(rows, limit);
    if page.next.Some? {
      assert page.next.value == rows[limit - 1].createdAt;
      assert Before(rows[limit - 1], cursor);
      OlderDropsTheCursorRow(Matching(table, user, status), cursor, page.next.value, limit - 1);
      OlderTwice(Matching(table, user, status), cursor, page.next.value);
      FollowIsWalk(table, user, status, limit, page.next);
    }
  }

  // ---- When the walk sees everything ----

  /** No two rows with the same creation time fall on either side of a page boundary. */
  predicate NoTieAcrossPages(rows: seq<Notification>, limit: nat)
    requires limit >= 1
    decreases |rows|
  {
    |rows| <= limit || (rows[limit - 1].createdAt != rows[limit].createdAt && NoTieAcrossPages(rows[limit..], limit))
  }

  /** How many leading rows are not older than c. */
  function Cut(rows: seq<Notification>, c: Instant): (k: nat)
    ensures k <= |rows|
    ensures forall i :: 0 <= i < k ==> rows[i].createdAt >= c
    ensures k < |rows| ==> rows[k].createdAt < c
  {
    if rows == [] || rows[0].createdAt < c then 0 else 1 + Cut(rows[1..], c)
  }

  lemma {:induction false} AllOlder(rows: seq<Notification>, c: Instant)
    requires forall i :: 0 <= i < |rows| ==> rows[i].createdAt < c
    ensures Older(rows, Some(c)) == rows
  {
    if rows != [] {
      assert Before(rows[0], Some(c));
      AllOlder(rows[1..], c);
    }
  }

  lemma {:induction false} OlderIsSuffix(rows: seq<Notification>, c: Instant)
    requires NewestFirst(rows)
    ensures Older(rows, Some(c)) == rows[Cut(rows, c)..]
  {
    if rows != [] {
      if rows[0].createdAt < c {
        forall i | 0 <= i < |rows|
          ensures rows[i].createdAt < c
        {
          assert i > 0 ==> rows[0].createdAt >= rows[i].createdAt;
        }
        AllOlder(rows, c);
      } else {
        OlderIsSuffix(rows[1..], c);
      }
    }
  }

  /** What is left after a full page: the rows behind it, less those as old as its last row. */
  lemma {:induction false} RestAfterPage(rows: seq<Notification>, limit: nat)
    requires 1 <= limit < |rows| && NewestFirst(rows)
    ensures var c := rows[limit - 1].createdAt;
            && Older(rows, Some(c)) == rows[Cut(rows, c)..] && limit <= Cut(rows, c) <= |rows|
            && NewestFirst(rows[Cut(rows, c)..])
            && (Cut(rows, c) == limit <==> rows[limit].createdAt != c)
  {
    var c := rows[limit - 1].createdAt;
    OlderIsSuffix(rows, c);
    assert forall i :: 0 <= i < limit - 1 ==> rows[i].createdAt >= rows[limit - 1].createdAt;
  }

  lemma SliceOfMany(rows: seq<Notification>, limit: nat)
    requires limit >= 1
    ensures Slice(rows, limit) ==
            if |rows| <= limit then Page(rows, None) else Page(rows[..limit], Some(rows[limit - 1].createdAt))
  {
    if |rows| > limit {
      assert rows[..limit + 1][..limit] == rows[..limit];
    }
  }

  lemma {:induction false} WalkUnfolds(rows: seq<Notification>, limit: nat)
    requires limit >= 1 && NewestFirst(rows)
    ensures |rows| <= limit ==> Walk(rows, limit) == [Page(rows, None)]
    ensures |rows| > limit ==>
              var c := rows[limit - 1].createdAt;
              Walk(rows, limit) == [Page(rows[..limit], Some(c))] + Walk(rows[Cut(rows, c)..], limit)
  {
    SliceOfMany(rows, limit);
    if |rows| > limit {
      RestAfterPage(rows, limit);
    }
  }

  lemma {:induction false} ItemsCons(page: Page, pages: seq<Page>)
    ensures Items([page] + pages) == page.items + Items(pages)
  {
    assert ([page] + pages)[1..] == pages;
  }

  /** The items of a walk over more than one page. */
  lemma {:induction false} ItemsOfWalk(rows: seq<Notification>, limit: nat)
    requires 1 <= limit < |rows| && NewestFirst(rows)
    ensures Items(Walk(rows, limit)) == rows[..limit] + Items(Walk(rows[Cut(rows, rows[limit - 1].createdAt)..], limit))
  {
    var c := rows[limit - 1].createdAt;
    WalkUnfolds(rows, limit);
    ItemsCons(Page(rows[..limit], Some(c)), Walk(rows[Cut(rows, c)..], limit));
  }

  lemma {:induction false} ItemsOfOnePage(rows: seq<Notification>, limit: nat)
    requires limit >= 1 && |rows| <= limit && NewestFirst(rows)
    ensures Items(Walk(rows, limit)) == rows
  {
    WalkUnfolds(rows, limit);
    ItemsCons(Page(rows, None), []);
    assert [Page(rows, None)] + [] == [Page(rows, None)];
  }

  lemma {:induction false} WalkNeverRepeats(rows: seq<Notification>, limit: nat)
    requires limit >= 1 && NewestFirst(rows)
    ensures |Items(Walk(rows, limit))| <= |rows|
    decreases |rows|
  {
    if |rows| <= limit {
      ItemsOfOnePage(rows, limit);
    } else {
      RestAfterPage(rows, limit);
      ItemsOfWalk(rows, limit);
      WalkNeverRepeats(rows[Cut(rows, rows[limit - 1].createdAt)..], limit);
    }
  }

  lemma WithoutTieThePageIsSplitOff(rows: seq<Notification>, limit: nat)
    requires 1 <= limit < |rows| && NewestFirst(rows) && rows[limit].createdAt != rows[limit - 1].createdAt
    ensures NewestFirst(rows[limit..])
    ensures Items(Walk(rows, limit)) == rows <==> Items(Walk(rows[limit..], limit)) == rows[limit..]
  {
    RestAfterPage(rows, limit);
    ItemsOfWalk(rows, limit);
    var page, rest, walked := rows[..limit], rows[limit..], Items(Walk(rows[limit..], limit));
    assert Items(Walk(rows, limit)) == page + walked;
    assert rows == page + rest;
    PrefixCancels(page, walked, rest);
  }

  lemma WithTieARowIsLost(rows: seq<Notification>, limit: nat)
    requires 1 <= limit < |rows| && NewestFirst(rows) && rows[limit].createdAt == rows[limit - 1].createdAt
    ensures |Items(Walk(rows, limit))| < |rows|
  {
    RestAfterPage(rows, limit);
    ItemsOfWalk(rows, limit);
    WalkNeverRepeats(rows[Cut(rows, rows[limit - 1].createdAt)..], limit);
  }

  /** Walking shows every row once, newest first, exactly when no tie straddles a page boundary. */
  lemma {:induction false} WalkSeesAllExactlyWithoutTies(rows: seq<Notification>, limit: nat)
    requires limit >= 1 && NewestFirst(rows)
    ensures Items(Walk(rows, limit)) == rows <==> NoTieAcrossPages(rows, limit)
    decreases |rows|
  {
    if |rows| <= limit {
      ItemsOfOnePage(rows, limit);
    } else if rows[limit].createdAt != rows[limit - 1].createdAt {
      WithoutTieThePageIsSplitOff(rows, limit);
      WalkSeesAllExactlyWithoutTies(rows[limit..], limit);
    } else {
      WithTieARowIsLost(rows, limit);
    }
  }

  lemma PrefixCancels(a: seq<Notification>, b: seq<Notification>, c: seq<Notification>)
    ensures a + b == a + c <==> b == c
  {
    if a + b == a + c {
      assert b == (a + b)[|a|..] && c == (a + c)[|a|..];
    }
  }

  function PagesFor(n: nat, limit: nat): nat
    requires limit >= 1
  {
    if n <= limit then 1 else 1 + PagesFor(n - limit, limit)
  }

  /** One page for an empty table, otherwise the quotient rounded up. */
  lemma {:induction false} PagesForClosedForm(n: nat, limit: nat)
    requires limit >= 1
    ensures PagesFor(n, limit) == if n == 0 then 1 else (n - 1) / limit + 1
  {
    if n > limit {
      PagesForClosedForm(n - limit, limit);
      QuotientDrops(n - 1, limit);
    } else if n > 0 {
      QuotientIsUnique(n - 1, limit, 0, n - 1);
    }
  }

  lemma {:induction false} WalkLength(rows: seq<Notification>, limit: nat)
    requires limit >= 1 && NewestFirst(rows) && NoTieAcrossPages(rows, limit)
    ensures |Walk(rows, limit)| == PagesFor(|rows|, limit)
    decreases |rows|
  {
    WalkUnfolds(rows, limit);
    if |rows| > limit {
      RestAfterPage(rows, limit);
      WalkLength(rows[limit..], limit);
    }
  }

  lemma {:induction false} DistinctTimesHaveNoTies(rows: seq<Notification>, limit: nat)
    requires limit >= 1 && DistinctTimes(rows)
    ensures NoTieAcrossPages(rows, limit)
    decreases |rows|
  {
    if |rows| > limit {
      DistinctTimesHaveNoTies(rows[limit..], limit);
    }
  }

  lemma {:induction false} MatchingKeepsOrder(table: seq<Notification>, user: string, status: string)
    requires NewestFirst(table)
    ensures NewestFirst(Matching(table, user, status))
    ensures forall n :: n in Matching(table, user, status) ==> n in table
  {
    if table != [] {
      var rest := table[1..];
      MatchingKeepsOrder(rest, user, status);
      forall n | n in rest
        ensures table[0].createdAt >= n.createdAt
      {
        var i :| 0 <= i < |rest| && rest[i] == n;
        assert rest[i] == table[i + 1];
      }
    }
  }

  /** Over an unchanging table, following the cursor from the first page yields every matching
      notification exactly once and newest first if and only if no two matching rows with the
      same creation time fall on either side of a page boundary. */
  lemma {:induction false} FollowingTheCursorSeesAllExactlyWithoutTies(table: seq<Notification>, user: string, status: string, limit: nat)
    requires limit >= 1 && NewestFirst(table)
    ensures Items(Follow(table, user, status, limit, None)) == Matching(table, user, status)
            <==> NoTieAcrossPages(Matching(table, user, status), limit)
  {
    var rows := Matching(table, user, status);
    MatchingKeepsOrder(table, user, status);
    OlderNoneIsAll(rows);
    FollowIsWalk(table, user, status, limit, None);
    WalkSeesAllExactlyWithoutTies(rows, limit);
  }

  /** With distinct creation times the walk is complete and takes ceil(n / limit) pages, one if n = 0. */
  lemma {:induction false} DistinctTimesAreListedCompletely(table: seq<Notification>, user: string, status: string, limit: nat)
    requires limit >= 1 && NewestFirst(table) && DistinctTimes(Matching(table, user, status))
    ensures Items(Follow(table, user, status, limit, None)) == Matching(table, user, status)
    ensures var n := |Matching(table, user, status)|;
            |Follow(table, user, status, limit, None)| == if n == 0 then 1 else (n - 1) / limit + 1
  {
    var rows := Matching(table, user, status);
    MatchingKeepsOrder(table, user, status);
    OlderNoneIsAll(rows);
    FollowIsWalk(table, user, status, limit, None);
    DistinctWalk(rows, limit);
    PagesForClosedForm(|rows|, limit);
  }

  lemma {:induction false} DistinctWalk(rows: seq<Notification>, limit: nat)
    requires limit >= 1 && NewestFirst(rows) && DistinctTimes(rows)
    ensures Items(Walk(rows, limit)) == rows
    ensures |Walk(rows, limit)| == PagesFor(|rows|, limit)
  {
    DistinctTimesHaveNoTies(rows, limit);
    WalkSeesAllExactlyWithoutTies(rows, limit);
    WalkLength(rows, limit);
  }

  lemma {:induction false} ListedRowsAreRows(rows: seq<Notification>, limit: nat)
    requires limit >= 1 && NewestFirst(rows)
    ensures forall n :: n in Items(Walk(rows, limit)) ==> n in rows
    decreases |rows|
  {
    if |rows| <= limit {
      ItemsOfOnePage(rows, limit);
    } else {
      var c := rows[limit - 1].createdAt;
      RestAfterPage(rows, limit);
      ItemsOfWalk(rows, limit);
      ListedRowsAreRows(rows[Cut(rows, c)..], limit);
    }
  }

  lemma {:induction false} TiedRowIsSkipped(rows: seq<Notification>, limit: nat, k: nat)
    requires limit >= 1 && NewestFirst(rows) && limit <= k < |rows|
    requires rows[k].createdAt == rows[limit - 1].createdAt && rows[k] !in rows[..limit]
    ensures rows[k] !in Items(Walk(rows, limit))
  {
    var c := rows[limit - 1].createdAt;
    var rest := rows[Cut(rows, c)..];
    RestAfterPage(rows, limit);
    ItemsOfWalk(rows, limit);
    ListedRowsAreRows(rest, limit);
    if rows[k] in rest {
      RestIsOlder(rows, c, rows[k]);
    }
  }

  lemma {:induction false} RestIsOlder(rows: seq<Notification>, c: Instant, n: Notification)
    requires NewestFirst(rows) && n in rows[Cut(rows, c)..]
    ensures n.createdAt < c
  {
    var cut := Cut(rows, c);
    var i :| cut <= i < |rows| && rows[i] == n;
    assert i > cut ==> rows[cut].createdAt >= rows[i].createdAt;
  }

  /** A tie hides rows: whatever shares its creation time with the last row of the first page, but is
      not on that page, is never listed. */
  lemma {:induction false} TiesAcrossPagesAreSkipped(table: seq<Notification>, user: string, status: string, limit: nat, k: nat)
    requires limit >= 1 && NewestFirst(table)
    requires var rows := Matching(table, user, status);
             limit <= k < |rows| && rows[k].createdAt == rows[limit - 1].createdAt && rows[k] !in rows[..limit]
    ensures Matching(table, user, status)[k] !in Items(Follow(table, user, status, limit, None))
  {
    var rows := Matching(table, user, status);
    MatchingKeepsOrder(table, user, status);
    OlderNoneIsAll(rows);
    FollowIsWalk(table, user, status, limit, None);
    TiedRowIsSkipped(rows, limit, k);
  }
}
