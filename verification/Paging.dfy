/**
 Reading an account's transfers page by page, from the latest back
 (apps/app-apis/src/modules/accounts/service.ts). Rows are named by their `seq`.
 */
module Paging {
  import opened Wrappers

  datatype Row = Row(from: Option<nat>, to: nat)

  /** The accounts, and the transfers by their unique `seq`. */
  datatype Database = Database(accounts: set<nat>, transfers: map<nat, Row>)

  /** Rows and accounts are added, never removed; a row's accounts never change. */
  predicate Grows(a: Database, b: Database) {
    && a.accounts <= b.accounts
    && forall s :: s in a.transfers ==> s in b.transfers && b.transfers[s] == a.transfers[s]
  }

  predicate Involves(row: Row, account: nat) {
    row.from == Some(account) || row.to == account
  }

  /** The account's rows below the cursor. */
  function Matching(db: Database, account: nat, cursor: Option<nat>): set<nat> {
    set s | s in db.transfers && Involves(db.transfers[s], account) && (cursor.None? || s < cursor.value)
  }

  // ---------- sorting ----------

  predicate Descending(s: seq<nat>) {
    forall i, j :: 0 <= i < j < |s| ==> s[i] > s[j]
  }

  predicate IsGreatest(m: nat, s: set<nat>) {
    m in s && forall x :: x in s ==> x <= m
  }

  lemma {:induction false} Greatest(s: set<nat>)
    requires s != {}
    ensures exists m :: IsGreatest(m, s)
  {
    var x :| x in s;
    var rest := s - {x};
    if rest == {} {
      assert s == {x};
      assert IsGreatest(x, s);
    } else {
      Greatest(rest);
      var m :| IsGreatest(m, rest);
      assert IsGreatest(if x > m then x else m, s) by {
        assert s == rest + {x};
      }
    }
  }

  /** The `n` greatest, greatest first. */
  ghost function Top(s: set<nat>, n: nat): (r: seq<nat>)
    ensures |r| <= n && |r| <= |s|
    ensures forall x :: x in r ==> x in s
    ensures Descending(r)
    ensures |r| < n ==> forall x :: x in s ==> x in r
    ensures forall x, y :: x in s && x !in r && y in r ==> x < y
    decreases n
  {
    if n == 0 || s == {} then []
    else
      Greatest(s);
      var m :| IsGreatest(m, s);
      var rest := Top(s - {m}, n - 1);
      GreatestFirst(s, m, rest);
      [m] + rest
  }

  lemma GreatestFirst(s: set<nat>, m: nat, rest: seq<nat>)
    requires IsGreatest(m, s) && Descending(rest) && |rest| <= |s - {m}|
    requires forall x :: x in rest ==> x in s - {m}
    ensures Descending([m] + rest) && |[m] + rest| <= |s|
    ensures forall x :: x in [m] + rest ==> x in s
    ensures (forall x :: x in s - {m} ==> x in rest) ==> forall x :: x in s ==> x in [m] + rest
    ensures (forall x, y :: x in s - {m} && x !in rest && y in rest ==> x < y) ==>
              forall x, y :: x in s && x !in [m] + rest && y in [m] + rest ==> x < y
  {
    assert forall k :: 0 <= k < |rest| ==> rest[k] in s - {m};
  }

  // ---------- one page ----------

  datatype Page = Page(items: seq<nat>, nextCursor: Option<nat>)

  datatype HistoryError = AccountNotFound

  /** One more row than the limit is fetched to know whether there is a next page. */
  ghost function GetHistory(db: Database, account: nat, limit: nat, cursor: Option<nat>): Result<Page, HistoryError> {
    if account !in db.accounts then Failure(AccountNotFound)
    else
      var rows := Top(Matching(db, account, cursor), limit + 1);
      var items := if |rows| > limit then rows[..limit] else rows;
      Success(Page(items, if |rows| > limit && items != [] then Some(items[|items| - 1]) else None))
  }

  /** A page holds the greatest rows below its cursor, and says exactly whether there are more. */
  lemma PageExactly(db: Database, account: nat, limit: nat, cursor: Option<nat>)
    requires limit >= 1
    ensures GetHistory(db, account, limit, cursor) == Failure(AccountNotFound) <==> account !in db.accounts
    ensures account in db.accounts ==> GetHistory(db, account, limit, cursor).Success?
    ensures account in db.accounts ==>
      var page := GetHistory(db, account, limit, cursor).value;
      var rows := Matching(db, account, cursor);
      && Descending(page.items) && |page.items| <= limit
      && (forall x :: x in page.items ==> x in rows)
      && (page.nextCursor.None? ==> forall x :: x in rows ==> x in page.items)
      && (page.nextCursor.Some? ==>
           && |page.items| == limit && page.nextCursor.value == page.items[limit - 1]
           && (forall x :: x in rows ==> x in page.items || x < page.nextCursor.value)
           && exists x :: x in rows && x !in page.items)
      && (page.nextCursor.Some? && cursor.Some? ==> page.nextCursor.value < cursor.value)
  {
    hide Matching, Top;
    CutPage(Matching(db, account, cursor), Top(Matching(db, account, cursor), limit + 1), limit);
    BelowCursor(db, account, cursor);
  }

  /** One row more than the page was fetched exactly if there are more, and all of them come after the page. */
  lemma CutPage(rows: set<nat>, top: seq<nat>, limit: nat)
    requires limit >= 1 && |top| <= limit + 1 && Descending(top)
    requires forall x :: x in top ==> x in rows
    requires |top| <= limit ==> forall x :: x in rows ==> x in top
    requires forall x, y :: x in rows && x !in top && y in top ==> x < y
    ensures |top| > limit ==>
      && Descending(top[..limit])
      && (forall x :: x in top[..limit] ==> x in rows)
      && (forall x :: x in rows ==> x in top[..limit] || x < top[limit - 1])
      && top[limit] in rows && top[limit] !in top[..limit]
      && top[limit - 1] in rows
  {
    if |top| > limit {
      assert top[limit] in rows && top[limit - 1] in top;
      forall x | x in rows ensures x in top[..limit] || x < top[limit - 1] {
        if x in top {
          var i :| 0 <= i < |top| && top[i] == x;
          assert i < limit ==> top[..limit][i] == x;
        }
      }
    }
  }

  lemma BelowCursor(db: Database, account: nat, cursor: Option<nat>)
    ensures cursor.Some? ==> forall x :: x in Matching(db, account, cursor) ==> x < cursor.value
  {
  }

  // ---------- following the cursor ----------

  type Databases = nat -> Database

  ghost predicate Growing(dbs: Databases) {
    forall i: nat, j: nat :: i <= j ==> Grows(dbs(i), dbs(j))
  }

  /**
   Following `nextCursor` to the end: request `i` sees `dbs(i)` and asks for
   `limits(i)` rows. That this function is defined is that following ends: the
   cursor strictly decreases.
   */
  ghost function History(dbs: Databases, limits: nat -> nat, account: nat, i: nat, cursor: Option<nat>): seq<nat>
    requires Growing(dbs) && account in dbs(i).accounts && forall j :: limits(j) >= 1
    decreases cursor.None?, if cursor.Some? then cursor.value else 0
  {
    PageExactly(dbs(i), account, limits(i), cursor);
    var page := GetHistory(dbs(i), account, limits(i), cursor).value;
    assert Grows(dbs(i), dbs(i + 1));
    page.items + if page.nextCursor.Some? then History(dbs, limits, account, i + 1, page.nextCursor) else []
  }

  /**
   Whatever the page sizes and whatever rows are inserted between requests: the
   pages together are strictly descending, so without duplicates, hold only the
   account's rows, and hold every one that was there at the first request.
   */
  lemma {:induction false} HistoryComplete(dbs: Databases, limits: nat -> nat, account: nat, i: nat,
      cursor: Option<nat>)
    requires Growing(dbs) && account in dbs(i).accounts && forall j :: limits(j) >= 1
    ensures var all := History(dbs, limits, account, i, cursor);
      && Descending(all)
      && (forall x :: x in Matching(dbs(i), account, cursor) ==> x in all)
      && (forall x :: x in all ==> exists j: nat :: x in Matching(dbs(j), account, cursor))
    decreases cursor.None?, if cursor.Some? then cursor.value else 0
  {
    hide GetHistory, Matching;
    PageExactly(dbs(i), account, limits(i), cursor);
    var page := GetHistory(dbs(i), account, limits(i), cursor).value;
    if page.nextCursor.Some? {
      assert Grows(dbs(i), dbs(i + 1));
      HistoryComplete(dbs, limits, account, i + 1, page.nextCursor);
      LaterPages(dbs, account, i, cursor, page, History(dbs, limits, account, i + 1, page.nextCursor));
    }
  }

  /** One page and all that follow its cursor. */
  lemma LaterPages(dbs: Databases, account: nat, i: nat, cursor: Option<nat>, page: Page, later: seq<nat>)
    requires Growing(dbs) && page.nextCursor.Some? && (cursor.Some? ==> page.nextCursor.value < cursor.value)
    requires Descending(page.items) && page.items != []
    requires page.nextCursor.value == page.items[|page.items| - 1]
    requires forall x :: x in page.items ==> x in Matching(dbs(i), account, cursor)
    requires forall x :: x in Matching(dbs(i), account, cursor) ==> x in page.items || x < page.nextCursor.value
    requires Descending(later)
    requires forall x :: x in Matching(dbs(i + 1), account, page.nextCursor) ==> x in later
    requires forall x :: x in later ==> exists j: nat :: x in Matching(dbs(j), account, page.nextCursor)
    ensures var all := page.items + later;
      && Descending(all)
      && (forall x :: x in Matching(dbs(i), account, cursor) ==> x in all)
      && (forall x :: x in all ==> exists j: nat :: x in Matching(dbs(j), account, cursor))
  {
    assert Grows(dbs(i), dbs(i + 1));
    forall x | x in later ensures x < page.nextCursor.value {
      var j: nat :| x in Matching(dbs(j), account, page.nextCursor);
    }
    forall x | x in page.items + later ensures exists j: nat :: x in Matching(dbs(j), account, cursor) {
      if x in page.items {
        assert x in Matching(dbs(i), account, cursor);
      } else {
        var j: nat :| x in Matching(dbs(j), account, page.nextCursor);
        assert x in Matching(dbs(j), account, cursor);
      }
    }
    LaterRows(dbs(i), dbs(i + 1), account, cursor, page.nextCursor);
    hide Matching, Growing, Grows;
    assert forall k :: 0 <= k < |later| ==> later[k] in later;
    assert forall k :: 0 <= k < |page.items| ==> page.items[k] >= page.nextCursor.value;
  }

  /** Rows below the next cursor are still there at the next request. */
  lemma LaterRows(before: Database, after: Database, account: nat, cursor: Option<nat>, next: Option<nat>)
    requires Grows(before, after) && next.Some?
    ensures forall x :: x in Matching(before, account, cursor) && x < next.value ==> x in Matching(after, account, next)
  {
  }

  /** The transfer was made, from the account or to it. */
  predicate OfAccount(db: Database, s: nat, account: nat) {
    s in db.transfers && (db.transfers[s].from == Some(account) || db.transfers[s].to == account)
  }

  /**
   From the first page on: every transfer to or from the account that was there at the first request is
   on some page, and what is on a page is a transfer to or from the account.
   */
  lemma HistoryOfAccount(dbs: Databases, limits: nat -> nat, account: nat, i: nat)
    requires Growing(dbs) && account in dbs(i).accounts && forall j :: limits(j) >= 1
    ensures forall s :: OfAccount(dbs(i), s, account) ==> s in History(dbs, limits, account, i, None)
    ensures forall s :: s in History(dbs, limits, account, i, None) ==> exists j: nat :: OfAccount(dbs(j), s, account)
  {
    hide History;
    HistoryComplete(dbs, limits, account, i, None);
    var all := History(dbs, limits, account, i, None);
    forall s | OfAccount(dbs(i), s, account) ensures s in all {
      assert s in Matching(dbs(i), account, None);
    }
    forall s | s in all ensures exists j: nat :: OfAccount(dbs(j), s, account) {
      var j: nat :| s in Matching(dbs(j), account, None);
      assert OfAccount(dbs(j), s, account);
    }
  }
}
