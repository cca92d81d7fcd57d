/**
  The news table behind `save_db` and `query_db`, held in memory.

  The table's primary key is `title`: the database refuses a second row with
  a title already present. The model takes that schema constraint as given
  and compares titles with plain string equality.
 */
module Table {
  import opened Schema

  /** The set of titles present in a sequence of rows. */
  function TitleSet(rows: seq<Row>): set<string>
  {
    set r | r in rows :: r.title
  }

  /** The primary-key constraint: no two rows share a title. */
  predicate UniqueTitles(rows: seq<Row>)
  {
    forall i, j :: 0 <= i < j < |rows| ==> rows[i].title != rows[j].title
  }

  /** One `INSERT`: the stamped record is appended unless its title is taken, in which case nothing changes. */
  function InsertIfAbsent(rows: seq<Row>, rec: NewsRecord, runDate: string): (after: seq<Row>)
    ensures rows <= after
    ensures |after| == |rows| + 1 <==> rec.title !in TitleSet(rows)
    ensures |after| <= |rows| + 1
    ensures TitleSet(after) == TitleSet(rows) + {rec.title}
  {
    if rec.title in TitleSet(rows) then rows else rows + [Stamp(rec, runDate)]
  }

  /**
    The table after inserting a batch of records one by one, in batch order.
    Rows are only ever appended: the rows present before are kept, unchanged
    and in place, and at most one row is added per record.
   */
  function SaveAll(rows: seq<Row>, news: seq<NewsRecord>, runDate: string): (after: seq<Row>)
    ensures |rows| <= |after| <= |rows| + |news|
    ensures after[..|rows|] == rows
  {
    if news == [] then rows
    else InsertIfAbsent(SaveAll(rows, news[..|news| - 1], runDate), news[|news| - 1], runDate)
  }

  /** `SELECT * … WHERE cdate = runDate`: the rows stamped with `runDate`, in storage order. */
  function Select(rows: seq<Row>, runDate: string): (result: seq<Row>)
    ensures forall r :: r in result <==> r in rows && r.cdate == runDate
    ensures |result| <= |rows|
  {
    if rows == [] then []
    else if rows[0].cdate == runDate then [rows[0]] + Select(rows[1..], runDate)
    else Select(rows[1..], runDate)
  }

  class NewsTable {
    var rows: seq<Row>

    ghost predicate Valid()
      reads this
    {
      UniqueTitles(rows)
    }

    constructor ()
      ensures Valid() && rows == []
    {
      rows := [];
    }

    /**
      One `INSERT` of a stamped record. It is refused, leaving the table
      as it was, exactly when the title is already present.
     */
    method Insert(rec: NewsRecord, runDate: string) returns (inserted: bool)
      requires Valid()
      modifies this
      ensures Valid()
      ensures inserted <==> rec.title !in TitleSet(old(rows))
      ensures rows == InsertIfAbsent(old(rows), rec, runDate)
    {
      inserted := rec.title !in TitleSet(rows);
      if inserted {
        InsertKeepsUnique(rows, rec, runDate);
        rows := rows + [Stamp(rec, runDate)];
      }
    }

    /**
      `save_db`: inserts every record of the batch stamped with the run
      date; a refused insert is swallowed and the loop goes on.
     */
    method SaveDb(news: seq<NewsRecord>, runDate: string)
      requires Valid()
      modifies this
      ensures Valid()
      ensures rows == SaveAll(old(rows), news, runDate)
    {
      for i := 0 to |news|
        invariant Valid()
        invariant rows == SaveAll(old(rows), news[..i], runDate)
      {
        var _ := Insert(news[i], runDate);
        assert news[..i + 1][..i] == news[..i];
      }
      assert news[..|news|] == news;
    }

    /** `query_db`: the rows stamped with the run date. */
    function QueryDb(runDate: string): (result: seq<Row>)
      reads this
      ensures forall r :: r in result <==> r in rows && r.cdate == runDate
    {
      Select(rows, runDate)
    }
  }

  lemma InsertKeepsUnique(rows: seq<Row>, rec: NewsRecord, runDate: string)
    requires UniqueTitles(rows)
    ensures UniqueTitles(InsertIfAbsent(rows, rec, runDate))
  {
    if rec.title !in TitleSet(rows) {
      var rows' := rows + [Stamp(rec, runDate)];
      forall i | 0 <= i < |rows|
        ensures rows'[i].title != rec.title
      {
        assert rows[i] in rows;
      }
    }
  }

  /** Saving a batch keeps the primary-key constraint: at most one row per title. */
  lemma {:induction false} SaveAllUnique(rows: seq<Row>, news: seq<NewsRecord>, runDate: string)
    requires UniqueTitles(rows)
    ensures UniqueTitles(SaveAll(rows, news, runDate))
  {
    if news != [] {
      SaveAllUnique(rows, news[..|news| - 1], runDate);
      InsertKeepsUnique(SaveAll(rows, news[..|news| - 1], runDate), news[|news| - 1], runDate);
    }
  }

  /** Every row a save adds is a record of the batch, stamped with the run date. */
  lemma {:induction false} SaveAllAdds(rows: seq<Row>, news: seq<NewsRecord>, runDate: string, k: nat)
    requires |rows| <= k < |SaveAll(rows, news, runDate)|
    ensures SaveAll(rows, news, runDate)[k].cdate == runDate
    ensures exists rec :: rec in news && SaveAll(rows, news, runDate)[k] == Stamp(rec, runDate)
  {
    var init := news[..|news| - 1];
    var last := news[|news| - 1];
    var before := SaveAll(rows, init, runDate);
    if k < |before| {
      SaveAllAdds(rows, init, runDate, k);
      var rec :| rec in init && before[k] == Stamp(rec, runDate);
      assert rec in news;
    } else {
      assert SaveAll(rows, news, runDate)[k] == Stamp(last, runDate);
      assert last in news;
    }
  }

  /** After a save, the table holds every title it held before and every title of the batch, and no other. */
  lemma {:induction false} SaveAllTitles(rows: seq<Row>, news: seq<NewsRecord>, runDate: string)
    ensures TitleSet(SaveAll(rows, news, runDate)) == TitleSet(rows) + (set rec | rec in news :: rec.title)
  {
    if news != [] {
      var init := news[..|news| - 1];
      var last := news[|news| - 1];
      SaveAllTitles(rows, init, runDate);
      var before := SaveAll(rows, init, runDate);
      if last.title !in TitleSet(before) {
        assert TitleSet(before + [Stamp(last, runDate)]) == TitleSet(before) + {last.title};
      }
      assert news == init + [last];
      assert (set rec | rec in news :: rec.title) == (set rec | rec in init :: rec.title) + {last.title};
    }
  }

  /**
    A record whose title is new to the table and to the batch before it is
    stored, stamped with the run date, and is the only row with that title.
   */
  /** A record whose title is new to the table and to the batch before it is appended when its turn comes. */
  lemma SaveAllFreshStep(rows: seq<Row>, news: seq<NewsRecord>, runDate: string, k: nat)
    requires k < |news|
    requires news[k].title !in TitleSet(rows)
    requires forall j :: 0 <= j < k ==> news[j].title != news[k].title
    ensures SaveAll(rows, news[..k + 1], runDate) == SaveAll(rows, news[..k], runDate) + [Stamp(news[k], runDate)]
  {
    var pre := news[..k];
    assert news[..k + 1][..k] == pre;
    SaveAllTitles(rows, pre, runDate);
    assert news[k].title !in (set rec | rec in pre :: rec.title);
  }

  /**
    A record whose title is new to the table and to the batch before it is
    stored, stamped with the run date, and is the only row with that title.
   */
  lemma SaveAllStoresFresh(rows: seq<Row>, news: seq<NewsRecord>, runDate: string, k: nat)
    requires UniqueTitles(rows)
    requires k < |news|
    requires news[k].title !in TitleSet(rows)
    requires forall j :: 0 <= j < k ==> news[j].title != news[k].title
    ensures Stamp(news[k], runDate) in SaveAll(rows, news, runDate)
    ensures forall r :: r in SaveAll(rows, news, runDate) && r.title == news[k].title ==> r == Stamp(news[k], runDate)
  {
    var upto := news[..k + 1];
    var after := SaveAll(rows, upto, runDate);
    SaveAllFreshStep(rows, news, runDate, k);
    var at := |after| - 1;
    assert after[at] == Stamp(news[k], runDate);
    assert news == upto + news[k + 1..];
    SaveAllSplit(rows, upto, news[k + 1..], runDate);
    var final := SaveAll(rows, news, runDate);
    assert final[..|after|] == after;
    assert final[at] == Stamp(news[k], runDate) by {
      assert final[at] == final[..|after|][at];
    }
    SaveAllUnique(rows, news, runDate);
    forall r | r in final && r.title == news[k].title
      ensures r == Stamp(news[k], runDate)
    {
      var i :| 0 <= i < |final| && final[i] == r;
      assert i == at;
    }
  }

  /** Saving two batches one after the other is saving their concatenation. */
  lemma {:induction false} SaveAllSplit(rows: seq<Row>, xs: seq<NewsRecord>, ys: seq<NewsRecord>, runDate: string)
    ensures SaveAll(rows, xs + ys, runDate) == SaveAll(SaveAll(rows, xs, runDate), ys, runDate)
    decreases |ys|
  {
    if ys == [] {
      assert xs + ys == xs;
    } else {
      assert (xs + ys)[..|xs + ys| - 1] == xs + ys[..|ys| - 1];
      assert (xs + ys)[|xs + ys| - 1] == ys[|ys| - 1];
      SaveAllSplit(rows, xs, ys[..|ys| - 1], runDate);
    }
  }

  /** A batch whose titles are all present already leaves the table unchanged: duplicates are skipped. */
  lemma {:induction false} SaveAllKnown(rows: seq<Row>, news: seq<NewsRecord>, runDate: string)
    requires forall rec :: rec in news ==> rec.title in TitleSet(rows)
    ensures SaveAll(rows, news, runDate) == rows
  {
    if news != [] {
      SaveAllKnown(rows, news[..|news| - 1], runDate);
      assert news[|news| - 1] in news;
    }
  }

  /** Saving the same batch twice (say, a re-run on the same day) leaves the table as saving it once. */
  lemma SaveAllIdempotent(rows: seq<Row>, news: seq<NewsRecord>, runDate: string)
    ensures SaveAll(SaveAll(rows, news, runDate), news, runDate) == SaveAll(rows, news, runDate)
  {
    var once := SaveAll(rows, news, runDate);
    SaveAllTitles(rows, news, runDate);
    forall rec | rec in news
      ensures rec.title in TitleSet(once)
    {
      assert rec.title in (set rec' | rec' in news :: rec'.title);
    }
    SaveAllKnown(once, news, runDate);
  }

  /** Selecting by date distributes over concatenation, so it keeps the storage order. */
  lemma {:induction false} SelectAppend(xs: seq<Row>, ys: seq<Row>, runDate: string)
    ensures Select(xs + ys, runDate) == Select(xs, runDate) + Select(ys, runDate)
  {
    if xs == [] {
      assert xs + ys == ys;
    } else {
      assert (xs + ys)[0] == xs[0];
      assert (xs + ys)[1..] == xs[1..] + ys;
      SelectAppend(xs[1..], ys, runDate);
    }
  }

  /** Selecting a table whose every row carries the date keeps every row. */
  lemma {:induction false} SelectAll(rows: seq<Row>, runDate: string)
    requires forall r :: r in rows ==> r.cdate == runDate
    ensures Select(rows, runDate) == rows
  {
    if rows != [] {
      assert rows[0] in rows;
      SelectAll(rows[1..], runDate);
    }
  }

  /**
    What the day's query returns after the day's save: the rows already
    stamped with the run date, followed by every row the save added.
   */
  lemma SaveThenSelect(rows: seq<Row>, news: seq<NewsRecord>, runDate: string)
    ensures var after := SaveAll(rows, news, runDate);
      Select(after, runDate) == Select(rows, runDate) + after[|rows|..]
  {
    var after := SaveAll(rows, news, runDate);
    assert after == rows + after[|rows|..];
    SelectAppend(rows, after[|rows|..], runDate);
    forall r | r in after[|rows|..]
      ensures r.cdate == runDate
    {
      var k :| 0 <= k < |after[|rows|..]| && after[|rows|..][k] == r;
      SaveAllAdds(rows, news, runDate, |rows| + k);
    }
    SelectAll(after[|rows|..], runDate);
  }
}
