/**
  The records the news fetcher hands over and the rows of the news table.

  The table is created with seven columns, in this order:
  0 cdate, 1 url, 2 title, 3 date, 4 body, 5 image (nullable), 6 source.
  `Row` keeps that order, so `r[k]` in the script is the k-th field of `Row`.
 */
module Schema {
  import opened Wrappers

  /** One search result: the dictionary keys the fetcher returns. */
  datatype NewsRecord = NewsRecord(
    title: string,
    source: string,
    body: string,
    url: string,
    image: Option<string>,
    date: string)

  /** One stored row, in the table's column order. */
  datatype Row = Row(
    cdate: string,
    url: string,
    title: string,
    date: string,
    body: string,
    image: Option<string>,
    source: string)

  /** The row `save_db` inserts for a record: the record's fields plus the run date as `cdate`. */
  function Stamp(rec: NewsRecord, runDate: string): Row
  {
    Row(runDate, rec.url, rec.title, rec.date, rec.body, rec.image, rec.source)
  }
}
