# AI news auto-poster, modelled in Dafny

The poster script searches for news about artificial intelligence. It stores
each result in a MySQL table keyed by title, then reads back the rows stamped
with the run date. It renders those rows as an HTML digest, has a language-model
assistant summarise the digest, and posts the summary followed by the digest to
a WordPress site.

This project models the self-contained part of that script:

- `schema.dfy` (module `Schema`): the fetched record and the stored row. `Row` has the table's
  seven columns in their declared order: 0 `cdate`, 1 `url`, 2 `title`, 3 `date`, 4 `body`,
  5 `image` (nullable, so it is an `Option`), 6 `source`. The script's `r[k]` is the k-th field.
- `digest.dfy` (module `Html`): `htmloutput`. It is the imperative accumulator loop
  `HtmlOutput`, proved equal to the specification function `Digest`. Beside it are
  lemmas about `Digest` and a reader `ParseDigest` that is proved to invert it.
- `table.dfy` (module `Table`): the news table. It is a class `NewsTable` whose `rows`
  field is a sequence kept title-unique by `Valid()`. `SaveDb` is `save_db`'s insert
  loop. `QueryDb` and `Select` are `query_db`'s date filter. `SaveAll` is the
  specification function of a whole save, and the lemmas are about it.
- `post.dfy` (module `Post`): the post's title, content and status.
- `poster.dfy` (module `Poster`): one run, from the save to the post data. There is
  also an end-to-end lemma: a fresh record is visible in the published digest.

The title key comes from the table schema, which declares `PRIMARY KEY (title)`.
The database enforces that key, not the script. The model assumes the constraint:
an insert whose title is already stored is refused and leaves the table unchanged.
Titles are compared with plain string equality.

Two facts about the code that a reader might not expect:
- Each entry prints `r[6]` in parentheses. By the schema's column order, this is the
  `source` column, not the article's `date` column. The model prints `source`.
- `query_db`'s `SELECT` has no `ORDER BY`. The model returns rows in the order of the
  `rows` sequence, which is insertion order; see "Left out".

## Model

| member | source | states |
|---|---|---|
| `Html.HtmlOutput` | ai_news_auto_poster.py:85-96 | the accumulator loop returns exactly the digest of its input rows: every row's entry, appended in input order |
| `Html.AppendPieces` | ai_news_auto_poster.py:88-95 | appending an entry's pieces one `+=` at a time, image tag included, appends that row's whole entry |
| `Html.ImageTag` | ai_news_auto_poster.py:93-94 | the image tag is empty exactly when the image column is NULL or empty; otherwise it opens with `<br><img src="` |
| `Html.Entry` | ai_news_auto_poster.py:88-95 | an entry's length is the lengths of title, source, body, url and image tag plus a fixed amount of markup: every field is printed once, and nothing else varies |
| `Html.Digest` | ai_news_auto_poster.py:85-96 | the digest is the empty string if and only if there are no rows |
| `Html.DigestAppend` | ai_news_auto_poster.py:86-95 | the digest of `xs + ys` is the digest of `xs` followed by the digest of `ys`: a plain concatenation, with no sorting or deduplication |
| `Html.DigestCons` | ai_news_auto_poster.py:86-95 | the digest of a non-empty row sequence begins with its first row's entry |
| `Html.EntryInDigest` | ai_news_auto_poster.py:86-95 | a row's entry appears verbatim in the digest, between the digests of the rows before and after it |
| `Html.ParseHeadingOf` | ai_news_auto_poster.py:88-90 | reading back the heading that lines 88-90 print (`<ol><p><strong>`, title, `</strong><br>(`, column 6, `)<br>`) recovers the title and the source and leaves exactly the text after it |
| `Html.ParseLinkOf` | ai_news_auto_poster.py:90-92 | reading back, from the `<br>` that ends the source line, the body line and the `Read More` link recovers the body and the url and leaves exactly the text after the link |
| `Html.ParseImageOf` | ai_news_auto_poster.py:93-95 | reading back the optional image tag and the closing `</p></ol>` recovers the image exactly when the column is non-NULL and non-empty, and leaves exactly the text after the entry |
| `Html.ParseEntryOf` | ai_news_auto_poster.py:88-95 | reading one entry back recovers the row's title, source, body, url and optional image, and leaves exactly the text that followed it |
| `Html.DigestRoundTrip` | ai_news_auto_poster.py:85-96 | reading the digest back recovers, in order, every row's shown fields; no entry is lost, duplicated or merged |
| `Table.InsertIfAbsent` | ai_news_auto_poster.py:71-75 | one insert only appends; it adds exactly one row if and only if the title is absent; afterwards the stored titles are the old ones plus the record's |
| `Table.SaveAll` | ai_news_auto_poster.py:67-76 | a save only appends: earlier rows are kept unchanged and in place, and at most one row is added per record |
| `Table.NewsTable.Insert` | ai_news_auto_poster.py:71-75 | one insert succeeds exactly when the title is absent; a refused insert leaves the table unchanged; the table stays title-unique |
| `Table.NewsTable.SaveDb` | ai_news_auto_poster.py:67-76 | the insert loop never fails, keeps the table title-unique, and leaves it equal to `SaveAll` of the old table and the batch |
| `Table.InsertKeepsUnique` | ai_news_auto_poster.py:21-22 | an insert-if-absent keeps the primary-key constraint |
| `Table.SaveAllUnique` | ai_news_auto_poster.py:68-75 | after a save the table still holds at most one row per title, even when the batch repeats a title |
| `Table.SaveAllAdds` | ai_news_auto_poster.py:69-70 | every row a save adds is a record of the batch, stamped with the run date as `cdate` |
| `Table.SaveAllTitles` | ai_news_auto_poster.py:68-75 | after a save the table's titles are exactly the old titles plus the batch's titles |
| `Table.SaveAllStoresFresh` | ai_news_auto_poster.py:68-73 | a record whose title is new to the table and to the batch before it is stored stamped with the run date, and is the only row with that title |
| `Table.SaveAllSplit` | ai_news_auto_poster.py:68 | saving a batch record by record is saving its parts one after the other |
| `Table.SaveAllKnown` | ai_news_auto_poster.py:71-75 | a batch whose titles are all stored already leaves the table unchanged |
| `Table.SaveAllIdempotent` | ai_news_auto_poster.py:67-76 | saving the same batch twice leaves the table as saving it once |
| `Table.Select` | ai_news_auto_poster.py:79-83 | a row is returned if and only if it is stored and its `cdate` is the run date |
| `Table.NewsTable.QueryDb` | ai_news_auto_poster.py:78-83 | the query returns exactly the stored rows whose `cdate` equals the run date; rows of other dates are excluded |
| `Table.SelectAppend` | ai_news_auto_poster.py:79-82 | the date filter distributes over concatenation, so it keeps storage order |
| `Table.SelectAll` | ai_news_auto_poster.py:79-82 | filtering rows that all carry the run date returns them all, unchanged |
| `Table.SaveThenSelect` | ai_news_auto_poster.py:101-102 | the day's query after the day's save returns the rows already stamped with that date, followed by every row the save added |
| `Post.PostContent` | ai_news_auto_poster.py:135 | the content is `<p>`, the summary, the fixed lead-in `</p> More information, please check below news source: <br>`, then the digest unchanged at the end |
| `Post.PostTitle` | ai_news_auto_poster.py:134 | the title is `Today's latest AI tech news feed (`, then the date, then `)` |
| `Post.BuildPost` | ai_news_auto_poster.py:133-137 | the post's title carries the run date, its content is the summary followed by the digest as `PostContent` states and so ends with the digest, and its status is `publish` |
| `Post.TitleRoundTrip` | ai_news_auto_poster.py:134 | the title is `Today's latest AI tech news feed (` + date + `)`, and the date can be read back from it |
| `Post.PostTitleInjective` | ai_news_auto_poster.py:134 | runs on different dates give posts with different titles |
| `Post.ContentParts` | ai_news_auto_poster.py:135 | given the summary's length, the content determines both the summary and the digest |
| `Post.DigestPieceInContent` | ai_news_auto_poster.py:135 | any piece of the digest appears verbatim in the post content |
| `Poster.Run` | ai_news_auto_poster.py:98-137 | one run saves the batch, reads back the day's rows, renders their digest, summarises it, and builds the post from the date, the summary and the digest |
| `Poster.RunPost` | ai_news_auto_poster.py:100-135 | the post of a run carries the run date in its title, has status `publish`, and its content ends with the digest of the day's rows after the save |
| `Poster.FreshNewsIsPosted` | ai_news_auto_poster.py:100-135 | a fetched record with a new title shows up in the published post: when the day's rows carry no markup, reading back the digest at the end of the content finds its fields |
| `Poster.FreshEntryIsPosted` | ai_news_auto_poster.py:100-135 | whatever its fields hold, the entry of a fetched record with a new title appears verbatim in the published post content |

## Left out

- The news search (`duckduckgo_news`, lines 62-65) calls a foreign library over the network, and its results are nondeterministic. The run takes the fetched batch as a parameter.
- The MySQL connection, cursor and commit calls (lines 52-59, 72-73, 81-82). The table is modelled as a sequence of rows with the primary-key constraint as an invariant. The constraint is assumed from the schema; the model does not derive it.
- The title column's `utf8mb4_0900_ai_ci` collation compares titles without regard to case or accents. The model compares titles with plain string equality.
- Insert failures other than a duplicate title are not modelled. Examples are a lost connection, a value longer than its `varchar` width, or a batch entry missing a key. The script swallows the first two like a duplicate title; a missing key raises outside the `try`.
- The `cdate` column is a SQL `DATE`, and the query compares it with the date string. The model stores `cdate` as the run's date string and compares strings.
- `Table.Select`: `SELECT` has no `ORDER BY`, so the engine chooses the order of the result. With InnoDB's clustered primary key it would likely be title order. The model returns storage-sequence (insertion) order. The membership contract does not depend on this order; `SelectAppend` and `SaveThenSelect` do.
- `Html.DigestRoundTrip`: the script does not escape HTML. The round trip is proved only for rows whose printed fields contain no `<`; a field holding markup can make entries ambiguous.
- The language-model assistant, its persona and prompt strings, and the sleep-and-retry loop (lines 106-126) are a foreign service with wall-clock sleeps. `Poster.Run` takes the summariser as a function parameter. It therefore assumes the loop eventually gets a summary, although the loop may never end.
- The WordPress `requests.post` and its status check (lines 140-146) are HTTP I/O. The model stops at the post data.
- Loading the environment and `.env` (lines 40-50).
- `datetime.now()` and `strftime` (lines 37-38). The run date is a parameter.
- Console output (`print`) is not modelled.
