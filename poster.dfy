/**
  One run of the poster script, from the fetched search results to the post
  data: save the batch, read back the day's rows, render the digest, have
  it summarised and build the post.
 */
module Poster {
  import opened Wrappers
  import opened Schema
  import opened Html
  import opened Table
  import opened Post

  /**
    One run on `dateString`. `news` is what the search returned and
    `summarize` stands for the assistant that turns the digest into a summary.
   */
  method Run(table: NewsTable, news: seq<NewsRecord>, dateString: string, summarize: string -> string)
    returns (post: BlogPost)
    requires table.Valid()
    modifies table
    ensures table.Valid()
    ensures table.rows == SaveAll(old(table.rows), news, dateString)
    ensures var digest := Digest(Select(table.rows, dateString));
      post == BuildPost(dateString, summarize(digest), digest)
  {
    table.SaveDb(news, dateString);
    var dbNews := table.QueryDb(dateString);
    var html := HtmlOutput(dbNews);
    var summary := summarize(html);
    post := BuildPost(dateString, summary, html);
  }

  /** The post of a run on a table `rows` and a batch `news`. */
  function RunPost(rows: seq<Row>, news: seq<NewsRecord>, dateString: string, summary: string): (post: BlogPost)
    ensures TitleDate(post.title) == Some(dateString)
    ensures post.status == Publish
    ensures var digest := Digest(Select(SaveAll(rows, news, dateString), dateString));
      |digest| <= |post.content| && post.content[|post.content| - |digest|..] == digest
  {
    BuildPost(dateString, summary, Digest(Select(SaveAll(rows, news, dateString), dateString)))
  }

  lemma ViewIn(rows: seq<Row>, r: Row)
    requires r in rows
    ensures View(r) in Views(rows)
  {
    var i :| 0 <= i < |rows| && rows[i] == r;
    ViewsAt(rows, i);
  }

  /**
    A record of the batch whose title is new, to the table and to the batch
    before it, is shown in the published post: reading back the digest at
    the end of the post content finds its title, source, body, url and image.
   */
  lemma FreshNewsIsPosted(rows: seq<Row>, news: seq<NewsRecord>, dateString: string, summary: string, k: nat)
    requires UniqueTitles(rows)
    requires forall r :: r in Select(SaveAll(rows, news, dateString), dateString) ==> Printable(r)
    requires k < |news|
    requires news[k].title !in TitleSet(rows)
    requires forall j :: 0 <= j < k ==> news[j].title != news[k].title
    ensures var post := RunPost(rows, news, dateString, summary);
      var digest := Digest(Select(SaveAll(rows, news, dateString), dateString));
      && ParseDigest(post.content[|post.content| - |digest|..]).Some?
      && View(Stamp(news[k], dateString)) in ParseDigest(post.content[|post.content| - |digest|..]).value
  {
    var today := Select(SaveAll(rows, news, dateString), dateString);
    SaveAllStoresFresh(rows, news, dateString, k);
    DigestRoundTrip(today);
    ViewIn(today, Stamp(news[k], dateString));
  }

  /**
    Whatever the fields hold, the entry of a record with a new title appears
    verbatim in the published post content.
   */
  lemma FreshEntryIsPosted(rows: seq<Row>, news: seq<NewsRecord>, dateString: string, summary: string, k: nat)
    requires UniqueTitles(rows)
    requires k < |news|
    requires news[k].title !in TitleSet(rows)
    requires forall j :: 0 <= j < k ==> news[j].title != news[k].title
    ensures exists p, q :: RunPost(rows, news, dateString, summary).content == p + Entry(Stamp(news[k], dateString)) + q
  {
    var today := Select(SaveAll(rows, news, dateString), dateString);
    var row := Stamp(news[k], dateString);
    SaveAllStoresFresh(rows, news, dateString, k);
    var i :| 0 <= i < |today| && today[i] == row;
    assert today == today[..i] + [row] + today[i + 1..];
    EntryInDigest(today[..i], row, today[i + 1..]);
    DigestPieceInContent(summary, Digest(today[..i]), Entry(row), Digest(today[i + 1..]));
  }
}
