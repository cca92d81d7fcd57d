/**
  The blog post the script submits: a title carrying the run date, and a
  content made of the summary paragraph followed by the digest of the day's
  news.
 */
module Post {
  import opened Wrappers

  const TitleOpen := "Today's latest AI tech news feed ("
  const TitleClose := ")"
  const SummaryOpen := "<p>"
  const SummaryClose := "</p> More information, please check below news source: <br>"
  const Publish := "publish"

  datatype BlogPost = BlogPost(title: string, content: string, status: string)

  /** The post title for a run date. */
  function PostTitle(dateString: string): (title: string)
    ensures |title| == |TitleOpen| + |dateString| + |TitleClose|
    ensures title[..|TitleOpen|] == TitleOpen
    ensures title[|TitleOpen|..|title| - |TitleClose|] == dateString
    ensures title[|title| - |TitleClose|..] == TitleClose
  {
    TitleOpen + dateString + TitleClose
  }

  /** Reads the run date back out of a post title. */
  function TitleDate(title: string): Option<string>
  {
    if |TitleOpen| + |TitleClose| <= |title| && TitleOpen <= title && title[|title| - |TitleClose|..] == TitleClose
    then Some(title[|TitleOpen|..|title| - |TitleClose|])
    else None
  }

  /** The post content: the summary as a paragraph, a fixed lead-in, then the digest unchanged. */
  function PostContent(summary: string, digest: string): (content: string)
    ensures |content| == |SummaryOpen| + |summary| + |SummaryClose| + |digest|
    ensures content[..|SummaryOpen|] == SummaryOpen
    ensures content[|SummaryOpen|..|SummaryOpen| + |summary|] == summary
    ensures content[|SummaryOpen| + |summary|..|content| - |digest|] == SummaryClose
    ensures content[|content| - |digest|..] == digest
  {
    var lead := SummaryOpen + summary;
    assert (lead + SummaryClose)[..|lead|] == lead;
    SummaryOpen + summary + SummaryClose + digest
  }

  /** The post data sent to the publishing endpoint. */
  function BuildPost(dateString: string, summary: string, digest: string): (post: BlogPost)
    ensures TitleDate(post.title) == Some(dateString)
    ensures |digest| <= |post.content| && post.content[|post.content| - |digest|..] == digest
    ensures post.status == Publish
    ensures post.content == PostContent(summary, digest)
  {
    TitleRoundTrip(dateString);
    BlogPost(PostTitle(dateString), PostContent(summary, digest), Publish)
  }

  /** The run date can be read back from the post title. */
  lemma TitleRoundTrip(dateString: string)
    ensures TitleDate(PostTitle(dateString)) == Some(dateString)
  {
    var t := PostTitle(dateString);
    assert t[..|TitleOpen|] == TitleOpen;
    assert t[|t| - |TitleClose|..] == TitleClose;
    assert t[|TitleOpen|..|t| - |TitleClose|] == dateString;
  }

  /** Runs on different dates publish posts with different titles. */
  lemma PostTitleInjective(d1: string, d2: string)
    requires PostTitle(d1) == PostTitle(d2)
    ensures d1 == d2
  {
    TitleRoundTrip(d1);
    TitleRoundTrip(d2);
  }

  /** Both the summary and the digest can be read back out of the content, given the summary's length. */
  lemma ContentParts(summary: string, digest: string, s2: string, d2: string)
    requires PostContent(summary, digest) == PostContent(s2, d2)
    requires |summary| == |s2|
    ensures summary == s2 && digest == d2
  {
  }

  /** Any piece of the digest appears verbatim in the content. */
  lemma DigestPieceInContent(summary: string, before: string, piece: string, after: string)
    ensures exists p, q :: PostContent(summary, before + piece + after) == p + piece + q
  {
    var lead := SummaryOpen + summary + SummaryClose;
    assert PostContent(summary, before + piece + after) == lead + (before + piece + after);
    assert lead + (before + piece + after) == (lead + before) + piece + after;
  }
}
