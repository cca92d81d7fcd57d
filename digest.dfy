/**
  The digest serialiser: the day's stored rows rendered as one HTML string,
  one `<ol><p>…</p></ol>` entry per row, in the order the rows are given.
 */
module Html {
  import opened Wrappers
  import opened Schema

  // The fixed markup of an entry, in the order the entry emits it.
  const ItemOpen := "<ol><p>"
  const StrongOpen := "<strong>"
  const StrongClose := "</strong>"
  const SourceOpen := "<br>("
  const SourceClose := ")" + LineBreak
  const LineBreak := "<br>"
  const LinkOpen := "<a href=\""
  const LinkText := "\" target=\"_blank\">Read More"
  const LinkEnd := "</a>"
  const LinkClose := LinkText + LinkEnd
  const ImageOpen := "<br><img src=\""
  const ImageClose := "\" alt=\"News Image\">"
  const ItemClose := "</p></ol>"

  /** The length of an entry's fixed markup. */
  const EntryMarkup := |ItemOpen + StrongOpen + StrongClose + SourceOpen + SourceClose + LineBreak + LinkOpen + LinkClose + ItemClose|

  /** The script tests the image column for truthiness: NULL and the empty string both fail. */
  predicate HasImage(r: Row)
  {
    r.image.Some? && r.image.value != ""
  }

  /** The optional image tag of an entry: empty exactly when the row has no image to show. */
  function ImageTag(r: Row): (tag: string)
    ensures tag == "" <==> !HasImage(r)
    ensures HasImage(r) ==> ImageOpen <= tag
  {
    if HasImage(r) then ImageOpen + r.image.value + ImageClose else ""
  }

  /**
    The entry of one row: the title in bold, the source column (index 6) in
    parentheses, the body, a link to the url and the optional image, grouped
    as the script appends them.
   */
  function Entry(r: Row): (entry: string)
    ensures |entry| == |r.title| + |r.source| + |r.body| + |r.url| + |ImageTag(r)| + EntryMarkup
  {
    ItemOpen
    + (StrongOpen + r.title + StrongClose)
    + (SourceOpen + r.source + SourceClose)
    + (r.body + LineBreak)
    + (LinkOpen + r.url + LinkClose)
    + ImageTag(r)
    + ItemClose
  }

  /**
    The digest of a sequence of rows: their entries, concatenated in input
    order. It is empty exactly when there are no rows.
   */
  function Digest(rows: seq<Row>): (digest: string)
    ensures digest == "" <==> rows == []
  {
    if rows == [] then "" else Digest(rows[..|rows| - 1]) + Entry(rows[|rows| - 1])
  }

  lemma AppendAssoc(a: string, b: string, c: string)
    ensures a + (b + c) == (a + b) + c
  {
  }

  /** Appending the pieces of an entry one by one to `h` appends the entry. */
  lemma {:induction false} AppendPieces(h: string, r: Row)
    ensures h + ItemOpen
              + (StrongOpen + r.title + StrongClose)
              + (SourceOpen + r.source + SourceClose)
              + (r.body + LineBreak)
              + (LinkOpen + r.url + LinkClose)
              + ImageTag(r)
              + ItemClose
            == h + Entry(r)
  {
    var p1 := ItemOpen;
    var p2 := p1 + (StrongOpen + r.title + StrongClose);
    var p3 := p2 + (SourceOpen + r.source + SourceClose);
    var p4 := p3 + (r.body + LineBreak);
    var p5 := p4 + (LinkOpen + r.url + LinkClose);
    var p6 := p5 + ImageTag(r);
    AppendAssoc(h, p1, StrongOpen + r.title + StrongClose);
    AppendAssoc(h, p2, SourceOpen + r.source + SourceClose);
    AppendAssoc(h, p3, r.body + LineBreak);
    AppendAssoc(h, p4, LinkOpen + r.url + LinkClose);
    AppendAssoc(h, p5, ImageTag(r));
    AppendAssoc(h, p6, ItemClose);
  }

  /** `htmloutput`: the accumulator loop that builds the digest. */
  method HtmlOutput(news: seq<Row>) returns (html: string)
    ensures html == Digest(news)
  {
    html := "";
    for i := 0 to |news|
      invariant html == Digest(news[..i])
    {
      var r := news[i];
      ghost var before := html;
      html := html + ItemOpen;
      html := html + (StrongOpen + r.title + StrongClose);
      html := html + (SourceOpen + r.source + SourceClose);
      html := html + (r.body + LineBreak);
      html := html + (LinkOpen + r.url + LinkClose);
      ghost var linked := html;
      if r.image.Some? && r.image.value != "" {
        html := html + (ImageOpen + r.image.value + ImageClose);
      }
      assert html == linked + ImageTag(r);
      html := html + ItemClose;
      AppendPieces(before, r);
      assert news[..i + 1][..i] == news[..i];
    }
    assert news[..|news|] == news;
  }

  /** The digest is a plain concatenation: no sorting, merging or deduplication across rows. */
  lemma {:induction false} DigestAppend(xs: seq<Row>, ys: seq<Row>)
    ensures Digest(xs + ys) == Digest(xs) + Digest(ys)
    decreases |ys|
  {
    if ys == [] {
      assert xs + ys == xs;
    } else {
      var last := ys[|ys| - 1];
      var init := ys[..|ys| - 1];
      assert (xs + ys)[..|xs + ys| - 1] == xs + init;
      assert (xs + ys)[|xs + ys| - 1] == last;
      DigestAppend(xs, init);
      AppendAssoc(Digest(xs), Digest(init), Entry(last));
    }
  }

  /** The digest of a non-empty sequence begins with the entry of its first row. */
  lemma DigestCons(r: Row, rows: seq<Row>)
    ensures Digest([r] + rows) == Entry(r) + Digest(rows)
  {
    DigestAppend([r], rows);
    assert [r][..0] == [];
    var e := Entry(r);
    assert "" + e == e;
  }

  /** A row's entry appears verbatim in the digest, between the digests of the rows around it. */
  lemma EntryInDigest(xs: seq<Row>, r: Row, ys: seq<Row>)
    ensures Digest(xs + [r] + ys) == Digest(xs) + Entry(r) + Digest(ys)
  {
    assert xs + [r] + ys == xs + ([r] + ys);
    DigestAppend(xs, [r] + ys);
    DigestCons(r, ys);
    AppendAssoc(Digest(xs), Entry(r), Digest(ys));
  }

  // ---------------------------------------------------------------------
  // Reading a digest back. The entry format is unambiguous as long as the
  // printed fields carry no markup: a reader of the digest recovers every
  // row's title, source, body, url and image, in order.
  // ---------------------------------------------------------------------

  /** What a reader of the digest sees of one row (`cdate` and `date` are not printed). */
  datatype Shown = Shown(title: string, source: string, body: string, url: string, image: Option<string>)

  function View(r: Row): Shown
  {
    Shown(r.title, r.source, r.body, r.url, if HasImage(r) then Some(r.image.value) else None)
  }

  function Views(rows: seq<Row>): seq<Shown>
  {
    if rows == [] then [] else [View(rows[0])] + Views(rows[1..])
  }

  /** The printed fields of a row hold no `<`, so none of them can be mistaken for markup. */
  predicate Printable(r: Row)
  {
    && '<' !in r.title
    && '<' !in r.source
    && '<' !in r.body
    && '<' !in r.url
    && (HasImage(r) ==> '<' !in r.image.value)
  }

  /** The length of the text before the first tag of `s`. */
  function TextLength(s: string): (n: nat)
    ensures n <= |s|
    ensures '<' !in s[..n]
    ensures n < |s| ==> s[n] == '<'
  {
    if s == [] || s[0] == '<' then 0
    else
      var m := TextLength(s[1..]);
      assert s[..m + 1] == [s[0]] + s[1..][..m];
      m + 1
  }

  /** Skips the markup `lit` at the front of `s`. */
  function Skip(lit: string, s: string): (rest: Option<string>)
    ensures rest.Some? ==> |rest.value| == |s| - |lit|
  {
    if lit <= s then Some(s[|lit|..]) else None
  }

  /**
    Reads the text before the next tag of `s`, which must end with `tail`;
    gives the text without `tail` and what follows it.
   */
  function ReadText(s: string, tail: string): (res: Option<(string, string)>)
    ensures res.Some? ==> |res.value.1| <= |s|
  {
    var n := TextLength(s);
    if |tail| <= n && s[n - |tail|..n] == tail then Some((s[..n - |tail|], s[n..])) else None
  }

  /** Reads the bold title and the parenthesised source of an entry. */
  function ParseHeading(s: string): (res: Option<(string, string, string)>)
    ensures res.Some? ==> |res.value.2| < |s|
  {
    match Skip(ItemOpen + StrongOpen, s)
    case None => None
    case Some(s1) =>
      match ReadText(s1, "")
      case None => None
      case Some((title, s2)) =>
        match Skip(StrongClose + SourceOpen, s2)
        case None => None
        case Some(s3) =>
          match ReadText(s3, ")")
          case None => None
          case Some((source, rest)) => Some((title, source, rest))
  }

  /** Reads the body and the link of an entry. */
  function ParseLink(s: string): (res: Option<(string, string, string)>)
    ensures res.Some? ==> |res.value.2| < |s|
  {
    match Skip(LineBreak, s)
    case None => None
    case Some(s1) =>
      match ReadText(s1, "")
      case None => None
      case Some((body, s2)) =>
        match Skip(LineBreak + LinkOpen, s2)
        case None => None
        case Some(s3) =>
          match ReadText(s3, LinkText)
          case None => None
          case Some((url, s4)) =>
            match Skip(LinkEnd, s4)
            case None => None
            case Some(rest) => Some((body, url, rest))
  }

  /** Reads the optional image tag and the end of an entry. */
  function ParseImage(s: string): (res: Option<(Option<string>, string)>)
    ensures res.Some? ==> |res.value.1| < |s|
  {
    if ImageOpen <= s then
      match ReadText(s[|ImageOpen|..], ImageClose)
      case None => None
      case Some((image, s1)) =>
        match Skip(ItemClose, s1)
        case None => None
        case Some(rest) => Some((Some(image), rest))
    else
      match Skip(ItemClose, s)
      case None => None
      case Some(rest) => Some((None, rest))
  }

  /** Reads one entry off the front of `s`. */
  function ParseEntry(s: string): (res: Option<(Shown, string)>)
    ensures res.Some? ==> |res.value.1| < |s|
  {
    match ParseHeading(s)
    case None => None
    case Some((title, source, s1)) =>
      match ParseLink(s1)
      case None => None
      case Some((body, url, s2)) =>
        match ParseImage(s2)
        case None => None
        case Some((image, rest)) => Some((Shown(title, source, body, url, image), rest))
  }

  /** Reads a whole digest, entry by entry. */
  function ParseDigest(s: string): Option<seq<Shown>>
    decreases |s|
  {
    if s == [] then Some([])
    else
      match ParseEntry(s)
      case None => None
      case Some((e, rest)) =>
        match ParseDigest(rest)
        case None => None
        case Some(more) => Some([e] + more)
  }

  lemma SkipOf(lit: string, s: string, t: string)
    requires s == lit + t
    ensures Skip(lit, s) == Some(t)
  {
    assert s[..|lit|] == lit;
  }

  lemma {:induction false} TextLengthOf(u: string, t: string)
    requires '<' !in u
    requires t == [] || t[0] == '<'
    ensures TextLength(u + t) == |u|
  {
    if u == [] {
      assert u + t == t;
    } else {
      assert (u + t)[0] == u[0];
      assert (u + t)[1..] == u[1..] + t;
      TextLengthOf(u[1..], t);
    }
  }

  lemma ReadTextOf(s: string, x: string, tail: string, t: string)
    requires s == x + (tail + t)
    requires '<' !in x && '<' !in tail
    requires t == [] || t[0] == '<'
    ensures ReadText(s, tail) == Some((x, t))
  {
    AppendAssoc(x, tail, t);
    TextLengthOf(x + tail, t);
    var n := TextLength(s);
    assert s[n - |tail|..n] == tail;
    assert s[..n - |tail|] == x;
    assert s[n..] == t;
  }

  lemma ReadWordOf(s: string, x: string, t: string)
    requires s == x + t
    requires '<' !in x
    requires t == [] || t[0] == '<'
    ensures ReadText(s, "") == Some((x, t))
  {
    assert "" + t == t;
    ReadTextOf(s, x, "", t);
  }

  /** An entry followed by `t`, written front to back. */
  function EntryThen(r: Row, t: string): string
  {
    ItemOpen + (StrongOpen + (r.title + (StrongClose + (SourceOpen + (r.source + (SourceClose
    + (r.body + (LineBreak + (LinkOpen + (r.url + (LinkClose + (ImageTag(r) + (ItemClose + t)))))))))))))
  }

  lemma {:induction false} EntryThenIsAppend(r: Row, t: string)
    ensures EntryThen(r, t) == Entry(r) + t
  {
    var g1 := StrongOpen + r.title + StrongClose;
    var g2 := SourceOpen + r.source + SourceClose;
    var g3 := r.body + LineBreak;
    var g4 := LinkOpen + r.url + LinkClose;
    var x1 := ItemOpen + g1;
    var x2 := x1 + g2;
    var x3 := x2 + g3;
    var x4 := x3 + g4;
    var x5 := x4 + ImageTag(r);
    var r6 := ItemClose + t;
    AppendAssoc(x5, ItemClose, t);
    var r5 := ImageTag(r) + r6;
    AppendAssoc(x4, ImageTag(r), r6);
    AppendAssoc(x3, g4, r5);
    AppendAssoc(LinkOpen + r.url, LinkClose, r5);
    AppendAssoc(LinkOpen, r.url, LinkClose + r5);
    var r4 := LinkOpen + (r.url + (LinkClose + r5));
    AppendAssoc(x2, g3, r4);
    AppendAssoc(r.body, LineBreak, r4);
    var r3 := r.body + (LineBreak + r4);
    AppendAssoc(x1, g2, r3);
    AppendAssoc(SourceOpen + r.source, SourceClose, r3);
    AppendAssoc(SourceOpen, r.source, SourceClose + r3);
    var r2 := SourceOpen + (r.source + (SourceClose + r3));
    AppendAssoc(ItemOpen, g1, r2);
    AppendAssoc(StrongOpen + r.title, StrongClose, r2);
    AppendAssoc(StrongOpen, r.title, StrongClose + r2);
  }

  lemma ParseHeadingOf(r: Row, u: string)
    requires Printable(r)
    ensures ParseHeading(ItemOpen + (StrongOpen + (r.title + (StrongClose + (SourceOpen + (r.source + (SourceClose + u)))))))
         == Some((r.title, r.source, LineBreak + u))
  {
    var s3 := r.source + (SourceClose + u);
    var s2 := StrongClose + (SourceOpen + s3);
    var s1 := r.title + s2;
    AppendAssoc(ItemOpen, StrongOpen, s1);
    SkipOf(ItemOpen + StrongOpen, ItemOpen + (StrongOpen + s1), s1);
    ReadWordOf(s1, r.title, s2);
    AppendAssoc(StrongClose, SourceOpen, s3);
    SkipOf(StrongClose + SourceOpen, s2, s3);
    AppendAssoc(")", LineBreak, u);
    ReadTextOf(s3, r.source, ")", LineBreak + u);
  }

  lemma LinkTextPlain()
    ensures '<' !in LinkText
  {
  }

  lemma ParseLinkOf(r: Row, v: string)
    requires Printable(r)
    ensures ParseLink(LineBreak + (r.body + (LineBreak + (LinkOpen + (r.url + (LinkClose + v))))))
         == Some((r.body, r.url, v))
  {
    var s3 := r.url + (LinkClose + v);
    var s2 := LineBreak + (LinkOpen + s3);
    var s1 := r.body + s2;
    SkipOf(LineBreak, LineBreak + s1, s1);
    ReadWordOf(s1, r.body, s2);
    AppendAssoc(LineBreak, LinkOpen, s3);
    SkipOf(LineBreak + LinkOpen, s2, s3);
    AppendAssoc(LinkText, LinkEnd, v);
    LinkTextPlain();
    ReadTextOf(s3, r.url, LinkText, LinkEnd + v);
    SkipOf(LinkEnd, LinkEnd + v, v);
  }

  lemma ParseImageOf(r: Row, t: string)
    requires Printable(r)
    ensures ParseImage(ImageTag(r) + (ItemClose + t)) == Some((View(r).image, t))
  {
    var w := ItemClose + t;
    var s := ImageTag(r) + w;
    if HasImage(r) {
      AppendAssoc(ImageOpen + r.image.value, ImageClose, w);
      AppendAssoc(ImageOpen, r.image.value, ImageClose + w);
      assert ImageOpen <= s;
      assert s[|ImageOpen|..] == r.image.value + (ImageClose + w);
      ReadTextOf(s[|ImageOpen|..], r.image.value, ImageClose, w);
    } else {
      assert s == w;
      assert w[1] != ImageOpen[1];
    }
    SkipOf(ItemClose, w, t);
  }

  /** Reading an entry back off the front of `Entry(r) + t` gives what the entry shows, and leaves `t`. */
  lemma ParseEntryOf(r: Row, t: string)
    requires Printable(r)
    ensures ParseEntry(Entry(r) + t) == Some((View(r), t))
  {
    EntryThenIsAppend(r, t);
    var v := ImageTag(r) + (ItemClose + t);
    var u := r.body + (LineBreak + (LinkOpen + (r.url + (LinkClose + v))));
    ParseHeadingOf(r, u);
    ParseLinkOf(r, v);
    ParseImageOf(r, t);
  }

  /**
    Round trip: reading the digest back recovers, in order, what every row
    shows (title, source, body, url and image), so no entry is lost,
    duplicated or merged with its neighbour.
   */
  lemma {:induction false} DigestRoundTrip(rows: seq<Row>)
    requires forall r :: r in rows ==> Printable(r)
    ensures ParseDigest(Digest(rows)) == Some(Views(rows))
  {
    if rows == [] {
    } else {
      var r := rows[0];
      assert rows == [r] + rows[1..];
      DigestCons(r, rows[1..]);
      ParseEntryOf(r, Digest(rows[1..]));
      DigestRoundTrip(rows[1..]);
    }
  }

  lemma {:induction false} ViewsAt(rows: seq<Row>, i: nat)
    requires i < |rows|
    ensures |Views(rows)| == |rows|
    ensures Views(rows)[i] == View(rows[i])
  {
    if i > 0 {
      ViewsAt(rows[1..], i - 1);
    } else if |rows| > 1 {
      ViewsAt(rows[1..], 0);
    }
  }
}

