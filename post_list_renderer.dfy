/** `renderPosts`: keeps the posts carrying the filter tag (all posts when
    there is no filter), orders them by date, newest first, and renders one
    directory item per post, or a placeholder when nothing is kept. */
module PostListRenderer {
  import opened JsString
  import opened ArraySort
  import opened TagExtractor
  import opened HtmlEscaper

  /** `p.date || ""`. */
  function DateKey(p: Post): (key: string) {
    match p.date
    case None => ""
    case Some(d) => d
  }

  /** The comparator `(b.date || "").localeCompare(a.date || "")` is at most
      zero: `a` is at least as recent as `b`. */
  predicate DateLe(a: Post, b: Post) {
    LexLe(DateKey(b), DateKey(a))
  }

  lemma DateLeIsTotalPreorder()
    ensures TotalPreorder(DateLe)
  {
    forall a: Post, b: Post ensures DateLe(a, b) || DateLe(b, a) {
      LexLeTotal(DateKey(a), DateKey(b));
    }
    forall a: Post, b: Post, c: Post | DateLe(a, b) && DateLe(b, c) ensures DateLe(a, c) {
      LexLeTransitive(DateKey(c), DateKey(b), DateKey(a));
    }
  }

  /** Two posts tie under the comparator exactly when their dates are equal. */
  lemma DateTiedIffSameDate(a: Post, b: Post)
    ensures Tied(a, b, DateLe) <==> DateKey(a) == DateKey(b)
  {
    if Tied(a, b, DateLe) {
      LexLeAntisymmetric(DateKey(a), DateKey(b));
    } else {
      LexLeTotal(DateKey(a), DateKey(a));
    }
  }

  /** The filter callback: no filter (absent or empty) keeps every entry,
      otherwise the entry's tags must include the filter exactly. */
  predicate Keeps(filter: Option<string>, entry: Entry) {
    !IsSet(filter) || filter.value in GetTags(entry)
  }

  /** `shown`: the entries the filter keeps, in index order. Without a filter
      it is the whole index; with one, no `null` entry is kept. */
  function Shown(posts: seq<Entry>, filter: Option<string>): (shown: seq<Entry>)
    ensures |shown| <= |posts|
    ensures forall e :: e in shown <==> e in posts && Keeps(filter, e)
    ensures !IsSet(filter) ==> shown == posts
    ensures IsSet(filter) ==> None !in shown
  {
    if posts == [] then []
    else
      var rest := Shown(posts[1..], filter);
      assert posts == [posts[0]] + posts[1..];
      if Keeps(filter, posts[0]) then [posts[0]] + rest else rest
  }

  /** Filtering distributes over concatenation: it keeps the index order. */
  lemma {:induction false} ShownAppend(a: seq<Entry>, b: seq<Entry>, filter: Option<string>)
    ensures Shown(a + b, filter) == Shown(a, filter) + Shown(b, filter)
  {
    if a == [] {
      assert a + b == b;
    } else {
      assert (a + b)[1..] == a[1..] + b;
      ShownAppend(a[1..], b, filter);
    }
  }

  predicate AllPresent(entries: seq<Entry>) {
    forall i :: 0 <= i < |entries| ==> entries[i].Some?
  }

  function Present(entries: seq<Entry>): (posts: seq<Post>)
    requires AllPresent(entries)
    ensures |posts| == |entries|
    ensures forall i :: 0 <= i < |posts| ==> entries[i] == Some(posts[i])
  {
    seq(|entries|, i requires 0 <= i < |entries| && entries[i].Some? => entries[i].value)
  }

  /** `shown.sort(...)`: a permutation ordered by date, newest first. */
  function SortByDate(posts: seq<Post>): (sorted: seq<Post>)
    ensures multiset(sorted) == multiset(posts) && |sorted| == |posts|
    ensures forall i, j :: 0 <= i < j < |sorted| ==> LexLe(DateKey(sorted[j]), DateKey(sorted[i]))
  {
    DateLeIsTotalPreorder();
    SortSorted(posts, DateLe);
    SortPermutes(posts, DateLe);
    Sort(posts, DateLe)
  }

  /** Posts without a date come after every dated post. */
  lemma UndatedLast(posts: seq<Post>)
    ensures forall i, j :: 0 <= i < j < |SortByDate(posts)| && DateKey(SortByDate(posts)[i]) == "" ==>
              DateKey(SortByDate(posts)[j]) == ""
  {
    var sorted := SortByDate(posts);
    forall i, j | 0 <= i < j < |sorted| && DateKey(sorted[i]) == "" ensures DateKey(sorted[j]) == "" {
      LexLeEmpty(DateKey(sorted[j]));
    }
  }

  /** The sort is stable: posts with the same date keep their index order. */
  lemma SortByDateStable(posts: seq<Post>, p: Post)
    ensures TiesOf(SortByDate(posts), p, DateLe) == TiesOf(posts, p, DateLe)
    ensures forall q :: Tied(p, q, DateLe) <==> DateKey(p) == DateKey(q)
  {
    DateLeIsTotalPreorder();
    SortStable(posts, p, DateLe);
    forall q ensures Tied(p, q, DateLe) <==> DateKey(p) == DateKey(q) {
      DateTiedIffSameDate(p, q);
    }
  }

  /** One `dir-item`: the link's raw `href`, its escaped title, and the
      escaped date shown beside it. */
  datatype DirItem = DirItem(href: string, titleHtml: string, dateHtml: string)

  /** What `renderPosts` leaves in the posts container: the "no matching
      posts" placeholder, the directory, or nothing of its own because it
      threw on a `null` entry (`a.date` or `p.url` of `null`). */
  datatype PostsView = NoMatches | Directory(items: seq<DirItem>) | Threw

  function ItemFor(p: Post): (item: DirItem)
    ensures item.href == p.url
    ensures item.titleHtml == EscapeHtml(p.title) && item.dateHtml == EscapeHtml(DateKey(p))
    ensures UnescapeHtml(item.titleHtml) == p.title && UnescapeHtml(item.dateHtml) == DateKey(p)
    ensures forall c :: c in item.titleHtml || c in item.dateHtml ==> c != '<' && c != '>' && c != '"' && c != '\''
  {
    UnescapeEscape(p.title);
    UnescapeEscape(DateKey(p));
    EscapedIsSafe(p.title);
    EscapedIsSafe(DateKey(p));
    DirItem(p.url, EscapeHtml(p.title), EscapeHtml(DateKey(p)))
  }

  /** The `dir-item`s of `for (const p of shown)`: one per post, in order. */
  method DirectoryItems(posts: seq<Post>) returns (items: seq<DirItem>)
    ensures |items| == |posts|
    ensures forall i :: 0 <= i < |items| ==> items[i] == ItemFor(posts[i])
  {
    items := [];
    for k := 0 to |posts|
      invariant |items| == k
      invariant forall i :: 0 <= i < k ==> items[i] == ItemFor(posts[i])
    {
      items := items + [ItemFor(posts[k])];
    }
  }

  /** `renderPosts(posts)` with `filter` the `tag` query parameter. */
  method RenderPosts(posts: seq<Entry>, filter: Option<string>) returns (view: PostsView)
    ensures view.NoMatches? <==> Shown(posts, filter) == []
    ensures view.Threw? <==> Shown(posts, filter) != [] && !AllPresent(Shown(posts, filter))
    ensures view.Threw? ==> !IsSet(filter)
    ensures view.Directory? ==>
              var shown := Shown(posts, filter);
              && AllPresent(shown)
              && var sorted := SortByDate(Present(shown));
              && |view.items| == |shown|
              && forall i :: 0 <= i < |view.items| ==> view.items[i] == ItemFor(sorted[i])
  {
    var shown := Shown(posts, filter);
    if |shown| == 0 {
      return NoMatches;
    }
    if exists i :: 0 <= i < |shown| && shown[i].None? {
      return Threw;
    }
    var sorted := SortByDate(Present(shown));
    var items := DirectoryItems(sorted);
    view := Directory(items);
  }
}
