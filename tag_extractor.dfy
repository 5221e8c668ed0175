/** Posts of the site index and `getTags`, which turns a post's `tags` field
    into a sequence of tag strings. */
module TagExtractor {
  import opened JsString

  datatype Option<T> = None | Some(value: T)

  /** The `tags` field of a post as the index may hold it: an array, a
      comma-separated string, or anything else (absent, a number, an object). */
  datatype TagField = TagArray(items: seq<string>) | TagString(text: string) | OtherTags

  /** One entry of `index.json`. A missing `date` is `None`. */
  datatype Post = Post(title: string, url: string, date: Option<string>, tags: TagField)

  /** An entry of the index: `None` stands for a `null` entry. */
  type Entry = Option<Post>

  /** A `tag` query parameter is truthy: present and not empty. Both
      renderers test it (`!activeTag`, `!filter`), and both import this
      module for `GetTags`, so it is declared here once for the two. */
  predicate IsSet(param: Option<string>) {
    param.Some? && param.value != ""
  }

  /** `.filter(Boolean)` on strings: keeps the non-empty ones, in order. */
  function KeepNonEmpty(xs: seq<string>): (r: seq<string>)
    ensures |r| <= |xs|
    ensures forall i :: 0 <= i < |r| ==> r[i] != []
    ensures forall x :: x in r <==> x in xs && x != []
  {
    if xs == [] then []
    else (if xs[0] == [] then [] else [xs[0]]) + KeepNonEmpty(xs[1..])
  }

  /** Dropping empty strings from a list that has none changes nothing. */
  lemma {:induction false} KeepNonEmptyIdentity(xs: seq<string>)
    requires forall i :: 0 <= i < |xs| ==> xs[i] != []
    ensures KeepNonEmpty(xs) == xs
  {
    if xs != [] {
      KeepNonEmptyIdentity(xs[1..]);
      assert xs == [xs[0]] + xs[1..];
    }
  }

  /** `.filter(Boolean)` distributes over concatenation, so it keeps the
      order of the pieces it keeps. */
  lemma {:induction false} KeepNonEmptyAppend(xs: seq<string>, ys: seq<string>)
    ensures KeepNonEmpty(xs + ys) == KeepNonEmpty(xs) + KeepNonEmpty(ys)
  {
    if xs == [] {
      assert xs + ys == ys;
    } else {
      assert (xs + ys)[1..] == xs[1..] + ys;
      KeepNonEmptyAppend(xs[1..], ys);
    }
  }

  /** `.map((s) => s.trim())`. */
  function TrimAll(xs: seq<string>): (r: seq<string>)
    ensures |r| == |xs|
    ensures forall i :: 0 <= i < |r| ==> r[i] == Trim(xs[i])
  {
    seq(|xs|, i requires 0 <= i < |xs| => Trim(xs[i]))
  }

  /** `getTags(post)`: nothing for a `null` post or for a `tags` field that is
      neither an array nor a string; an array unchanged; a string split on
      commas, each piece trimmed, empty pieces dropped. Every tag taken from a
      string is non-empty, trimmed and free of commas. */
  function GetTags(post: Entry): (r: seq<string>)
    ensures post.None? || post.value.tags.OtherTags? ==> r == []
    ensures post.Some? && post.value.tags.TagArray? ==> r == post.value.tags.items
    ensures post.Some? && post.value.tags.TagString? ==>
              forall i :: 0 <= i < |r| ==> r[i] != [] && IsTrimmed(r[i]) && ',' !in r[i]
  {
    match post
    case None => []
    case Some(p) =>
      match p.tags
      case TagArray(items) => items
      case TagString(text) => StringTags(text)
      case OtherTags => []
  }

  /** The string case of `getTags`: `text.split(",").map(trim).filter(Boolean)`. */
  function StringTags(text: string): (r: seq<string>)
    ensures forall i :: 0 <= i < |r| ==> r[i] != [] && IsTrimmed(r[i]) && ',' !in r[i]
  {
    var trimmed := TrimAll(Split(text, ','));
    TrimmedPiecesClean(Split(text, ','));
    var r := KeepNonEmpty(trimmed);
    forall i | 0 <= i < |r| ensures IsTrimmed(r[i]) && ',' !in r[i] {
      assert r[i] in r;
    }
    r
  }

  /** The trimmed pieces of a split on commas are trimmed and comma-free. */
  lemma TrimmedPiecesClean(pieces: seq<string>)
    requires forall i :: 0 <= i < |pieces| ==> ',' !in pieces[i]
    ensures forall x :: x in TrimAll(pieces) ==> IsTrimmed(x) && ',' !in x
  {
    forall x | x in TrimAll(pieces) ensures IsTrimmed(x) && ',' !in x {
      var k :| 0 <= k < |pieces| && x == Trim(pieces[k]);
      TrimIsInfix(pieces[k], ',');
    }
  }

  /** Trimming cannot introduce a character. */
  lemma TrimIsInfix(s: string, c: char)
    requires c !in s
    ensures c !in Trim(s)
  {
    TrimPadded(s);
    var k :| PaddedAt(s, Trim(s), k);
  }

  lemma NotInConcat(a: string, b: string, c: string, x: char)
    requires x !in a && x !in b && x !in c
    ensures x !in a + b + c
  {
  }

  /** Tags padded with whitespace: each piece trims back to its tag. */
  lemma TrimAllPadded(pieces: seq<string>, tags: seq<string>, lead: seq<string>, trail: seq<string>)
    requires |tags| == |pieces| == |lead| == |trail|
    requires forall i :: 0 <= i < |tags| ==> IsTrimmed(tags[i]) && ',' !in tags[i]
    requires forall i :: 0 <= i < |lead| ==> AllTrimmable(lead[i]) && AllTrimmable(trail[i])
    requires forall i :: 0 <= i < |pieces| ==> pieces[i] == lead[i] + tags[i] + trail[i]
    ensures forall i :: 0 <= i < |pieces| ==> ',' !in pieces[i]
    ensures TrimAll(pieces) == tags
  {
    forall i | 0 <= i < |pieces| ensures ',' !in pieces[i] && Trim(pieces[i]) == tags[i] {
      NotInConcat(lead[i], tags[i], trail[i], ',');
      TrimUnique(lead[i], tags[i], trail[i]);
    }
  }

  /** A tag string made of trimmed, comma-free, non-empty tags joined by
      commas with any whitespace around them yields exactly those tags. */
  lemma StringTagsOfJoined(pieces: seq<string>, tags: seq<string>, lead: seq<string>, trail: seq<string>)
    requires |pieces| >= 1 && |tags| == |pieces| == |lead| == |trail|
    requires forall i :: 0 <= i < |tags| ==> tags[i] != [] && IsTrimmed(tags[i]) && ',' !in tags[i]
    requires forall i :: 0 <= i < |lead| ==> AllTrimmable(lead[i]) && AllTrimmable(trail[i])
    requires forall i :: 0 <= i < |pieces| ==> pieces[i] == lead[i] + tags[i] + trail[i]
    ensures StringTags(Join(pieces, ',')) == tags
  {
    TrimAllPadded(pieces, tags, lead, trail);
    SplitJoin(pieces, ',');
    KeepNonEmptyIdentity(tags);
  }

  /** `getTags({tags: "a, b ,c"})` is `["a", "b", "c"]`. */
  lemma StringTagsExample()
    ensures GetTags(Some(Post("", "", None, TagString("a, b ,c")))) == ["a", "b", "c"]
  {
    var pieces := ["a", " b ", "c"];
    assert Join(pieces, ',') == "a, b ,c";
    assert AllTrimmable(" ") && IsTrimmed("a") && IsTrimmed("b") && IsTrimmed("c");
    StringTagsOfJoined(pieces, ["a", "b", "c"], ["", " ", ""], ["", " ", ""]);
  }
}
