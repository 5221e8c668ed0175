/** `renderTags`: counts the tags of all posts, ranks them by count (most
    frequent first, ties by tag), renders one link per tag with the first five
    visible, decides whether the list starts expanded, and adds an
    expand/collapse toggle when there are more than five tags. */
module TagNavRenderer {
  import opened JsString
  import opened ArraySort
  import opened TagExtractor

  /** How many tags stay visible while the list is collapsed. */
  const VisibleCount: nat := 5

  /** One `[tag, count]` entry of the tag map. */
  datatype TagCount = TagCount(tag: string, count: nat)

  predicate Distinct(s: seq<string>) {
    forall i, j :: 0 <= i < j < |s| ==> s[i] != s[j]
  }

  predicate DistinctTags(es: seq<TagCount>) {
    forall i, j :: 0 <= i < j < |es| ==> es[i].tag != es[j].tag
  }

  /** The tags the tally loop visits: each post's `getTags`, post after post. */
  function AllTags(posts: seq<Entry>): (all: seq<string>) {
    if posts == [] then [] else AllTags(posts[..|posts| - 1]) + GetTags(posts[|posts| - 1])
  }

  lemma AllTagsStep(posts: seq<Entry>, i: nat)
    requires i < |posts|
    ensures AllTags(posts[..i + 1]) == AllTags(posts[..i]) + GetTags(posts[i])
  {
    assert posts[..i + 1][..i] == posts[..i];
  }

  /** How often `t` occurs in `ts`. */
  function Occurrences(ts: seq<string>, t: string): (n: nat) {
    if ts == [] then 0
    else Occurrences(ts[..|ts| - 1], t) + (if ts[|ts| - 1] == t then 1 else 0)
  }

  lemma {:induction false} OccurrencesPositive(ts: seq<string>)
    ensures forall t :: Occurrences(ts, t) > 0 <==> t in ts
  {
    if ts != [] {
      OccurrencesPositive(ts[..|ts| - 1]);
      assert ts == ts[..|ts| - 1] + [ts[|ts| - 1]];
    }
  }

  /** The distinct tags of `ts` in order of first occurrence: the order in
      which a JavaScript `Map` iterates the keys it was given. */
  function FirstSeen(ts: seq<string>): (keys: seq<string>)
    ensures Distinct(keys)
    ensures forall t :: t in keys <==> t in ts
  {
    if ts == [] then []
    else
      var keys := FirstSeen(ts[..|ts| - 1]);
      assert ts == ts[..|ts| - 1] + [ts[|ts| - 1]];
      if ts[|ts| - 1] in keys then keys else keys + [ts[|ts| - 1]]
  }

  /** The counts the tag map holds after the loop has visited `ts`. */
  function CountsOf(ts: seq<string>): (counts: map<string, nat>) {
    if ts == [] then map[]
    else
      var counts := CountsOf(ts[..|ts| - 1]);
      var t := ts[|ts| - 1];
      counts[t := (if t in counts then counts[t] else 0) + 1]
  }

  /** The map holds every tag met, with the number of times it was met. */
  lemma {:induction false} CountsOfOccurrences(ts: seq<string>)
    ensures forall t :: t in CountsOf(ts) <==> t in ts
    ensures forall t :: t in CountsOf(ts) ==> CountsOf(ts)[t] == Occurrences(ts, t)
  {
    if ts != [] {
      var front, t := ts[..|ts| - 1], ts[|ts| - 1];
      CountsOfOccurrences(front);
      OccurrencesPositive(front);
      assert ts == front + [t];
      forall u ensures (u in CountsOf(ts) <==> u in ts)
                    && (u in CountsOf(ts) ==> CountsOf(ts)[u] == Occurrences(ts, u))
      {
        assert Occurrences(ts, u) == Occurrences(front, u) + (if t == u then 1 else 0);
        assert u in ts <==> u in front || u == t;
      }
    }
  }

  /** The state of the tag map after the loop has visited `ts`. */
  predicate IsTally(keys: seq<string>, counts: map<string, nat>, ts: seq<string>) {
    keys == FirstSeen(ts) && counts == CountsOf(ts)
  }

  /** One `tagMap.set(t, (tagMap.get(t) || 0) + 1)` extends the tally by `t`. */
  lemma TallyStep(keys: seq<string>, counts: map<string, nat>, ts: seq<string>, t: string,
                  keys': seq<string>, counts': map<string, nat>)
    requires IsTally(keys, counts, ts)
    requires keys' == if t in counts then keys else keys + [t]
    requires counts' == counts[t := (if t in counts then counts[t] else 0) + 1]
    ensures IsTally(keys', counts', ts + [t])
  {
    var next := ts + [t];
    assert next[..|next| - 1] == ts;
    CountsOfOccurrences(ts);
    assert t in counts <==> t in keys;
    assert FirstSeen(next) == if t in keys then keys else keys + [t];
    assert CountsOf(next) == counts[t := (if t in counts then counts[t] else 0) + 1];
  }

  /** The pairs `[key, counts[key]]` in the order of `keys`. */
  function EntriesOf(keys: seq<string>, counts: map<string, nat>): (entries: seq<TagCount>)
    requires forall t :: t in keys ==> t in counts
  {
    seq(|keys|, i requires 0 <= i < |keys| => TagCount(keys[i], counts[keys[i]]))
  }

  /** After the loop has visited `ts`, the map's entries are the tally of `ts`. */
  lemma EntriesOfTally(keys: seq<string>, counts: map<string, nat>, ts: seq<string>)
    requires IsTally(keys, counts, ts)
    ensures forall t :: t in keys ==> t in counts
    ensures EntriesOf(keys, counts) == TallyOf(ts)
  {
    CountsOfOccurrences(ts);
  }

  /** The JavaScript `Map` from tag to count, with its keys in insertion order. */
  class TagMap {
    var keys: seq<string>
    var counts: map<string, nat>

    constructor ()
      ensures keys == [] && counts == map[]
    {
      keys := [];
      counts := map[];
    }

    /** `set(t, (get(t) || 0) + 1)`: a new key goes to the end of the order. */
    method Increment(t: string)
      modifies this
      ensures keys == if t in old(counts) then old(keys) else old(keys) + [t]
      ensures counts == old(counts)[t := (if t in old(counts) then old(counts)[t] else 0) + 1]
    {
      var previous := if t in counts then counts[t] else 0;
      if t !in counts {
        keys := keys + [t];
      }
      counts := counts[t := previous + 1];
    }

    /** `[...tagMap.entries()]`. */
    function Entries(): (entries: seq<TagCount>)
      reads this
      requires forall t :: t in keys ==> t in counts
    {
      EntriesOf(keys, counts)
    }
  }

  /** The tag map's entries after the tally: every tag that occurs in some
      post exactly once, with its number of occurrences (duplicates within a
      post included), which is at least one. */
  function Tally(posts: seq<Entry>): (r: seq<TagCount>)
    ensures DistinctTags(r)
    ensures forall t :: (exists i :: 0 <= i < |r| && r[i].tag == t) <==> t in AllTags(posts)
    ensures forall i :: 0 <= i < |r| ==> r[i].count == Occurrences(AllTags(posts), r[i].tag) >= 1
    ensures |r| == |FirstSeen(AllTags(posts))|
    ensures forall i :: 0 <= i < |r| ==> r[i].tag == FirstSeen(AllTags(posts))[i]
  {
    TallyOf(AllTags(posts))
  }

  /** Each distinct tag of `ts` in order of first occurrence, with its count. */
  function TallyOf(all: seq<string>): (r: seq<TagCount>)
    ensures DistinctTags(r)
    ensures forall t :: (exists i :: 0 <= i < |r| && r[i].tag == t) <==> t in all
    ensures forall i :: 0 <= i < |r| ==> r[i].count == Occurrences(all, r[i].tag) >= 1
    ensures |r| == |FirstSeen(all)| && forall i :: 0 <= i < |r| ==> r[i].tag == FirstSeen(all)[i]
  {
    var keys := FirstSeen(all);
    OccurrencesPositive(all);
    var r := seq(|keys|, i requires 0 <= i < |keys| => TagCount(keys[i], Occurrences(all, keys[i])));
    assert forall t :: t in keys ==> exists i :: 0 <= i < |r| && r[i].tag == t by {
      forall t | t in keys ensures exists i :: 0 <= i < |r| && r[i].tag == t {
        var i :| 0 <= i < |keys| && keys[i] == t;
        assert r[i].tag == t;
      }
    }
    r
  }

  /** The inner loop `tags.forEach((t) => tagMap.set(...))` for one post:
      a tally of `before` becomes a tally of `before + tags`. */
  method AddTags(tagMap: TagMap, ghost before: seq<string>, tags: seq<string>)
    requires IsTally(tagMap.keys, tagMap.counts, before)
    modifies tagMap
    ensures IsTally(tagMap.keys, tagMap.counts, before + tags)
  {
    ghost var seen := before;
    PrefixStep(before, tags, 0);
    for j := 0 to |tags|
      invariant seen == before + tags[..j]
      invariant IsTally(tagMap.keys, tagMap.counts, seen)
    {
      var t := tags[j];
      label step:
      tagMap.Increment(t);
      TallyStep(old@step(tagMap.keys), old@step(tagMap.counts), seen, t, tagMap.keys, tagMap.counts);
      PrefixStep(before, tags, j);
      seen := seen + [t];
    }
    PrefixStep(before, tags, |tags|);
  }

  lemma PrefixStep(before: seq<string>, tags: seq<string>, j: nat)
    requires j <= |tags|
    ensures before + tags[..0] == before
    ensures j < |tags| ==> before + tags[..j + 1] == before + tags[..j] + [tags[j]]
    ensures tags[..|tags|] == tags
  {
    assert before + tags[..0] == before;
    if j < |tags| {
      assert tags[..j + 1] == tags[..j] + [tags[j]];
    }
  }

  /** The tally loop of `renderTags`. */
  method TallyTags(posts: seq<Entry>) returns (entries: seq<TagCount>)
    ensures entries == Tally(posts)
  {
    var tagMap := new TagMap();
    for i := 0 to |posts|
      invariant IsTally(tagMap.keys, tagMap.counts, AllTags(posts[..i]))
    {
      AddTags(tagMap, AllTags(posts[..i]), GetTags(posts[i]));
      AllTagsStep(posts, i);
    }
    assert posts[..|posts|] == posts;
    EntriesOfTally(tagMap.keys, tagMap.counts, AllTags(posts));
    entries := tagMap.Entries();
  }

  /** The comparator `b[1] - a[1] || a[0].localeCompare(b[0])` is at most zero:
      more occurrences first, equal counts by tag. */
  predicate RankLe(a: TagCount, b: TagCount) {
    a.count > b.count || (a.count == b.count && LexLe(a.tag, b.tag))
  }

  lemma RankLeIsTotalPreorder()
    ensures TotalPreorder(RankLe)
  {
    forall a: TagCount, b: TagCount ensures RankLe(a, b) || RankLe(b, a) {
      LexLeTotal(a.tag, b.tag);
    }
    forall a: TagCount, b: TagCount, c: TagCount | RankLe(a, b) && RankLe(b, c)
      ensures RankLe(a, c)
    {
      if a.count == b.count == c.count {
        LexLeTransitive(a.tag, b.tag, c.tag);
      }
    }
  }

  /** Two positions holding the same value make it occur twice. */
  lemma {:induction false} TwiceInMultiset<T>(s: seq<T>, i: int, j: int)
    requires 0 <= i < j < |s| && s[i] == s[j]
    ensures multiset(s)[s[i]] >= 2
  {
    assert s == s[..j] + [s[j]] + s[j + 1..];
    assert s[i] in s[..j];
  }

  /** In a list of distinct tags every entry occurs once. */
  lemma {:induction false} DistinctTagsOnce(es: seq<TagCount>, x: TagCount)
    requires DistinctTags(es)
    ensures multiset(es)[x] <= 1
  {
    if es != [] {
      DistinctTagsOnce(es[1..], x);
      assert es == [es[0]] + es[1..];
      if es[0] == x {
        assert x !in es[1..];
      }
    }
  }

  /** `sorted`: the tag map's entries as a permutation ordered by count
      descending, equal counts by tag ascending; no tag appears twice, so the
      order is strict. */
  function Ranked(posts: seq<Entry>): (sorted: seq<TagCount>)
    ensures multiset(sorted) == multiset(Tally(posts))
    ensures DistinctTags(sorted)
    ensures forall i, j :: 0 <= i < j < |sorted| ==>
              sorted[i].count > sorted[j].count
              || (sorted[i].count == sorted[j].count && LexLe(sorted[i].tag, sorted[j].tag))
  {
    var entries := Tally(posts);
    RankLeIsTotalPreorder();
    SortSorted(entries, RankLe);
    SortPermutes(entries, RankLe);
    var sorted := Sort(entries, RankLe);
    forall i, j | 0 <= i < j < |sorted| ensures sorted[i].tag != sorted[j].tag {
      if sorted[i].tag == sorted[j].tag {
        assert sorted[i] in multiset(entries) && sorted[j] in multiset(entries);
        var k :| 0 <= k < |entries| && entries[k] == sorted[i];
        var l :| 0 <= l < |entries| && entries[l] == sorted[j];
        assert k == l;
        TwiceInMultiset(sorted, i, j);
        DistinctTagsOnce(entries, sorted[i]);
        assert false;
      }
    }
    sorted
  }

  /** Counts `{A: 3, B: 3, C: 1}` met in the order C, B, A rank as A, B, C:
      equal counts go by tag. */
  lemma RankExample()
    ensures Sort([TagCount("C", 1), TagCount("B", 3), TagCount("A", 3)], RankLe)
         == [TagCount("A", 3), TagCount("B", 3), TagCount("C", 1)]
  {
    var a, b, c := TagCount("A", 3), TagCount("B", 3), TagCount("C", 1);
    assert "A"[0] < "B"[0];
    assert !RankLe(b, a) && !RankLe(c, a) && !RankLe(c, b);
    SortReversedThree(a, b, c, RankLe);
  }

  /** The ranked list lists each occurring tag once, with its count. */
  lemma RankedContents(posts: seq<Entry>)
    ensures forall t :: (exists i :: 0 <= i < |Ranked(posts)| && Ranked(posts)[i].tag == t) <==> t in AllTags(posts)
    ensures forall i :: 0 <= i < |Ranked(posts)| ==>
              Ranked(posts)[i].count == Occurrences(AllTags(posts), Ranked(posts)[i].tag) >= 1
  {
    var sorted, entries := Ranked(posts), Tally(posts);
    forall t ensures (exists i :: 0 <= i < |sorted| && sorted[i].tag == t) <==> t in AllTags(posts) {
      if t in AllTags(posts) {
        var k :| 0 <= k < |entries| && entries[k].tag == t;
        assert entries[k] in multiset(sorted);
        var i :| 0 <= i < |sorted| && sorted[i] == entries[k];
      }
      if exists i :: 0 <= i < |sorted| && sorted[i].tag == t {
        var i :| 0 <= i < |sorted| && sorted[i].tag == t;
        assert sorted[i] in multiset(entries);
      }
    }
    forall i | 0 <= i < |sorted|
      ensures sorted[i].count == Occurrences(AllTags(posts), sorted[i].tag) >= 1
    {
      assert sorted[i] in multiset(entries);
    }
  }

  /** `sorted.findIndex(([t]) => t === tag)`: the first position holding
      `tag`, or -1. */
  function FindIndex(sorted: seq<TagCount>, tag: string): (r: int)
    ensures -1 <= r < |sorted|
    ensures r == -1 <==> forall i :: 0 <= i < |sorted| ==> sorted[i].tag != tag
    ensures r >= 0 ==> sorted[r].tag == tag && forall i :: 0 <= i < r ==> sorted[i].tag != tag
  {
    if sorted == [] then -1
    else if sorted[0].tag == tag then 0
    else
      var k := FindIndex(sorted[1..], tag);
      if k == -1 then -1 else k + 1
  }

  /** The initial `expanded` flag: the active tag is set and sits at a
      position at or beyond `VisibleCount` (and at no earlier one). A tag that
      is not listed leaves the list collapsed. */
  function InitiallyExpanded(sorted: seq<TagCount>, activeTag: Option<string>): (expanded: bool)
    ensures expanded <==>
              IsSet(activeTag)
              && (exists i :: VisibleCount <= i < |sorted| && sorted[i].tag == activeTag.value)
              && (forall i :: 0 <= i < VisibleCount && i < |sorted| ==> sorted[i].tag != activeTag.value)
  {
    IsSet(activeTag) && FindIndex(sorted, activeTag.value) >= VisibleCount
  }

  /** One tag link: its tag and count (label `tag (count)`, href
      `?tag=<tag>`), and whether it has the classes `visible` and `active`. */
  datatype TagLink = TagLink(tag: string, count: nat, visible: bool, active: bool)

  /** The `tags-list` element: its links and whether it has class `collapsed`. */
  datatype TagList = TagList(links: seq<TagLink>, collapsed: bool)

  /** The toggle's text: "collapse tags", or "expand all tags (total)". */
  datatype ToggleLabel = CollapseTags | ExpandAllTags(total: nat)

  function LabelFor(expanded: bool, total: nat): (text: ToggleLabel) {
    if expanded then CollapseTags else ExpandAllTags(total)
  }

  /** The toggle button: its text and its `aria-expanded` attribute. */
  datatype ToggleView = ToggleView(text: ToggleLabel, ariaExpanded: bool)

  /** What `renderTags` puts in the tag navigation: the "All" link (whether
      it is active), the tag list when there are tags, the toggle when there
      are more than `VisibleCount`. */
  datatype TagNav = TagNav(allActive: bool, list: Option<TagList>, toggle: Option<ToggleView>)

  /** The links `sorted.forEach(...)` appends to the list: one per entry, in
      order, visible among the first `VisibleCount`, active when its tag is
      the `tag` parameter. */
  method TagLinks(sorted: seq<TagCount>, activeTag: Option<string>) returns (links: seq<TagLink>)
    ensures |links| == |sorted|
    ensures forall i :: 0 <= i < |links| ==> links[i].tag == sorted[i].tag && links[i].count == sorted[i].count
    ensures forall i :: 0 <= i < |links| ==> (links[i].visible <==> i < VisibleCount)
    ensures forall i :: 0 <= i < |links| ==> (links[i].active <==> activeTag == Some(sorted[i].tag))
  {
    links := [];
    for idx := 0 to |sorted|
      invariant |links| == idx
      invariant forall i :: 0 <= i < idx ==>
                  links[i] == TagLink(sorted[i].tag, sorted[i].count, i < VisibleCount, activeTag == Some(sorted[i].tag))
    {
      var entry := sorted[idx];
      links := links + [TagLink(entry.tag, entry.count, idx < VisibleCount, activeTag == Some(entry.tag))];
    }
  }

  /** `renderTags(posts)` with `activeTag` the `tag` query parameter. */
  method RenderTags(posts: seq<Entry>, activeTag: Option<string>) returns (nav: TagNav)
    ensures nav.allActive <==> !IsSet(activeTag)
    ensures nav.list.None? <==> Ranked(posts) == []
    ensures nav.list.None? ==> nav.toggle.None?
    ensures nav.list.Some? ==>
              var sorted, links := Ranked(posts), nav.list.value.links;
              && |links| == |sorted|
              && (forall i :: 0 <= i < |links| ==> links[i].tag == sorted[i].tag && links[i].count == sorted[i].count)
              && (forall i :: 0 <= i < |links| ==> (links[i].visible <==> i < VisibleCount))
              && (forall i :: 0 <= i < |links| ==> (links[i].active <==> activeTag == Some(sorted[i].tag)))
              && (forall i, j :: 0 <= i < j < |links| ==> !(links[i].active && links[j].active))
    ensures nav.list.Some? ==>
              var sorted := Ranked(posts);
              (!nav.list.value.collapsed <==>
                IsSet(activeTag) && exists i :: VisibleCount <= i < |sorted| && sorted[i].tag == activeTag.value)
    ensures nav.toggle.Some? <==> |Ranked(posts)| > VisibleCount
    ensures nav.toggle.Some? ==>
              nav.list.Some? && nav.toggle.value == ToggleView(LabelFor(!nav.list.value.collapsed, |Ranked(posts)|),
                                                               !nav.list.value.collapsed)
    ensures nav.list.Some? && !nav.list.value.collapsed ==> nav.toggle.Some?
    ensures nav.list.Some? ==> (nav.list.value.collapsed <==> !InitiallyExpanded(Ranked(posts), activeTag))
  {
    var entries := TallyTags(posts);
    RankLeIsTotalPreorder();
    var sorted := Sort(entries, RankLe);
    assert sorted == Ranked(posts);
    var allActive := !IsSet(activeTag);
    if |sorted| == 0 {
      return TagNav(allActive, None, None);
    }
    var links := TagLinks(sorted, activeTag);
    forall i, j | 0 <= i < j < |links| ensures !(links[i].active && links[j].active) {
      assert sorted[i].tag != sorted[j].tag;
    }
    var expanded := false;
    if IsSet(activeTag) {
      var foundIndex := FindIndex(sorted, activeTag.value);
      if foundIndex >= VisibleCount {
        expanded := true;
      }
    }
    assert expanded == InitiallyExpanded(sorted, activeTag);
    var list := TagList(links, !expanded);
    var total := |sorted|;
    var toggle := None;
    if total > VisibleCount {
      toggle := Some(ToggleView(LabelFor(expanded, total), expanded));
    }
    nav := TagNav(allActive, Some(list), toggle);
  }

  /** The live state behind the toggle button: the closure's `expanded`, the
      list's `collapsed` class, the button's text and `aria-expanded`. */
  class TagToggle {
    const total: nat
    var expanded: bool
    var listCollapsed: bool
    var text: ToggleLabel
    var ariaExpanded: bool

    /** The list, the label and the attribute all agree with `expanded`. */
    ghost predicate Valid()
      reads this
    {
      && total > VisibleCount
      && listCollapsed == !expanded
      && text == LabelFor(expanded, total)
      && ariaExpanded == expanded
    }

    /** The button as `renderTags` creates it, for `total` tags. */
    constructor (total: nat, expanded: bool)
      requires total > VisibleCount
      ensures Valid()
      ensures this.total == total && this.expanded == expanded
    {
      this.total := total;
      this.expanded := expanded;
      listCollapsed := !expanded;
      text := LabelFor(expanded, total);
      ariaExpanded := expanded;
    }

    /** The click handler: flips `expanded` and brings the list's class, the
      label and `aria-expanded` in line with it. */
    method Click()
      requires Valid()
      modifies this
      ensures Valid()
      ensures expanded == !old(expanded)
      ensures listCollapsed == old(expanded)
      ensures text == LabelFor(!old(expanded), total)
      ensures ariaExpanded == !old(expanded)
    {
      expanded := !expanded;
      listCollapsed := !expanded;
      text := LabelFor(expanded, total);
      ariaExpanded := expanded;
    }
  }

  /** `renderTags` together with the state its click handler closes over:
      when the button is shown, a toggle whose `expanded` is the initial
      state, whose `total` is the number of tags, and whose list class, label
      and `aria-expanded` are the ones rendered. */
  method RenderTagsWithToggle(posts: seq<Entry>, activeTag: Option<string>) returns (nav: TagNav, toggle: TagToggle?)
    ensures toggle != null <==> nav.toggle.Some?
    ensures toggle != null ==>
              && fresh(toggle) && toggle.Valid()
              && toggle.total == |Ranked(posts)|
              && toggle.expanded == InitiallyExpanded(Ranked(posts), activeTag)
              && nav.list.Some? && toggle.listCollapsed == nav.list.value.collapsed
              && nav.toggle.value == ToggleView(toggle.text, toggle.ariaExpanded)
  {
    nav := RenderTags(posts, activeTag);
    toggle := null;
    if nav.toggle.Some? {
      toggle := new TagToggle(|Ranked(posts)|, !nav.list.value.collapsed);
    }
  }

  /** Two clicks bring the toggle and the list back to where they were. */
  method ClickTwice(toggle: TagToggle)
    requires toggle.Valid()
    modifies toggle
    ensures toggle.Valid()
    ensures toggle.expanded == old(toggle.expanded) && toggle.listCollapsed == old(toggle.listCollapsed)
    ensures toggle.text == old(toggle.text) && toggle.ariaExpanded == old(toggle.ariaExpanded)
  {
    toggle.Click();
    toggle.Click();
  }
}
