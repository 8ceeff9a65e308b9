/** Hashtag tallies as the source builds them: a `Record<string, number>`
    bumped once per occurrence while visiting every post's `hashtags`, then
    read back with `Object.entries`. The tally keeps every key in insertion
    order, which is the order `Object.entries` uses for keys that are not
    integer-like; integer-like keys, which it lists first in ascending order,
    are not distinguished here. */
module TagCounts {
  import opened Collections
  import opened Social

  datatype TagCount = TagCount(tag: string, count: nat)

  /** Every hashtag occurrence, in the order the nested `forEach` visits them. */
  function AllTags(posts: seq<Post>): seq<string> {
    if |posts| == 0 then [] else posts[0].hashtags + AllTags(posts[1..])
  }

  /** How many times `tag` occurs across `tags`. */
  function Occurrences(tags: seq<string>, tag: string): nat {
    multiset(tags)[tag]
  }

  /** `counts[tag] = (counts[tag] || 0) + 1`: an existing key keeps its place. */
  function Bump(counts: seq<TagCount>, tag: string): seq<TagCount> {
    match FindIndex(counts, (c: TagCount) => c.tag == tag)
    case Some(k) => counts[k := TagCount(tag, counts[k].count + 1)]
    case None => counts + [TagCount(tag, 1)]
  }

  /** The accumulation loop over `tags`, left to right. */
  function Tally(tags: seq<string>): seq<TagCount> {
    if |tags| == 0 then [] else Bump(Tally(tags[..|tags| - 1]), tags[|tags| - 1])
  }

  /** Reference definition: one entry per distinct tag, in order of first
      appearance, carrying that tag's number of occurrences. */
  function ReferenceTally(tags: seq<string>): (r: seq<TagCount>)
    ensures |r| == |Dedupe(tags)|
  {
    var d := Dedupe(tags);
    seq(|d|, i requires 0 <= i < |d| => TagCount(d[i], Occurrences(tags, d[i])))
  }

  predicate DistinctTags(counts: seq<TagCount>) {
    forall i, j :: 0 <= i < j < |counts| ==> counts[i].tag != counts[j].tag
  }

  lemma OccurrencesAppend(pre: seq<string>, t: string, x: string)
    ensures Occurrences(pre + [t], x) == Occurrences(pre, x) + (if x == t then 1 else 0)
  {
    assert multiset(pre + [t]) == multiset(pre) + multiset{t};
  }

  lemma BumpExisting(pre: seq<string>, t: string)
    requires t in pre
    ensures Bump(ReferenceTally(pre), t) == ReferenceTally(pre + [t])
  {
    var tags := pre + [t];
    assert tags[..|tags| - 1] == pre;
    var d := Dedupe(pre);
    assert Dedupe(tags) == d;
    var before := ReferenceTally(pre);
    var after := ReferenceTally(tags);
    var i :| 0 <= i < |d| && d[i] == t;
    assert before[i].tag == t;
    assert FindIndex(before, (c: TagCount) => c.tag == t) == Some(i);
    var bumped := before[i := TagCount(t, before[i].count + 1)];
    forall j | 0 <= j < |after|
      ensures bumped[j] == after[j]
    {
      OccurrencesAppend(pre, t, d[j]);
    }
  }

  lemma BumpNew(pre: seq<string>, t: string)
    requires t !in pre
    ensures Bump(ReferenceTally(pre), t) == ReferenceTally(pre + [t])
  {
    var tags := pre + [t];
    assert tags[..|tags| - 1] == pre;
    var d := Dedupe(pre);
    assert Dedupe(tags) == d + [t];
    var before := ReferenceTally(pre);
    var after := ReferenceTally(tags);
    assert FindIndex(before, (c: TagCount) => c.tag == t).None?;
    var appended := before + [TagCount(t, 1)];
    forall j | 0 <= j < |after|
      ensures appended[j] == after[j]
    {
      OccurrencesAppend(pre, t, (d + [t])[j]);
    }
  }

  /** The accumulation loop computes the reference tally. */
  lemma {:induction false} TallyIsReference(tags: seq<string>)
    ensures Tally(tags) == ReferenceTally(tags)
  {
    if |tags| > 0 {
      var n := |tags| - 1;
      assert tags == tags[..n] + [tags[n]];
      TallyIsReference(tags[..n]);
      if tags[n] in tags[..n] {
        BumpExisting(tags[..n], tags[n]);
      } else {
        BumpNew(tags[..n], tags[n]);
      }
    }
  }

  /** What the tally promises: distinct tags that all occur, each with its
      occurrence count, every occurring tag present, listed in order of first
      appearance. */
  lemma TallyFacts(tags: seq<string>)
    ensures DistinctTags(Tally(tags))
    ensures forall i :: 0 <= i < |Tally(tags)| ==> Tally(tags)[i].tag in tags && Tally(tags)[i].count == Occurrences(tags, Tally(tags)[i].tag)
    ensures forall t :: t in tags ==> TagCount(t, Occurrences(tags, t)) in Tally(tags)
    ensures forall i, j :: 0 <= i < j < |Tally(tags)| ==> FirstIndexOf(tags, Tally(tags)[i].tag) < FirstIndexOf(tags, Tally(tags)[j].tag)
  {
    TallyIsReference(tags);
    DedupeKeepsFirstAppearanceOrder(tags);
    var d := Dedupe(tags);
    forall t | t in tags
      ensures TagCount(t, Occurrences(tags, t)) in Tally(tags)
    {
      var i :| 0 <= i < |d| && d[i] == t;
      assert Tally(tags)[i] == TagCount(t, Occurrences(tags, t));
    }
  }
}
