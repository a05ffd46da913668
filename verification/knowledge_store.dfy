/** The knowledge base store: knowledge cards, newest first, and the list of
    distinct tags over all cards in first-seen order (the order in which a
    JavaScript `Set` keeps its insertions). */
module KnowledgeStore {
  import opened Wrappers
  import opened Seqs

  datatype CardSource = CardSource(videoId: string, videoTitle: string, uploaderName: string, thumbnailUrl: string)

  /** `timestamp` is the position in the video, absent for whole-video
      notes. */
  datatype Card = Card(
    id: string,
    content: string,
    timestamp: Option<string>,
    tags: seq<string>,
    source: CardSource,
    createdAt: string)

  datatype KnowledgeState = KnowledgeState(cards: seq<Card>)

  /** `cards.flatMap(card => card.tags)`. */
  function AllTags(cards: seq<Card>): (r: seq<string>)
    decreases |cards|
  {
    if |cards| == 0 then [] else AllTags(cards[..|cards| - 1]) + cards[|cards| - 1].tags
  }

  lemma {:induction false} AllTagsAppend(a: seq<Card>, b: seq<Card>)
    ensures AllTags(a + b) == AllTags(a) + AllTags(b)
    decreases |b|
  {
    if |b| > 0 {
      assert (a + b)[..|a + b| - 1] == a + b[..|b| - 1];
      assert (a + b)[|a + b| - 1] == b[|b| - 1];
      AllTagsAppend(a, b[..|b| - 1]);
    } else {
      assert a + b == a;
    }
  }

  /** A string is among the tags of the cards exactly when some card carries
      it. */
  lemma {:induction false} InAllTags(cards: seq<Card>, t: string)
    ensures t in AllTags(cards) <==> exists k :: 0 <= k < |cards| && t in cards[k].tags
    decreases |cards|
  {
    if |cards| > 0 {
      var init := cards[..|cards| - 1];
      InAllTags(init, t);
      assert forall k :: 0 <= k < |init| ==> init[k] == cards[k];
    }
  }

  /** No element repeats. */
  predicate NoDup<T(==)>(s: seq<T>) {
    forall i, j :: 0 <= i < j < |s| ==> s[i] != s[j]
  }

  /** `[...new Set(s)]`: each element once, at the place it was first
      inserted. */
  function Dedup<T(==)>(s: seq<T>): (r: seq<T>)
    decreases |s|
  {
    if |s| == 0 then []
    else
      var d := Dedup(s[..|s| - 1]);
      if s[|s| - 1] in d then d else d + [s[|s| - 1]]
  }

  function EqualTo<T(==)>(x: T): T -> bool {
    (y: T) => y == x
  }

  /** The index of the first occurrence of `x` in `s`. */
  function FirstIndex<T(==)>(s: seq<T>, x: T): int {
    FindIndex(s, EqualTo(x))
  }

  /** `Dedup` keeps exactly the elements of its input, once each, ordered by
      where they first occur. */
  lemma {:induction false} DedupSpec<T>(s: seq<T>)
    ensures NoDup(Dedup(s))
    ensures forall x :: x in Dedup(s) <==> x in s
    ensures forall i, j :: 0 <= i < j < |Dedup(s)| ==> FirstIndex(s, Dedup(s)[i]) < FirstIndex(s, Dedup(s)[j])
    decreases |s|
  {
    if |s| > 0 {
      var init := s[..|s| - 1];
      var x := s[|s| - 1];
      assert s == init + [x];
      DedupSpec(init);
      var d := Dedup(init);
      forall y ensures FirstIndex(s, y) == (if 0 <= FirstIndex(init, y) then FirstIndex(init, y) else if y == x then |init| else -1) {
        FindIndexSnoc(init, x, EqualTo(y));
      }
      forall y | y in init ensures 0 <= FirstIndex(init, y) < |init| {
        var k :| 0 <= k < |init| && init[k] == y;
        assert EqualTo(y)(init[k]);
      }
    }
  }

  /** Deduplicating one element more keeps it only when it is new. */
  lemma DedupSnoc<T>(s: seq<T>, x: T)
    ensures Dedup(s + [x]) == if x in Dedup(s) then Dedup(s) else Dedup(s) + [x]
  {
    assert (s + [x])[..|s + [x]| - 1] == s;
  }

  /** The distinct tags, as the store derives them. */
  function Tags(st: KnowledgeState): (r: seq<string>)
    ensures NoDup(r)
    ensures forall t :: t in r <==> exists k :: 0 <= k < |st.cards| && t in st.cards[k].tags
    ensures forall i, j :: 0 <= i < j < |r| ==> FirstIndex(AllTags(st.cards), r[i]) < FirstIndex(AllTags(st.cards), r[j])
  {
    DedupSpec(AllTags(st.cards));
    forall t ensures t in AllTags(st.cards) <==> exists k :: 0 <= k < |st.cards| && t in st.cards[k].tags {
      InAllTags(st.cards, t);
    }
    Dedup(AllTags(st.cards))
  }

  /** The derivation as the loops a `Set` performs: walk the cards, walk each
      card's tags, keep a tag the first time it is seen. */
  method UniqueTags(cards: seq<Card>) returns (r: seq<string>)
    ensures r == Tags(KnowledgeState(cards))
  {
    r := [];
    var i := 0;
    while i < |cards|
      invariant 0 <= i <= |cards|
      invariant r == Dedup(AllTags(cards[..i]))
    {
      var tags := cards[i].tags;
      var j := 0;
      assert AllTags(cards[..i]) + tags[..0] == AllTags(cards[..i]);
      while j < |tags|
        invariant 0 <= j <= |tags|
        invariant r == Dedup(AllTags(cards[..i]) + tags[..j])
      {
        assert AllTags(cards[..i]) + tags[..j + 1] == (AllTags(cards[..i]) + tags[..j]) + [tags[j]];
        DedupSnoc(AllTags(cards[..i]) + tags[..j], tags[j]);
        if tags[j] !in r {
          r := r + [tags[j]];
        }
        j := j + 1;
      }
      assert cards[..i + 1][..i] == cards[..i];
      assert tags[..j] == tags;
      i := i + 1;
    }
    assert cards[..i] == cards;
  }

  /** Prepends a card. The tags listed afterwards are the old ones and the
      new card's, and in the flattening the new card's tags come first. */
  function AddCard(st: KnowledgeState, c: Card): (r: KnowledgeState)
    ensures r.cards == [c] + st.cards
    ensures forall t :: t in Tags(r) <==> t in Tags(st) || t in c.tags
    ensures AllTags(r.cards) == c.tags + AllTags(st.cards)
  {
    PrependCardTags(st.cards, c);
    PrependCardAllTags(st.cards, c);
    KnowledgeState([c] + st.cards)
  }

  /** With one more card in front every old tag is still listed and every tag
      of the new card is listed; nothing else is. */
  lemma PrependCardTags(cards: seq<Card>, c: Card)
    ensures forall t :: t in Tags(KnowledgeState([c] + cards)) <==> t in Tags(KnowledgeState(cards)) || t in c.tags
  {
    var r := [c] + cards;
    assert forall k :: 0 <= k < |cards| ==> r[k + 1] == cards[k];
    forall t | t in Tags(KnowledgeState(cards)) ensures t in Tags(KnowledgeState(r)) {
      var k :| 0 <= k < |cards| && t in cards[k].tags;
      assert t in r[k + 1].tags;
    }
    forall t | t in c.tags ensures t in Tags(KnowledgeState(r)) {
      assert t in r[0].tags;
    }
    forall t | t in Tags(KnowledgeState(r)) ensures t in Tags(KnowledgeState(cards)) || t in c.tags {
      var k :| 0 <= k < |r| && t in r[k].tags;
      if k > 0 {
        assert r[k] == cards[k - 1];
      }
    }
  }

  /** The tags of a card put in front lead the flattening. */
  lemma PrependCardAllTags(cards: seq<Card>, c: Card)
    ensures AllTags([c] + cards) == c.tags + AllTags(cards)
  {
    AllTagsAppend([c], cards);
    assert AllTags([c]) == AllTags([]) + c.tags;
  }
}
