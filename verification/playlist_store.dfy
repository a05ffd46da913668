/** The playlist synthesizer store: a seed video and the sequence of style
    modules picked after it, with duplicates refused. */
module PlaylistStore {
  import opened Wrappers
  import opened Seqs

  datatype VideoSnippet = VideoSnippet(id: string, title: string, uploader: string, thumbnailUrl: string)

  datatype StyleModule = StyleModule(id: string, title: string, videos: seq<VideoSnippet>)

  datatype PlaylistState = PlaylistState(seedVideo: Option<VideoSnippet>, sequence: seq<StyleModule>)

  const Initial := PlaylistState(None, [])

  /** No module id appears twice in the sequence. */
  predicate DistinctIds(s: seq<StyleModule>) {
    forall i, j :: 0 <= i < j < |s| ==> s[i].id != s[j].id
  }

  predicate HasModule(s: seq<StyleModule>, id: string) {
    exists k :: 0 <= k < |s| && s[k].id == id
  }

  /** A new seed starts an empty sequence. */
  function SetSeedVideo(st: PlaylistState, v: VideoSnippet): (r: PlaylistState)
    ensures r.seedVideo == Some(v) && r.sequence == []
    ensures DistinctIds(r.sequence)
  {
    PlaylistState(Some(v), [])
  }

  /** Appends the module unless a module with its id is already there. */
  function AddModule(st: PlaylistState, m: StyleModule): (r: PlaylistState)
    ensures r.seedVideo == st.seedVideo
    ensures HasModule(st.sequence, m.id) ==> r.sequence == st.sequence
    ensures !HasModule(st.sequence, m.id) ==> r.sequence == st.sequence + [m]
    ensures HasModule(r.sequence, m.id)
  {
    var present := Any(st.sequence, (x: StyleModule) => x.id == m.id);
    assert present <==> HasModule(st.sequence, m.id);
    if present then st
    else
      assert (st.sequence + [m])[|st.sequence|] == m;
      st.(sequence := st.sequence + [m])
  }

  /** Adding keeps the ids distinct, and adding the same module twice is
      adding it once. */
  lemma AddModuleLaws(st: PlaylistState, m: StyleModule)
    ensures DistinctIds(st.sequence) ==> DistinctIds(AddModule(st, m).sequence)
    ensures AddModule(AddModule(st, m), m) == AddModule(st, m)
  {
  }

  /** Adds the modules one after the other. */
  function AddAll(st: PlaylistState, ms: seq<StyleModule>): (r: PlaylistState)
    decreases |ms|
  {
    if |ms| == 0 then st else AddAll(AddModule(st, ms[0]), ms[1..])
  }

  /** Adding only ever appends: the sequence before the additions stays in
      front, at most one module per pick follows, and each one is a pick. */
  lemma {:induction false} AddAllExtends(st: PlaylistState, ms: seq<StyleModule>)
    ensures var r := AddAll(st, ms).sequence;
            && |st.sequence| <= |r| <= |st.sequence| + |ms|
            && r[..|st.sequence|] == st.sequence
            && forall k :: 0 <= k < |r| ==> r[k] in st.sequence || r[k] in ms
    decreases |ms|
  {
    if |ms| > 0 {
      var st1 := AddModule(st, ms[0]);
      AddAllExtends(st1, ms[1..]);
      var r := AddAll(st1, ms[1..]).sequence;
      assert r[..|st.sequence|] == st1.sequence[..|st.sequence|];
      assert forall x :: x in st1.sequence ==> x in st.sequence || x == ms[0];
      assert forall x :: x in ms[1..] ==> x in ms;
    }
  }

  /** Whatever modules are picked after a seed, the sequence holds each
      picked id exactly once. */
  lemma {:induction false} AddAllFromSeed(st: PlaylistState, ms: seq<StyleModule>)
    requires DistinctIds(st.sequence)
    ensures DistinctIds(AddAll(st, ms).sequence)
    ensures forall k :: 0 <= k < |ms| ==> HasModule(AddAll(st, ms).sequence, ms[k].id)
    decreases |ms|
  {
    if |ms| > 0 {
      var st1 := AddModule(st, ms[0]);
      AddModuleLaws(st, ms[0]);
      AddAllFromSeed(st1, ms[1..]);
      AddAllExtends(st1, ms[1..]);
      var r := AddAll(st1, ms[1..]).sequence;
      var j :| 0 <= j < |st1.sequence| && st1.sequence[j].id == ms[0].id;
      assert r[j] == st1.sequence[j];
      assert forall k :: 1 <= k < |ms| ==> ms[k] == ms[1..][k - 1];
    }
  }
}
