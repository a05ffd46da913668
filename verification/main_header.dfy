/** The main header's search box: typing a "magic" keyword opens the flow
    state setup modal instead of searching. */
module MainHeader {
  import opened Wrappers
  import opened Text
  import opened AppStore

  /** relax, heal, focus, study, tired, sleep aid, inspiration, bgm. */
  const MagicKeywords: seq<string> := [
    "\U{653E}\U{677E}", "\U{6CBB}\U{6108}", "\U{4E13}\U{6CE8}", "\U{5B66}\U{4E60}",
    "\U{7D2F}", "\U{52A9}\U{7720}", "\U{7075}\U{611F}", "bgm"
  ]

  /** The content the header puts in the modal. */
  const FlowStateSetup := Content("FlowStateSetupModal")

  /** A query is magic when it contains one of the keywords. */
  predicate IsMagic(query: string) {
    exists k :: 0 <= k < |MagicKeywords| && Includes(query, MagicKeywords[k])
  }

  /** Tries the keywords in order, as `some` does. */
  function AnyKeywordIn(query: string, keywords: seq<string>): (r: bool)
    ensures r <==> exists k :: 0 <= k < |keywords| && Includes(query, keywords[k])
    decreases |keywords|
  {
    if |keywords| == 0 then false
    else
      var r := IncludesSearch(query, keywords[0]) || AnyKeywordIn(query, keywords[1..]);
      assert forall k :: 1 <= k < |keywords| ==> keywords[1..][k - 1] == keywords[k];
      r
  }

  /** What the header shows after a keystroke: its own search term, and the
      shell store it may have updated. */
  datatype HeaderState = HeaderState(searchTerm: string, app: AppState)

  /** The term becomes the query; a magic query then opens the modal and
      empties the term. */
  function HandleSearchChange(h: HeaderState, query: string): (r: HeaderState)
    ensures IsMagic(query) ==>
      r.searchTerm == "" && r.app.isModalOpen && r.app.modalContent == Some(FlowStateSetup)
    ensures IsMagic(query) ==>
      r.app.(isModalOpen := h.app.isModalOpen, modalContent := h.app.modalContent) == h.app
    ensures !IsMagic(query) ==> r.searchTerm == query && r.app == h.app
  {
    var typed := h.(searchTerm := query);
    if AnyKeywordIn(query, MagicKeywords) then
      typed.(app := OpenModal(typed.app, FlowStateSetup), searchTerm := "")
    else typed
  }

  /** Every character of a keyword the query contains occurs in the query. */
  lemma IncludedCharsOccur(query: string, keyword: string)
    ensures Includes(query, keyword) ==> forall j :: 0 <= j < |keyword| ==> keyword[j] in query
  {
    if Includes(query, keyword) {
      var i: nat :| i <= |query| && OccursAt(query, keyword, i);
      forall j | 0 <= j < |keyword|
        ensures keyword[j] in query
      {
        assert query[i + j] == keyword[j];
      }
    }
  }

  /** Matching is exact and case-sensitive: `bgm` anywhere in the query is
      magic, `BGM` is not, and neither is a query of other letters. */
  lemma MagicExamples()
    ensures IsMagic("bgm")
    ensures IsMagic("lofi bgm please")
    ensures !IsMagic("BGM")
    ensures !IsMagic("")
  {
    assert MagicKeywords[7] == "bgm";
    assert OccursAt("bgm", "bgm", 0);
    assert Includes("bgm", MagicKeywords[7]);
    assert OccursAt("lofi bgm please", "bgm", 5);
    assert Includes("lofi bgm please", MagicKeywords[7]);
    forall k | 0 <= k < |MagicKeywords|
      ensures !Includes("BGM", MagicKeywords[k]) && !Includes("", MagicKeywords[k])
    {
      IncludedCharsOccur("BGM", MagicKeywords[k]);
      assert |MagicKeywords[k]| > 0 && MagicKeywords[k][0] !in "BGM";
      IncludedCharsOccur("", MagicKeywords[k]);
    }
  }

  /** Handling the same query twice ends where handling it once does, and
      the modal stays coherent: it is only ever opened with content. */
  lemma HandleSearchChangeLaws(h: HeaderState, query: string)
    ensures HandleSearchChange(HandleSearchChange(h, query), query) == HandleSearchChange(h, query)
    ensures ModalCoherent(h.app) ==> ModalCoherent(HandleSearchChange(h, query).app)
  {
  }
}
