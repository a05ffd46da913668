/** The application shell store: the current app mode, the right panel and the
    modal, each with open flag and content. */
module AppStore {
  import opened Wrappers

  datatype AppMode =
    | PersonalHub | VideoSpace | VideoConsumption | KnowledgeGarden | KnowledgeManagement
    | LifeLab | ItineraryPlanning | Community | CreatorStudio | Default

  /** Rendered content is opaque here; `key` only tells contents apart. */
  datatype Content = Content(key: string)

  datatype AppState = AppState(
    appMode: AppMode,
    isRightPanelOpen: bool,
    rightPanelContent: Option<Content>,
    isModalOpen: bool,
    modalContent: Option<Content>)

  const Initial := AppState(Default, false, None, false, None)

  function SetAppMode(st: AppState, mode: AppMode): (r: AppState)
    ensures r.appMode == mode && r.(appMode := st.appMode) == st
  {
    st.(appMode := mode)
  }

  /** Sets the panel open flag to `isOpen` when given, else flips it. */
  function ToggleRightPanel(st: AppState, isOpen: Option<bool>): (r: AppState)
    ensures isOpen.Some? ==> r.isRightPanelOpen == isOpen.value
    ensures isOpen.None? ==> r.isRightPanelOpen == !st.isRightPanelOpen
    ensures r.(isRightPanelOpen := st.isRightPanelOpen) == st
  {
    st.(isRightPanelOpen := if isOpen.Some? then isOpen.value else !st.isRightPanelOpen)
  }

  function SetRightPanelContent(st: AppState, c: Content): (r: AppState)
    ensures r.rightPanelContent == Some(c) && r.isRightPanelOpen
    ensures r.(rightPanelContent := st.rightPanelContent, isRightPanelOpen := st.isRightPanelOpen) == st
  {
    st.(rightPanelContent := Some(c), isRightPanelOpen := true)
  }

  function CloseRightPanel(st: AppState): (r: AppState)
    ensures !r.isRightPanelOpen && r.rightPanelContent.None?
    ensures r.(rightPanelContent := st.rightPanelContent, isRightPanelOpen := st.isRightPanelOpen) == st
  {
    st.(isRightPanelOpen := false, rightPanelContent := None)
  }

  function OpenModal(st: AppState, c: Content): (r: AppState)
    ensures r.isModalOpen && r.modalContent == Some(c)
    ensures r.(isModalOpen := st.isModalOpen, modalContent := st.modalContent) == st
  {
    st.(isModalOpen := true, modalContent := Some(c))
  }

  function CloseModal(st: AppState): (r: AppState)
    ensures !r.isModalOpen && r.modalContent.None?
    ensures r.(isModalOpen := st.isModalOpen, modalContent := st.modalContent) == st
  {
    st.(isModalOpen := false, modalContent := None)
  }

  /** Flipping the panel twice restores it; closing it after any content
      leaves it as closed from the start would. */
  lemma PanelLaws(st: AppState, c: Content)
    ensures ToggleRightPanel(ToggleRightPanel(st, None), None) == st
    ensures CloseRightPanel(SetRightPanelContent(st, c)) == CloseRightPanel(st)
    ensures CloseModal(OpenModal(st, c)) == CloseModal(st)
  {
  }

  datatype Action =
    | SetMode(mode: AppMode)
    | Toggle(isOpen: Option<bool>)
    | ShowInPanel(content: Content)
    | ClosePanel
    | ShowModal(content: Content)
    | HideModal

  function Step(st: AppState, a: Action): AppState {
    match a
    case SetMode(m) => SetAppMode(st, m)
    case Toggle(b) => ToggleRightPanel(st, b)
    case ShowInPanel(c) => SetRightPanelContent(st, c)
    case ClosePanel => CloseRightPanel(st)
    case ShowModal(c) => OpenModal(st, c)
    case HideModal => CloseModal(st)
  }

  function Run(st: AppState, actions: seq<Action>): AppState
    decreases |actions|
  {
    if |actions| == 0 then st else Run(Step(st, actions[0]), actions[1..])
  }

  /** The modal shows content exactly when it is open. */
  predicate ModalCoherent(st: AppState) {
    st.isModalOpen <==> st.modalContent.Some?
  }

  predicate IsModalAction(a: Action) {
    a.ShowModal? || a.HideModal?
  }

  /** Every sequence of actions from a coherent state keeps the modal
      coherent, and actions that are not modal actions leave the modal as it
      was. */
  lemma {:induction false} RunKeepsModalCoherent(st: AppState, actions: seq<Action>)
    requires ModalCoherent(st)
    ensures ModalCoherent(Run(st, actions))
    ensures (forall k :: 0 <= k < |actions| ==> !IsModalAction(actions[k])) ==>
      Run(st, actions).isModalOpen == st.isModalOpen && Run(st, actions).modalContent == st.modalContent
    decreases |actions|
  {
    if |actions| > 0 {
      RunKeepsModalCoherent(Step(st, actions[0]), actions[1..]);
      assert forall k :: 1 <= k < |actions| ==> actions[1..][k - 1] == actions[k];
    }
  }

  /** Whatever the user does after start-up, an open modal has content and a
      closed one has none. */
  lemma ReachableModalCoherent(actions: seq<Action>)
    ensures Run(Initial, actions).isModalOpen <==> Run(Initial, actions).modalContent.Some?
  {
    RunKeepsModalCoherent(Initial, actions);
  }

  /** Panel and mode actions never touch the modal; modal actions never touch
      the panel or the mode. */
  lemma StepFrames(st: AppState, a: Action)
    ensures !IsModalAction(a) ==>
      Step(st, a).isModalOpen == st.isModalOpen && Step(st, a).modalContent == st.modalContent
    ensures IsModalAction(a) ==>
      Step(st, a).(isModalOpen := st.isModalOpen, modalContent := st.modalContent) == st
  {
  }

  /** The panel, unlike the modal, can be open with nothing to show and
      closed while holding content. */
  lemma PanelFlagAndContentIndependent(c: Content)
    ensures var r := Run(Initial, [Toggle(None)]);
            r.isRightPanelOpen && r.rightPanelContent.None?
    ensures var r := Run(Initial, [ShowInPanel(c), Toggle(None)]);
            !r.isRightPanelOpen && r.rightPanelContent == Some(c)
  {
  }
}
