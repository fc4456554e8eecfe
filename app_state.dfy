/**
 * The browser client's `appState` record and the events that change it:
 * a click on a session, the arrow keys, Escape, the sidebar toggle, a fetch
 * of the session list finishing and the loading timer expiring.  Rendering
 * is left out; only what the render functions write into `appState` is kept.
 */
module AppState {
  import opened Base
  import opened SessionList

  /** The position of the first session called `name`, or -1 (`findIndex`). */
  function IndexOfName(sessions: seq<Session>, name: string): (i: int)
    ensures -1 <= i < |sessions|
    ensures 0 <= i ==> sessions[i].name == name
    ensures forall j :: 0 <= j < |sessions| && (i < 0 || j < i) ==> sessions[j].name != name
  {
    if sessions == [] then -1
    else if sessions[0].name == name then 0
    else
      var i := IndexOfName(sessions[1..], name);
      if i < 0 then -1 else i + 1
  }

  /** `Math.max(0, Math.min(length - 1, current + direction))`. */
  function NavigateIndex(current: int, direction: int, length: nat): (i: int)
    requires 0 < length
    ensures 0 <= i < length
    ensures 0 <= current + direction < length ==> i == current + direction
    ensures current + direction < 0 ==> i == 0
    ensures length <= current + direction ==> i == length - 1
  {
    var stepped := if length - 1 < current + direction then length - 1 else current + direction;
    if stepped < 0 then 0 else stepped
  }

  /** The two arrow keys and the direction `navigateSessionsWithKeyboard` receives for each. */
  datatype Arrow = ArrowUp | ArrowDown
  {
    function Direction(): (d: int)
      ensures d == -1 || d == 1
      ensures d < 0 <==> this == ArrowUp
    {
      if this == ArrowUp then -1 else 1
    }
  }

  /** What `fetchSessions` resolves to: the server's reply, or the object made from a thrown error. */
  datatype Fetched = Reply(reply: SessionsReply) | FetchError(message: string)

  /** The fields of a sessions object that the client reads: `success` and `sessions`. */
  datatype SidebarData = SidebarData(success: bool, sessions: seq<Session>)

  /** A failed reply has no `sessions` field; it is read here as the empty list. */
  function SidebarDataOf(f: Fetched): (d: SidebarData)
    ensures d.success <==> f.Reply? && f.reply.Success()
    ensures f.Reply? && f.reply.Listed? ==> d.sessions == f.reply.sessions
    ensures !(f.Reply? && f.reply.Listed?) ==> d.sessions == []
  {
    match f
    case Reply(Listed(sessions, _)) => SidebarData(true, sessions)
    case Reply(NoSessions(_)) => SidebarData(true, [])
    case Reply(Failed(_, _)) => SidebarData(false, [])
    case FetchError(_) => SidebarData(false, [])
  }

  /** The `appState` fields the model keeps. */
  datatype State = State(sessions: seq<Session>, selected: Option<Session>, loading: bool, sidebarCollapsed: bool)
  {
    /** A selected session is always one whose name is in the list. */
    predicate SelectionListed()
    {
      selected.Some? ==> 0 <= IndexOfName(sessions, selected.value.name)
    }
  }

  const Initial := State([], None, false, false)

  /** `renderSidebar`: only a successful, non-empty list replaces `sessions`. */
  function Rendered(s: State, data: SidebarData): State
  {
    if data.success && |data.sessions| != 0 then s.(sessions := data.sessions) else s
  }

  /** `selectSession(name)`, up to the point where the loading timer is started. */
  function Selected(s: State, name: string): State
  {
    var i := IndexOfName(s.sessions, name);
    if i < 0 then s else s.(selected := Some(s.sessions[i]), loading := true)
  }

  /** The loading timer of `selectSession` expiring. */
  function LoadingElapsed(s: State): State
  {
    s.(loading := false)
  }

  /** `loadSessions` once the fetch has resolved to `f`. */
  function Loaded(s: State, f: Fetched): State
  {
    var data := SidebarDataOf(f);
    var r := Rendered(s, data);
    if r.selected.Some? && IndexOfName(data.sessions, r.selected.value.name) < 0 then r.(selected := None) else r
  }

  /** The Escape key. */
  function Escaped(s: State): State
  {
    if s.selected.Some? then s.(selected := None) else s
  }

  /** A click on the sidebar toggle. */
  function Toggled(s: State): State
  {
    s.(sidebarCollapsed := !s.sidebarCollapsed)
  }

  /** The index `navigateSessionsWithKeyboard` moves from: the selection's, or -1. */
  function CurrentIndex(s: State): (i: int)
    ensures -1 <= i < |s.sessions|
    ensures s.selected.None? ==> i == -1
    ensures 0 <= i ==> s.sessions[i].name == s.selected.value.name
    ensures s.SelectionListed() && s.selected.Some? ==> 0 <= i
  {
    if s.selected.Some? then IndexOfName(s.sessions, s.selected.value.name) else -1
  }

  /** `navigateSessionsWithKeyboard(direction)`. */
  function Navigated(s: State, direction: int): State
  {
    if |s.sessions| == 0 then s
    else Selected(s, s.sessions[NavigateIndex(CurrentIndex(s), direction, |s.sessions|)].name)
  }

  /** Re-rendering the sidebar with its own list changes nothing. */
  lemma RenderOwnList(s: State)
    ensures Rendered(s, SidebarData(true, s.sessions)) == s
  {
  }

  /** Selecting a name that is not listed changes nothing. */
  lemma SelectUnlisted(s: State, name: string)
    requires forall i :: 0 <= i < |s.sessions| ==> s.sessions[i].name != name
    ensures Selected(s, name) == s
  {
  }

  /** Selecting a listed name selects its first record and starts loading; nothing else changes. */
  lemma SelectListed(s: State, name: string, k: nat)
    requires k < |s.sessions| && s.sessions[k].name == name
    ensures Selected(s, name).selected.Some?
    ensures Selected(s, name).selected.value.name == name
    ensures Selected(s, name).selected.value in s.sessions
    ensures Selected(s, name).selected == Some(s.sessions[IndexOfName(s.sessions, name)])
    ensures IndexOfName(s.sessions, name) <= k
    ensures Selected(s, name).loading
    ensures Selected(s, name).sessions == s.sessions
    ensures Selected(s, name).sidebarCollapsed == s.sidebarCollapsed
  {
  }

  /** With distinct names, selecting the name of the k-th session selects exactly that session. */
  lemma SelectDistinct(s: State, k: nat)
    requires k < |s.sessions|
    requires forall i, j :: 0 <= i < j < |s.sessions| ==> s.sessions[i].name != s.sessions[j].name
    ensures Selected(s, s.sessions[k].name).selected == Some(s.sessions[k])
  {
  }

  /** Keyboard navigation selects the session at the clamped index, by name. */
  lemma NavigateSelectsClamped(s: State, direction: int)
    requires |s.sessions| != 0
    ensures Navigated(s, direction).selected.Some?
    ensures Navigated(s, direction).selected.value.name
      == s.sessions[NavigateIndex(CurrentIndex(s), direction, |s.sessions|)].name
    ensures Navigated(s, direction).loading
    ensures Navigated(s, direction).sessions == s.sessions
  {
  }

  /** With nothing selected, or a selection that is no longer listed, both arrows select the first session. */
  lemma NavigateFromNothing(s: State, arrow: Arrow)
    requires |s.sessions| != 0 && CurrentIndex(s) < 0
    ensures Navigated(s, arrow.Direction()).selected == Some(s.sessions[0])
  {
  }

  /** Down on the last session and Up on the first keep the same session selected. */
  lemma NavigateAtEnds(s: State)
    requires s.selected.Some? && 0 <= CurrentIndex(s)
    ensures s.sessions[CurrentIndex(s)].name == s.selected.value.name
    ensures CurrentIndex(s) == |s.sessions| - 1 ==>
      Navigated(s, ArrowDown.Direction()).selected == Some(s.sessions[CurrentIndex(s)])
    ensures CurrentIndex(s) == 0 ==>
      Navigated(s, ArrowUp.Direction()).selected == Some(s.sessions[CurrentIndex(s)])
  {
  }

  /** With an empty list the arrow keys do nothing. */
  lemma NavigateEmpty(s: State, direction: int)
    requires |s.sessions| == 0
    ensures Navigated(s, direction) == s
  {
  }

  /**
   * Only a successful, non-empty fetch replaces the list; afterwards a
   * selection survives exactly when its name is in the fetched list.
   */
  lemma LoadedOutcome(s: State, f: Fetched)
    ensures var data := SidebarDataOf(f);
      Loaded(s, f).sessions == (if data.success && |data.sessions| != 0 then data.sessions else s.sessions)
    ensures Loaded(s, f).selected.Some? <==>
      s.selected.Some? && 0 <= IndexOfName(SidebarDataOf(f).sessions, s.selected.value.name)
    ensures Loaded(s, f).selected.Some? ==> Loaded(s, f).selected == s.selected
    ensures Loaded(s, f).loading == s.loading && Loaded(s, f).sidebarCollapsed == s.sidebarCollapsed
  {
  }

  /** A failed fetch, or an empty list, keeps the old list and clears any selection. */
  lemma LoadedWithoutList(s: State, f: Fetched)
    requires !(f.Reply? && f.reply.Listed? && |f.reply.sessions| != 0)
    ensures Loaded(s, f).sessions == s.sessions
    ensures Loaded(s, f).selected == None
  {
  }

  /** Escape clears the selection; the toggle flips only the sidebar flag. */
  lemma EscapeAndToggle(s: State)
    ensures Escaped(s).selected == None
    ensures Escaped(s).(selected := s.selected) == s
    ensures Toggled(s).sidebarCollapsed == !s.sidebarCollapsed
    ensures Toggled(s).(sidebarCollapsed := s.sidebarCollapsed) == s
    ensures Toggled(Toggled(s)) == s
  {
  }

  /** Every event keeps the selection among the listed sessions; a fetch restores it from any state. */
  lemma SelectionStaysListed(s: State, name: string, direction: int, f: Fetched)
    ensures Initial.SelectionListed()
    ensures Loaded(s, f).SelectionListed()
    ensures s.SelectionListed() ==> Selected(s, name).SelectionListed()
    ensures s.SelectionListed() ==> Navigated(s, direction).SelectionListed()
    ensures s.SelectionListed() ==> LoadingElapsed(s).SelectionListed()
    ensures s.SelectionListed() ==> Escaped(s).SelectionListed()
    ensures s.SelectionListed() ==> Toggled(s).SelectionListed()
  {
  }

  /** The global `appState`. */
  class App {
    var sessions: seq<Session>
    var selectedSession: Option<Session>
    var loading: bool
    var sidebarCollapsed: bool

    function Snapshot(): State
      reads this
    {
      State(sessions, selectedSession, loading, sidebarCollapsed)
    }

    constructor()
      ensures Snapshot() == Initial
    {
      sessions := [];
      selectedSession := None;
      loading := false;
      sidebarCollapsed := false;
    }

    /** The state update of `renderSidebar` (the markup is not modelled). */
    method RenderSidebar(data: SidebarData)
      modifies this
      ensures Snapshot() == Rendered(old(Snapshot()), data)
    {
      if !data.success {
        return;
      }
      if |data.sessions| == 0 {
        return;
      }
      sessions := data.sessions;
    }

    method SelectSession(name: string)
      modifies this
      ensures Snapshot() == Selected(old(Snapshot()), name)
    {
      var i := IndexOfName(sessions, name);
      if i < 0 {
        return;
      }
      selectedSession := Some(sessions[i]);
      loading := true;
      RenderSidebar(SidebarData(true, sessions));
    }

    /** The 500 ms timer started by `selectSession`. */
    method LoadingTimerFired()
      modifies this
      ensures Snapshot() == LoadingElapsed(old(Snapshot()))
    {
      loading := false;
    }

    /** `loadSessions` resumed with the result of the fetch. */
    method LoadSessions(fetched: Fetched)
      modifies this
      ensures Snapshot() == Loaded(old(Snapshot()), fetched)
    {
      var data := SidebarDataOf(fetched);
      RenderSidebar(data);
      if selectedSession.Some? {
        var stillExists := IndexOfName(data.sessions, selectedSession.value.name);
        if stillExists < 0 {
          selectedSession := None;
        }
      }
    }

    method PressEscape()
      modifies this
      ensures Snapshot() == Escaped(old(Snapshot()))
    {
      if selectedSession.Some? {
        selectedSession := None;
        RenderSidebar(SidebarData(true, sessions));
      }
    }

    method ToggleSidebar()
      modifies this
      ensures Snapshot() == Toggled(old(Snapshot()))
    {
      sidebarCollapsed := !sidebarCollapsed;
    }

    method NavigateSessionsWithKeyboard(direction: int)
      modifies this
      ensures Snapshot() == Navigated(old(Snapshot()), direction)
    {
      if |sessions| == 0 {
        return;
      }
      var currentIndex := -1;
      if selectedSession.Some? {
        currentIndex := IndexOfName(sessions, selectedSession.value.name);
      }
      var newIndex := NavigateIndex(currentIndex, direction, |sessions|);
      var newSession := sessions[newIndex];
      SelectSession(newSession.name);
    }

    method PressArrow(arrow: Arrow)
      modifies this
      ensures Snapshot() == Navigated(old(Snapshot()), arrow.Direction())
    {
      NavigateSessionsWithKeyboard(arrow.Direction());
    }
  }
}
