/** Workspaces of the floating window manager
    (examples/example-server-lib/floating_window_manager.cpp:244-257, 503-520, 544-647). */
module Workspaces {
  import opened Collections
  import opened WindowStates

  /** What the server and the policy know of a window: its state, the policy's data, the workspace
      it is in, and its ancestors, the outermost first and its parent last. */
  datatype Info = Info(
    state: WindowState,
    inHiddenWorkspace: bool,
    oldState: WindowState,
    workspace: int,
    ancestors: seq<int>,
    decoration: bool
  )

  datatype Desk = Desk(
    windows: map<int, Info>,
    active: int,                  // active_workspace
    focus: Option<int>,           // the active window
    remembered: map<int, int>     // workspace_to_active
  )

  /** The window at the top of a window's tree, found by following parents. */
  function Root(windows: map<int, Info>, w: int): int
    requires w in windows
  {
    if windows[w].ancestors == [] then w else windows[w].ancestors[0]
  }

  // ----- one window

  /** apply_workspace_hidden_to */
  function Hide(i: Info): Info {
    if i.inHiddenWorkspace then i else i.(inHiddenWorkspace := true, oldState := i.state, state := Hidden)
  }

  /** apply_workspace_visible_to */
  function Show(i: Info): Info {
    if i.inHiddenWorkspace then i.(inHiddenWorkspace := false, state := i.oldState) else i
  }

  /** handle_modify_window, as far as the state goes: a hidden window's request is kept for later. */
  function Requested(i: Info, state: WindowState): Info {
    if i.inHiddenWorkspace then i.(oldState := state) else i.(state := state)
  }

  /** The state the window's client asked for, shown or not. */
  function Logical(i: Info): WindowState {
    if i.inHiddenWorkspace then i.oldState else i.state
  }

  // ----- switching

  predicate Taken(d: Desk, take: Option<int>, w: int)
    requires w in d.windows
  {
    && take.Some? && take.value in d.windows
    && Root(d.windows, w) == Root(d.windows, take.value) && d.windows[w].workspace == d.active
  }

  /** What switch_workspace_to does to one window: the tree taken along is moved and shown; the rest
      of the new workspace is shown and of the old one hidden, decorations excepted. */
  function SwitchedInfo(d: Desk, workspace: int, take: Option<int>, w: int): Info
    requires w in d.windows
  {
    var i := d.windows[w];
    if Taken(d, take, w) then Show(i.(workspace := workspace))
    else if i.decoration then i
    else if i.workspace == workspace then Show(i)
    else if i.workspace == d.active then Hide(i)
    else i
  }

  function SwitchedWindows(d: Desk, workspace: int, take: Option<int>): map<int, Info> {
    map w | w in d.windows :: SwitchedInfo(d, workspace, take, w)
  }

  /** The focused window stays behind: it is hidden last, and remembered. */
  predicate LeavesFocusBehind(d: Desk, take: Option<int>) {
    && d.focus.Some? && d.focus.value in d.windows
    && d.windows[d.focus.value].workspace == d.active && !d.windows[d.focus.value].decoration
    && !Taken(d, take, d.focus.value)
  }

  function Switched(d: Desk, workspace: int, take: Option<int>): Desk {
    if workspace == d.active then d
    else d.(windows := SwitchedWindows(d, workspace, take),
            active := workspace,
            remembered := if LeavesFocusBehind(d, take) then d.remembered[d.active := d.focus.value] else d.remembered)
  }

  // ----- the policy object

  class FloatingPolicy {
    var windows: map<int, Info>
    var activeWorkspace: int
    var focus: Option<int>
    var workspaceToActive: map<int, int>

    ghost function View(): Desk
      reads this
    {
      Desk(windows, activeWorkspace, focus, workspaceToActive)
    }

    constructor (firstWorkspace: int)
      ensures View() == Desk(map[], firstWorkspace, None, map[]) && DeskInv(View())
    {
      windows, activeWorkspace, focus, workspaceToActive := map[], firstWorkspace, None, map[];
    }

    method ApplyHiddenTo(w: int)
      requires w in windows
      modifies this`windows
      ensures windows == old(windows)[w := Hide(old(windows)[w])]
    {
      var i := windows[w];
      if !i.inHiddenWorkspace {
        i := i.(inHiddenWorkspace := true, oldState := i.state);
        i := i.(state := Hidden);
      }
      windows := windows[w := i];
    }

    method ApplyVisibleTo(w: int)
      requires w in windows
      modifies this`windows
      ensures windows == old(windows)[w := Show(old(windows)[w])]
    {
      var i := windows[w];
      if i.inHiddenWorkspace {
        i := i.(inHiddenWorkspace := false);
        i := i.(state := i.oldState);
      }
      windows := windows[w := i];
    }

    /** for_each_window_in_workspace with apply_workspace_visible_to, skipping decorations. */
    method ShowAllIn(workspace: int)
      modifies this`windows
      ensures windows == Shown(old(windows), workspace)
    {
      ghost var before := windows;
      var todo := windows.Keys;
      while todo != {}
        invariant todo <= before.Keys && windows.Keys == before.Keys
        invariant forall w :: w in windows ==>
                    windows[w] == if w in todo then before[w] else ShownInfo(before[w], workspace)
        decreases todo
      {
        var w := Least(todo);
        if windows[w].workspace == workspace && !windows[w].decoration {
          ApplyVisibleTo(w);
        }
        todo := todo - {w};
      }
      forall w | w in windows
        ensures windows[w] == ShownInfo(before[w], workspace)
      {
        assert w !in todo;
      }
      assert windows == Shown(before, workspace);
    }

    /** The same with apply_workspace_hidden_to, leaving one window out. */
    method HideAllIn(workspace: int, except: Option<int>)
      modifies this`windows
      ensures windows == HiddenBut(old(windows), workspace, except)
    {
      ghost var before := windows;
      var todo := windows.Keys;
      while todo != {}
        invariant todo <= before.Keys && windows.Keys == before.Keys
        invariant forall w :: w in windows ==>
                    windows[w] == if w in todo then before[w] else HiddenInfo(before[w], workspace, except == Some(w))
        decreases todo
      {
        var w := Least(todo);
        if windows[w].workspace == workspace && !windows[w].decoration && Some(w) != except {
          ApplyHiddenTo(w);
        }
        todo := todo - {w};
      }
      forall w | w in windows
        ensures windows[w] == HiddenInfo(before[w], workspace, except == Some(w))
      {
        assert w !in todo;
      }
      assert windows == HiddenBut(before, workspace, except);
    }

    /** remove_tree_from_workspace, add_tree_to_workspace and the advise_adding_to_workspace they
        cause: the tree moves from one workspace to the one just made active, and is shown. */
    method MoveTree(take: Option<int>, from: int, to: int)
      modifies this`windows
      ensures windows == TreeMoved(old(windows), take, from, to)
    {
      if take.None? || take.value !in windows {
        assert windows == TreeMoved(windows, take, from, to);
        return;
      }
      ghost var before := windows;
      var root := Root(windows, take.value);
      var todo := windows.Keys;
      while todo != {}
        invariant todo <= before.Keys && windows.Keys == before.Keys
        invariant forall w :: w in windows ==>
                    windows[w] == if w in todo then before[w] else MovedInfo(before[w], Root(before, w) == root, from, to)
        decreases todo
      {
        var w := Least(todo);
        if Root(windows, w) == root && windows[w].workspace == from {
          windows := windows[w := windows[w].(workspace := to)];
          ApplyVisibleTo(w);
        }
        todo := todo - {w};
      }
      forall w | w in windows
        ensures windows[w] == MovedInfo(before[w], Root(before, w) == root, from, to)
      {
        assert w !in todo;
      }
      assert windows == TreeMoved(before, take, from, to);
    }

    /** advise_adding_to_workspace for a window just opened as a child, then advise_new_window. */
    method AdviseNewWindow(w: int, parent: Option<int>, state: WindowState, decoration: bool)
      requires CanHappen(View(), Open(w, parent, state, decoration))
      modifies this`windows
      ensures View() == Happen(old(View()), Open(w, parent, state, decoration))
      ensures w in windows && Logical(windows[w]) == state && windows[w].decoration == decoration
      ensures parent.None? ==> windows[w].ancestors == [] && windows[w].workspace == activeWorkspace
      ensures parent.Some? ==>
                && windows[w].ancestors == old(windows)[parent.value].ancestors + [parent.value]
                && windows[w].workspace == old(windows)[parent.value].workspace
    {
      if parent.None? {
        windows := windows[w := Info(state, false, state, activeWorkspace, [], decoration)];
        ApplyVisibleTo(w);
      } else {
        var p := windows[parent.value];
        windows := windows[w := Info(state, false, state, p.workspace, p.ancestors + [parent.value], decoration)];
        if p.workspace == activeWorkspace {
          ApplyVisibleTo(w);
        } else {
          ApplyHiddenTo(w);
        }
      }
    }

    /** handle_modify_window */
    method HandleModifyWindow(w: int, state: Option<WindowState>)
      requires w in windows
      modifies this`windows
      ensures View() == if state.Some? then Happen(old(View()), Request(w, state.value)) else old(View())
    {
      if state.Some? {
        if windows[w].inHiddenWorkspace {
          windows := windows[w := windows[w].(oldState := state.value)];
        } else {
          windows := windows[w := windows[w].(state := state.value)];
        }
      }
    }

    /** switch_workspace_to */
    method SwitchWorkspaceTo(workspace: int, take: Option<int>)
      requires RemembersOwn(View())
      modifies this`windows, this`activeWorkspace, this`workspaceToActive
      ensures View() == Switched(old(View()), workspace, take)
    {
      if workspace == activeWorkspace {
        return;
      }
      ghost var d := View();
      var oldActive := activeWorkspace;
      activeWorkspace := workspace;
      if focus.None? && workspace in workspaceToActive {
        var ww := workspaceToActive[workspace];
        if ww in windows && windows[ww].workspace == workspace {
          ApplyVisibleTo(ww);
        }
      }
      assert windows == FirstShown(d, workspace);
      MoveTree(take, oldActive, workspace);
      ShowAllIn(workspace);
      HideAllIn(oldActive, focus);
      assert windows == Staged(d, workspace, take);
      SwitchInSteps(d, workspace, take);
      LastIsLeftBehind(d, workspace, take);
      HideLast(oldActive);
    }

    /** The focused window, if it stays behind, is hidden last and remembered. */
    method HideLast(oldActive: int)
      modifies this`windows, this`workspaceToActive
      ensures windows == LastHidden(old(windows), oldActive, focus)
      ensures workspaceToActive == if HidesLast(old(windows), oldActive, focus)
                                   then old(workspaceToActive)[oldActive := focus.value] else old(workspaceToActive)
    {
      if focus.Some? && focus.value in windows && windows[focus.value].workspace == oldActive
         && !windows[focus.value].decoration {
        ApplyHiddenTo(focus.value);
        workspaceToActive := workspaceToActive[oldActive := focus.value];
      }
    }
  }

  function ShownInfo(i: Info, workspace: int): Info {
    if i.workspace == workspace && !i.decoration then Show(i) else i
  }

  function Shown(windows: map<int, Info>, workspace: int): map<int, Info> {
    map w | w in windows :: ShownInfo(windows[w], workspace)
  }

  function HiddenInfo(i: Info, workspace: int, spared: bool): Info {
    if i.workspace == workspace && !i.decoration && !spared then Hide(i) else i
  }

  function HiddenBut(windows: map<int, Info>, workspace: int, except: Option<int>): map<int, Info> {
    map w | w in windows :: HiddenInfo(windows[w], workspace, except == Some(w))
  }

  function MovedInfo(i: Info, inTree: bool, from: int, to: int): Info {
    if inTree && i.workspace == from then Show(i.(workspace := to)) else i
  }

  function TreeMoved(windows: map<int, Info>, take: Option<int>, from: int, to: int): map<int, Info> {
    map w | w in windows ::
      if take.Some? && take.value in windows
      then MovedInfo(windows[w], Root(windows, w) == Root(windows, take.value), from, to)
      else windows[w]
  }

  /** A remembered window is no decoration. */
  ghost predicate RemembersOwn(d: Desk) {
    forall s :: s in d.remembered && d.remembered[s] in d.windows ==> !d.windows[d.remembered[s]].decoration
  }

  /** The steps of switch_workspace_to, for one window: shown first if it is the one to get the focus,
      moved with the tree, shown with the new workspace, hidden with the old one, or hidden last. */
  lemma OneWindowInSteps(i: Info, active: int, workspace: int, inTree: bool, isFirst: bool, isFocus: bool)
    requires workspace != active && (isFirst ==> !i.decoration)
    ensures var first := if isFirst && i.workspace == workspace then Show(i) else i;
            var rest := HiddenInfo(ShownInfo(MovedInfo(first, inTree, active, workspace), workspace), active, isFocus);
            (if isFocus && rest.workspace == active && !rest.decoration then Hide(rest) else rest)
            == if inTree && i.workspace == active then Show(i.(workspace := workspace))
               else if i.decoration then i
               else if i.workspace == workspace then Show(i)
               else if i.workspace == active then Hide(i)
               else i
  {
  }

  /** What switch_workspace_to does first: with nothing focused, the window remembered is shown. */
  function FirstShown(d: Desk, workspace: int): map<int, Info> {
    if d.focus.None? && workspace in d.remembered && d.remembered[workspace] in d.windows
       && d.windows[d.remembered[workspace]].workspace == workspace
    then d.windows[d.remembered[workspace] := Show(d.windows[d.remembered[workspace]])]
    else d.windows
  }

  /** And last: the focused window, if it is still there, is hidden. */
  predicate HidesLast(windows: map<int, Info>, workspace: int, focus: Option<int>) {
    focus.Some? && focus.value in windows && windows[focus.value].workspace == workspace
    && !windows[focus.value].decoration
  }

  function LastHidden(windows: map<int, Info>, workspace: int, focus: Option<int>): map<int, Info> {
    if HidesLast(windows, workspace, focus) then windows[focus.value := Hide(windows[focus.value])] else windows
  }

  lemma FirstShownAt(d: Desk, workspace: int, w: int)
    requires w in d.windows
    ensures var first := FirstShown(d, workspace);
            && w in first && Root(first, w) == Root(d.windows, w)
            && first[w] == if d.focus.None? && workspace in d.remembered && d.remembered[workspace] == w
                              && d.windows[w].workspace == workspace
                           then Show(d.windows[w]) else d.windows[w]
  {
  }

  predicate InTreeOf(windows: map<int, Info>, take: Option<int>, w: int)
    requires w in windows
  {
    take.Some? && take.value in windows && Root(windows, w) == Root(windows, take.value)
  }

  lemma MovedAt(d: Desk, workspace: int, take: Option<int>, moved: map<int, Info>, w: int)
    requires w in d.windows && moved == TreeMoved(FirstShown(d, workspace), take, d.active, workspace)
    ensures w in moved
    ensures moved[w] == MovedInfo(FirstShown(d, workspace)[w], InTreeOf(d.windows, take, w), d.active, workspace)
  {
    FirstShownAt(d, workspace, w);
    if take.Some? && take.value in d.windows {
      FirstShownAt(d, workspace, take.value);
    }
  }

  /** One window after all the steps but the last. */
  function Staged(d: Desk, workspace: int, take: Option<int>): map<int, Info> {
    HiddenBut(Shown(TreeMoved(FirstShown(d, workspace), take, d.active, workspace), workspace), d.active, d.focus)
  }

  lemma StagedAt(d: Desk, workspace: int, take: Option<int>, w: int)
    requires w in d.windows
    ensures w in Staged(d, workspace, take)
    ensures Staged(d, workspace, take)[w] ==
            HiddenInfo(ShownInfo(MovedInfo(FirstShown(d, workspace)[w], InTreeOf(d.windows, take, w), d.active, workspace),
                                 workspace),
                       d.active, d.focus == Some(w))
  {
    MovedAt(d, workspace, take, TreeMoved(FirstShown(d, workspace), take, d.active, workspace), w);
  }

  lemma SwitchInStepsAt(d: Desk, workspace: int, take: Option<int>, w: int)
    requires workspace != d.active && RemembersOwn(d) && w in d.windows
    ensures var last := LastHidden(Staged(d, workspace, take), d.active, d.focus);
            w in last && last[w] == SwitchedInfo(d, workspace, take, w)
  {
    StagedAt(d, workspace, take, w);
    FirstShownAt(d, workspace, w);
    OneWindowInSteps(d.windows[w], d.active, workspace, InTreeOf(d.windows, take, w),
                     d.focus.None? && workspace in d.remembered && d.remembered[workspace] == w, d.focus == Some(w));
  }

  /** The steps of switch_workspace_to add up to SwitchedWindows. */
  lemma SwitchInSteps(d: Desk, workspace: int, take: Option<int>)
    requires workspace != d.active && RemembersOwn(d)
    ensures LastHidden(Staged(d, workspace, take), d.active, d.focus) == SwitchedWindows(d, workspace, take)
  {
    var last := LastHidden(Staged(d, workspace, take), d.active, d.focus);
    forall w | w in d.windows
      ensures w in last && last[w] == SwitchedInfo(d, workspace, take, w)
    {
      SwitchInStepsAt(d, workspace, take, w);
    }
  }

  /** The focused window is hidden last exactly when it is left behind. */
  lemma LastIsLeftBehind(d: Desk, workspace: int, take: Option<int>)
    requires workspace != d.active
    ensures LeavesFocusBehind(d, take) <==> HidesLast(Staged(d, workspace, take), d.active, d.focus)
  {
    if d.focus.Some? && d.focus.value in d.windows {
      StagedAt(d, workspace, take, d.focus.value);
      FirstShownAt(d, workspace, d.focus.value);
    }
  }

  // ----- every run

  /** The client opens, closes or changes a window; the user switches workspace, with or without
      the active window; focus moves within the active workspace. */
  datatype Event =
    | Open(w: int, parent: Option<int>, state: WindowState, decoration: bool)
    | Close(w: int)
    | Request(w: int, state: WindowState)
    | Switch(workspace: int, takeFocused: bool, newFocus: Option<int>)
    | Focus(newFocus: Option<int>)

  /** advise_new_window with the workspaces it is added to: a child joins its parent's, hidden if
      that is not the active one; a top-level window joins the active one. */
  function OpenedInfo(d: Desk, e: Event): Info
    requires e.Open? && (e.parent.Some? ==> e.parent.value in d.windows)
  {
    if e.parent.None? then Info(e.state, false, e.state, d.active, [], e.decoration)
    else
      var p := d.windows[e.parent.value];
      var i := Info(e.state, false, e.state, p.workspace, p.ancestors + [e.parent.value], e.decoration);
      if p.workspace == d.active then i else Hide(i)
  }

  /** What is left of a window's ancestors when one of them is closed: those below it. */
  function Below(ancestors: seq<int>, w: int): seq<int> {
    if w !in ancestors then ancestors
    else if ancestors[0] == w then ancestors[1..]
    else Below(ancestors[1..], w)
  }

  /** The children of a closed window have no parent any more (src/miral/basic_window_manager.cpp:318-319),
      so each is the root of what was its part of the tree. */
  function Closed(windows: map<int, Info>, w: int): map<int, Info> {
    map v | v in windows && v != w :: windows[v].(ancestors := Below(windows[v].ancestors, w))
  }

  function Take(d: Desk, e: Event): Option<int>
    requires e.Switch?
  {
    if e.takeFocused then d.focus else None
  }

  predicate FocusFits(d: Desk, focus: Option<int>) {
    focus.Some? ==> focus.value in d.windows && d.windows[focus.value].workspace == d.active
  }

  predicate CanHappen(d: Desk, e: Event) {
    match e
    case Open(w, parent, _, _) =>
      && w !in d.windows && (forall s :: s in d.remembered ==> d.remembered[s] != w)
      && (parent.Some? ==> parent.value in d.windows)
    case Close(w) => w in d.windows
    case Request(w, _) => w in d.windows
    case Switch(ws, _, newFocus) => FocusFits(Switched(d, ws, Take(d, e)), newFocus)
    case Focus(newFocus) => FocusFits(d, newFocus)
  }

  function Happen(d: Desk, e: Event): Desk
    requires CanHappen(d, e)
  {
    match e
    case Open(w, parent, _, _) => d.(windows := d.windows[w := OpenedInfo(d, e)])
    case Close(w) => d.(windows := Closed(d.windows, w), focus := if d.focus == Some(w) then None else d.focus)
    case Request(w, state) => d.(windows := d.windows[w := Requested(d.windows[w], state)])
    case Switch(ws, _, newFocus) => Switched(d, ws, Take(d, e)).(focus := newFocus)
    case Focus(newFocus) => d.(focus := newFocus)
  }

  /** Every window but a decoration is marked hidden exactly when its workspace is not active, and
      shows the state its client asked for exactly when it is not. */
  predicate VisibleIffActive(d: Desk) {
    forall w :: w in d.windows && !d.windows[w].decoration ==>
      && (d.windows[w].inHiddenWorkspace <==> d.windows[w].workspace != d.active)
      && d.windows[w].state == if d.windows[w].inHiddenWorkspace then Hidden else Logical(d.windows[w])
  }

  /** Each window's ancestors are open windows with the ancestors above them, in its workspace. */
  predicate Forest(windows: map<int, Info>) {
    forall v, k :: v in windows && 0 <= k < |windows[v].ancestors| ==> AncestorFits(windows, v, k)
  }

  predicate AncestorFits(windows: map<int, Info>, v: int, k: nat)
    requires v in windows && k < |windows[v].ancestors|
  {
    var p := windows[v].ancestors[k];
    && p in windows && windows[p].ancestors == windows[v].ancestors[..k]
    && windows[p].workspace == windows[v].workspace
  }

  ghost predicate DeskInv(d: Desk) {
    VisibleIffActive(d) && Forest(d.windows) && FocusFits(d, d.focus) && RemembersOwn(d)
  }

  /** A tree is in one workspace. */
  lemma TreesTogether(windows: map<int, Info>, v: int, w: int)
    requires Forest(windows) && v in windows && w in windows && Root(windows, v) == Root(windows, w)
    ensures windows[v].workspace == windows[w].workspace
  {
    if windows[v].ancestors != [] {
      assert AncestorFits(windows, v, 0);
    }
    if windows[w].ancestors != [] {
      assert AncestorFits(windows, w, 0);
    }
  }

  /** Windows and their ancestors have one root. */
  lemma AncestorsShareRoot(windows: map<int, Info>, v: int, k: nat)
    requires v in windows && k < |windows[v].ancestors| && AncestorFits(windows, v, k)
    ensures Root(windows, windows[v].ancestors[k]) == Root(windows, v)
  {
  }

  lemma SwitchKeepsAncestor(d: Desk, workspace: int, take: Option<int>, v: int, k: nat)
    requires v in d.windows && k < |d.windows[v].ancestors| && AncestorFits(d.windows, v, k)
    ensures AncestorFits(SwitchedWindows(d, workspace, take), v, k)
  {
    AncestorsShareRoot(d.windows, v, k);
    var p := d.windows[v].ancestors[k];
    assert Taken(d, take, v) <==> Taken(d, take, p);
    assert SwitchedInfo(d, workspace, take, p).workspace == SwitchedInfo(d, workspace, take, v).workspace;
  }

  lemma SwitchKeepsForest(d: Desk, workspace: int, take: Option<int>)
    requires Forest(d.windows)
    ensures Forest(Switched(d, workspace, take).windows)
  {
    if workspace != d.active {
      var windows := SwitchedWindows(d, workspace, take);
      forall v, k | v in windows && 0 <= k < |windows[v].ancestors|
        ensures AncestorFits(windows, v, k)
      {
        SwitchKeepsAncestor(d, workspace, take, v, k);
      }
    }
  }

  lemma OpenKeepsForest(d: Desk, e: Event)
    requires Forest(d.windows) && e.Open? && CanHappen(d, e)
    ensures Forest(Happen(d, e).windows)
  {
    var windows := Happen(d, e).windows;
    forall v, k | v in windows && 0 <= k < |windows[v].ancestors|
      ensures AncestorFits(windows, v, k)
    {
      if v != e.w {
        assert AncestorFits(d.windows, v, k);
      } else if k < |d.windows[e.parent.value].ancestors| {
        assert AncestorFits(d.windows, e.parent.value, k);
      }
    }
  }

  /** Where the first of several ancestors is closed. */
  lemma {:induction false} BelowIs(ancestors: seq<int>, w: int, j: nat)
    requires j < |ancestors| && ancestors[j] == w && forall i :: 0 <= i < j ==> ancestors[i] != w
    ensures Below(ancestors, w) == ancestors[j + 1..]
    decreases j
  {
    if j > 0 {
      BelowIs(ancestors[1..], w, j - 1);
    }
  }

  /** No window is above itself, so in a line of ancestors each stands once. */
  lemma AncestorsDiffer(windows: map<int, Info>, v: int)
    requires Forest(windows) && v in windows
    ensures forall i, j :: 0 <= i < j < |windows[v].ancestors| ==> windows[v].ancestors[i] != windows[v].ancestors[j]
  {
    forall i, j | 0 <= i < j < |windows[v].ancestors|
      ensures windows[v].ancestors[i] != windows[v].ancestors[j]
    {
      assert AncestorFits(windows, v, i) && AncestorFits(windows, v, j);
    }
  }

  lemma CloseKeepsAncestor(windows: map<int, Info>, w: int, v: int, k: nat)
    requires Forest(windows) && v in windows && v != w && k < |Below(windows[v].ancestors, w)|
    ensures AncestorFits(Closed(windows, w), v, k)
  {
    var line := windows[v].ancestors;
    AncestorsDiffer(windows, v);
    if w in line {
      var j :| 0 <= j < |line| && line[j] == w;
      BelowIs(line, w, j);
      assert AncestorFits(windows, v, j + 1 + k);
      assert line[..j + 1 + k][j] == w;
      BelowIs(line[..j + 1 + k], w, j);
    } else {
      assert AncestorFits(windows, v, k);
      assert w !in line[..k];
    }
  }

  lemma CloseKeepsForest(windows: map<int, Info>, w: int)
    requires Forest(windows)
    ensures Forest(Closed(windows, w))
  {
    var windows' := Closed(windows, w);
    forall v, k | v in windows' && 0 <= k < |windows'[v].ancestors|
      ensures AncestorFits(windows', v, k)
    {
      CloseKeepsAncestor(windows, w, v, k);
    }
  }

  /** When a window closes, its child on the way down to another becomes that one's root; windows not
      below it keep theirs. */
  lemma CloseSplitsTree(windows: map<int, Info>, w: int, v: int, j: nat)
    requires Forest(windows) && v in windows && v != w
    requires j < |windows[v].ancestors| ==> windows[v].ancestors[j] == w
    requires j >= |windows[v].ancestors| ==> w !in windows[v].ancestors
    ensures var line := windows[v].ancestors + [v];
            Root(Closed(windows, w), v) == if j < |windows[v].ancestors| then line[j + 1] else Root(windows, v)
  {
    AncestorsDiffer(windows, v);
    if j < |windows[v].ancestors| {
      BelowIs(windows[v].ancestors, w, j);
    }
  }

  lemma EventKeepsForest(d: Desk, e: Event)
    requires Forest(d.windows) && CanHappen(d, e)
    ensures Forest(Happen(d, e).windows)
  {
    match e
    case Switch(workspace, _, _) => SwitchKeepsForest(d, workspace, Take(d, e));
    case Open(_, _, _, _) => OpenKeepsForest(d, e);
    case Close(w) => CloseKeepsForest(d.windows, w);
    case Request(w, _) =>
      forall v, k | v in d.windows && 0 <= k < |d.windows[v].ancestors|
        ensures AncestorFits(Happen(d, e).windows, v, k)
      {
        assert AncestorFits(d.windows, v, k);
      }
    case Focus(_) =>
  }

  lemma EventKeepsDesk(d: Desk, e: Event)
    requires DeskInv(d) && CanHappen(d, e)
    ensures DeskInv(Happen(d, e))
  {
    EventKeepsForest(d, e);
  }

  /** A window opens in the state its client asked for; a child in its parent's tree and workspace,
      directly below it, any other as a root in the active workspace; and nothing else changes. */
  lemma OpenPutsWindow(d: Desk, e: Event)
    requires Forest(d.windows) && e.Open? && CanHappen(d, e)
    ensures var d' := Happen(d, e);
            && e.w in d'.windows
            && Logical(d'.windows[e.w]) == e.state && d'.windows[e.w].decoration == e.decoration
            && (e.parent.None? ==> d'.windows[e.w].workspace == d.active && Root(d'.windows, e.w) == e.w)
            && (e.parent.Some? ==>
                  && d'.windows[e.w].workspace == d.windows[e.parent.value].workspace
                  && IsParent(d'.windows, e.parent.value, e.w)
                  && Root(d'.windows, e.w) == Root(d.windows, e.parent.value))
            && (d'.windows[e.w].inHiddenWorkspace <==> d'.windows[e.w].workspace != d.active)
            && d'.windows - {e.w} == d.windows && d' == d.(windows := d'.windows)
  {
    assert e.w !in d.windows;
  }

  predicate IsParent(windows: map<int, Info>, parent: int, w: int) {
    && w in windows && windows[w].ancestors != []
    && windows[w].ancestors[|windows[w].ancestors| - 1] == parent
  }

  /** What the other events leave alone. */
  lemma EventFrame(d: Desk, e: Event, v: int)
    requires CanHappen(d, e) && v in d.windows
    ensures var d' := Happen(d, e);
            && (e.Close? ==>
                  && d'.windows.Keys == d.windows.Keys - {e.w}
                  && (v != e.w ==> d'.windows[v] == d.windows[v].(ancestors := d'.windows[v].ancestors))
                  && d'.focus == (if d.focus == Some(e.w) then None else d.focus)
                  && d'.active == d.active && d'.remembered == d.remembered)
            && (e.Request? ==>
                  && d' == d.(windows := d'.windows) && d'.windows.Keys == d.windows.Keys
                  && (v != e.w ==> d'.windows[v] == d.windows[v])
                  && d'.windows[v].inHiddenWorkspace == d.windows[v].inHiddenWorkspace
                  && (d.windows[v].inHiddenWorkspace ==> d'.windows[v].state == d.windows[v].state)
                  && d'.windows[v].workspace == d.windows[v].workspace)
            && (e.Focus? ==> d' == d.(focus := e.newFocus))
            && (e.Switch? ==> d'.focus == e.newFocus && d'.windows.Keys == d.windows.Keys)
  {
  }

  // ----- families

  lemma {:induction false} BelowKeepsLast(line: seq<int>, w: int)
    requires line != [] && line[|line| - 1] != w
    ensures Below(line, w) != [] && Below(line, w)[|Below(line, w)| - 1] == line[|line| - 1]
    decreases |line|
  {
    if w in line && line[0] != w {
      BelowKeepsLast(line[1..], w);
    }
  }

  lemma EventKeepsParent(d: Desk, e: Event, parent: int, w: int)
    requires CanHappen(d, e) && IsParent(d.windows, parent, w) && e != Close(w) && e != Close(parent)
    ensures IsParent(Happen(d, e).windows, parent, w)
  {
    if e.Close? {
      BelowKeepsLast(d.windows[w].ancestors, e.w);
    }
  }

  lemma {:induction false} RunKeepsParent(d: Desk, run: seq<Event>, parent: int, w: int)
    requires LegalRun(d, run) && IsParent(d.windows, parent, w) && StaysOpen(run, w) && StaysOpen(run, parent)
    ensures IsParent(After(d, run).windows, parent, w)
    decreases |run|
  {
    if run != [] {
      assert run[0] != Close(w) && run[0] != Close(parent);
      EventKeepsParent(d, run[0], parent, w);
      RunKeepsParent(Happen(d, run[0]), run[1..], parent, w);
    }
  }

  /** As long as neither is closed, a window opened under another is in its tree and workspace, after
      every run; so a switch that takes the parent takes the child, and shows it. */
  lemma ChildrenFollow(d: Desk, opening: Event, run: seq<Event>, e: Event)
    requires DeskInv(d) && opening.Open? && opening.parent.Some? && CanHappen(d, opening)
    requires LegalRun(Happen(d, opening), run) && StaysOpen(run, opening.w) && StaysOpen(run, opening.parent.value)
    requires e.Switch? && CanHappen(After(Happen(d, opening), run), e)
    ensures var d1 := After(Happen(d, opening), run);
            var w, parent := opening.w, opening.parent.value;
            && w in d1.windows && parent in d1.windows && Root(d1.windows, w) == Root(d1.windows, parent)
            && var d2 := Happen(d1, e);
               && d2.windows[w].workspace == d2.windows[parent].workspace
               && (e.workspace != d1.active && e.takeFocused && d1.focus == Some(parent) ==>
                     d2.windows[w].workspace == e.workspace && !d2.windows[w].inHiddenWorkspace)
  {
    var d1 := After(Happen(d, opening), run);
    var w, parent := opening.w, opening.parent.value;
    OpenPutsWindow(d, opening);
    EventKeepsDesk(d, opening);
    RunKeepsParent(Happen(d, opening), run, parent, w);
    OnlyActiveWorkspaceIsVisible(Happen(d, opening), run);
    var k := |d1.windows[w].ancestors| - 1;
    assert AncestorFits(d1.windows, w, k);
    AncestorsShareRoot(d1.windows, w, k);
    EventKeepsForest(d1, e);
    EventKeepsParent(d1, e, parent, w);
    assert AncestorFits(Happen(d1, e).windows, w, |Happen(d1, e).windows[w].ancestors| - 1);
  }

  /** Switching moves exactly the tree of the focused window, and only if it is taken along, and shows
      it; other decorations are left alone; a focused window left behind is remembered for its
      workspace. */
  lemma SwitchMovesOnlyTheTakenTree(d: Desk, e: Event, w: int)
    requires DeskInv(d) && e.Switch? && CanHappen(d, e) && w in d.windows && e.workspace != d.active
    ensures var d' := Happen(d, e);
            var goes := e.takeFocused && d.focus.Some? && Root(d.windows, w) == Root(d.windows, d.focus.value);
            && d'.active == e.workspace && d'.windows.Keys == d.windows.Keys
            && d'.windows[w].workspace == (if goes then e.workspace else d.windows[w].workspace)
            && d'.windows[w].ancestors == d.windows[w].ancestors
            && (goes ==> !d'.windows[w].inHiddenWorkspace)
            && (!goes && d.windows[w].decoration ==> d'.windows[w] == d.windows[w])
            && d'.remembered == if !e.takeFocused && d.focus.Some? && !d.windows[d.focus.value].decoration
                                then d.remembered[d.active := d.focus.value] else d.remembered
  {
    if d.focus.Some? && Root(d.windows, w) == Root(d.windows, d.focus.value) {
      TreesTogether(d.windows, w, d.focus.value);
    }
  }

  ghost predicate LegalRun(d: Desk, run: seq<Event>)
    decreases |run|
  {
    run == [] || (CanHappen(d, run[0]) && LegalRun(Happen(d, run[0]), run[1..]))
  }

  ghost function After(d: Desk, run: seq<Event>): Desk
    requires LegalRun(d, run)
    decreases |run|
  {
    if run == [] then d else After(Happen(d, run[0]), run[1..])
  }

  /** In every state of every run, exactly the active workspace is visible. */
  lemma {:induction false} OnlyActiveWorkspaceIsVisible(d: Desk, run: seq<Event>)
    requires DeskInv(d) && LegalRun(d, run)
    ensures DeskInv(After(d, run))
    decreases |run|
  {
    if run != [] {
      EventKeepsDesk(d, run[0]);
      OnlyActiveWorkspaceIsVisible(Happen(d, run[0]), run[1..]);
    }
  }

  /** Requests by its client, in a run, to put this window in a state; None if there were none. */
  ghost function LastRequest(run: seq<Event>, w: int): Option<WindowState>
    decreases |run|
  {
    if run == [] then None
    else
      var later := LastRequest(run[1..], w);
      if later.Some? then later
      else if run[0].Request? && run[0].w == w then Some(run[0].state)
      else None
  }

  ghost predicate StaysOpen(run: seq<Event>, w: int) {
    forall i :: 0 <= i < |run| ==> run[i] != Close(w)
  }

  lemma EventKeepsLogical(d: Desk, e: Event, w: int)
    requires CanHappen(d, e) && w in d.windows && e != Close(w)
    ensures w in Happen(d, e).windows
    ensures Logical(Happen(d, e).windows[w])
            == if e.Request? && e.w == w then e.state else Logical(d.windows[w])
    ensures Happen(d, e).windows[w].decoration == d.windows[w].decoration
  {
  }

  /** Over every run, a window's logical state is what its client last asked for: switching away,
      back, and with other windows never changes it. */
  lemma {:induction false} LogicalStateFollowsClient(d: Desk, run: seq<Event>, w: int)
    requires LegalRun(d, run) && w in d.windows && StaysOpen(run, w)
    ensures var d' := After(d, run);
            && w in d'.windows && d'.windows[w].decoration == d.windows[w].decoration
            && Logical(d'.windows[w]) ==
               (if LastRequest(run, w).Some? then LastRequest(run, w).value else Logical(d.windows[w]))
    decreases |run|
  {
    if run != [] {
      assert run[0] != Close(w);
      EventKeepsLogical(d, run[0], w);
      LogicalStateFollowsClient(Happen(d, run[0]), run[1..], w);
    }
  }

  /** So whenever a window's workspace is the active one, after any run, it shows the state its
      client last asked for, or the one it had. */
  lemma ComingBackRestores(d: Desk, run: seq<Event>, w: int)
    requires DeskInv(d) && LegalRun(d, run) && StaysOpen(run, w)
    requires w in d.windows && !d.windows[w].decoration && d.windows[w].workspace == d.active
    requires w in After(d, run).windows && After(d, run).windows[w].workspace == After(d, run).active
    ensures After(d, run).windows[w].state ==
            if LastRequest(run, w).Some? then LastRequest(run, w).value else d.windows[w].state
  {
    OnlyActiveWorkspaceIsVisible(d, run);
    LogicalStateFollowsClient(d, run, w);
  }
}
