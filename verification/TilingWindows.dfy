/** Keeping windows in their application's tile
    (examples/example-server-lib/tiling_window_manager.cpp:179-243, 259-276, 528-563, 642-652). */
module TilingWindows {
  import opened Collections
  import opened WindowStates
  import opened Geometry

  datatype Window = Window(topLeft: Point, size: Size, state: WindowState) {
    function Rect(): Rectangle { Rectangle(topLeft, size) }
  }

  datatype WindowSpecification =
    WindowSpecification(state: Option<WindowState>, topLeft: Option<Point>, size: Option<Size>)

  function Or<T>(o: Option<T>, otherwise: T): T {
    if o.Some? then o.value else otherwise
  }

  // ----- constrain_size_and_place

  function ClipSize(size: Size, tile: Rectangle): Size {
    Size(Min(tile.size.width, size.width), Min(tile.size.height, size.height))
  }

  function ClipPoint(p: Point, tile: Rectangle): Point {
    Point(Max(tile.topLeft.x, p.x), Max(tile.topLeft.y, p.y))
  }

  /** Shifted left and up by what hangs over the right and bottom edges. */
  function PullBack(p: Point, size: Size, tile: Rectangle): Point {
    var dx := p.x + size.width - tile.Right();
    var dy := p.y + size.height - tile.Bottom();
    Point(if dx > 0 then p.x - dx else p.x, if dy > 0 then p.y - dy else p.y)
  }

  function Constrain(mods: WindowSpecification, window: Window, tile: Rectangle): WindowSpecification {
    if Or(mods.state, window.state) == Maximized then
      mods.(topLeft := Some(tile.topLeft), size := Some(tile.size))
    else
      var size := if mods.size.Some? then Some(ClipSize(mods.size.value, tile)) else None;
      var asked := if mods.topLeft.Some? then ClipPoint(mods.topLeft.value, tile) else window.topLeft;
      var place := PullBack(asked, Or(size, window.size), tile);
      mods.(size := size, topLeft := if place != window.topLeft then Some(place) else None)
  }

  /** The code, which updates the specification in place. */
  method ConstrainSizeAndPlace(mods: WindowSpecification, window: Window, tile: Rectangle)
    returns (mods': WindowSpecification)
    ensures mods' == Constrain(mods, window, tile)
  {
    mods' := mods;
    var state := if mods'.state.Some? then mods'.state.value else window.state;
    if state == Maximized {
      mods' := mods'.(topLeft := Some(tile.topLeft));
      mods' := mods'.(size := Some(tile.size));
      return;
    }
    if mods'.size.Some? {
      var width := Min(tile.size.width, mods'.size.value.width);
      var height := Min(tile.size.height, mods'.size.value.height);
      mods' := mods'.(size := Some(Size(width, height)));
    }
    if mods'.topLeft.Some? {
      var x := Max(tile.topLeft.x, mods'.topLeft.value.x);
      var y := Max(tile.topLeft.y, mods'.topLeft.value.y);
      mods' := mods'.(topLeft := Some(Point(x, y)));
    }
    var topLeft := if mods'.topLeft.Some? then mods'.topLeft.value else window.topLeft;
    var size := if mods'.size.Some? then mods'.size.value else window.size;
    var dx := topLeft.x + size.width - tile.Right();
    var dy := topLeft.y + size.height - tile.Bottom();
    if dx > 0 {
      topLeft := topLeft.(x := topLeft.x - dx);
    }
    if dy > 0 {
      topLeft := topLeft.(y := topLeft.y - dy);
    }
    mods' := mods'.(topLeft := if topLeft != window.topLeft then Some(topLeft) else None);
  }

  /** modify_window: what is set is applied. */
  function Apply(window: Window, mods: WindowSpecification): Window {
    Window(Or(mods.topLeft, window.topLeft), Or(mods.size, window.size), Or(mods.state, window.state))
  }

  /** A request lands inside the tile exactly when nothing it leaves unchanged sticks out: a size
      not asked for must fit, and a place not asked for must not be left of or above the tile. */
  lemma ConstrainedInsideIff(mods: WindowSpecification, window: Window, tile: Rectangle)
    requires Or(mods.state, window.state) != Maximized
    ensures tile.Contains(Apply(window, Constrain(mods, window, tile)).Rect()) <==>
            && (mods.size.None? ==> window.size.width <= tile.size.width && window.size.height <= tile.size.height)
            && (mods.topLeft.None? ==> tile.topLeft.x <= window.topLeft.x && tile.topLeft.y <= window.topLeft.y)
  {
  }

  /** Any request on a window inside its tile leaves it inside, filling the tile if maximized. */
  lemma ConstrainedStaysInside(mods: WindowSpecification, window: Window, tile: Rectangle)
    requires tile.Contains(window.Rect())
    ensures tile.Contains(Apply(window, Constrain(mods, window, tile)).Rect())
    ensures Or(mods.state, window.state) == Maximized ==> Apply(window, Constrain(mods, window, tile)).Rect() == tile
  {
    if Or(mods.state, window.state) != Maximized {
      ConstrainedInsideIff(mods, window, tile);
    }
  }

  /** A request that already fits is granted as asked. */
  lemma FittingRequestIsGranted(mods: WindowSpecification, window: Window, tile: Rectangle)
    requires Or(mods.state, window.state) != Maximized && tile.Contains(Apply(window, mods).Rect())
    requires mods.size.Some? ==> tile.size.width >= mods.size.value.width && tile.size.height >= mods.size.value.height
    ensures Apply(window, Constrain(mods, window, tile)) == Apply(window, mods)
  {
  }

  /** What a request gets, in each direction: as much of the size asked for as the tile has, from where
      it was asked for, but not left of or above the tile, and moved back by what hangs over. */
  lemma RequestIsClipped(mods: WindowSpecification, window: Window, tile: Rectangle)
    requires Or(mods.state, window.state) != Maximized
    ensures var w := Apply(window, Constrain(mods, window, tile));
            && w.state == Or(mods.state, window.state)
            && (mods.size.None? ==> w.size == window.size)
            && (mods.size.Some? ==>
                  && (mods.size.value.width >= tile.size.width ==> w.size.width == tile.size.width)
                  && (mods.size.value.width <= tile.size.width ==> w.size.width == mods.size.value.width)
                  && (mods.size.value.height >= tile.size.height ==> w.size.height == tile.size.height)
                  && (mods.size.value.height <= tile.size.height ==> w.size.height == mods.size.value.height))
            && (var x, y := if mods.topLeft.Some? then Max(tile.Left(), mods.topLeft.value.x) else window.topLeft.x,
                            if mods.topLeft.Some? then Max(tile.Top(), mods.topLeft.value.y) else window.topLeft.y;
                && w.topLeft.x == (if x + w.size.width <= tile.Right() then x else tile.Right() - w.size.width)
                && w.topLeft.y == (if y + w.size.height <= tile.Bottom() then y else tile.Bottom() - w.size.height))
            && (Constrain(mods, window, tile).topLeft.Some? <==> w.topLeft != window.topLeft)
  {
  }

  /** Constraining twice is constraining once. */
  lemma ConstrainIsIdempotent(mods: WindowSpecification, window: Window, tile: Rectangle)
    requires tile.Contains(window.Rect())
    ensures Constrain(Constrain(mods, window, tile), window, tile) == Constrain(mods, window, tile)
  {
  }

  // ----- the operations that use it

  /** handle_modify_window: a maximized top-level window stays maximized. */
  function ModifyRequest(window: Window, mods: WindowSpecification, topLevel: bool): WindowSpecification {
    if mods.state.Some? && window.state == Maximized && topLevel then mods.(state := Some(Maximized)) else mods
  }

  /** So whatever a client asks for, a maximized top-level window stays maximized and any other gets the
      state asked for. */
  lemma ModifyKeepsMaximized(window: Window, mods: WindowSpecification, topLevel: bool)
    ensures var asked := ModifyRequest(window, mods, topLevel);
            && asked.topLeft == mods.topLeft && asked.size == mods.size
            && Or(asked.state, window.state) ==
               if window.state == Maximized && topLevel then Maximized else Or(mods.state, window.state)
  {
  }

  function Moved(window: Window, dx: int, dy: int): WindowSpecification {
    WindowSpecification(None, Some(Point(window.topLeft.x + dx, window.topLeft.y + dy)), None)
  }

  /** confirm_inherited_move, and the move made by drag. */
  function MoveBy(window: Window, dx: int, dy: int, tile: Rectangle): Window {
    Apply(window, Constrain(Moved(window, dx, dy), window, tile))
  }

  /** A move never resizes, and goes as far as the tile allows in each direction. */
  lemma MoveIsClamped(window: Window, dx: int, dy: int, tile: Rectangle)
    requires tile.Contains(window.Rect()) && window.state != Maximized
    ensures var w := MoveBy(window, dx, dy, tile);
            && w.size == window.size && w.state == window.state
            && w.topLeft.x == Max(tile.Left(), Min(window.topLeft.x + dx, tile.Right() - window.size.width))
            && w.topLeft.y == Max(tile.Top(), Min(window.topLeft.y + dy, tile.Bottom() - window.size.height))
  {
  }

  // ----- update_surfaces

  /** Where a top-level window goes when its tile changes. */
  function Placement(window: Rectangle, oldTile: Rectangle, newTile: Rectangle): Rectangle {
    var dx := Min(window.topLeft.x - oldTile.topLeft.x, newTile.size.width);
    var dy := Min(window.topLeft.y - oldTile.topLeft.y, newTile.size.height);
    var size := Size(
      if window.size.width == oldTile.size.width then newTile.size.width else window.size.width,
      if window.size.height == oldTile.size.height then newTile.size.height else window.size.height);
    var placed := Rectangle(Point(newTile.topLeft.x + dx, newTile.topLeft.y + dy), size);
    if placed.Overlaps(newTile) then placed else placed.(topLeft := newTile.topLeft)
  }

  function Retile(window: Rectangle, oldTile: Rectangle, newTile: Rectangle): Rectangle {
    Placement(window, oldTile, newTile).IntersectionWith(newTile)
  }

  /** A non-empty window put in a non-empty tile is non-empty and inside it. */
  lemma RetiledStaysInside(window: Rectangle, oldTile: Rectangle, newTile: Rectangle)
    requires window.NonEmpty() && newTile.NonEmpty()
    ensures Retile(window, oldTile, newTile).NonEmpty()
    ensures newTile.Contains(Retile(window, oldTile, newTile))
  {
    var placed := Placement(window, oldTile, newTile);
    assert placed.NonEmpty();
    assert placed.Overlaps(newTile);
  }

  /** A window filling its tile fills the new one; in each dimension, a window as large as its
      tile becomes as large as the new one, up to where it starts. */
  lemma FullWindowStaysFull(tile: Rectangle, newTile: Rectangle)
    requires tile.NonEmpty() && newTile.NonEmpty()
    ensures Retile(tile, tile, newTile) == newTile
  {
  }

  /** Where a window goes, exactly, whatever the old tile.  In each dimension it keeps its offset, and
      its length or, if it had the whole length of the old tile, gets that of the new one; if that
      leaves nothing of it in the new tile, it starts at the corner; and it is cut at the edges. */
  lemma RetiledExactly(window: Rectangle, oldTile: Rectangle, newTile: Rectangle)
    requires window.NonEmpty() && newTile.NonEmpty()
    ensures var dx, dy := window.Left() - oldTile.Left(), window.Top() - oldTile.Top();
            var width := if window.size.width == oldTile.size.width then newTile.size.width else window.size.width;
            var height := if window.size.height == oldTile.size.height then newTile.size.height else window.size.height;
            var shows := -width < dx < newTile.size.width && -height < dy < newTile.size.height;
            var x, y := if shows then dx else 0, if shows then dy else 0;
            var r := Retile(window, oldTile, newTile);
            && r.Left() == newTile.Left() + Max(0, x) && r.Right() == Min(newTile.Right(), newTile.Left() + x + width)
            && r.Top() == newTile.Top() + Max(0, y) && r.Bottom() == Min(newTile.Bottom(), newTile.Top() + y + height)
  {
  }

  /** A window smaller than its tile that fits the new one at the same offset keeps its offset and
      size. */
  lemma FittingWindowKeepsOffset(window: Rectangle, oldTile: Rectangle, newTile: Rectangle)
    requires window.NonEmpty() && oldTile.Contains(window)
    requires window.size.width < oldTile.size.width && window.size.height < oldTile.size.height
    requires window.Right() - oldTile.Left() <= newTile.size.width && window.Bottom() - oldTile.Top() <= newTile.size.height
    ensures Retile(window, oldTile, newTile)
            == Rectangle(Point(newTile.Left() + (window.Left() - oldTile.Left()), newTile.Top() + (window.Top() - oldTile.Top())),
                         window.size)
  {
  }

  /** An empty window, which a client can ask for, can be put outside its tile: it lands on the
      origin of the screen unless its placement shows something. */
  lemma EmptyWindowEscapes()
    ensures var tile := Rectangle(Point(500, 0), Size(500, 400));
            var window := Rectangle(Point(600, 100), Size(0, 50));
            tile.Contains(window) && !tile.Contains(Retile(window, tile, tile))
  {
  }

  /** A window ends up inside a non-empty new tile exactly when, in each dimension, it is not empty
      or as large as its old tile was, or else the new tile reaches the origin. */
  lemma RetiledInsideIff(window: Rectangle, oldTile: Rectangle, newTile: Rectangle)
    requires newTile.NonEmpty()
    ensures newTile.Contains(Retile(window, oldTile, newTile)) <==>
            || (&& (window.size.width > 0 || window.size.width == oldTile.size.width)
                && (window.size.height > 0 || window.size.height == oldTile.size.height))
            || newTile.Contains(EMPTY_RECTANGLE)
  {
  }

  /** The corners of the two tiles are the same, or a whole tile apart in some direction. */
  predicate SameOrFarCorner(oldTile: Rectangle, tile: Rectangle) {
    var dx, dy := tile.Left() - oldTile.Left(), tile.Top() - oldTile.Top();
    (dx == 0 && dy == 0) || dx >= tile.size.width || dx <= -tile.size.width
    || dy >= tile.size.height || dy <= -tile.size.height
  }

  /** update_tiles calls update_surfaces for every application, also for one not in the list, whose
      tile has not changed and whose old tile is therefore stale.  A window filling its tile goes on
      filling it exactly when the stale corner is the tile's own or far off. */
  lemma StaleLayoutKeepsFullIff(tile: Rectangle, oldTile: Rectangle)
    requires tile.NonEmpty()
    ensures Retile(tile, oldTile, tile) == tile <==> SameOrFarCorner(oldTile, tile)
  {
  }

  /** An application gets its tile before it is in the list, and with it an empty old tile at the
      origin: with the displays right of the origin, a layout at that moment shrinks its window. */
  lemma StaleLayoutShrinksWindow()
    ensures var tile := Rectangle(Point(100, 0), Size(500, 400));
            tile.Contains(Retile(tile, EMPTY_RECTANGLE, tile)) && Retile(tile, EMPTY_RECTANGLE, tile).size == Size(400, 400)
  {
  }

  // ----- every run

  /** What happens to a top-level window once it has been placed. */
  datatype Event =
    | Modify(mods: WindowSpecification)
    | Move(dx: int, dy: int)
    | Toggle(state: WindowState)
    | NewTile(tile: Rectangle)    // a layout while the application is in the list
    | StaleLayout                 // a layout while it is not

  /** A top-level window with the tile, and the old tile, of its application. */
  datatype Placed = Placed(window: Window, tile: Rectangle, oldTile: Rectangle)

  /** transform_set_state */
  function TransformSetState(state: WindowState): WindowState {
    if state == Hidden || state == Minimized then Hidden else Restored
  }

  /** Toggling to hidden or minimized hides the window, or restores it if it is in that very state;
      toggling to anything else restores it. */
  lemma ToggleHidesOrRestores(p: Placed, state: WindowState)
    ensures Happen(p, Toggle(state)).window ==
            p.window.(state := if state in {Hidden, Minimized} && p.window.state != state then Hidden else Restored)
    ensures Happen(p, Toggle(state)).tile == p.tile
  {
  }

  /** Sizes asked for are positive, as the server checks before it passes a request on
      (src/miral/basic_window_manager.cpp:2248-2257), and tiles assigned are not empty. */
  predicate Sensible(e: Event) {
    && (e.Modify? && e.mods.size.Some? ==> e.mods.size.value.width > 0 && e.mods.size.value.height > 0)
    && (e.NewTile? ==> e.tile.NonEmpty())
  }

  function Happen(p: Placed, e: Event): Placed {
    match e
    case Modify(mods) =>
      p.(window := Apply(p.window, Constrain(ModifyRequest(p.window, mods, true), p.window, p.tile)))
    case Move(dx, dy) => p.(window := MoveBy(p.window, dx, dy, p.tile))
    case Toggle(state) =>
      p.(window := p.window.(state := TransformSetState(if p.window.state == state then Restored else state)))
    case NewTile(tile) =>
      var r := Retile(p.window.Rect(), p.tile, tile);
      Placed(p.window.(topLeft := r.topLeft, size := r.size), tile, p.tile)
    case StaleLayout =>
      var r := Retile(p.window.Rect(), p.oldTile, p.tile);
      p.(window := p.window.(topLeft := r.topLeft, size := r.size))
  }

  /** A layout moves the window by update_surfaces and remembers the tile before, a stale one leaves
      both tiles; no other event touches a tile, and no layout the state. */
  lemma EventsAndTiles(p: Placed, e: Event)
    ensures var p' := Happen(p, e);
            && p'.tile == (if e.NewTile? then e.tile else p.tile)
            && p'.oldTile == (if e.NewTile? then p.tile else p.oldTile)
            && (e.NewTile? || e.StaleLayout? ==>
                  p'.window.state == p.window.state && p'.window.Rect() == Retile(p.window.Rect(), p'.oldTile, p'.tile))
            && (e.Toggle? ==> p'.window.Rect() == p.window.Rect())
  {
  }

  ghost function HappenAll(p: Placed, events: seq<Event>): Placed
    decreases |events|
  {
    if events == [] then p else HappenAll(Happen(p, events[0]), events[1..])
  }

  /** The window is non-empty and inside its tile. */
  predicate InTile(p: Placed) {
    p.window.Rect().NonEmpty() && p.tile.Contains(p.window.Rect())
  }

  /** It fills its tile while it is maximized. */
  predicate FullIfMaximized(p: Placed) {
    p.window.state == Maximized ==> p.window.Rect() == p.tile
  }

  lemma EventKeepsInTile(p: Placed, e: Event)
    requires InTile(p) && Sensible(e)
    ensures InTile(Happen(p, e))
  {
    match e
    case Toggle(_) =>
    case Modify(mods) => ConstrainedStaysInside(ModifyRequest(p.window, mods, true), p.window, p.tile);
    case Move(dx, dy) => ConstrainedStaysInside(Moved(p.window, dx, dy), p.window, p.tile);
    case NewTile(tile) => RetiledStaysInside(p.window.Rect(), p.tile, tile);
    case StaleLayout => RetiledStaysInside(p.window.Rect(), p.oldTile, p.tile);
  }

  /** A stale layout is harmless when it keeps a full window full. */
  predicate Harmless(p: Placed, e: Event) {
    e.StaleLayout? ==> SameOrFarCorner(p.oldTile, p.tile)
  }

  lemma EventKeepsFull(p: Placed, e: Event)
    requires InTile(p) && FullIfMaximized(p) && Sensible(e)
    ensures Harmless(p, e) ==> FullIfMaximized(Happen(p, e))
    ensures p.window.state == Maximized && !Harmless(p, e) ==> !FullIfMaximized(Happen(p, e))
    ensures p.window.state == Maximized && !e.Toggle? ==> Happen(p, e).window.state == Maximized
  {
    if p.window.state == Maximized {
      match e
      case NewTile(tile) => FullWindowStaysFull(p.tile, tile);
      case StaleLayout => StaleLayoutKeepsFullIff(p.tile, p.oldTile);
      case Modify(mods) => ConstrainedStaysInside(ModifyRequest(p.window, mods, true), p.window, p.tile);
      case _ =>
    } else if e.Modify? {
      ConstrainedStaysInside(ModifyRequest(p.window, e.mods, true), p.window, p.tile);
    }
  }

  /** After any sequence of requests, drags, inherited moves, toggles and layouts, stale ones
      included, a top-level window is still in its tile. */
  lemma {:induction false} WindowsStayInTheirTile(p: Placed, events: seq<Event>)
    requires InTile(p) && forall i :: 0 <= i < |events| ==> Sensible(events[i])
    ensures InTile(HappenAll(p, events))
    decreases |events|
  {
    if events != [] {
      EventKeepsInTile(p, events[0]);
      WindowsStayInTheirTile(Happen(p, events[0]), events[1..]);
    }
  }

  ghost predicate AllHarmless(p: Placed, events: seq<Event>)
    decreases |events|
  {
    events == [] || (Harmless(p, events[0]) && AllHarmless(Happen(p, events[0]), events[1..]))
  }

  /** And if no stale layout does harm, it fills its tile whenever it is maximized; once maximized it
      stays so until toggled. */
  lemma {:induction false} MaximizedWindowsFill(p: Placed, events: seq<Event>)
    requires InTile(p) && FullIfMaximized(p)
    requires AllHarmless(p, events) && forall i :: 0 <= i < |events| ==> Sensible(events[i])
    ensures FullIfMaximized(HappenAll(p, events))
    ensures p.window.state == Maximized && (forall i :: 0 <= i < |events| ==> !events[i].Toggle?) ==>
              HappenAll(p, events).window.state == Maximized
    decreases |events|
  {
    if events != [] {
      EventKeepsInTile(p, events[0]);
      EventKeepsFull(p, events[0]);
      MaximizedWindowsFill(Happen(p, events[0]), events[1..]);
    }
  }
}
