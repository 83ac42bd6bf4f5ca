/** Dividing the screen among applications
    (examples/example-server-lib/tiling_window_manager.cpp:54-69, 467-516). */
module TilingLayout {
  import opened Arithmetic
  import opened Geometry

  // ----- the most-recently-used list

  function Remove(tiles: seq<int>, tile: int): (r: seq<int>)
    ensures forall x :: x in r <==> x in tiles && x != tile
  {
    if tiles == [] then []
    else (if tiles[0] == tile then [] else [tiles[0]]) + Remove(tiles[1..], tile)
  }

  ghost predicate Distinct(s: seq<int>) {
    forall i, j :: 0 <= i < j < |s| ==> s[i] != s[j]
  }

  lemma DistinctWithOneMore(s: seq<int>, x: int)
    requires Distinct(s) && x !in s
    ensures Distinct([x] + s) && Distinct(s + [x])
  {
    forall i, j | 0 <= i < j < |s| + 1
      ensures ([x] + s)[i] != ([x] + s)[j] && (s + [x])[i] != (s + [x])[j]
    {
      assert ([x] + s)[j] == s[j - 1] && (s + [x])[i] == s[i];
    }
  }

  lemma {:induction false} RemoveKeepsDistinct(tiles: seq<int>, tile: int)
    requires Distinct(tiles)
    ensures Distinct(Remove(tiles, tile))
    decreases |tiles|
  {
    if tiles != [] {
      RemoveKeepsDistinct(tiles[1..], tile);
      DistinctWithOneMore(Remove(tiles[1..], tile), tiles[0]);
    }
  }

  class MRUTileList {
    var tiles: seq<int>

    constructor ()
      ensures tiles == []
    {
      tiles := [];
    }

    method Push(tile: int)
      requires Distinct(tiles)
      modifies this
      ensures tiles == Remove(old(tiles), tile) + [tile] && Distinct(tiles)
    {
      RemoveKeepsDistinct(tiles, tile);
      DistinctWithOneMore(Remove(tiles, tile), tile);
      tiles := Remove(tiles, tile) + [tile];
    }

    method Erase(tile: int)
      requires Distinct(tiles)
      modifies this
      ensures tiles == Remove(old(tiles), tile) && Distinct(tiles)
    {
      RemoveKeepsDistinct(tiles, tile);
      tiles := Remove(tiles, tile);
    }
  }

  datatype Use = Pushed(tile: int) | Erased(tile: int)

  /** The list after a history of uses, the latest last. */
  ghost function ListAfter(uses: seq<Use>): seq<int>
    decreases |uses|
  {
    if uses == [] then []
    else
      var last := uses[|uses| - 1];
      var before := Remove(ListAfter(uses[..|uses| - 1]), last.tile);
      if last.Pushed? then before + [last.tile] else before
  }

  /** The position of the last use of a tile, counted from 1; 0 if there is none. */
  ghost function LastUse(uses: seq<Use>, tile: int): (n: nat)
    ensures n <= |uses| && (n > 0 ==> uses[n - 1].tile == tile)
    decreases |uses|
  {
    if uses == [] then 0
    else if uses[|uses| - 1].tile == tile then |uses|
    else LastUse(uses[..|uses| - 1], tile)
  }

  /** Ordered by last use. */
  ghost predicate ByLastUse(s: seq<int>, uses: seq<Use>) {
    forall i, j :: 0 <= i < j < |s| ==> LastUse(uses, s[i]) < LastUse(uses, s[j])
  }

  lemma {:induction false} RemoveKeepsOrder(s: seq<int>, tile: int, uses: seq<Use>)
    requires ByLastUse(s, uses)
    ensures ByLastUse(Remove(s, tile), uses)
    decreases |s|
  {
    if s != [] {
      RemoveKeepsOrder(s[1..], tile, uses);
      var rest := Remove(s[1..], tile);
      forall x | x in rest
        ensures LastUse(uses, s[0]) < LastUse(uses, x)
      {
        assert x in s[1..];
      }
    }
  }

  lemma OrderSurvivesUse(s: seq<int>, uses: seq<Use>)
    requires uses != [] && ByLastUse(s, uses[..|uses| - 1]) && uses[|uses| - 1].tile !in s
    ensures ByLastUse(s, uses) && ByLastUse(s + [uses[|uses| - 1].tile], uses)
  {
    var last := uses[|uses| - 1].tile;
    var t := s + [last];
    forall i, j | 0 <= i < j < |t|
      ensures LastUse(uses, t[i]) < LastUse(uses, t[j])
    {
      assert t[i] == s[i] && s[i] in s;
      if j < |s| {
        assert s[j] in s && t[j] == s[j];
      }
    }
    assert forall i, j :: 0 <= i < j < |s| ==> t[i] == s[i] && t[j] == s[j];
  }

  lemma {:induction false} ListHoldsPushed(uses: seq<Use>, t: int)
    ensures t in ListAfter(uses) <==> LastUse(uses, t) > 0 && uses[LastUse(uses, t) - 1].Pushed?
    decreases |uses|
  {
    if uses != [] {
      ListHoldsPushed(uses[..|uses| - 1], t);
    }
  }

  lemma {:induction false} ListIsOrdered(uses: seq<Use>)
    ensures ByLastUse(ListAfter(uses), uses)
    decreases |uses|
  {
    if uses != [] {
      var before, last := uses[..|uses| - 1], uses[|uses| - 1];
      ListIsOrdered(before);
      RemoveKeepsOrder(ListAfter(before), last.tile, before);
      OrderSurvivesUse(Remove(ListAfter(before), last.tile), uses);
    }
  }

  /** After any history, the list holds each tile whose last use was a push, ordered by that use:
      enumerating it backwards visits the most recently used first. */
  lemma ListIsByRecency(uses: seq<Use>)
    ensures ByLastUse(ListAfter(uses), uses)
    ensures forall t :: t in ListAfter(uses) <==> LastUse(uses, t) > 0 && uses[LastUse(uses, t) - 1].Pushed?
  {
    ListIsOrdered(uses);
    forall t
      ensures t in ListAfter(uses) <==> LastUse(uses, t) > 0 && uses[LastUse(uses, t) - 1].Pushed?
    {
      ListHoldsPushed(uses, t);
    }
  }

  // ----- the tiles

  /** Where update_tiles puts the tile at this index of the enumeration. */
  function Tile(index: nat, count: nat, width: nat, height: nat): Rectangle
    requires index < count
  {
    if count < 3 then
      var x := (width * index) / count;
      Rectangle(Point(x, 0), Size((width * (index + 1)) / count - x, height))
    else
      var dx := width / 2;
      if index == 0 then Rectangle(Point(0, 0), Size(dx, height))
      else Rectangle(Point(dx, StackTop(index - 1, count - 1, height)), Size(dx, height / (count - 1)))
  }

  /** The top of the k-th of m stacked tiles; the m-th top is the bottom of the screen. */
  function StackTop(k: nat, m: nat, height: nat): int
    requires m > 0
  {
    height * k / m
  }

  lemma DivideSum(a: nat, b: nat, m: nat)
    requires m > 0
    ensures a / m + b / m <= (a + b) / m <= a / m + b / m + 1
  {
    var r := a % m + b % m;
    if r < m {
      DivModUnique(a + b, m, a / m + b / m, r);
    } else {
      DivModUnique(a + b, m, a / m + b / m + 1, r - m);
    }
  }

  /** Each stacked tile ends at the next one's top or one pixel above it. */
  lemma StackGap(k: nat, m: nat, height: nat)
    requires m > 0
    ensures var gap := StackTop(k + 1, m, height) - (StackTop(k, m, height) + height / m);
            0 <= gap <= 1
    ensures StackTop(k, m, height) >= 0
  {
    assert height * (k + 1) == height * k + height;
    DivideSum(height * k, height, m);
  }

  lemma StackEnds(m: nat, height: nat)
    requires m > 0
    ensures StackTop(0, m, height) == 0 && StackTop(m, m, height) == height
  {
    DivModUnique(height * m, m, height, 0);
  }

  lemma {:induction false} StackIncreases(k: nat, l: nat, m: nat, height: nat)
    requires k < l && m > 0
    ensures StackTop(k, m, height) + height / m <= StackTop(l, m, height)
    decreases l - k
  {
    StackGap(k, m, height);
    if k + 1 < l {
      StackIncreases(k + 1, l, m, height);
    }
  }

  /** Every tile lies within the screen. */
  lemma TilesAreInside(index: nat, count: nat, width: nat, height: nat)
    requires index < count
    ensures Rectangle(Point(0, 0), Size(width, height)).Contains(Tile(index, count, width, height))
  {
    if count >= 3 && index > 0 {
      StackGap(index - 1, count - 1, height);
      StackIncreases(index - 1, count - 1, count - 1, height);
      StackEnds(count - 1, height);
    } else if count == 2 {
      assert width * 2 / 2 == width;
    }
  }

  /** No two tiles share a pixel. */
  lemma TilesAreDisjoint(i: nat, j: nat, count: nat, width: nat, height: nat, p: Point)
    requires i < j < count
    ensures !(Tile(i, count, width, height).ContainsPoint(p) && Tile(j, count, width, height).ContainsPoint(p))
  {
    if count >= 3 && i > 0 {
      StackIncreases(i - 1, j - 1, count - 1, height);
    }
  }

  /** The most recently used application has the left edge, over the whole height; of two, the other is
      right of it; of more, the others are stacked right of the middle, the more recently used
      higher, all of one size. */
  lemma TilesAreByRecency(i: nat, j: nat, count: nat, width: nat, height: nat)
    requires i < j < count
    ensures var s, t := Tile(i, count, width, height), Tile(j, count, width, height);
            && (i == 0 ==> s.Left() == 0 && s.Top() == 0 && s.size.height == height && s.size.width == width / 2
                           && t.Left() == width / 2)
            && (i > 0 ==> s.Bottom() <= t.Top() && s.Left() == t.Left() && s.size == t.size)
            && (count > 2 ==> t.size == Size(width / 2, height / (count - 1)))
            && (count == 2 ==> t.size == Size(width - width / 2, height))
  {
    if i > 0 {
      StackIncreases(i - 1, j - 1, count - 1, height);
    } else if count == 2 {
      assert width * 2 / 2 == width;
    }
  }

  /** With one or two tiles, every pixel of the screen is in a tile. */
  lemma FewTilesCover(count: nat, width: nat, height: nat, p: Point) returns (i: nat)
    requires 1 <= count <= 2 && Rectangle(Point(0, 0), Size(width, height)).ContainsPoint(p)
    ensures i < count && Tile(i, count, width, height).ContainsPoint(p)
  {
    if count == 1 {
      i := 0;
    } else {
      assert width * 2 / 2 == width;
      i := if p.x < width / 2 then 0 else 1;
    }
  }

  lemma {:induction false} StackBandOf(y: nat, m: nat, height: nat, k: nat) returns (b: nat)
    requires m > 0 && y < StackTop(k, m, height)
    ensures b < k && StackTop(b, m, height) <= y < StackTop(b + 1, m, height)
    decreases k
  {
    StackEnds(m, height);
    assert k > 0;
    if StackTop(k - 1, m, height) <= y {
      b := k - 1;
    } else {
      b := StackBandOf(y, m, height, k - 1);
    }
  }

  /** The single row that may follow a stacked tile, right of the middle. */
  predicate InGapBelow(i: nat, count: nat, width: nat, height: nat, p: Point)
    requires 1 <= i < count && count >= 3
  {
    var t := Tile(i, count, width, height);
    p.x >= width / 2 && p.y == t.Bottom()
  }

  /** With three tiles or more, a pixel of the screen is in a tile, or in the last column of an odd
      width, or in the one row that may follow a stacked tile. */
  lemma ManyTilesAlmostCover(count: nat, width: nat, height: nat, p: Point) returns (i: nat)
    requires count >= 3 && Rectangle(Point(0, 0), Size(width, height)).ContainsPoint(p)
    ensures i < count
    ensures || Tile(i, count, width, height).ContainsPoint(p)
            || (width % 2 == 1 && p.x == width - 1)
            || (i >= 1 && InGapBelow(i, count, width, height, p))
  {
    if p.x < width / 2 {
      i := 0;
    } else {
      StackEnds(count - 1, height);
      var band := StackBandOf(p.y, count - 1, height, count - 1);
      StackGap(band, count - 1, height);
      i := band + 1;
    }
  }

  // ----- assigning the tiles

  /** The places of so many tiles, the most recently used first. */
  function Layout(count: nat, width: nat, height: nat): (places: seq<Rectangle>)
    ensures |places| == count && forall i :: 0 <= i < count ==> places[i] == Tile(i, count, width, height)
  {
    seq(count, i requires 0 <= i < count => Tile(i, count, width, height))
  }

  datatype TileData = TileData(tile: Rectangle, oldTile: Rectangle)

  class Tiles {
    var mru: seq<int>                 // most recently used last
    var data: map<int, TileData>

    constructor (mru: seq<int>, data: map<int, TileData>)
      ensures this.mru == mru && this.data == data
    {
      this.mru, this.data := mru, data;
    }

    /** The part of update_tiles that lays out the tiles, enumerating the list backwards. */
    method UpdateTiles(width: nat, height: nat)
      requires Distinct(mru) && forall k :: 0 <= k < |mru| ==> mru[k] in data
      modifies this`data
      ensures data.Keys == old(data).Keys
      ensures forall k :: 0 <= k < |mru| ==>
                mru[k] in data && data[mru[k]] == TileData(Tile(|mru| - 1 - k, |mru|, width, height), old(data)[mru[k]].tile)
      ensures forall t :: t in data && t !in mru ==> data[t] == old(data)[t]
    {
      PlaceAll(Layout(|mru|, width, height));
    }

    /** Enumerating the list backwards: each tile gets the next place and remembers where it was. */
    method PlaceAll(places: seq<Rectangle>)
      requires |places| == |mru| && Distinct(mru) && forall k :: 0 <= k < |mru| ==> mru[k] in data
      modifies this`data
      ensures data.Keys == old(data).Keys
      ensures forall k :: 0 <= k < |mru| ==>
                mru[k] in data && data[mru[k]] == TileData(places[|mru| - 1 - k], old(data)[mru[k]].tile)
      ensures forall t :: t in data && t !in mru ==> data[t] == old(data)[t]
    {
      var index := 0;
      while index < |mru|
        invariant 0 <= index <= |mru| && data.Keys == old(data).Keys
        invariant forall k :: 0 <= k < |mru| ==> mru[k] in data && mru[k] in old(data)
        invariant forall k :: |mru| - index <= k < |mru| ==>
                    data[mru[k]] == TileData(places[|mru| - 1 - k], old(data)[mru[k]].tile)
        invariant forall k :: 0 <= k < |mru| - index ==> data[mru[k]] == old(data)[mru[k]]
        invariant forall t :: t in data && t !in mru ==> data[t] == old(data)[t]
      {
        var t := mru[|mru| - 1 - index];
        data := data[t := TileData(places[index], data[t].tile)];
        index := index + 1;
      }
    }
  }
}
