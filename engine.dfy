/**
 * `GameEngine` of blocks_game/engine.py: eight containers on screen, the
 * random deal of `_color_init`, hit-testing of a click (`find`), the
 * two-click move protocol (`handle`) and the board's total entropy.
 */
module Engine {
  import opened Wrappers
  import opened Colors
  import opened Slots
  import opened Containers
  import opened Board

  /** The engine's protocol state: waiting for a source, or holding one. */
  datatype State = IDLE | SELECTED

  /** Left edges of the containers: two rows of the same four columns. */
  const COLUMNS: seq<int> := [120, 290, 460, 630] + [120, 290, 460, 630]

  /** Top edges of the containers: the first four high, the last four low. */
  const ROWS: seq<int> := [50, 50, 50, 50] + [350, 350, 350, 350]

  /** Screen position of container `k`. */
  function Position(k: nat): (int, int)
    requires k < NUM_CONTAINERS
  {
    (COLUMNS[k], ROWS[k])
  }

  /** No two containers' rectangles overlap, so a click hits at most one of them. */
  lemma OneHit(click: (int, int), a: nat, b: nat)
    requires a < NUM_CONTAINERS && b < NUM_CONTAINERS
    requires Covers(Position(a), click) && Covers(Position(b), click)
    ensures a == b
  {
    assert COLUMNS == [120, 290, 460, 630, 120, 290, 460, 630];
    assert ROWS == [50, 50, 50, 50, 350, 350, 350, 350];
  }

  /** The arrays are pairwise different objects. */
  predicate Distinct(lists: seq<array<Color>>) {
    forall a, b :: 0 <= a < b < |lists| ==> lists[a] != lists[b]
  }

  /** Every array has four slots. */
  predicate Sized(lists: seq<array<Color>>) {
    forall k :: 0 <= k < |lists| ==> lists[k].Length == CAPACITY
  }

  /** The current contents of the arrays, as values. */
  function Cells(lists: seq<array<Color>>): (r: seq<seq<Color>>)
    reads lists
    ensures |r| == |lists|
    ensures forall k :: 0 <= k < |lists| ==> r[k] == lists[k][..]
  {
    seq(|lists|, k requires 0 <= k < |lists| reads lists => lists[k][..])
  }

  class GameEngine {
    /** The eight containers; the list itself is never replaced. */
    const containers: seq<Container>
    /** Index of the container chosen as the source of the next move. */
    var selected: Option<nat>
    var state: State

    /** The containers' slot arrays, in order. */
    function Lists(): (r: seq<array<Color>>)
      ensures |r| == |containers|
      ensures forall k :: 0 <= k < |containers| ==> r[k] == containers[k].blocks
    {
      seq(|containers|, k requires 0 <= k < |containers| => containers[k].blocks)
    }

    /** The board: every container's slots, in order. */
    function Layout(): seq<seq<Color>>
      reads Lists()
    {
      Cells(Lists())
    }

    /**
     * The fixed part of the engine: eight containers at their screen
     * positions, with pairwise different four-slot lists.
     */
    ghost predicate Shape() {
      && |containers| == NUM_CONTAINERS
      && Distinct(Lists()) && Sized(Lists())
      && (forall k :: 0 <= k < NUM_CONTAINERS ==> containers[k].position == Position(k))
    }

    /**
     * The selection protocol: SELECTED exactly when a container is selected,
     * and then only that container shows the highlight.
     */
    ghost predicate Protocol()
      reads this, containers
      requires Shape()
    {
      && (state == SELECTED <==> selected.Some?)
      && (selected.Some? ==> selected.value < NUM_CONTAINERS)
      && (forall k :: 0 <= k < NUM_CONTAINERS ==> (containers[k].selected <==> selected == Some(k)))
    }

    /** The engine's invariant: its shape, its protocol, and the board invariant. */
    ghost predicate Valid()
      reads this, containers, Lists()
    {
      Shape() && Protocol() && BoardOk(Layout())
    }

    /** No container is hit by `click`. */
    predicate Missed(click: (int, int)) {
      forall k :: 0 <= k < |containers| ==> !containers[k].Clicked(click)
    }

    /** `_swap_colors`: exchanges the colours of the two cells `pick` names. */
    static method SwapColors(colors: seq<array<Color>>, pick: Pick)
      requires Distinct(colors) && Sized(colors) && PickIn(pick, |colors|)
      modifies colors[pick.colI], colors[pick.colJ]
      ensures Cells(colors) == Swap(old(Cells(colors)), pick)
    {
      var valI := colors[pick.colI][pick.rowI];
      var valJ := colors[pick.colJ][pick.rowJ];
      colors[pick.colJ][pick.rowJ] := valI;
      colors[pick.colI][pick.rowI] := valJ;
    }

    /**
     * `_color_init`: six full lists, one per colour, shuffled by the swaps
     * `picks` (the random draws), then two empty lists.
     */
    static method ColorInit(picks: seq<Pick>) returns (colors: seq<array<Color>>)
      requires PicksIn(picks, NUM_COLORS)
      ensures Distinct(colors) && Sized(colors)
      ensures forall k :: 0 <= k < |colors| ==> fresh(colors[k])
      ensures Cells(colors) == Deal(picks)
    {
      colors := SortedColors();
      Shuffle(colors, picks);
      var empty1 := NewList(NULL);
      var empty2 := NewList(NULL);
      DealSplit(picks, Cells(colors));
      CellsSnoc(colors, empty1);
      colors := colors + [empty1];
      CellsSnoc(colors, empty2);
      colors := colors + [empty2];
    }

    /** The six full lists `_color_init` starts from, each a fresh array. */
    static method SortedColors() returns (colors: seq<array<Color>>)
      ensures Distinct(colors) && Sized(colors)
      ensures forall k :: 0 <= k < |colors| ==> fresh(colors[k])
      ensures Cells(colors) == SortedLists()
    {
      colors := [];
      for i := 1 to NUM_COLORS + 1
        invariant |colors| == i - 1
        invariant Distinct(colors) && Sized(colors)
        invariant forall k :: 0 <= k < |colors| ==> fresh(colors[k])
        invariant Cells(colors) == SortedLists()[..i - 1]
      {
        var list := NewList(GetColor(i));
        CellsSnoc(colors, list);
        SortedPrefix(i);
        colors := colors + [list];
      }
    }

    /** The swap loop of `_color_init`: one `_swap_colors` per pick, in order. */
    static method Shuffle(colors: seq<array<Color>>, picks: seq<Pick>)
      requires Distinct(colors) && Sized(colors) && PicksIn(picks, |colors|)
      modifies colors
      ensures Cells(colors) == ShuffleUpTo(old(Cells(colors)), picks, |picks|)
    {
      ghost var start := Cells(colors);
      for i := 0 to |picks|
        invariant Cells(colors) == ShuffleUpTo(start, picks, i)
      {
        SwapColors(colors, picks[i]);
      }
    }

    /** `[color] * 4`: a fresh list of four slots holding `color`. */
    static method NewList(color: Color) returns (list: array<Color>)
      ensures fresh(list) && list.Length == CAPACITY
      ensures list[..] == Repeat(color, CAPACITY)
    {
      list := new Color[CAPACITY](_ => color);
    }

    /** Appending a fresh array keeps the arrays distinct and adds its contents. */
    static lemma CellsSnoc(colors: seq<array<Color>>, list: array<Color>)
      requires Distinct(colors) && Sized(colors) && list.Length == CAPACITY && list !in colors
      ensures Distinct(colors + [list]) && Sized(colors + [list])
      ensures Cells(colors + [list]) == Cells(colors) + [list[..]]
    {
      assert forall k :: 0 <= k < |colors| ==> (colors + [list])[k] == colors[k];
    }

    /**
     * `__init__`: the containers take the lists of `_color_init` (run with
     * the `SHUFFLE_SWAPS` draws `picks`) in order, at the fixed positions;
     * nothing is selected.
     */
    constructor (picks: seq<Pick>)
      requires |picks| == SHUFFLE_SWAPS && PicksIn(picks, NUM_COLORS)
      ensures Valid()
      ensures state == IDLE && selected == None
      ensures Layout() == Deal(picks)
      ensures forall k :: 0 <= k < |containers| ==> fresh(containers[k]) && fresh(containers[k].blocks)
    {
      var colors := ColorInit(picks);
      var made: seq<Container> := [];
      for i := 0 to NUM_CONTAINERS
        invariant |made| == i
        invariant forall k :: 0 <= k < i ==> made[k].blocks == colors[k] && made[k].position == Position(k)
        invariant forall k :: 0 <= k < i ==> !made[k].selected
        invariant forall k :: 0 <= k < i ==> fresh(made[k])
        invariant Cells(colors) == Deal(picks)
      {
        var container := new Container(colors[i], Position(i));
        made := made + [container];
      }
      containers := made;
      selected := None;
      state := IDLE;
      new;
      assert Lists() == colors;
      assert Layout() == Deal(picks);
      DealBoardOk(picks);
    }

    /**
     * `find`: the first container the click hits, or `None` when it hits
     * none.
     */
    method Find(click: (int, int)) returns (hit: Option<nat>)
      ensures hit.Some? ==> hit.value < |containers| && containers[hit.value].Clicked(click)
      ensures hit.Some? ==> forall k :: 0 <= k < hit.value ==> !containers[k].Clicked(click)
      ensures hit.None? <==> Missed(click)
    {
      for index := 0 to |containers|
        invariant forall k :: 0 <= k < index ==> !containers[k].Clicked(click)
      {
        if containers[index].Clicked(click) {
          return Some(index);
        }
      }
      return None;
    }

    /**
     * `handle`: a click that misses every container clears the selection;
     * a hit while IDLE selects that container; a hit while SELECTED moves
     * from the selected container to the hit one (a refused move changes
     * nothing) and clears the selection. The result says whether a move
     * was attempted.
     */
    method Handle(click: (int, int)) returns (attempted: bool)
      requires Valid()
      modifies this, containers, Lists()
      ensures Valid()
      ensures Missed(click) ==> !attempted && state == IDLE && Layout() == old(Layout())
      ensures forall k :: 0 <= k < |containers| && containers[k].Clicked(click) ==>
        if old(state) == IDLE then
          !attempted && state == SELECTED && selected == Some(k) && Layout() == old(Layout())
        else
          attempted && state == IDLE && Layout() == Move(old(Layout()), old(selected).value, k)
    {
      var result := Find(click);
      if result == None {
        Deselect();
        return false;
      }
      var index := result.value;
      forall k | 0 <= k < |containers| && containers[k].Clicked(click) ensures k == index {
        OneHit(click, k, index);
      }
      if state == IDLE {
        Select(index);
        return false;
      }
      MoveSelectedTo(index);
      return true;
    }

    /**
     * Clearing the selection: the branch of `handle` for a click that hits no
     * container, and the last step of a move.
     */
    method Deselect()
      requires Valid()
      modifies this, containers
      ensures Valid() && state == IDLE && Layout() == old(Layout())
    {
      if selected != None {
        containers[selected.value].selected := false;
      }
      selected := None;
      state := IDLE;
      LayoutKept();
    }

    /** The branch of `handle` for a hit while IDLE: the hit container becomes the selection. */
    method Select(index: nat)
      requires Valid() && state == IDLE && index < NUM_CONTAINERS
      modifies this, containers
      ensures Valid() && state == SELECTED && selected == Some(index) && Layout() == old(Layout())
    {
      containers[index].selected := true;
      state := SELECTED;
      selected := Some(index);
      LayoutKept();
    }

    /**
     * The branch of `handle` for a hit while SELECTED: the hit container takes
     * the top run of the selected one (a refused move changes nothing), and
     * the selection is cleared.
     */
    method MoveSelectedTo(index: nat)
      requires Valid() && state == SELECTED && index < NUM_CONTAINERS
      modifies this, containers, Lists()
      ensures Valid() && state == IDLE
      ensures Layout() == Move(old(Layout()), old(selected).value, index)
    {
      var source := selected.value;
      var containerFrom := containers[source];
      ghost var before := Layout();
      var outcome := containers[index].TransferFrom(containerFrom);
      forall k | 0 <= k < NUM_CONTAINERS && k != source && k != index ensures Layout()[k] == before[k] {
        assert Lists()[k] != Lists()[source] && Lists()[k] != Lists()[index];
      }
      MovePointwise(before, Layout(), source, index);
      MoveKeepsBoard(before, source, index);
      Deselect();
    }

    /** Writing selection flags leaves every slot list, hence the layout, as it was. */
    twostate lemma LayoutKept()
      requires Shape()
      requires forall k :: 0 <= k < NUM_CONTAINERS ==> unchanged(containers[k].blocks)
      ensures Layout() == old(Layout())
    {
      forall k | 0 <= k < NUM_CONTAINERS ensures Layout()[k] == old(Layout())[k] {
        assert unchanged(containers[k].blocks);
      }
    }

    /** `entropy`: the sum of the containers' entropies. */
    method Entropy() returns (total: nat)
      requires Valid()
      ensures total == TotalEntropy(Layout())
      ensures total <= 3 * NUM_CONTAINERS
      ensures total == 0 <==> forall k :: 0 <= k < NUM_CONTAINERS ==> Uniform(Layout()[k])
    {
      total := 0;
      for i := 0 to |containers|
        invariant total == EntropyUpTo(Layout(), i)
      {
        var e := containers[i].Entropy();
        total := total + e;
      }
      TotalEntropyZero(Layout());
    }
  }
}
