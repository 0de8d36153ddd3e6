/**
 * The board of blocks_game/engine.py as a value: the eight slot lists of the
 * `GameEngine`, how `_color_init` deals them, what one move does to them,
 * and the sum that `GameEngine.entropy` reports.
 */
module Board {
  import opened Colors
  import opened Slots

  /** Number of containers on the board. */
  const NUM_CONTAINERS: nat := 8

  /** Number of swaps `_color_init` performs by default (`iter`). */
  const SHUFFLE_SWAPS: nat := 15

  /**
   * The four random draws of one `_swap_colors` call: the cell
   * (`colI`, `rowI`) and the cell (`colJ`, `rowJ`) exchange their colours.
   */
  datatype Pick = Pick(colI: nat, rowI: nat, colJ: nat, rowJ: nat)

  /** The draws stay in the ranges `randint` is given for `lists` lists of four. */
  predicate PickIn(p: Pick, lists: nat) {
    p.colI < lists && p.colJ < lists && p.rowI < CAPACITY && p.rowJ < CAPACITY
  }

  predicate PicksIn(picks: seq<Pick>, lists: nat) {
    forall i :: 0 <= i < |picks| ==> PickIn(picks[i], lists)
  }

  /** Every list has four slots. */
  predicate Shaped(lists: seq<seq<Color>>) {
    forall k :: 0 <= k < |lists| ==> |lists[k]| == CAPACITY
  }

  /** Every list has four slots and is packed (no NULL below a block). */
  predicate WellFormed(lists: seq<seq<Color>>) {
    forall k :: 0 <= k < |lists| ==> |lists[k]| == CAPACITY && Packed(lists[k])
  }

  /**
   * The board invariant of a game in progress: every list four long and
   * packed, and the board holding exactly the blocks of the deal.
   */
  predicate BoardOk(lists: seq<seq<Color>>) {
    WellFormed(lists) && multiset(Flatten(lists)) == Dealt()
  }

  /** No list holds a NULL slot. */
  predicate NoNull(lists: seq<seq<Color>>) {
    forall k :: 0 <= k < |lists| ==> NULL !in lists[k]
  }

  /** The first `n` lists, one after the other. */
  function FlattenUpTo(lists: seq<seq<Color>>, n: nat): seq<Color>
    requires n <= |lists|
  {
    if n == 0 then [] else FlattenUpTo(lists, n - 1) + lists[n - 1]
  }

  /** All slots of the board, list after list. */
  function Flatten(lists: seq<seq<Color>>): seq<Color> {
    FlattenUpTo(lists, |lists|)
  }

  // ---------------------------------------------------------------- dealing

  /**
   * `_swap_colors`: the colour of cell I is written into cell J and then the
   * old colour of cell J into cell I.
   */
  function Swap(lists: seq<seq<Color>>, p: Pick): (r: seq<seq<Color>>)
    requires Shaped(lists) && PickIn(p, |lists|)
    ensures |r| == |lists| && Shaped(r)
    ensures r[p.colI][p.rowI] == lists[p.colJ][p.rowJ]
    ensures r[p.colJ][p.rowJ] == lists[p.colI][p.rowI]
    ensures forall k, q ::
              0 <= k < |r| && 0 <= q < CAPACITY && (k, q) != (p.colI, p.rowI) && (k, q) != (p.colJ, p.rowJ)
              ==> r[k][q] == lists[k][q]
  {
    var valI := lists[p.colI][p.rowI];
    var valJ := lists[p.colJ][p.rowJ];
    var once := lists[p.colJ := lists[p.colJ][p.rowJ := valI]];
    once[p.colI := once[p.colI][p.rowI := valJ]]
  }

  /** The first `n` swaps of `picks`, in order. */
  function ShuffleUpTo(lists: seq<seq<Color>>, picks: seq<Pick>, n: nat): (r: seq<seq<Color>>)
    requires Shaped(lists) && PicksIn(picks, |lists|) && n <= |picks|
    ensures |r| == |lists| && Shaped(r)
  {
    if n == 0 then lists else Swap(ShuffleUpTo(lists, picks, n - 1), picks[n - 1])
  }

  /** The lists `_color_init` starts from: four blocks of `get_color(i)` in list `i - 1`, for `i` from 1 to 6. */
  function SortedLists(): (r: seq<seq<Color>>)
    ensures |r| == NUM_COLORS && Shaped(r)
  {
    seq(NUM_COLORS, k requires 0 <= k < NUM_COLORS => Repeat(GetColor(k + 1), CAPACITY))
  }

  /** The sorted lists grow one colour at a time. */
  lemma SortedPrefix(i: nat)
    requires 1 <= i <= NUM_COLORS
    ensures SortedLists()[..i] == SortedLists()[..i - 1] + [Repeat(GetColor(i), CAPACITY)]
  {
  }

  /** `_color_init`: the sorted lists shuffled by `picks`, then two empty lists. */
  function Deal(picks: seq<Pick>): seq<seq<Color>>
    requires PicksIn(picks, NUM_COLORS)
  {
    ShuffleUpTo(SortedLists(), picks, |picks|) + [Repeat(NULL, CAPACITY), Repeat(NULL, CAPACITY)]
  }

  lemma DealSplit(picks: seq<Pick>, full: seq<seq<Color>>)
    requires PicksIn(picks, NUM_COLORS) && full == ShuffleUpTo(SortedLists(), picks, |picks|)
    ensures Deal(picks) == full + [Repeat(NULL, CAPACITY)] + [Repeat(NULL, CAPACITY)]
  {
    var empty := Repeat(NULL, CAPACITY);
    assert [empty, empty] == [empty] + [empty];
  }

  /**
   * The blocks every deal consists of: four of each of the six colours
   * `_color_init` uses, and the eight NULL slots of the two empty lists.
   */
  function Dealt(): multiset<Color> {
    multiset{}[NULL := 2 * CAPACITY][WHITE := CAPACITY][RED := CAPACITY][GREEN := CAPACITY]
      [BLUE := CAPACITY][ORANGE := CAPACITY][CYAN := CAPACITY]
  }

  // ------------------------------------------------------------------ moves

  /**
   * A click on container `to` while container `from` is selected:
   * `to.transfer_from(from)`, whose refusal leaves the board as it was.
   * On a single list the transfer changes no slot.
   */
  function Move(lists: seq<seq<Color>>, from: nat, to: nat): seq<seq<Color>>
    requires from < |lists| && to < |lists|
  {
    if from == to then lists
    else
      var (_, d, s) := TransferOf(lists[to], lists[from]);
      lists[to := d][from := s]
  }

  // ---------------------------------------------------------------- entropy

  /** The entropies of the first `n` lists, summed. */
  function EntropyUpTo(lists: seq<seq<Color>>, n: nat): nat
    requires n <= |lists|
  {
    if n == 0 then 0 else EntropyUpTo(lists, n - 1) + EntropyOf(lists[n - 1])
  }

  /** `GameEngine.entropy`: the sum of the containers' entropies. */
  function TotalEntropy(lists: seq<seq<Color>>): nat {
    EntropyUpTo(lists, |lists|)
  }

  // ----------------------------------------------------------------- lemmas

  /** Replacing list k leaves the lists before it, flattened, as they were. */
  lemma {:induction false} FlattenUpToBefore(lists: seq<seq<Color>>, k: nat, t: seq<Color>, n: nat)
    requires k < |lists| && n <= k
    ensures FlattenUpTo(lists[k := t], n) == FlattenUpTo(lists, n)
  {
    if n > 0 {
      FlattenUpToBefore(lists, k, t, n - 1);
    }
  }

  /** Replacing list k by t trades the count of `x` in the old list for the count in t. */
  lemma {:induction false} FlattenUpToUpdate(lists: seq<seq<Color>>, k: nat, t: seq<Color>, n: nat, x: Color)
    requires k < n <= |lists|
    ensures multiset(FlattenUpTo(lists[k := t], n))[x] + multiset(lists[k])[x]
         == multiset(FlattenUpTo(lists, n))[x] + multiset(t)[x]
  {
    var u := lists[k := t];
    var a, b := FlattenUpTo(u, n - 1), FlattenUpTo(lists, n - 1);
    assert FlattenUpTo(u, n) == a + u[n - 1];
    assert FlattenUpTo(lists, n) == b + lists[n - 1];
    assert multiset(a + u[n - 1])[x] == multiset(a)[x] + multiset(u[n - 1])[x];
    assert multiset(b + lists[n - 1])[x] == multiset(b)[x] + multiset(lists[n - 1])[x];
    if k == n - 1 {
      FlattenUpToBefore(lists, k, t, n - 1);
    } else {
      FlattenUpToUpdate(lists, k, t, n - 1, x);
    }
  }

  /** Replacing one list replaces its blocks in the board's count of `x` and nothing else. */
  lemma FlattenUpdate(lists: seq<seq<Color>>, k: nat, t: seq<Color>, x: Color)
    requires k < |lists|
    ensures multiset(Flatten(lists[k := t]))[x] + multiset(lists[k])[x] == multiset(Flatten(lists))[x] + multiset(t)[x]
  {
    FlattenUpToUpdate(lists, k, t, |lists|, x);
  }

  /** Overwriting one slot trades its old colour for the new one. */
  lemma SlotUpdate(s: seq<Color>, i: nat, v: Color, x: Color)
    requires i < |s|
    ensures multiset(s[i := v])[x] + (if s[i] == x then 1 else 0) == multiset(s)[x] + (if v == x then 1 else 0)
  {
    assert s == s[..i] + [s[i]] + s[i + 1..];
    assert s[i := v] == s[..i] + [v] + s[i + 1..];
  }

  lemma FlattenAppend(lists: seq<seq<Color>>, more: seq<seq<Color>>)
    ensures Flatten(lists + more) == Flatten(lists) + Flatten(more)
    decreases |more|
  {
    if more == [] {
      assert lists + more == lists;
    } else {
      var m := |more| - 1;
      assert (lists + more)[..|lists| + m] == lists + more[..m];
      assert more[..m][..m] == more[..m];
      FlattenPrefix(lists + more, |lists| + m);
      FlattenPrefix(more, m);
      FlattenAppend(lists, more[..m]);
    }
  }

  lemma FlattenPrefix(lists: seq<seq<Color>>, n: nat)
    requires n <= |lists|
    ensures FlattenUpTo(lists, n) == Flatten(lists[..n])
  {
    FlattenUpToPrefix(lists, n, n);
  }

  lemma {:induction false} FlattenUpToPrefix(lists: seq<seq<Color>>, n: nat, m: nat)
    requires m <= n <= |lists|
    ensures FlattenUpTo(lists, m) == FlattenUpTo(lists[..n], m)
  {
    if m > 0 {
      FlattenUpToPrefix(lists, n, m - 1);
    }
  }

  /** A swap exchanges two cells: the board's count of `x` stays the same. */
  lemma SwapCount(lists: seq<seq<Color>>, p: Pick, x: Color)
    requires Shaped(lists) && PickIn(p, |lists|)
    ensures multiset(Flatten(Swap(lists, p)))[x] == multiset(Flatten(lists))[x]
  {
    var valI := lists[p.colI][p.rowI];
    var valJ := lists[p.colJ][p.rowJ];
    var rowJ := lists[p.colJ][p.rowJ := valI];
    var once := lists[p.colJ := rowJ];
    var rowI := once[p.colI][p.rowI := valJ];
    assert once[p.colI][p.rowI] == valI;
    FlattenUpdate(lists, p.colJ, rowJ, x);
    FlattenUpdate(once, p.colI, rowI, x);
    SlotUpdate(lists[p.colJ], p.rowJ, valI, x);
    SlotUpdate(once[p.colI], p.rowI, valJ, x);
  }

  lemma SwapNoNull(lists: seq<seq<Color>>, p: Pick)
    requires Shaped(lists) && PickIn(p, |lists|) && NoNull(lists)
    ensures NoNull(Swap(lists, p))
  {
    var r := Swap(lists, p);
    forall k | 0 <= k < |lists| ensures NULL !in r[k] {
      forall q | 0 <= q < CAPACITY ensures r[k][q] != NULL {
        assert lists[k][q] in lists[k];
        assert lists[p.colI][p.rowI] in lists[p.colI];
        assert lists[p.colJ][p.rowJ] in lists[p.colJ];
      }
    }
  }

  /** A swap keeps the board's multiset, and a board with no NULL in any list keeps none. */
  lemma SwapConserves(lists: seq<seq<Color>>, p: Pick)
    requires Shaped(lists) && PickIn(p, |lists|)
    ensures multiset(Flatten(Swap(lists, p))) == multiset(Flatten(lists))
    ensures NoNull(lists) ==> NoNull(Swap(lists, p))
  {
    forall x ensures multiset(Flatten(Swap(lists, p)))[x] == multiset(Flatten(lists))[x] {
      SwapCount(lists, p, x);
    }
    if NoNull(lists) {
      SwapNoNull(lists, p);
    }
  }

  /** Repeating a pick undoes it. */
  lemma SwapTwice(lists: seq<seq<Color>>, p: Pick)
    requires Shaped(lists) && PickIn(p, |lists|)
    ensures Swap(Swap(lists, p), p) == lists
  {
    var r := Swap(Swap(lists, p), p);
    forall k | 0 <= k < |lists| ensures r[k] == lists[k] {
      forall q | 0 <= q < CAPACITY ensures r[k][q] == lists[k][q] {
      }
    }
  }

  /** Shuffling keeps the board's multiset. */
  lemma {:induction false} ShuffleConserves(lists: seq<seq<Color>>, picks: seq<Pick>, n: nat)
    requires Shaped(lists) && PicksIn(picks, |lists|) && n <= |picks|
    ensures multiset(Flatten(ShuffleUpTo(lists, picks, n))) == multiset(Flatten(lists))
  {
    if n > 0 {
      var before := ShuffleUpTo(lists, picks, n - 1);
      ShuffleConserves(lists, picks, n - 1);
      assert ShuffleUpTo(lists, picks, n) == Swap(before, picks[n - 1]);
      SwapConserves(before, picks[n - 1]);
    }
  }

  /** After shuffling, a board with no NULL in any list keeps none. */
  lemma {:induction false} ShuffleNoNull(lists: seq<seq<Color>>, picks: seq<Pick>, n: nat)
    requires Shaped(lists) && PicksIn(picks, |lists|) && n <= |picks| && NoNull(lists)
    ensures NoNull(ShuffleUpTo(lists, picks, n))
  {
    if n > 0 {
      var before := ShuffleUpTo(lists, picks, n - 1);
      ShuffleNoNull(lists, picks, n - 1);
      assert ShuffleUpTo(lists, picks, n) == Swap(before, picks[n - 1]);
      SwapNoNull(before, picks[n - 1]);
    }
  }

  lemma MultisetRepeat(c: Color, n: nat, x: Color)
    ensures multiset(Repeat(c, n))[x] == if x == c then n else 0
  {
    if n > 0 {
      assert Repeat(c, n) == Repeat(c, n - 1) + [c];
      MultisetRepeat(c, n - 1, x);
    }
  }

  /** The first `n` sorted lists hold four blocks of each of the first `n` palette colours. */
  lemma {:induction false} SortedCountUpTo(n: nat, x: Color)
    requires n <= NUM_COLORS
    ensures multiset(FlattenUpTo(SortedLists(), n))[x] == if x in Palette()[..n] then CAPACITY else 0
  {
    if n > 0 {
      var sorted := SortedLists();
      var c := Palette()[n - 1];
      SortedCountUpTo(n - 1, x);
      assert sorted[n - 1] == Repeat(c, CAPACITY);
      assert FlattenUpTo(sorted, n) == FlattenUpTo(sorted, n - 1) + Repeat(c, CAPACITY);
      MultisetRepeat(c, CAPACITY, x);
      PaletteStep(n, x);
    }
  }

  lemma PaletteStep(n: nat, x: Color)
    requires 0 < n <= NUM_COLORS
    ensures x in Palette()[..n] <==> x in Palette()[..n - 1] || x == Palette()[n - 1]
    ensures x in Palette()[..n - 1] ==> x != Palette()[n - 1]
  {
    assert Palette()[..n] == Palette()[..n - 1] + [Palette()[n - 1]];
  }

  /** Every deal consists of four blocks of each palette colour and eight NULL slots. */
  lemma DealtCount(x: Color)
    ensures Dealt()[x] == if x == NULL then 2 * CAPACITY else if x in Palette() then CAPACITY else 0
  {
    assert Palette() == [WHITE, RED, GREEN, BLUE, ORANGE, CYAN];
  }

  /** `Dealt()` is what the sorted lists and two empty lists hold. */
  lemma DealtSorted()
    ensures Dealt() == multiset(Flatten(SortedLists())) + multiset(Repeat(NULL, CAPACITY)) + multiset(Repeat(NULL, CAPACITY))
  {
    var full, empty := multiset(Flatten(SortedLists())), multiset(Repeat(NULL, CAPACITY));
    forall x ensures Dealt()[x] == (full + empty + empty)[x] {
      SortedAndEmptyCount(x);
    }
    MultisetExt(Dealt(), full + empty + empty);
  }

  /** Two multisets that agree on every colour are equal. */
  lemma MultisetExt(a: multiset<Color>, b: multiset<Color>)
    requires forall x :: a[x] == b[x]
    ensures a == b
  {
  }

  lemma SortedAndEmptyCount(x: Color)
    ensures Dealt()[x] == multiset(Flatten(SortedLists()))[x] + 2 * multiset(Repeat(NULL, CAPACITY))[x]
  {
    DealtCount(x);
    SortedCountUpTo(NUM_COLORS, x);
    PaletteWhole();
    MultisetRepeat(NULL, CAPACITY, x);
  }

  lemma SortedNoNull()
    ensures NoNull(SortedLists())
  {
    forall k | 0 <= k < NUM_COLORS ensures NULL !in SortedLists()[k] {
      assert SortedLists()[k] == Repeat(GetColor(k + 1), CAPACITY);
    }
  }

  lemma FlattenEmpty()
    ensures Flatten([Repeat(NULL, CAPACITY), Repeat(NULL, CAPACITY)]) == Repeat(NULL, CAPACITY) + Repeat(NULL, CAPACITY)
  {
    var empty := [Repeat(NULL, CAPACITY), Repeat(NULL, CAPACITY)];
    assert FlattenUpTo(empty, 1) == Repeat(NULL, CAPACITY);
  }

  /** A list without NULL is packed. */
  lemma FullPacked(s: seq<Color>)
    requires NULL !in s
    ensures Packed(s)
  {
    FreeOfUnique(s, 0);
  }

  /** An empty list is packed. */
  lemma EmptyPacked(s: seq<Color>)
    requires AllNull(s)
    ensures Packed(s)
  {
    EmptyIffAllFree(s);
  }

  /** The six full lists of a deal are the shuffled sorted lists and hold no NULL. */
  lemma DealFull(picks: seq<Pick>)
    requires PicksIn(picks, NUM_COLORS)
    ensures |Deal(picks)| == NUM_CONTAINERS
    ensures Deal(picks)[..NUM_COLORS] == ShuffleUpTo(SortedLists(), picks, |picks|)
    ensures NoNull(Deal(picks)[..NUM_COLORS])
  {
    SortedNoNull();
    ShuffleNoNull(SortedLists(), picks, |picks|);
  }

  /** The deal has eight packed lists of four, the last two of them empty. */
  lemma DealShape(picks: seq<Pick>)
    requires PicksIn(picks, NUM_COLORS)
    ensures var lists := Deal(picks);
      && |lists| == NUM_CONTAINERS
      && WellFormed(lists)
      && NoNull(lists[..NUM_COLORS])
      && lists[NUM_COLORS] == Repeat(NULL, CAPACITY) && lists[NUM_COLORS + 1] == Repeat(NULL, CAPACITY)
  {
    var lists := Deal(picks);
    DealFull(picks);
    forall k | 0 <= k < |lists| ensures |lists[k]| == CAPACITY && Packed(lists[k]) {
      if k < NUM_COLORS {
        assert lists[k] == lists[..NUM_COLORS][k];
        FullPacked(lists[k]);
      } else {
        EmptyPacked(lists[k]);
      }
    }
  }

  /** The shuffled lists hold four blocks of each palette colour. */
  lemma ShuffledCounts(picks: seq<Pick>, x: Color)
    requires PicksIn(picks, NUM_COLORS) && x in Palette()
    ensures multiset(Flatten(ShuffleUpTo(SortedLists(), picks, |picks|)))[x] == CAPACITY
  {
    ShuffleConserves(SortedLists(), picks, |picks|);
    SortedCountUpTo(NUM_COLORS, x);
    PaletteWhole();
  }

  lemma PaletteWhole()
    ensures Palette()[..NUM_COLORS] == Palette()
  {
  }

  /** The deal holds four blocks of each palette colour in its full lists, and `Dealt()` in all. */
  lemma DealCounts(picks: seq<Pick>)
    requires PicksIn(picks, NUM_COLORS)
    ensures var lists := Deal(picks);
      && |lists| == NUM_CONTAINERS
      && (forall x :: x in Palette() ==> multiset(Flatten(lists[..NUM_COLORS]))[x] == CAPACITY)
      && multiset(Flatten(lists)) == Dealt()
  {
    var full := ShuffleUpTo(SortedLists(), picks, |picks|);
    var empty := [Repeat(NULL, CAPACITY), Repeat(NULL, CAPACITY)];
    DealFull(picks);
    forall x | x in Palette() ensures multiset(Flatten(full))[x] == CAPACITY {
      ShuffledCounts(picks, x);
    }
    ShuffleConserves(SortedLists(), picks, |picks|);
    FlattenAppend(full, empty);
    FlattenEmpty();
    DealtSorted();
  }

  /**
   * `_color_init` produces eight lists of four: the first six hold no NULL
   * and together four blocks of every palette colour, the last two are
   * empty, every list is packed, and the whole board is `Dealt()`.
   */
  lemma DealFacts(picks: seq<Pick>)
    requires PicksIn(picks, NUM_COLORS)
    ensures var lists := Deal(picks);
      && |lists| == NUM_CONTAINERS
      && WellFormed(lists)
      && NoNull(lists[..NUM_COLORS])
      && lists[NUM_COLORS] == Repeat(NULL, CAPACITY) && lists[NUM_COLORS + 1] == Repeat(NULL, CAPACITY)
      && (forall x :: x in Palette() ==> multiset(Flatten(lists[..NUM_COLORS]))[x] == CAPACITY)
      && multiset(Flatten(lists)) == Dealt()
  {
    DealShape(picks);
    DealCounts(picks);
  }

  /**
   * `Move` is determined list by list: the destination and the source become
   * what TransferOf makes of them (nothing changes when they are one list),
   * and every other list stays.
   */
  lemma MovePointwise(before: seq<seq<Color>>, after: seq<seq<Color>>, from: nat, to: nat)
    requires |before| == |after| && from < |before| && to < |before|
    requires forall k :: 0 <= k < |before| && k != from && k != to ==> after[k] == before[k]
    requires from != to ==>
      && after[to] == TransferOf(before[to], before[from]).1
      && after[from] == TransferOf(before[to], before[from]).2
    requires from == to ==> after[to] == before[to]
    ensures after == Move(before, from, to)
  {
    if from != to {
      var (_, d, s) := TransferOf(before[to], before[from]);
      assert after == before[to := d][from := s];
    } else {
      assert after == before;
    }
  }

  /** A fresh deal satisfies the board invariant. */
  lemma DealBoardOk(picks: seq<Pick>)
    requires PicksIn(picks, NUM_COLORS)
    ensures |Deal(picks)| == NUM_CONTAINERS && BoardOk(Deal(picks))
  {
    DealFacts(picks);
  }

  /** One move between two lists keeps the board's count of `x`. */
  lemma MoveCount(lists: seq<seq<Color>>, from: nat, to: nat, x: Color)
    requires WellFormed(lists) && from < |lists| && to < |lists| && from != to
    ensures multiset(Flatten(Move(lists, from, to)))[x] == multiset(Flatten(lists))[x]
  {
    var (r, d, s) := TransferOf(lists[to], lists[from]);
    TransferRefused(lists[to], lists[from]);
    if r == Ok {
      TransferLegal(lists[to], lists[from]);
    }
    var once := lists[to := d];
    assert once[from] == lists[from];
    FlattenUpdate(lists, to, d, x);
    FlattenUpdate(once, from, s, x);
    assert (multiset(d) + multiset(s))[x] == (multiset(lists[to]) + multiset(lists[from]))[x];
  }

  /** One move between two lists keeps every list four long and packed. */
  lemma MoveShape(lists: seq<seq<Color>>, from: nat, to: nat)
    requires WellFormed(lists) && from < |lists| && to < |lists| && from != to
    ensures |Move(lists, from, to)| == |lists|
    ensures WellFormed(Move(lists, from, to))
  {
    var (r, d, s) := TransferOf(lists[to], lists[from]);
    TransferRefused(lists[to], lists[from]);
    if r == Ok {
      TransferLegal(lists[to], lists[from]);
    }
  }

  /**
   * One move keeps every list four long and packed and keeps the board's
   * multiset; a refused move leaves the board as it was.
   */
  lemma MoveFacts(lists: seq<seq<Color>>, from: nat, to: nat)
    requires WellFormed(lists) && from < |lists| && to < |lists|
    ensures |Move(lists, from, to)| == |lists|
    ensures WellFormed(Move(lists, from, to))
    ensures multiset(Flatten(Move(lists, from, to))) == multiset(Flatten(lists))
    ensures from != to && TransferOf(lists[to], lists[from]).0.IlegalMove? ==> Move(lists, from, to) == lists
  {
    if from != to {
      TransferRefused(lists[to], lists[from]);
      MoveShape(lists, from, to);
      forall x ensures multiset(Flatten(Move(lists, from, to)))[x] == multiset(Flatten(lists))[x] {
        MoveCount(lists, from, to, x);
      }
    }
  }

  /** Every move keeps the board invariant. */
  lemma MoveKeepsBoard(lists: seq<seq<Color>>, from: nat, to: nat)
    requires BoardOk(lists) && from < |lists| && to < |lists|
    ensures |Move(lists, from, to)| == |lists|
    ensures BoardOk(Move(lists, from, to))
  {
    MoveFacts(lists, from, to);
  }

  /** The total entropy is at most three per list, and zero exactly when every list is uniform. */
  lemma {:induction false} EntropyUpToZero(lists: seq<seq<Color>>, n: nat)
    requires Shaped(lists) && n <= |lists|
    ensures EntropyUpTo(lists, n) <= 3 * n
    ensures EntropyUpTo(lists, n) == 0 <==> forall k :: 0 <= k < n ==> Uniform(lists[k])
  {
    if n > 0 {
      EntropyUpToZero(lists, n - 1);
      EntropyOfContainer(lists[n - 1]);
      EntropyRange(lists[n - 1]);
    }
  }

  lemma TotalEntropyZero(lists: seq<seq<Color>>)
    requires Shaped(lists)
    ensures TotalEntropy(lists) <= 3 * |lists|
    ensures TotalEntropy(lists) == 0 <==> forall k :: 0 <= k < |lists| ==> Uniform(lists[k])
  {
    EntropyUpToZero(lists, |lists|);
  }
}
