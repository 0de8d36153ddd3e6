/**
 * `Container` of blocks_game/engine.py: four slots updated in place, with
 * the read-only scans `free`, `first`, `top` and `entropy`, the in-place
 * writes `fill` and `remove`, and the move rule `transfer_from`.
 * Every scan is proved equal to its specification function in module Slots.
 */
module Containers {
  import opened Wrappers
  import opened Colors
  import opened Slots

  /** Side of one block on screen, in pixels (`BLOCK_SIZE`). */
  const BLOCK_SIZE: int := 50

  /** The screen rectangle of a container at `position`, borders included, holds `click`. */
  predicate Covers(position: (int, int), click: (int, int)) {
    && position.0 <= click.0 <= position.0 + BLOCK_SIZE
    && position.1 <= click.1 <= position.1 + 4 * BLOCK_SIZE
  }

  class Container {
    /** The four slots; the list object itself is never replaced. */
    const blocks: array<Color>
    /** Top-left corner of the container on screen. */
    const position: (int, int)
    /** Border highlight: this container is the pending source of a move. */
    var selected: bool

    ghost predicate Valid() {
      blocks.Length == CAPACITY
    }

    constructor (blocks: array<Color>, position: (int, int))
      requires blocks.Length == CAPACITY
      ensures Valid()
      ensures this.blocks == blocks && this.position == position && !selected
    {
      this.blocks := blocks;
      this.position := position;
      selected := false;
    }

    /**
     * `clicked`: the point lies in the container's closed rectangle, at most
     * one block to the right of and four blocks below the position.
     */
    predicate Clicked(click: (int, int)): (hit: bool)
      ensures hit <==> 0 <= click.0 - position.0 <= BLOCK_SIZE && 0 <= click.1 - position.1 <= 4 * BLOCK_SIZE
    {
      Covers(position, click)
    }

    /** `entropy`: the number of adjacent slots whose values differ. */
    method Entropy() returns (entropy: nat)
      requires Valid()
      ensures entropy == EntropyOf(blocks[..])
      ensures entropy <= 3
      ensures entropy == 0 <==> Uniform(blocks[..])
    {
      var last := blocks[0];
      entropy := 0;
      for i := 1 to 4
        invariant last == blocks[i - 1]
        invariant entropy == EntropyOf(blocks[..i])
      {
        assert blocks[..i + 1][..i] == blocks[..i];
        if blocks[i] != last {
          last := blocks[i];
          entropy := entropy + 1;
        }
      }
      assert blocks[..4] == blocks[..];
      EntropyRange(blocks[..]);
    }

    /** `empty`: every slot is NULL, so the whole container is free. */
    predicate Empty(): (empty: bool)
      reads blocks
      ensures empty <==> FreeOf(blocks[..]) == blocks.Length
    {
      EmptyIffAllFree(blocks[..]);
      AllNull(blocks[..])
    }

    /** `free`: the length of the leading run of NULL slots. */
    method Free() returns (free: nat)
      requires Valid()
      ensures free == FreeOf(blocks[..])
      ensures free <= CAPACITY
      ensures free == CAPACITY <==> Empty()
    {
      free := 0;
      for i := 0 to 4
        invariant free == i
        invariant forall j :: 0 <= j < i ==> blocks[j] == NULL
      {
        if blocks[i] == NULL {
          free := free + 1;
        } else {
          break;
        }
      }
      FreeOfUnique(blocks[..], free);
      EmptyIffAllFree(blocks[..]);
    }

    /**
     * `first`: the index of the next slot to fill, i.e. the slot just before
     * the first occupied one, or 3 when every slot is NULL; -1 when slot 0 is
     * occupied.
     */
    method First() returns (first: int)
      requires Valid()
      ensures first == FreeOf(blocks[..]) - 1
      ensures -1 <= first <= CAPACITY - 1
    {
      var found: Option<int> := None;
      for i := 0 to 4
        invariant found == None
        invariant forall j :: 0 <= j < i ==> blocks[j] == NULL
      {
        if blocks[i] == NULL {
          continue;
        }
        FreeOfUnique(blocks[..], i);
        found := Some(i - 1);
        break;
      }
      if found == None {
        FreeOfUnique(blocks[..], CAPACITY);
        first := CAPACITY - 1;
      } else {
        first := found.value;
      }
    }

    /**
     * `top`: the colour of the first occupied slot and how many occupied slots
     * from there on carry it, NULL slots being skipped; `(None, 0)` when empty.
     */
    method Top() returns (color: Option<Color>, count: nat)
      requires Valid()
      ensures (color, count) == TopOf(blocks[..])
    {
      color, count := None, 0;
      ghost var stopped := false;
      for i := 0 to 4
        invariant color == None ==> count == 0 && NonNull(blocks[..i]) == []
        invariant color != None ==> count > 0 && NonNull(blocks[..i]) == Repeat(color.value, count)
      {
        NonNullSnoc(blocks[..], i);
        if blocks[i] == NULL {
          continue;
        } else if color == None {
          color := Some(blocks[i]);
          count := count + 1;
          continue;
        } else if blocks[i] == color.value {
          assert Repeat(color.value, count) + [blocks[i]] == Repeat(color.value, count + 1);
          count := count + 1;
        } else {
          TopAfterRun(blocks[..], i, color.value, count);
          stopped := true;
          break;
        }
      }
      if !stopped {
        assert blocks[..4] == blocks[..];
        if color != None {
          TopOfRun(blocks[..], color.value, count);
        }
      }
    }

    /**
     * `fill`: writes `color` into the `count` slots `first()`, `first() - 1`,
     * ..., `first() - count + 1`; the caller keeps `count` within `free()`.
     */
    method Fill(color: Color, count: nat)
      requires Valid() && count <= FreeOf(blocks[..])
      modifies blocks
      ensures blocks[..] == FillOf(old(blocks[..]), color, count)
    {
      ghost var s := blocks[..];
      var first := First();
      for i := first + 1 downto first + 1 - count
        invariant forall j :: 0 <= j < CAPACITY ==> blocks[j] == if i <= j <= first then color else s[j]
      {
        blocks[i] := color;
      }
    }

    /**
     * `remove`: clears the `count` slots `first() + 1`, ..., `first() + count`;
     * the caller keeps them inside the container.
     */
    method Remove(count: nat)
      requires Valid() && FreeOf(blocks[..]) + count <= CAPACITY
      modifies blocks
      ensures blocks[..] == RemoveOf(old(blocks[..]), count)
    {
      ghost var s := blocks[..];
      var first := First();
      for i := first + 1 to first + 1 + count
        invariant forall j :: 0 <= j < CAPACITY ==> blocks[j] == if first + 1 <= j < i then NULL else s[j]
      {
        blocks[i] := NULL;
      }
    }

    /**
     * `transfer_from`: moves the top run of `container` into this container.
     * Between two containers with distinct slot lists it does what TransferOf
     * says; on one list (source and destination the same) it changes no slot,
     * and fails exactly when the container is full.
     */
    method TransferFrom(container: Container) returns (outcome: Outcome)
      requires Valid() && container.Valid()
      modifies blocks, container.blocks
      ensures blocks != container.blocks ==>
        (outcome, blocks[..], container.blocks[..]) == TransferOf(old(blocks[..]), old(container.blocks[..]))
      ensures blocks == container.blocks ==>
        && blocks[..] == old(blocks[..])
        && outcome == if FreeOf(old(blocks[..])) == 0 then IlegalMove(NoFreeSpace) else Ok
    {
      var free := Free();
      if free == 0 {
        return IlegalMove(NoFreeSpace);
      }
      var color, count := container.Top();
      var legal := Empty();
      if !legal {
        var mine, _ := Top();
        legal := mine == color;
      }
      if legal {
        ghost var dest, source := blocks[..], container.blocks[..];
        free := Free();
        var n := Min(free, count);
        TopCountBound(source);
        if color != None {
          TopSome(source);
          Fill(color.value, n);
          if blocks == container.blocks {
            FillThenRemove(dest, color.value, n);
          }
        } else {
          MoveNothing(source, NULL);
        }
        container.Remove(n);
        outcome := Ok;
      } else {
        outcome := IlegalMove(ColorMismatch);
      }
    }
  }
}
