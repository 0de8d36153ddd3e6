# Blocks: a colour-sorting puzzle engine

This project models the engine of the blocks game (`blocks_game/engine.py`)
in Dafny and proves properties of that model.

The board has eight containers. Each container is a list of four slots. Slot 0
is the top of the container, and a `NULL` colour marks an empty slot. A new
game fills six containers with four blocks of each of six colours, shuffles
them with 15 random cell swaps, and adds two empty containers.

The player clicks a source container and then a destination container. The
destination then takes the top run of the source: the first occupied slot's
colour and the equal blocks that follow it. This move is `transfer_from`. It
is refused (`IlegalMove`) when the destination is full, or when the
destination is neither empty nor topped by the same colour. Otherwise it
moves `min(free slots, run length)` blocks. The board's total entropy counts
the adjacent slots whose values differ. It is zero exactly when every
container is uniform.

Modules, following the program's structure:

- `Wrappers`: `Option`.
- `Colors`: the `Color` enumeration, `get_color` and the six dealt colours.
- `Slots`: pure specification functions over one container's slots:
  - `FreeOf`, `TopOf`, `EntropyOf`, `FillOf`, `RemoveOf`;
  - `TransferOf`, which is `transfer_from` between two distinct containers;
  - the refusals, as the `Outcome` datatype (`Ok | IlegalMove(reason)`);
  - the lemmas about all of these.
- `Containers`: the `Container` class. Its slots are an `array` updated in
  place. Each method is proved equal to its function in `Slots`.
- `Board`: the board as a value:
  - its invariant `BoardOk`: eight lists of four, every list packed (its NULL
    slots all above its blocks), and the deal's multiset of colours;
  - the deal (`Swap`, `ShuffleUpTo`, `Deal`), one move (`Move`) and
    `TotalEntropy`, with their lemmas.
- `Engine`: the `GameEngine` class:
  - `_swap_colors` and `_color_init` on arrays;
  - the constructor, `find`, `handle` (split into its three branches) and
    `entropy`;
  - the invariant `Valid`, which every click preserves.

The random draws of `_swap_colors` are a parameter. Each swap is a `Pick` of
two columns below 6 and two rows below 4, supplied by the caller. Every
property is proved for every such sequence of draws.

Where the code and its description disagree, the model follows the code:

- A transfer of a container into itself is refused only when that container
  is full. Otherwise it returns normally, fills and then clears the same
  slots, and changes no slot (`Containers.Container.TransferFrom`).
- `top` skips NULL slots anywhere in the list, not only leading ones. The
  count is the number of occupied slots, from the first one on, that carry
  its colour before the first occupied slot of another colour. On packed
  containers, which are the only ones the game produces, this is the
  contiguous run (`Slots.TopPacked`).
- The shuffle only touches the six full lists. The two empty lists are
  appended after it.

## Model

| member | source | states |
|---|---|---|
| Colors.GetColor | blocks_game/engine.py:28-34 | The i-th member of the enumeration is NULL exactly for i = 0; i = 1..6 give the six dealt colours in declaration order |
| Colors.Palette | blocks_game/engine.py:15-22 | The six dealt colours are pairwise different and none of them is NULL |
| Containers.Container.constructor | blocks_game/engine.py:39-43 | A container takes the given four-slot list and position and starts unselected |
| Containers.Container.Clicked | blocks_game/engine.py:45-47 | A click hits the container exactly when it lies in the closed rectangle from the position to one block right and four blocks down, borders included; Engine.OneHit shows that at the eight screen positions these rectangles are disjoint |
| Containers.Container.Empty | blocks_game/engine.py:61-62 | The container is empty (every slot NULL) exactly when its leading NULL run covers all of its slots |
| Containers.Container.Entropy | blocks_game/engine.py:49-56 | The loop counts the adjacent slot pairs that differ (EntropyOf); the count is at most 3 and is 0 exactly when all four slots are equal |
| Slots.EntropyRange | blocks_game/engine.py:49-56 | For any list, the entropy is at most its length minus one, and is 0 exactly when the list is uniform |
| Slots.EntropyOfContainer | blocks_game/engine.py:49-56 | For four slots, the entropy is in 0..3 and is 0 exactly when slots 0..3 are all equal |
| Containers.Container.Free | blocks_game/engine.py:64-73 | The loop returns the length of the leading NULL run (FreeOf), which is at most 4 and is 4 exactly when the container is empty |
| Containers.Container.First | blocks_game/engine.py:75-86 | The loop returns one less than the free count: the index of the next slot to fill, in -1..3 |
| Containers.Container.Top | blocks_game/engine.py:88-104 | The scan returns the colour of the first occupied slot and the length of its run over the occupied slots, or (None, 0) for an empty container (TopOf) |
| Slots.TopNone | blocks_game/engine.py:88-104 | top reports no colour exactly when every slot is NULL, and exactly when its count is 0 |
| Slots.TopSome | blocks_game/engine.py:88-104 | On a non-empty container top reports the colour of slot FreeOf, with a count between 1 and the number of occupied slots |
| Slots.TopPacked | blocks_game/engine.py:88-104 | On a packed, non-empty container the count of top is the maximal run of equal blocks starting at the first occupied slot |
| Slots.TopCountBound | blocks_game/engine.py:88-104 | The free count plus the top count never exceeds the container's length, so the remove that follows stays in range |
| Containers.Container.Fill | blocks_game/engine.py:107-110 | The loop writes the colour into the count slots just above the first occupied slot and changes no other slot (FillOf) |
| Slots.FillFacts | blocks_game/engine.py:107-110 | Filling n of the free slots with a colour shrinks the NULL prefix by n, keeps a packed container packed, and trades n NULLs for n blocks of that colour |
| Containers.Container.Remove | blocks_game/engine.py:113-116 | The loop clears the count slots from the first occupied one downwards and changes no other slot (RemoveOf) |
| Slots.RemoveFacts | blocks_game/engine.py:113-116 | Clearing n slots after the NULL prefix trades exactly those slots for n NULLs |
| Slots.RemovePacked | blocks_game/engine.py:113-116 | Clearing n slots of a packed container keeps it packed and grows its NULL prefix by n |
| Slots.RemoveRun | blocks_game/engine.py:113-116 | Removing n blocks of the top run of a packed container removes n copies of the top colour; when n is less than the run, the top colour is unchanged and its count drops by n |
| Slots.FillThenRemove | blocks_game/engine.py:107-116 | Filling n free slots and then removing n slots restores the container exactly |
| Containers.Container.TransferFrom | blocks_game/engine.py:118-130 | Between two distinct lists, the outcome and both new slot lists are what TransferOf gives. On one shared list no slot changes, and the move fails exactly when the container is full |
| Slots.TransferRefused | blocks_game/engine.py:118-130 | A transfer fails with NoFreeSpace exactly when the destination is full. It fails with ColorMismatch exactly when the destination has room, is not empty, and has a different top colour. A refused transfer changes neither container |
| Slots.TransferFromEmpty | blocks_game/engine.py:118-130 | An empty source never transfers into a non-empty destination, and then nothing changes |
| Slots.TransferLegal | blocks_game/engine.py:118-130 | A legal transfer between packed containers moves n = min(free, top count) blocks of the source's top colour into the slots just above the destination's blocks. It shifts both NULL prefixes by n, keeps both containers packed and keeps the two containers' combined multiset. No slot changes when n = 0 |
| Engine.GameEngine.SwapColors | blocks_game/engine.py:138-151 | The two cells named by the pick exchange their colours; every other cell keeps its colour (Swap) |
| Board.SwapConserves | blocks_game/engine.py:138-151 | A swap keeps the board's multiset of colours, and a board with no NULL in any list keeps none |
| Board.SwapTwice | blocks_game/engine.py:138-151 | Repeating the same swap restores the board |
| Board.ShuffleConserves | blocks_game/engine.py:158-159 | Any sequence of swaps keeps the board's multiset of colours |
| Board.ShuffleNoNull | blocks_game/engine.py:158-159 | After any sequence of swaps, a board with no NULL in any list keeps none |
| Engine.GameEngine.SortedColors | blocks_game/engine.py:156 | The loop builds six fresh, distinct four-slot arrays; array i - 1 holds four blocks of colour i |
| Engine.GameEngine.Shuffle | blocks_game/engine.py:158-159 | The loop applies the swaps in order, one per pick, and the result is ShuffleUpTo of the initial board |
| Engine.GameEngine.NewList | blocks_game/engine.py:162-163 | A fresh four-slot array holding one colour in every slot |
| Engine.GameEngine.ColorInit | blocks_game/engine.py:153-165 | The result is eight distinct, freshly allocated four-slot arrays whose contents are the deal for the given draws |
| Board.DealFacts | blocks_game/engine.py:153-165 | A deal has eight lists of four, every list packed. The first six hold no NULL and together hold four blocks of every dealt colour. The last two are all NULL. The board's multiset is four of each dealt colour plus eight NULLs |
| Board.DealtCount | blocks_game/engine.py:153-165 | The deal's multiset holds 8 NULLs, 4 of each dealt colour, and none of the border colours |
| Board.DealBoardOk | blocks_game/engine.py:153-165 | Every deal satisfies the board invariant |
| Engine.GameEngine.constructor | blocks_game/engine.py:167-186 | The containers take the deal's lists in order at their fixed positions. Nothing is selected, the state is IDLE, and the engine invariant holds. The containers and their slot arrays are freshly allocated, so a caller may go on to call `handle` |
| Engine.OneHit | blocks_game/engine.py:172-175 | The rectangles of the eight containers at their screen positions are disjoint, so a click hits at most one of them |
| Engine.GameEngine.Find | blocks_game/engine.py:195-199 | The result is the first container the click hits, or None exactly when the click hits none |
| Engine.GameEngine.Handle | blocks_game/engine.py:201-241 | The engine invariant is preserved. A miss attempts nothing, ends IDLE and keeps the board. A hit while IDLE selects the hit container and keeps the board. A hit while SELECTED attempts a move, ends IDLE and makes the board Move of the old board |
| Engine.GameEngine.Deselect | blocks_game/engine.py:206-213 | The selection is cleared, the state becomes IDLE, the invariant holds and the board is unchanged |
| Engine.GameEngine.Select | blocks_game/engine.py:217-223 | The hit container becomes the only highlighted one, the state becomes SELECTED, and the board is unchanged |
| Engine.GameEngine.MoveSelectedTo | blocks_game/engine.py:224-241 | The board becomes Move of the old board from the selected container to the hit one. The selection is cleared and the state becomes IDLE |
| Board.MovePointwise | blocks_game/engine.py:225-230 | A board that agrees with TransferOf on the destination and the source, and is unchanged elsewhere, is Move of the old board |
| Board.MoveFacts | blocks_game/engine.py:225-230 | A move keeps eight lists of four, every list packed, and the board's multiset. A refused move between distinct containers leaves the board as it was |
| Board.MoveKeepsBoard | blocks_game/engine.py:225-241 | Every move keeps the board invariant |
| Engine.GameEngine.Entropy | blocks_game/engine.py:243-244 | The loop sums the containers' entropies (TotalEntropy). The total is at most 24 and is 0 exactly when every container is uniform |
| Board.TotalEntropyZero | blocks_game/engine.py:243-244 | The total entropy of any board of four-slot lists is at most 3 per list, and is 0 exactly when every list is uniform |

## Left out

- `paint`, and every pygame call, are not modelled: they draw and change no game state. The screen parameter of `__init__` is not modelled either.
- Screen constants other than `BLOCK_SIZE` and the container positions are only used for drawing, so they are not modelled.
- The `BORDER_WIDTH` constant and the drawing role of the YELLOW and GRAY border colours are not modelled.
- The RGB values of `Color` are not modelled; only the identity of each case matters.
- `print` calls are not modelled, nor is the text of the `IlegalMove` messages. A refusal is `IlegalMove(NoFreeSpace)` or `IlegalMove(ColorMismatch)`.
- `handle` catches and prints the exception. The model has no exception: the refusal is an `Outcome`, and handle ignores it.
- `Container.__str__` is not modelled; it only formats slot names for printing.
- `randint` is not modelled. The draws are the caller-supplied `picks`, and every property holds for every sequence of in-range draws.
- `deepcopy` is not modelled. Colours are immutable values, so copying changes nothing.
- `blocks_game/main.py` is not modelled. It is the event loop, which calls `handle` and redeals when `entropy` reaches 0.
- `Color.list()` is modelled as the constant `Colors.ALL`.
- Colors.GetColor: requires 0 <= i < 9. Python would also accept negative indices, counted from the end. The only caller passes 1..6.
- Containers.Container.Fill: requires count <= free. With a larger count, Python's negative indices would wrap around and write at the bottom of the list. The only caller passes min(free, top count).
- Containers.Container.Fill: takes a real colour. When the source is empty, Python calls `fill(None, 0)`, which writes nothing; `TransferFrom` skips the call in that case.
- Containers.Container.Remove: requires the cleared slots to lie inside the container, where Python would raise IndexError. The only caller stays in range (`Slots.TopCountBound`).
- Engine.GameEngine.constructor: takes exactly 15 draws, the default of `_color_init`.
- `State` is a datatype with the two cases IDLE and SELECTED. Python's `state` field could hold another value, and handle would then fall through and return None; the model cannot represent that.
- The Python list aliasing between `_color_init`'s result and the containers is modelled in the model's terms: the containers hold the very arrays `ColorInit` returns, and these are pairwise distinct, which is a preserved invariant.
