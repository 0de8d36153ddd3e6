/**
 * The rules of one container, stated on the value of its four slots.
 *
 * Index 0 is drawn at the top of the screen, empty (NULL) slots form a prefix
 * at the low indices, and the first occupied slot is the top of the stack.
 * These functions are the specification the loops of `Container` are proved
 * against (containers.dfy), and the lemmas below are the rules of the game.
 */
module Slots {
  import opened Wrappers
  import opened Colors

  /** Every container has exactly four slots. */
  const CAPACITY: nat := 4

  /** `n` copies of one colour. */
  function Repeat(c: Color, n: nat): seq<Color> {
    seq(n, _ => c)
  }


  /** All slots hold the same value (one colour, or all NULL). */
  predicate Uniform(s: seq<Color>) {
    forall i :: 0 <= i < |s| ==> s[i] == s[0]
  }

  /** Every slot is NULL (`Container.empty`). */
  predicate AllNull(s: seq<Color>) {
    forall i :: 0 <= i < |s| ==> s[i] == NULL
  }

  // ---------------------------------------------------------------------------
  // free / first

  /** Length of the leading run of NULL slots: what `free()` counts. */
  function FreeOf(s: seq<Color>): (n: nat)
    ensures n <= |s|
    ensures forall i :: 0 <= i < n ==> s[i] == NULL
    ensures n < |s| ==> s[n] != NULL
  {
    NullRunFrom(s, 0)
  }

  /** The first index at or after i that holds no NULL, or |s|. */
  function NullRunFrom(s: seq<Color>, i: nat): (n: nat)
    requires i <= |s|
    ensures i <= n <= |s|
    ensures forall j :: i <= j < n ==> s[j] == NULL
    ensures n < |s| ==> s[n] != NULL
    decreases |s| - i
  {
    if i == |s| || s[i] != NULL then i else NullRunFrom(s, i + 1)
  }

  /** The two facts FreeOf ensures determine it. */
  lemma FreeOfUnique(s: seq<Color>, n: nat)
    requires n <= |s|
    requires forall i :: 0 <= i < n ==> s[i] == NULL
    requires n < |s| ==> s[n] != NULL
    ensures FreeOf(s) == n
  {
  }

  /** A container is empty exactly when its whole NULL prefix spans it. */
  lemma {:induction false} EmptyIffAllFree(s: seq<Color>)
    ensures AllNull(s) <==> FreeOf(s) == |s|
  {
  }

  /**
   * The packing invariant: every slot from the first occupied one on is
   * occupied, so the NULL slots are exactly the leading run.
   */
  predicate Packed(s: seq<Color>) {
    forall i :: FreeOf(s) <= i < |s| ==> s[i] != NULL
  }

  /** Equivalently: no empty slot lies below (at a higher index than) an occupied one. */
  lemma PackedNoGap(s: seq<Color>)
    ensures Packed(s) <==> forall i, j :: 0 <= i < j < |s| && s[i] != NULL ==> s[j] != NULL
  {
    var f := FreeOf(s);
    if Packed(s) {
      forall i, j | 0 <= i < j < |s| && s[i] != NULL ensures s[j] != NULL {
        assert f <= i;
      }
    }
    if forall i, j :: 0 <= i < j < |s| && s[i] != NULL ==> s[j] != NULL {
      forall i | f <= i < |s| ensures s[i] != NULL {
        assert s[f] != NULL;
      }
    }
  }

  /** A packed container holds no NULL after its leading NULL run. */
  lemma PackedSuffix(s: seq<Color>)
    requires Packed(s)
    ensures NULL !in s[FreeOf(s)..]
  {
  }

  // ---------------------------------------------------------------------------
  // top

  /** The occupied slots, top to bottom, with every NULL dropped. */
  function NonNull(s: seq<Color>): (r: seq<Color>)
    ensures |r| <= |s|
    ensures NULL !in r
  {
    if s == [] then [] else (if s[0] == NULL then [] else [s[0]]) + NonNull(s[1..])
  }

  /** Length of the longest prefix of `f` whose entries all equal `c`. */
  function RunLen(f: seq<Color>, c: Color): (n: nat)
    ensures n <= |f|
    ensures forall i :: 0 <= i < n ==> f[i] == c
    ensures n < |f| ==> f[n] != c
  {
    if f == [] || f[0] != c then 0 else 1 + RunLen(f[1..], c)
  }

  /**
   * What `top()` returns: the colour of the first occupied slot and how many
   * occupied slots after it carry the same colour, NULL slots being skipped
   * wherever they are; `(None, 0)` when no slot is occupied.
   */
  function TopOf(s: seq<Color>): (Option<Color>, nat) {
    var f := NonNull(s);
    if f == [] then (None, 0) else (Some(f[0]), RunLen(f, f[0]))
  }

  lemma {:induction false} NonNullAppend(a: seq<Color>, b: seq<Color>)
    ensures NonNull(a + b) == NonNull(a) + NonNull(b)
  {
    if a == [] {
      assert a + b == b;
    } else {
      assert (a + b)[1..] == a[1..] + b;
      NonNullAppend(a[1..], b);
    }
  }

  lemma NonNullOne(c: Color)
    ensures NonNull([c]) == if c == NULL then [] else [c]
  {
    assert [c][1..] == [];
  }

  lemma {:induction false} NonNullOfNulls(s: seq<Color>)
    requires AllNull(s)
    ensures NonNull(s) == []
  {
    if s != [] {
      NonNullOfNulls(s[1..]);
    }
  }

  lemma {:induction false} NonNullOfOccupied(s: seq<Color>)
    requires NULL !in s
    ensures NonNull(s) == s
  {
    if s != [] {
      NonNullOfOccupied(s[1..]);
    }
  }

  /** NonNull drops the leading NULL run and nothing after it on a packed container. */
  lemma NonNullPacked(s: seq<Color>)
    requires Packed(s)
    ensures NonNull(s) == s[FreeOf(s)..]
  {
    NonNullFromFree(s);
    PackedSuffix(s);
    NonNullOfOccupied(s[FreeOf(s)..]);
  }

  /** The occupied slots of any container start with the slot at `FreeOf(s)`. */
  lemma NonNullFromFree(s: seq<Color>)
    ensures NonNull(s) == NonNull(s[FreeOf(s)..])
    ensures FreeOf(s) < |s| ==> NonNull(s) == [s[FreeOf(s)]] + NonNull(s[FreeOf(s) + 1..])
  {
    var f := FreeOf(s);
    var a, b := s[..f], s[f..];
    assert s == a + b;
    NonNullAppend(a, b);
    assert AllNull(a);
    NonNullOfNulls(a);
    if f < |s| {
      assert b[1..] == s[f + 1..];
    }
  }

  /** Scanning one more slot appends it to the occupied slots unless it is NULL. */
  lemma NonNullSnoc(s: seq<Color>, i: nat)
    requires i < |s|
    ensures NonNull(s[..i + 1]) == NonNull(s[..i]) + (if s[i] == NULL then [] else [s[i]])
  {
    assert s[..i + 1] == s[..i] + [s[i]];
    NonNullAppend(s[..i], [s[i]]);
    NonNullOne(s[i]);
  }

  /** When the occupied slots are one run of `c`, `top()` reports all of it. */
  lemma TopOfRun(s: seq<Color>, c: Color, k: nat)
    requires k > 0 && NonNull(s) == Repeat(c, k)
    ensures TopOf(s) == (Some(c), k)
  {
    RunLenUnique(NonNull(s), c, k);
  }

  /** A run of `c` followed by an occupied slot of another colour ends the top run. */
  lemma TopAfterRun(s: seq<Color>, i: nat, c: Color, k: nat)
    requires i < |s| && k > 0
    requires NonNull(s[..i]) == Repeat(c, k)
    requires s[i] != NULL && s[i] != c
    ensures TopOf(s) == (Some(c), k)
  {
    assert s == s[..i] + s[i..];
    NonNullAppend(s[..i], s[i..]);
    assert s[i..] == [s[i]] + s[i + 1..];
    NonNullAppend([s[i]], s[i + 1..]);
    NonNullOne(s[i]);
    var f := NonNull(s);
    assert f == Repeat(c, k) + [s[i]] + NonNull(s[i + 1..]);
    assert f[k] == s[i];
    RunLenUnique(f, c, k);
  }

  /** `top()` reports no colour exactly when every slot is NULL. */
  lemma TopNone(s: seq<Color>)
    ensures TopOf(s).0 == None <==> AllNull(s)
    ensures TopOf(s).0 == None <==> TopOf(s).1 == 0
  {
    NonNullFromFree(s);
    EmptyIffAllFree(s);
    if AllNull(s) {
      NonNullOfNulls(s);
    }
  }

  /**
   * Otherwise `top()` reports the colour of the first occupied slot and a
   * count between 1 and the number of occupied slots below the NULL prefix.
   */
  lemma TopSome(s: seq<Color>)
    requires !AllNull(s)
    ensures FreeOf(s) < |s|
    ensures TopOf(s).0 == Some(s[FreeOf(s)])
    ensures 1 <= TopOf(s).1 <= |NonNull(s)| <= |s| - FreeOf(s)
  {
    EmptyIffAllFree(s);
    NonNullFromFree(s);
  }

  /** The run RunLen measures is a block of copies of `c`. */
  lemma RunPrefix(f: seq<Color>, c: Color)
    ensures f[..RunLen(f, c)] == Repeat(c, RunLen(f, c))
  {
  }

  /** The run of `s[f]` starting at index f, as RunLen measures it. */
  lemma RunAt(s: seq<Color>, f: nat)
    requires f < |s|
    ensures var k := RunLen(s[f..], s[f]);
      && f + k <= |s|
      && s[f..f + k] == Repeat(s[f], k)
      && (f + k == |s| || s[f + k] != s[f])
  {
    var b := s[f..];
    var k := RunLen(b, s[f]);
    RunPrefix(b, s[f]);
    assert s[f..f + k] == b[..k];
    if f + k < |s| {
      assert s[f + k] == b[k];
    }
  }

  /**
   * On a packed container the count of `top()` is the length of the maximal
   * run of the top colour starting at `FreeOf(s)`.
   */
  lemma TopPacked(s: seq<Color>)
    requires Packed(s) && !AllNull(s)
    ensures var (c, k) := TopOf(s); var f := FreeOf(s);
      && f < |s| && c == Some(s[f])
      && f + k <= |s|
      && s[f..f + k] == Repeat(s[f], k)
      && (f + k == |s| || s[f + k] != s[f])
  {
    TopSome(s);
    NonNullPacked(s);
    RunAt(s, FreeOf(s));
  }

  // ---------------------------------------------------------------------------
  // entropy

  /** Number of adjacent slot pairs whose values differ (`Container.entropy`). */
  function EntropyOf(s: seq<Color>): nat {
    if |s| < 2 then 0
    else EntropyOf(s[..|s| - 1]) + (if s[|s| - 1] != s[|s| - 2] then 1 else 0)
  }

  /** Entropy is at most one less than the length and is zero exactly on uniform slots. */
  lemma {:induction false} EntropyRange(s: seq<Color>)
    ensures EntropyOf(s) <= if |s| == 0 then 0 else |s| - 1
    ensures EntropyOf(s) == 0 <==> Uniform(s)
  {
    if |s| >= 2 {
      var p := s[..|s| - 1];
      EntropyRange(p);
      assert Uniform(s) ==> Uniform(p);
      if EntropyOf(s) == 0 {
        assert s[|s| - 1] == s[|s| - 2] == p[|p| - 1];
        assert forall i :: 0 <= i < |p| ==> s[i] == p[i];
      }
    }
  }

  /** A four-slot container scores between 0 and 3. */
  lemma EntropyOfContainer(s: seq<Color>)
    requires |s| == CAPACITY
    ensures EntropyOf(s) <= 3
    ensures EntropyOf(s) == 0 <==> s[0] == s[1] == s[2] == s[3]
  {
    EntropyRange(s);
  }

  // ---------------------------------------------------------------------------
  // fill / remove

  /** `s` with the slots `lo <= i < hi` overwritten by `c`. */
  function Overwrite(s: seq<Color>, lo: int, hi: int, c: Color): (r: seq<Color>)
    ensures |r| == |s|
    ensures forall i :: 0 <= i < |s| ==> r[i] == if lo <= i < hi then c else s[i]
  {
    seq(|s|, i requires 0 <= i < |s| => if lo <= i < hi then c else s[i])
  }

  /** Overwriting the slots `lo..hi` trades their contents for `hi - lo` copies of `c`. */
  lemma OverwriteCount(s: seq<Color>, lo: nat, hi: nat, c: Color)
    requires lo <= hi <= |s|
    ensures multiset(Overwrite(s, lo, hi, c)) + multiset(s[lo..hi]) == multiset(s) + multiset(Repeat(c, hi - lo))
  {
    var r := Overwrite(s, lo, hi, c);
    var a, m, b, k := s[..lo], s[lo..hi], s[hi..], Repeat(c, hi - lo);
    assert r == a + k + b;
    assert s == a + m + b;
    assert multiset(r) == multiset(a) + multiset(k) + multiset(b);
    assert multiset(s) == multiset(a) + multiset(m) + multiset(b);
  }

  /** `fill(c, n)`: the n NULL slots just above the occupied part receive `c`. */
  function FillOf(s: seq<Color>, c: Color, n: nat): (r: seq<Color>)
    requires n <= FreeOf(s)
  {
    Overwrite(s, FreeOf(s) - n, FreeOf(s), c)
  }

  /** `remove(n)`: the n slots from `FreeOf(s)` on become NULL. */
  function RemoveOf(s: seq<Color>, n: nat): (r: seq<Color>)
    requires FreeOf(s) + n <= |s|
  {
    Overwrite(s, FreeOf(s), FreeOf(s) + n, NULL)
  }

  /**
   * Filling n slots with a real colour shrinks the NULL prefix by n, keeps a
   * packed container packed and trades n NULLs for n blocks of `c`.
   */
  lemma FillFacts(s: seq<Color>, c: Color, n: nat)
    requires n <= FreeOf(s) && c != NULL
    ensures |FillOf(s, c, n)| == |s|
    ensures FreeOf(FillOf(s, c, n)) == FreeOf(s) - n
    ensures Packed(s) ==> Packed(FillOf(s, c, n))
    ensures multiset(FillOf(s, c, n)) + multiset(Repeat(NULL, n)) == multiset(s) + multiset(Repeat(c, n))
  {
    FillFree(s, c, n);
    FillCount(s, c, n);
  }

  lemma FillFree(s: seq<Color>, c: Color, n: nat)
    requires n <= FreeOf(s) && c != NULL
    ensures FreeOf(FillOf(s, c, n)) == FreeOf(s) - n
  {
    FreeOfUnique(FillOf(s, c, n), FreeOf(s) - n);
  }

  lemma FillCount(s: seq<Color>, c: Color, n: nat)
    requires n <= FreeOf(s)
    ensures multiset(FillOf(s, c, n)) + multiset(Repeat(NULL, n)) == multiset(s) + multiset(Repeat(c, n))
  {
    var f := FreeOf(s);
    OverwriteCount(s, f - n, f, c);
    assert s[f - n..f] == Repeat(NULL, n);
  }

  /** On any container, clearing n slots after the NULL prefix trades them for n NULLs. */
  lemma RemoveFacts(s: seq<Color>, n: nat)
    requires FreeOf(s) + n <= |s|
    ensures |RemoveOf(s, n)| == |s|
    ensures multiset(RemoveOf(s, n)) + multiset(s[FreeOf(s)..FreeOf(s) + n])
         == multiset(s) + multiset(Repeat(NULL, n))
  {
    OverwriteCount(s, FreeOf(s), FreeOf(s) + n, NULL);
  }

  /** Clearing n slots of a packed container grows its NULL prefix by n and keeps it packed. */
  lemma RemovePacked(s: seq<Color>, n: nat)
    requires Packed(s) && FreeOf(s) + n <= |s|
    ensures Packed(RemoveOf(s, n))
    ensures FreeOf(RemoveOf(s, n)) == FreeOf(s) + n
  {
    FreeOfUnique(RemoveOf(s, n), FreeOf(s) + n);
  }

  /** The two facts RunLen ensures determine it. */
  lemma RunLenUnique(b: seq<Color>, c: Color, m: nat)
    requires m <= |b|
    requires forall i :: 0 <= i < m ==> b[i] == c
    requires m < |b| ==> b[m] != c
    ensures RunLen(b, c) == m
  {
  }

  /** On a packed container that is not empty, `top()` is the run at `FreeOf(s)`. */
  lemma TopAtFree(s: seq<Color>)
    requires Packed(s) && !AllNull(s)
    ensures FreeOf(s) < |s|
    ensures TopOf(s) == (Some(s[FreeOf(s)]), RunLen(s[FreeOf(s)..], s[FreeOf(s)]))
  {
    TopSome(s);
    NonNullPacked(s);
  }

  /** The first n slots of the run of `s[f]` starting at f, for n up to its length. */
  lemma RunSlice(s: seq<Color>, f: nat, n: nat)
    requires f < |s| && n <= RunLen(s[f..], s[f])
    ensures f + n <= |s|
    ensures s[f..f + n] == Repeat(s[f], n)
  {
    var b := s[f..];
    assert forall i :: 0 <= i < n ==> b[i] == s[f];
    assert s[f..f + n] == b[..n];
  }

  /** The first n blocks of the top run of a packed container all carry its colour. */
  lemma RunHead(s: seq<Color>, n: nat)
    requires Packed(s) && !AllNull(s) && n <= TopOf(s).1
    ensures FreeOf(s) + n <= |s|
    ensures s[FreeOf(s)..FreeOf(s) + n] == Repeat(s[FreeOf(s)], n)
  {
    TopAtFree(s);
    RunSlice(s, FreeOf(s), n);
  }

  /**
   * Removing part of the top run of a packed container leaves it packed, grows
   * its NULL prefix by n, and leaves the rest of the run on top.
   */
  lemma RemoveRun(s: seq<Color>, n: nat)
    requires Packed(s) && !AllNull(s) && n <= TopOf(s).1
    ensures FreeOf(s) + n <= |s|
    ensures s[FreeOf(s)..FreeOf(s) + n] == Repeat(s[FreeOf(s)], n)
    ensures Packed(RemoveOf(s, n))
    ensures FreeOf(RemoveOf(s, n)) == FreeOf(s) + n
    ensures n < TopOf(s).1 ==> TopOf(RemoveOf(s, n)) == (TopOf(s).0, TopOf(s).1 - n)
  {
    RunHead(s, n);
    RemovePacked(s, n);
    if n < TopOf(s).1 {
      RemoveRunRest(s, n);
    }
  }

  lemma RemoveRunRest(s: seq<Color>, n: nat)
    requires Packed(s) && !AllNull(s) && n < TopOf(s).1
    ensures FreeOf(s) + n <= |s|
    ensures TopOf(RemoveOf(s, n)) == (TopOf(s).0, TopOf(s).1 - n)
  {
    TopPacked(s);
    RemovePacked(s, n);
    var f := FreeOf(s);
    var k := TopOf(s).1;
    var r := RemoveOf(s, n);
    assert r[f + n..] == s[f + n..];
    assert r[f + n] == s[f] by {
      assert s[f..f + k][n] == s[f + n];
    }
    assert s[f] != NULL;
    assert !AllNull(r);
    TopAtFree(r);
    RunSuffix(s, f, k, n);
  }

  /** A run of k copies starting at f, seen from n slots further on, has k - n left. */
  lemma RunSuffix(s: seq<Color>, f: nat, k: nat, n: nat)
    requires n < k && f + k <= |s|
    requires s[f..f + k] == Repeat(s[f], k)
    requires f + k == |s| || s[f + k] != s[f]
    ensures RunLen(s[f + n..], s[f]) == k - n
  {
    var b := s[f + n..];
    forall i | 0 <= i < k - n ensures b[i] == s[f] {
      assert b[i] == s[f..f + k][n + i];
    }
    if f + k < |s| {
      assert b[k - n] == s[f + k];
    }
    RunLenUnique(b, s[f], k - n);
  }

  /** Filling n slots then removing n slots restores the container exactly. */
  lemma FillThenRemove(s: seq<Color>, c: Color, n: nat)
    requires n <= FreeOf(s) && c != NULL
    ensures FreeOf(FillOf(s, c, n)) + n <= |s|
    ensures RemoveOf(FillOf(s, c, n), n) == s
  {
    FillFacts(s, c, n);
    var f := FreeOf(s);
    var r := FillOf(s, c, n);
    var back := RemoveOf(r, n);
    assert forall i :: 0 <= i < |s| ==> back[i] == s[i] by {
      assert forall i :: f - n <= i < f ==> back[i] == NULL == s[i];
      assert forall i :: 0 <= i < |s| && !(f - n <= i < f) ==> r[i] == s[i];
    }
  }

  // ---------------------------------------------------------------------------
  // transfer_from

  /** Why `transfer_from` raises `IlegalMove`. */
  datatype Reason = NoFreeSpace | ColorMismatch

  /** Outcome of `transfer_from`: it returns normally or raises `IlegalMove`. */
  datatype Outcome = Ok | IlegalMove(reason: Reason)

  function Min(a: nat, b: nat): nat {
    if a <= b then a else b
  }

  /**
   * `dest.transfer_from(source)` on two distinct containers: the result and the
   * new slots of destination and source.
   */
  function TransferOf(dest: seq<Color>, source: seq<Color>): (Outcome, seq<Color>, seq<Color>) {
    if FreeOf(dest) == 0 then (IlegalMove(NoFreeSpace), dest, source)
    else
      var (color, count) := TopOf(source);
      if AllNull(dest) || TopOf(dest).0 == color then
        var n := Min(FreeOf(dest), count);
        TopCountBound(source);
        (Ok, if color.Some? then FillOf(dest, color.value, n) else dest, RemoveOf(source, n))
      else (IlegalMove(ColorMismatch), dest, source)
  }

  /** The top count never reaches into the NULL prefix: `remove` stays in range. */
  lemma TopCountBound(s: seq<Color>)
    ensures FreeOf(s) + TopOf(s).1 <= |s|
  {
    if !AllNull(s) {
      TopSome(s);
    } else {
      TopNone(s);
    }
  }

  /** The move is refused exactly in the two cases of the source, and then nothing changes. */
  lemma TransferRefused(dest: seq<Color>, source: seq<Color>)
    ensures var (r, d, s) := TransferOf(dest, source);
      && (r == IlegalMove(NoFreeSpace) <==> FreeOf(dest) == 0)
      && (r == IlegalMove(ColorMismatch) <==>
            FreeOf(dest) > 0 && !AllNull(dest) && TopOf(dest).0 != TopOf(source).0)
      && (r.IlegalMove? ==> d == dest && s == source)
  {
  }

  /** In particular an empty source never moves into a non-empty destination. */
  lemma TransferFromEmpty(dest: seq<Color>, source: seq<Color>)
    requires AllNull(source) && !AllNull(dest)
    ensures TransferOf(dest, source).0.IlegalMove?
    ensures TransferOf(dest, source).1 == dest && TransferOf(dest, source).2 == source
  {
    TopNone(source);
    if FreeOf(dest) > 0 {
      TopSome(dest);
    }
  }

  /** Moving zero blocks changes nothing. */
  lemma MoveNothing(s: seq<Color>, c: Color)
    ensures FillOf(s, c, 0) == s
    ensures RemoveOf(s, 0) == s
  {
  }

  /**
   * On the legal path with packed containers, exactly
   * `n = min(FreeOf(dest), top count of source)` blocks of the source's top
   * colour move; both containers stay packed, the two NULL prefixes shift by n,
   * and every colour keeps its total count over the two containers.
   */
  lemma TransferLegal(dest: seq<Color>, source: seq<Color>)
    requires |dest| == CAPACITY && |source| == CAPACITY
    requires Packed(dest) && Packed(source)
    requires TransferOf(dest, source).0 == Ok
    ensures var (_, d, s) := TransferOf(dest, source);
      var n := Min(FreeOf(dest), TopOf(source).1);
      && |d| == CAPACITY && |s| == CAPACITY
      && Packed(d) && Packed(s)
      && FreeOf(d) == FreeOf(dest) - n
      && FreeOf(s) == FreeOf(source) + n
      && multiset(d) + multiset(s) == multiset(dest) + multiset(source)
      && (n > 0 ==> d[FreeOf(d)..FreeOf(dest)] == Repeat(TopOf(source).0.value, n))
      && (n == 0 ==> d == dest && s == source)
  {
    if AllNull(source) {
      TopNone(source);
      MoveNothing(source, NULL);
    } else {
      TransferMoves(dest, source);
    }
  }

  lemma TransferMoves(dest: seq<Color>, source: seq<Color>)
    requires |dest| == CAPACITY && |source| == CAPACITY
    requires Packed(dest) && Packed(source) && !AllNull(source)
    requires TransferOf(dest, source).0 == Ok
    ensures var (_, d, s) := TransferOf(dest, source);
      var n := Min(FreeOf(dest), TopOf(source).1);
      && TopOf(source).0.Some?
      && |d| == CAPACITY && |s| == CAPACITY
      && Packed(d) && Packed(s)
      && FreeOf(d) == FreeOf(dest) - n
      && FreeOf(s) == FreeOf(source) + n
      && multiset(d) + multiset(s) == multiset(dest) + multiset(source)
      && (n > 0 ==> d[FreeOf(d)..FreeOf(dest)] == Repeat(TopOf(source).0.value, n))
      && (n == 0 ==> d == dest && s == source)
  {
    TopSome(source);
    var col := TopOf(source).0.value;
    var n := Min(FreeOf(dest), TopOf(source).1);
    var fd := FreeOf(dest);
    var d := FillOf(dest, col, n);
    var s := RemoveOf(source, n);
    assert TransferOf(dest, source) == (Ok, d, s);
    FillFacts(dest, col, n);
    RemoveRun(source, n);
    RemoveFacts(source, n);
    assert multiset(d) + multiset(s) == multiset(dest) + multiset(source) by {
      ConserveSum(multiset(d), multiset(s), multiset(dest), multiset(source),
                  multiset(Repeat(NULL, n)), multiset(Repeat(col, n)));
    }
    assert d[fd - n..fd] == Repeat(col, n);
    MoveNothing(dest, col);
    MoveNothing(source, col);
  }

  /** The multiset bookkeeping of a move: n NULLs and n blocks change places. */
  lemma ConserveSum(d: multiset<Color>, s: multiset<Color>, d0: multiset<Color>, s0: multiset<Color>,
                    nulls: multiset<Color>, blocks: multiset<Color>)
    requires d + nulls == d0 + blocks
    requires s + blocks == s0 + nulls
    ensures d + s == d0 + s0
  {
    forall x ensures (d + s)[x] == (d0 + s0)[x] {
      assert (d + nulls)[x] == (d0 + blocks)[x];
      assert (s + blocks)[x] == (s0 + nulls)[x];
    }
  }
}
