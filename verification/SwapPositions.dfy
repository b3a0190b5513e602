/**
 Where byte swapping moves each byte (libndarray/src/npy_ctors.c), and for which
 strides, counts and sizes swapping twice restores every buffer.
 */
module SwapPositions {
  import opened ByteSwap

  /** Where reversing the `size` places from `p` on moves place `x`. */
  function Flip(x: int, p: int, size: int): int {
    if p <= x < p + size then 2 * p + size - 1 - x else x
  }

  /** Where reversing the elements one after the other moves it. */
  function Moved(x: int, p: int, stride: int, n: int, size: int): int
    decreases n
  {
    if n <= 0 then x else Moved(Flip(x, p, size), p + stride, stride, n - 1, size)
  }

  lemma {:induction false} SwapAllMoves(s: seq<byte>, p: int, stride: int, n: int, size: int, i: int)
    requires InBuffer(|s|, p, stride, n, size) && 0 <= i < |s|
    ensures 0 <= Moved(i, p, stride, n, size) < |s|
    ensures SwapAll(s, p, stride, n, size)[Moved(i, p, stride, n, size)] == s[i]
    decreases n
  {
    if n > 0 {
      Later(|s|, p, stride, n, size);
      var j := Flip(i, p, size);
      ReversedAt(s, p, size, j);
      SwapAllMoves(Reversed(s, p, size), p + stride, stride, n - 1, size, j);
    }
  }

  /** Every buffer of a length comes back after two rounds. */
  ghost predicate Restored(length: nat, p: int, stride: int, n: int, size: int)
    requires InBuffer(length, p, stride, n, size)
  {
    forall s: seq<byte> :: |s| == length ==> Twice(s, p, stride, n, size) == s
  }

  function Twice(s: seq<byte>, p: int, stride: int, n: int, size: int): (r: seq<byte>)
    requires InBuffer(|s|, p, stride, n, size)
    ensures |r| == |s|
  {
    SwapAll(SwapAll(s, p, stride, n, size), p, stride, n, size)
  }

  function MovedTwice(x: int, p: int, stride: int, n: int, size: int): int {
    Moved(Moved(x, p, stride, n, size), p, stride, n, size)
  }

  lemma TwiceMoves(s: seq<byte>, p: int, stride: int, n: int, size: int, i: int)
    requires InBuffer(|s|, p, stride, n, size) && 0 <= i < |s|
    ensures 0 <= MovedTwice(i, p, stride, n, size) < |s|
    ensures Twice(s, p, stride, n, size)[MovedTwice(i, p, stride, n, size)] == s[i]
  {
    SwapAllMoves(s, p, stride, n, size, i);
    SwapAllMoves(SwapAll(s, p, stride, n, size), p, stride, n, size, Moved(i, p, stride, n, size));
  }

  /** Buffers come back exactly if places do. */
  lemma RestoredPlaces(length: nat, p: int, stride: int, n: int, size: int)
    requires InBuffer(length, p, stride, n, size)
    ensures Restored(length, p, stride, n, size)
            <==> forall i :: 0 <= i < length ==> MovedTwice(i, p, stride, n, size) == i
  {
    hide InBuffer, Moved, SwapAll, MovedTwice, Twice;
    if forall i :: 0 <= i < length ==> MovedTwice(i, p, stride, n, size) == i {
      forall s: seq<byte> | |s| == length ensures Twice(s, p, stride, n, size) == s {
        forall i | 0 <= i < length ensures Twice(s, p, stride, n, size)[i] == s[i] {
          TwiceMoves(s, p, stride, n, size, i);
        }
      }
    }
    if Restored(length, p, stride, n, size) {
      forall i | 0 <= i < length ensures MovedTwice(i, p, stride, n, size) == i {
        var s: seq<byte> := seq(length, j => if j == i then 1 else 0);
        TwiceMoves(s, p, stride, n, size, i);
      }
    }
  }

  // ----- Places under a positive stride smaller than the size

  /** A place before all windows stays, and no other place gets there. */
  lemma {:induction false} Below(t: int, x: int, p: int, d: int, n: int, size: int)
    requires t < p && d >= 0
    ensures Moved(x, p, d, n, size) == t <==> x == t
    decreases n
  {
    if n > 0 {
      Below(t, Flip(x, p, size), p + d, d, n - 1, size);
    }
  }

  /** A place early in the first window climbs from window to window. */
  lemma {:induction false} Climb(c: int, p: int, d: int, n: int, size: int)
    requires 0 <= c && 0 < d && c + d <= size - 1 && n >= 1
    ensures Moved(p + c, p, d, n, size)
            == if n % 2 == 0 then Base(p, d, n) + c else Base(p, d, n - 1) + size - 1 - c
    decreases n
  {
    hide Base;
    BaseSteps(p, d, 0);
    var y := Flip(p + c, p, size);
    assert y == p + size - 1 - c;
    if n == 1 {
      assert Moved(y, p + d, d, 0, size) == y;
    } else {
      var z := Flip(y, p + d, size);
      assert z == p + d + d + c;
      BaseSteps(p + d, d, n - 2);
      BaseSteps(p, d, n - 1);
      if n == 2 {
        BaseSteps(p + d + d, d, 0);
        assert Moved(z, p + d + d, d, 0, size) == z;
      } else {
        Climb(c, p + d + d, d, n - 2, size);
        BaseSteps(p + d, d, n - 3);
        BaseSteps(p, d, n - 2);
      }
    }
  }

  /** The first place only comes back over the last place of the first window, the
      second place over the one before it. */
  lemma ComesFrom(c: int, x: int, p: int, d: int, n: int, size: int)
    requires 0 <= c < d && c < size && n >= 1
    ensures Moved(x, p, d, n, size) == p + c <==> x == p + size - 1 - c
  {
    Below(p + c, Flip(x, p, size), p + d, d, n - 1, size);
  }

  lemma BaseIs(p: int, d: int, n: int)
    ensures Base(p, d, n) == p + n * d
  {
  }

  /** Overlapping elements under a positive stride: only a half rotation works. */
  lemma OverlapFails(p: int, d: int, n: int, size: int)
    requires 0 < d < size && n >= 2 && !(d == 1 && n == size - 1 && n % 2 == 0)
    ensures MovedTwice(p, p, d, n, size) != p || (d >= 2 && MovedTwice(p + 1, p, d, n, size) != p + 1)
  {
    Climb(0, p, d, n, size);
    ComesFrom(0, Moved(p, p, d, n, size), p, d, n, size);
    BaseIs(p, d, n);
    BaseIs(p, d, n - 1);
    Product(n - 1, d);
    if n % 2 == 0 && n * d == size - 1 && d >= 2 {
      Product(n, d);
      Climb(1, p, d, n, size);
      ComesFrom(1, Moved(p + 1, p, d, n, size), p, d, n, size);
    }
  }

  lemma Product(n: int, d: int)
    requires n >= 1 && d >= 1
    ensures n * d >= d && n * d >= n
    ensures n * d == n <==> d == 1
  {
    assert n * d - d == (n - 1) * d;
    assert n * d - n == n * (d - 1);
  }

  // ----- The half rotation

  /** A place past the first window falls into the window that it ends. */
  lemma {:induction false} Fall(j: int, p: int, n: int, size: int)
    requires 0 <= j < n && size >= 1
    ensures Moved(p + size - 1 + j, p, 1, n, size) == p + j
    decreases n
  {
    if j == 0 {
      Below(p, p, p + 1, 1, n - 1, size);
    } else {
      Fall(j - 1, p + 1, n - 1, size);
    }
  }

  /** A place past all windows stays. */
  lemma {:induction false} Beyond(x: int, p: int, n: int, size: int)
    requires n >= 1 && x >= p + n - 1 + size
    ensures Moved(x, p, 1, n, size) == x
    decreases n
  {
    if n > 1 {
      Beyond(x, p + 1, n - 1, size);
    }
  }

  /** An even number `n` of elements of `n + 1` bytes, one byte apart, exchanges the
      two halves of the `2 * n` bytes. */
  lemma HalfRotation(x: int, p: int, n: int)
    requires n >= 2 && n % 2 == 0
    ensures Moved(x, p, 1, n, n + 1)
            == if p <= x < p + n then x + n else if p + n <= x < p + 2 * n then x - n else x
  {
    if x < p {
      Below(x, x, p, 1, n, n + 1);
    } else if x < p + n {
      Climb(x - p, p, 1, n, n + 1);
      BaseIs(p, 1, n);
    } else if x < p + 2 * n {
      Fall(x - p - n, p, n, n + 1);
    } else {
      Beyond(x, p, n, n + 1);
    }
  }

  // ----- Stride zero and negative strides

  lemma {:induction false} SamePlace(x: int, p: int, n: int, size: int)
    ensures Moved(x, p, 0, n, size) == if n <= 0 || n % 2 == 0 then x else Flip(x, p, size)
    decreases n
  {
    if n > 0 {
      SamePlace(Flip(x, p, size), p, n - 1, size);
    }
  }

  /** Looking at the buffer from its other end. */
  lemma {:induction false} MirrorMoved(x: int, p: int, stride: int, n: int, size: int)
    ensures Moved(-x, -(p + size - 1), -stride, n, size) == -Moved(x, p, stride, n, size)
    decreases n
  {
    if n > 0 {
      MirrorMoved(Flip(x, p, size), p + stride, stride, n - 1, size);
    }
  }

  lemma MirrorTwice(x: int, p: int, stride: int, n: int, size: int)
    ensures MovedTwice(-x, -(p + size - 1), -stride, n, size) == -MovedTwice(x, p, stride, n, size)
  {
    MirrorMoved(x, p, stride, n, size);
    MirrorMoved(Moved(x, p, stride, n, size), p, stride, n, size);
  }

  // ----- The exact condition

  /** An even number of elements, one byte apart and one byte longer than their
      number. */
  predicate HalfTurn(stride: int, n: int, size: int) {
    (stride == 1 || stride == -1) && n == size - 1 && n % 2 == 0
  }

  lemma HalfTurnReturns(x: int, p: int, stride: int, n: int, size: int)
    requires HalfTurn(stride, n, size) && n >= 2
    ensures MovedTwice(x, p, stride, n, size) == x
  {
    if stride == 1 {
      HalfRotation(x, p, n);
      HalfRotation(Moved(x, p, 1, n, size), p, n);
    } else {
      var q := -(p + size - 1);
      MirrorTwice(x, p, -1, n, size);
      HalfRotation(-x, q, n);
      HalfRotation(Moved(-x, q, 1, n, size), q, n);
    }
  }

  /** A byte of the first element that does not come back. */
  lemma Witness(p: int, stride: int, n: int, size: int) returns (i: int)
    requires !Apart(stride, n, size) && stride != 0 && !HalfTurn(stride, n, size) && size >= 0
    ensures p <= i < p + size && MovedTwice(i, p, stride, n, size) != i
  {
    hide Moved, MovedTwice;
    if stride > 0 {
      OverlapFails(p, stride, n, size);
      i := if MovedTwice(p, p, stride, n, size) != p then p else p + 1;
    } else {
      var q := -(p + size - 1);
      OverlapFails(q, -stride, n, size);
      MirrorTwice(-q, p, stride, n, size);
      MirrorTwice(-(q + 1), p, stride, n, size);
      i := if MovedTwice(q, q, -stride, n, size) != q then -q else -(q + 1);
    }
  }

  /** Swapping twice restores every buffer if and only if the elements do not
      overlap, or all lie in the same place, or make up a half rotation. */
  lemma SwapTwiceExact(length: nat, p: int, stride: int, n: int, size: int)
    requires InBuffer(length, p, stride, n, size)
    ensures Restored(length, p, stride, n, size)
            <==> Apart(stride, n, size) || stride == 0 || HalfTurn(stride, n, size)
  {
    RestoredPlaces(length, p, stride, n, size);
    if Apart(stride, n, size) {
      forall s: seq<byte> | |s| == length ensures Twice(s, p, stride, n, size) == s {
        SwapTwice(s, p, stride, n, size);
      }
    } else if stride == 0 {
      forall i ensures MovedTwice(i, p, stride, n, size) == i {
        SamePlace(i, p, n, size);
        SamePlace(Moved(i, p, 0, n, size), p, n, size);
      }
    } else if HalfTurn(stride, n, size) {
      forall i ensures MovedTwice(i, p, stride, n, size) == i {
        HalfTurnReturns(i, p, stride, n, size);
      }
    } else {
      var i := Witness(p, stride, n, size);
      BaseIs(p, stride, 0);
      assert 0 <= Base(p, stride, 0) && Base(p, stride, 0) + size <= length;
    }
  }
}
