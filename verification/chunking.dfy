/**
  `_chunk(data, n)` in ble_printer.py and the index loop of
  `_print_over_ble` in ble_escpos.py: the slices `data[i : i + n]` for
  `i` in `range(0, len(data), n)`.
*/
module Chunking {
  import opened Wrappers
  import opened Bytes

  function Min(a: int, b: int): int { if a <= b then a else b }

  /** The slices of `data`, in order, each `n` bytes long except perhaps the last. */
  function Slices(data: seq<byte>, n: nat): (r: seq<seq<byte>>)
    requires n > 0
    ensures forall k :: 0 <= k < |r| ==> 0 < |r[k]| <= n
    ensures r == [] <==> data == []
    decreases |data|
  {
    if data == [] then []
    else if |data| <= n then [data]
    else [data[..n]] + Slices(data[n..], n)
  }

  /** Joining the slices gives the data back. */
  lemma {:induction false} FlattenSlices(data: seq<byte>, n: nat)
    requires n > 0
    ensures Flatten(Slices(data, n)) == data
    decreases |data|
  {
    if data != [] && |data| > n {
      var r := Slices(data, n);
      assert r[1..] == Slices(data[n..], n);
      FlattenSlices(data[n..], n);
      assert data[..n] + data[n..] == data;
    } else if data != [] {
      assert Slices(data, n)[1..] == [];
    }
  }

  /** Every slice but the last is exactly `n` bytes long. */
  lemma {:induction false} SlicesFull(data: seq<byte>, n: nat)
    requires n > 0
    ensures forall k :: 0 <= k < |Slices(data, n)| - 1 ==> |Slices(data, n)[k]| == n
    decreases |data|
  {
    if |data| > n {
      SlicesFull(data[n..], n);
      var r := Slices(data, n);
      forall k | 0 <= k < |r| - 1 ensures |r[k]| == n {
        if k > 0 { assert r[k] == Slices(data[n..], n)[k - 1]; }
      }
    }
  }

  /** Slice k is `data[k*n : k*n + n]`, with Python's clamping at the end. */
  lemma {:induction false} SliceAt(data: seq<byte>, n: nat, k: nat)
    requires n > 0 && k < |Slices(data, n)|
    ensures k * n < |data|
    ensures Slices(data, n)[k] == data[k * n..Min(k * n + n, |data|)]
    decreases |data|
  {
    if k > 0 {
      assert |data| > n;
      var rest := data[n..];
      assert Slices(data, n)[k] == Slices(rest, n)[k - 1];
      SliceAt(rest, n, k - 1);
      var m := (k - 1) * n;
      assert n + m == k * n;
      ShiftSlice(data, n, m);
    }
  }

  /** A slice of `data[n..]` starting at m is the slice of `data` starting at n + m. */
  lemma ShiftSlice(data: seq<byte>, n: nat, m: nat)
    requires n + m < |data|
    ensures data[n..][m..Min(m + n, |data| - n)] == data[n + m..Min(n + m + n, |data|)]
  {
  }

  /** There are ceil(len(data) / n) slices. */
  lemma {:induction false} SlicesCount(data: seq<byte>, n: nat)
    requires n > 0
    ensures |Slices(data, n)| == (|data| + n - 1) / n
    decreases |data|
  {
    if data == [] {
      DivSmall(n - 1, n);
    } else if |data| <= n {
      DivOnce(|data| - 1, n);
    } else {
      SlicesCount(data[n..], n);
      DivStep(|data| - 1, n);
    }
  }

  lemma DivSmall(a: nat, n: nat)
    requires a < n
    ensures a / n == 0
  {
    DivUnique(a, n, 0, a);
  }

  lemma DivOnce(a: nat, n: nat)
    requires a < n
    ensures (a + n) / n == 1
  {
    DivUnique(a + n, n, 1, a);
  }

  lemma DivStep(a: nat, n: nat)
    requires n > 0 && a >= n
    ensures (a + n) / n == (a - n + n) / n + 1
  {
    var q := a / n;
    var r := a % n;
    assert a == q * n + r;
    assert a + n == (q + 1) * n + r;
    DivUnique(a + n, n, q + 1, r);
  }

  /** Euclid: quotient and remainder are unique. */
  lemma DivUnique(a: nat, n: nat, q: int, r: int)
    requires n > 0 && 0 <= r < n && a == q * n + r
    ensures a / n == q
  {
    var q' := a / n;
    var r' := a % n;
    assert a == q' * n + r';
    var d := q - q';
    assert d * n == r' - r;
    if d >= 1 {
      assert d * n == n + (d - 1) * n;
      MulNonNegative(d - 1, n);
    } else if d <= -1 {
      assert -d * n == n + (-d - 1) * n;
      MulNonNegative(-d - 1, n);
    }
  }

  lemma MulNonNegative(x: int, y: int)
    requires x >= 0 && y >= 0
    ensures x * y >= 0
  {
  }

  /** `range()` rejects a step of zero. */
  datatype ChunkError = ZeroStep

  /**
    `_chunk(data, n)`: a step of zero raises ValueError (when the loop
    starts), a negative step yields nothing, a positive step yields the
    slices, whose concatenation is `data`.
  */
  function Chunk(data: seq<byte>, n: int): (r: Result<seq<seq<byte>>, ChunkError>)
    ensures r.Failure? <==> n == 0
    ensures n < 0 ==> r == Success([])
    ensures n > 0 ==> r == Success(Slices(data, n)) && Flatten(r.value) == data
    ensures r.Success? ==> forall k :: 0 <= k < |r.value| ==> |r.value[k]| <= n
  {
    if n == 0 then Failure(ZeroStep)
    else if n < 0 then Success([])
    else
      FlattenSlices(data, n);
      Success(Slices(data, n))
  }

  /** The chunks a loop over `range(0, len(payload), n)` takes: the slices, none when `range()` raises or is empty. */
  function SessionChunks(payload: seq<byte>, n: int): (r: seq<seq<byte>>)
    ensures n > 0 ==> Flatten(r) == payload && |r| == (|payload| + n - 1) / n
    ensures n <= 0 ==> r == []
    ensures forall k :: 0 <= k < |r| ==> 0 < |r[k]| <= n
  {
    if n > 0 then SlicesCount(payload, n); FlattenSlices(payload, n); Slices(payload, n) else []
  }
}
