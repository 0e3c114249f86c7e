/** Diffusion kernels: the fixed offset/weight tables that say where a
    pixel's quantization error goes. The two scans of the program differ
    only in this table, so the kernel is a closed variant rather than a
    callback. */
module Kernels {

  datatype Option<+T> = None | Some(value: T)

  /** One kernel entry: the error times `weight / divisor` is added to the
      pixel `dr` rows below and `dc` columns to the right of the current one.
      `dr` is a `nat`: no kernel ever reaches back to an earlier row. */
  datatype Tap = Tap(dr: nat, dc: int, weight: nat)

  /** A target lies strictly later in row-major scan order than the pixel
      the error comes from, wherever that pixel is. */
  predicate Forward(t: Tap) {
    t.dr > 0 || (t.dr == 0 && t.dc > 0)
  }

  /** No two entries of a table aim at the same neighbour. */
  predicate DistinctOffsets(ts: seq<Tap>) {
    forall a, b :: 0 <= a < b < |ts| ==> ts[a].dr != ts[b].dr || ts[a].dc != ts[b].dc
  }

  /** The weight a table gives to offset (dr, dc), or None when no entry
      aims there. Searched from the end of the table. */
  function Lookup(ts: seq<Tap>, dr: int, dc: int): (w: Option<nat>)
    ensures w.None? <==> forall n :: 0 <= n < |ts| ==> ts[n].dr != dr || ts[n].dc != dc
    ensures w.Some? ==> exists n :: 0 <= n < |ts| && ts[n].dr == dr && ts[n].dc == dc && ts[n].weight == w.value
  {
    if |ts| == 0 then None
    else if ts[|ts| - 1].dr == dr && ts[|ts| - 1].dc == dc then Some(ts[|ts| - 1].weight)
    else Lookup(ts[..|ts| - 1], dr, dc)
  }

  function WeightSum(ts: seq<Tap>): nat {
    if |ts| == 0 then 0 else WeightSum(ts[..|ts| - 1]) + ts[|ts| - 1].weight
  }

  datatype Kernel = FloydSteinberg | Atkinson {

    /** The offset/weight table, in the order the program applies it. */
    function Taps(): seq<Tap>
    {
      match this
      case FloydSteinberg =>
        [Tap(0, 1, 7), Tap(1, -1, 3), Tap(1, 0, 5), Tap(1, 1, 1)]
      case Atkinson =>
        [Tap(0, 1, 1), Tap(0, 2, 1), Tap(1, -1, 1), Tap(1, 0, 1), Tap(1, 1, 1), Tap(2, 0, 1)]
    }

    /** The common divisor every weight is taken over. */
    function Divisor(): (d: nat)
      ensures d > 0
    {
      match this
      case FloydSteinberg => 16
      case Atkinson => 8
    }
  }

  /** Every entry of either table aims strictly forward in scan order with
      a positive weight, and no two entries aim at the same neighbour. */
  lemma TapsWellFormed(k: Kernel)
    ensures forall n :: 0 <= n < |k.Taps()| ==> Forward(k.Taps()[n]) && k.Taps()[n].weight > 0
    ensures DistinctOffsets(k.Taps())
  {
    var ts := k.Taps();
    forall n | 0 <= n < |ts|
      ensures Forward(ts[n]) && ts[n].weight > 0
    {
      match k
      case FloydSteinberg =>
        assert n == 0 || n == 1 || n == 2 || n == 3;
      case Atkinson =>
        assert n == 0 || n == 1 || n == 2 || n == 3 || n == 4 || n == 5;
    }
  }

  /** Floyd–Steinberg hands out the whole error (7+3+5+1 sixteenths);
      Atkinson hands out six eighths and discards the other two. */
  lemma KernelMass()
    ensures WeightSum(FloydSteinberg.Taps()) == FloydSteinberg.Divisor() == 16
    ensures WeightSum(Atkinson.Taps()) == 6 && Atkinson.Divisor() == 8
    ensures WeightSum(Atkinson.Taps()) < Atkinson.Divisor()
  {
    var fs := FloydSteinberg.Taps();
    assert WeightSum(fs[..1]) == 7 by { assert fs[..1][..0] == []; }
    assert WeightSum(fs[..2]) == 10 by { assert fs[..2][..1] == fs[..1]; }
    assert WeightSum(fs[..3]) == 15 by { assert fs[..3][..2] == fs[..2]; }
    assert WeightSum(fs) == 16 by { assert fs[..3] == fs[..|fs| - 1]; }
    var at := Atkinson.Taps();
    assert WeightSum(at[..1]) == 1 by { assert at[..1][..0] == []; }
    assert WeightSum(at[..2]) == 2 by { assert at[..2][..1] == at[..1]; }
    assert WeightSum(at[..3]) == 3 by { assert at[..3][..2] == at[..2]; }
    assert WeightSum(at[..4]) == 4 by { assert at[..4][..3] == at[..3]; }
    assert WeightSum(at[..5]) == 5 by { assert at[..5][..4] == at[..4]; }
    assert WeightSum(at) == 6 by { assert at[..5] == at[..|at| - 1]; }
  }

  /** In a table without repeated offsets, each entry's offset looks up
      that entry's weight. */
  lemma LookupEntry(ts: seq<Tap>, n: int)
    requires DistinctOffsets(ts) && 0 <= n < |ts|
    ensures Lookup(ts, ts[n].dr, ts[n].dc) == Some(ts[n].weight)
  {
    var w := Lookup(ts, ts[n].dr, ts[n].dc);
    var m :| 0 <= m < |ts| && ts[m].dr == ts[n].dr && ts[m].dc == ts[n].dc && ts[m].weight == w.value;
    assert m == n;
  }

  /** The weight each kernel gives to the neighbour at offset (dr, dc),
      neighbour by neighbour, or None for a neighbour it leaves alone. */
  function Weight(k: Kernel, dr: int, dc: int): Option<nat> {
    match k
    case FloydSteinberg =>
      if (dr, dc) == (0, 1) then Some(7)
      else if (dr, dc) == (1, -1) then Some(3)
      else if (dr, dc) == (1, 0) then Some(5)
      else if (dr, dc) == (1, 1) then Some(1)
      else None
    case Atkinson =>
      if (dr, dc) == (0, 1) || (dr, dc) == (0, 2) then Some(1)
      else if (dr, dc) == (1, -1) || (dr, dc) == (1, 0) || (dr, dc) == (1, 1) then Some(1)
      else if (dr, dc) == (2, 0) then Some(1)
      else None
  }

  /** Looking an offset up in a kernel's table agrees with the
      neighbour-by-neighbour weights. */
  lemma KernelTable(k: Kernel, dr: int, dc: int)
    ensures Lookup(k.Taps(), dr, dc) == Weight(k, dr, dc)
  {
    match k
    case FloydSteinberg => FloydSteinbergTable(dr, dc);
    case Atkinson => AtkinsonTable(dr, dc);
  }

  lemma FloydSteinbergTable(dr: int, dc: int)
    ensures Lookup(FloydSteinberg.Taps(), dr, dc) == Weight(FloydSteinberg, dr, dc)
  {
    var ts := FloydSteinberg.Taps();
    TapsWellFormed(FloydSteinberg);
    if (dr, dc) == (0, 1) {
      LookupEntry(ts, 0);
    } else if (dr, dc) == (1, -1) {
      LookupEntry(ts, 1);
    } else if (dr, dc) == (1, 0) {
      LookupEntry(ts, 2);
    } else if (dr, dc) == (1, 1) {
      LookupEntry(ts, 3);
    } else {
      forall n | 0 <= n < |ts|
        ensures ts[n].dr != dr || ts[n].dc != dc
      {
        assert n == 0 || n == 1 || n == 2 || n == 3;
      }
    }
  }

  lemma AtkinsonTable(dr: int, dc: int)
    ensures Lookup(Atkinson.Taps(), dr, dc) == Weight(Atkinson, dr, dc)
  {
    var ts := Atkinson.Taps();
    TapsWellFormed(Atkinson);
    if (dr, dc) == (0, 1) {
      LookupEntry(ts, 0);
    } else if (dr, dc) == (0, 2) {
      LookupEntry(ts, 1);
    } else if (dr, dc) == (1, -1) {
      LookupEntry(ts, 2);
    } else if (dr, dc) == (1, 0) {
      LookupEntry(ts, 3);
    } else if (dr, dc) == (1, 1) {
      LookupEntry(ts, 4);
    } else if (dr, dc) == (2, 0) {
      LookupEntry(ts, 5);
    } else {
      forall n | 0 <= n < |ts|
        ensures ts[n].dr != dr || ts[n].dc != dc
      {
        assert n == 0 || n == 1 || n == 2 || n == 3 || n == 4 || n == 5;
      }
    }
  }

  /** The origin itself is never a target, and no target is in an earlier
      row or earlier in the same row. */
  lemma NoBackwardTarget(k: Kernel, dr: int, dc: int)
    requires dr < 0 || (dr == 0 && dc <= 0)
    ensures Lookup(k.Taps(), dr, dc) == None
  {
    TapsWellFormed(k);
  }
}
