/**
  * Cutting audio into frames and frames into batches of patches: music-hub/src/audio.rs,
  * `frame_signal` and the patch loops of `embed_file`. Samples and band energies stay opaque.
  */
module Frames {
  import opened Wrappers

  const FRAME_SIZE: nat := 512
  const HOP_SIZE: nat := 256
  const N_BANDS: nat := 96
  const PATCH_SIZE: nat := 128
  const PATCH_HOP: nat := 62
  const BATCH: nat := 64

  // ---------------------------------------------------------------- frames

  /** Cell `c` of frame `k`: the first frame is centred on the first sample; outside is silence. */
  function Cell<T>(signal: seq<T>, silence: T, k: nat, c: nat): T {
    var i := k * HOP_SIZE - HOP_SIZE + c;
    if 0 <= i < |signal| then signal[i] else silence
  }

  ghost predicate IsFrame<T>(signal: seq<T>, silence: T, k: nat, frame: seq<T>) {
    |frame| == FRAME_SIZE && forall c: nat :: c < FRAME_SIZE ==> frame[c] == Cell(signal, silence, k, c)
  }

  /** One frame per hop, rounded up, and one more. */
  function FrameCount(n: nat): nat {
    (n + HOP_SIZE - 1) / HOP_SIZE + 1
  }

  method FrameSignal<T>(signal: seq<T>, silence: T) returns (frames: seq<seq<T>>)
    ensures |frames| == FrameCount(|signal|)
    ensures forall k :: 0 <= k < |frames| ==> IsFrame(signal, silence, k, frames[k])
  {
    var n := |signal|;
    var off := (FRAME_SIZE + 1) / 2;
    frames := [];
    var k := 0;
    while true
      invariant k == |frames| && (k > 0 ==> (k - 1) * HOP_SIZE < n)
      invariant forall j :: 0 <= j < |frames| ==> IsFrame(signal, silence, j, frames[j])
      decreases n + HOP_SIZE - k * HOP_SIZE
    {
      var start := -off + k * HOP_SIZE;
      if start >= n {
        break;
      }
      var frame := CutFrame(signal, silence, k, start);
      frames := frames + [frame];
      if start + FRAME_SIZE / 2 >= n {
        break;
      }
      k := k + 1;
    }
  }

  /** A frame of silence, with the samples the signal has for it copied in. */
  method CutFrame<T>(signal: seq<T>, silence: T, k: nat, start: int) returns (cells: seq<T>)
    requires start == k * HOP_SIZE - HOP_SIZE && start < |signal| + 1
    ensures IsFrame(signal, silence, k, cells)
  {
    var frame := new T[FRAME_SIZE](_ => silence);
    var s := Max(start, 0);
    var e := Max(Min(start + FRAME_SIZE, |signal|), 0);
    if e > s {
      var dst := s - start;
      for i := 0 to e - s
        invariant forall c :: 0 <= c < FRAME_SIZE ==>
          frame[c] == if dst <= c < dst + i then signal[start + c] else silence
      {
        frame[dst + i] := signal[s + i];
      }
    }
    cells := frame[..];
  }

  /** Every sample lies in exactly two frames, once in the second half of one and once in the first of the next. */
  lemma EachSampleTwice(n: nat, i: nat, k: nat, c: nat)
    requires i < n && k < FrameCount(n) && c < FRAME_SIZE
    ensures k * HOP_SIZE - HOP_SIZE + c == i
       <==> (k == i / HOP_SIZE && c == i % HOP_SIZE + HOP_SIZE) || (k == i / HOP_SIZE + 1 && c == i % HOP_SIZE)
    ensures i / HOP_SIZE + 1 < FrameCount(n)
  {
  }

  /** The frames hold the whole signal: it can be read back from either copy. */
  lemma SignalFromFrames<T>(signal: seq<T>, silence: T, frames: seq<seq<T>>, i: nat)
    requires |frames| == FrameCount(|signal|)
    requires forall k :: 0 <= k < |frames| ==> IsFrame(signal, silence, k, frames[k])
    requires i < |signal|
    ensures i / HOP_SIZE + 1 < |frames|
    ensures IsFrame(signal, silence, i / HOP_SIZE, frames[i / HOP_SIZE])
    ensures IsFrame(signal, silence, i / HOP_SIZE + 1, frames[i / HOP_SIZE + 1])
    ensures frames[i / HOP_SIZE][i % HOP_SIZE + HOP_SIZE] == signal[i]
    ensures frames[i / HOP_SIZE + 1][i % HOP_SIZE] == signal[i]
  {
    EachSampleTwice(|signal|, i, i / HOP_SIZE, i % HOP_SIZE + HOP_SIZE);
    EachSampleTwice(|signal|, i, i / HOP_SIZE + 1, i % HOP_SIZE);
    assert IsFrame(signal, silence, i / HOP_SIZE, frames[i / HOP_SIZE]);
    assert IsFrame(signal, silence, i / HOP_SIZE + 1, frames[i / HOP_SIZE + 1]);
  }

  /** Frames of 512 samples, 256 apart, the first half a frame early; as many as it takes to pass the end. */
  lemma FramesInNumbers<T>(signal: seq<T>, silence: T, k: nat, c: nat)
    requires c < 512
    ensures (FrameCount(|signal|) - 2) * 256 < |signal| <= (FrameCount(|signal|) - 1) * 256
    ensures Cell(signal, silence, k, c)
         == if 256 <= k * 256 + c < 256 + |signal| then signal[k * 256 + c - 256] else silence
    ensures forall frame :: IsFrame(signal, silence, k, frame) ==> |frame| == 512
  {
  }

  // ---------------------------------------------------------------- patches

  function PatchCount(nFrames: nat): nat {
    if nFrames < PATCH_SIZE then 0 else 1 + (nFrames - PATCH_SIZE) / PATCH_HOP
  }

  /** A window of frames is a patch exactly when all of it exists. */
  lemma PatchesAreTheWindows(nFrames: nat, q: nat)
    ensures q < PatchCount(nFrames) <==> q * PATCH_HOP + PATCH_SIZE <= nFrames
  {
  }

  const CELLS: nat := PATCH_SIZE * N_BANDS

  type Mel<T> = seq<seq<T>>

  ghost predicate HasBands<T>(mel: Mel<T>) {
    forall f :: 0 <= f < |mel| ==> |mel[f]| == N_BANDS
  }

  /** Patch `q`, its frames' bands one after the other. */
  ghost function Patch<T>(mel: Mel<T>, q: nat): (cells: seq<T>)
    requires HasBands(mel) && q < PatchCount(|mel|)
    ensures |cells| == CELLS
  {
    PatchesAreTheWindows(|mel|, q);
    seq(CELLS, x requires 0 <= x < CELLS => mel[q * PATCH_HOP + x / N_BANDS][x % N_BANDS])
  }

  /** Patches of 128 frames of 96 bands, 62 frames apart, as many as there is room for. */
  lemma PatchesInNumbers<T>(mel: Mel<T>, q: nat, f: nat, b: nat)
    requires HasBands(mel) && q < PatchCount(|mel|) && f < 128 && b < 96
    ensures q * 62 + 128 <= |mel| && |mel[q * 62 + f]| == 96
    ensures |Patch(mel, q)| == 128 * 96 && Patch(mel, q)[f * 96 + b] == mel[q * 62 + f][b]
    ensures |mel| < PatchCount(|mel|) * 62 + 128
  {
    PatchesAreTheWindows(|mel|, q);
    PatchesAreTheWindows(|mel|, PatchCount(|mel|));
    CellOfPatch(0, f, b);
  }

  /** The network, run on `bs` patches at once, and what it makes of each patch by itself. */
  ghost predicate PatchByPatch<T(!new)>(run: (seq<T>, nat) -> seq<T>, each: seq<T> -> seq<T>, dim: nat) {
    forall data, bs: nat :: |data| == bs * CELLS ==>
      && |run(data, bs)| == bs * dim
      && forall p: nat :: p < bs ==>
           p * dim + dim <= bs * dim && run(data, bs)[p * dim..p * dim + dim] == each(data[p * CELLS..p * CELLS + CELLS])
  }

  /** The sum over the first `q` patches, added up in order; addition need not be associative. */
  ghost function Summed<T>(mel: Mel<T>, q: nat, d: nat, each: seq<T> -> seq<T>, add: (T, T) -> T, zero: T): T
    requires HasBands(mel) && q <= PatchCount(|mel|)
    requires forall p: nat :: p < q ==> d < |each(Patch(mel, p))|
  {
    if q == 0 then zero
    else add(Summed(mel, q - 1, d, each, add, zero), each(Patch(mel, q - 1))[d])
  }

  // ---------------------------------------------------------------- batches

  /** Fills the tensor of one batch: `bs` patches from patch `cstart` on. */
  method FillBatch<T(0)>(mel: Mel<T>, cstart: nat, bs: nat) returns (data: array<T>)
    requires HasBands(mel) && cstart + bs <= PatchCount(|mel|)
    ensures fresh(data) && data.Length == bs * CELLS
    ensures HoldsPatches(mel, cstart, data[..], bs)
  {
    data := new T[bs * CELLS];
    for p := 0 to bs
      invariant HoldsPatches(mel, cstart, data[..], p)
    {
      ghost var before := data[..];
      FillPatch(mel, cstart + p, data, p);
      KeepsPatches(mel, cstart, before, data[..], p);
    }
  }

  /** Slot `q` of the tensor holds patch `cstart + q`. */
  ghost predicate SlotHolds<T>(mel: Mel<T>, cstart: nat, data: seq<T>, q: nat)
    requires HasBands(mel) && cstart + q < PatchCount(|mel|)
  {
    q * CELLS + CELLS <= |data| && data[q * CELLS..q * CELLS + CELLS] == Patch(mel, cstart + q)
  }

  ghost predicate HoldsPatches<T>(mel: Mel<T>, cstart: nat, data: seq<T>, n: nat)
    requires HasBands(mel) && cstart + n <= PatchCount(|mel|)
  {
    forall q: nat :: q < n ==> SlotHolds(mel, cstart, data, q)
  }

  lemma KeepsPatches<T>(mel: Mel<T>, cstart: nat, before: seq<T>, data: seq<T>, p: nat)
    requires HasBands(mel) && cstart + p + 1 <= PatchCount(|mel|)
    requires HoldsPatches(mel, cstart, before, p) && |before| == |data|
    requires forall x :: 0 <= x < p * CELLS && x < |data| ==> data[x] == before[x]
    requires SlotHolds(mel, cstart, data, p)
    ensures HoldsPatches(mel, cstart, data, p + 1)
  {
    forall q: nat | q < p ensures SlotHolds(mel, cstart, data, q) {
      SlotStays(mel, cstart, before, data, q, p);
    }
  }

  lemma SlotStays<T>(mel: Mel<T>, cstart: nat, before: seq<T>, data: seq<T>, q: nat, p: nat)
    requires HasBands(mel) && q < p && cstart + q < PatchCount(|mel|)
    requires SlotHolds(mel, cstart, before, q) && |before| == |data|
    requires forall x :: 0 <= x < p * CELLS && x < |data| ==> data[x] == before[x]
    ensures SlotHolds(mel, cstart, data, q)
  {
    assert q * CELLS + CELLS <= p * CELLS;
    assert before[q * CELLS..q * CELLS + CELLS] == data[q * CELLS..q * CELLS + CELLS];
  }

  method FillPatch<T>(mel: Mel<T>, q: nat, data: array<T>, p: nat)
    requires HasBands(mel) && q < PatchCount(|mel|) && p * CELLS + CELLS <= data.Length
    modifies data
    ensures data[p * CELLS..p * CELLS + CELLS] == Patch(mel, q)
    ensures forall x :: 0 <= x < p * CELLS || p * CELLS + CELLS <= x < data.Length ==> data[x] == old(data[x])
  {
    PatchesAreTheWindows(|mel|, q);
    var s := q * PATCH_HOP;
    for f := 0 to PATCH_SIZE
      invariant forall x :: 0 <= x < f * N_BANDS ==> data[p * CELLS + x] == Patch(mel, q)[x]
      invariant forall x :: 0 <= x < p * CELLS || p * CELLS + CELLS <= x < data.Length ==> data[x] == old(data[x])
    {
      for b := 0 to N_BANDS
        invariant forall x :: 0 <= x < f * N_BANDS + b ==> data[p * CELLS + x] == Patch(mel, q)[x]
        invariant forall x :: 0 <= x < p * CELLS || p * CELLS + CELLS <= x < data.Length ==> data[x] == old(data[x])
      {
        CellOfPatch(p, f, b);
        data[(p * PATCH_SIZE + f) * N_BANDS + b] := mel[s + f][b];
      }
    }
  }

  lemma CellOfPatch(p: nat, f: nat, b: nat)
    requires f < PATCH_SIZE && b < N_BANDS
    ensures (p * PATCH_SIZE + f) * N_BANDS + b == p * CELLS + (f * N_BANDS + b)
    ensures (f * N_BANDS + b) / N_BANDS == f && (f * N_BANDS + b) % N_BANDS == b
    ensures f * N_BANDS + b < CELLS
  {
  }

  /**
    * Sums the network's answers batch by batch. The sums are those of feeding every patch by
    * itself, in order and once; None when there is no whole patch.
    */
  method SumEmbeddings<T(0, !new)>(mel: Mel<T>, run: (seq<T>, nat) -> seq<T>, ghost each: seq<T> -> seq<T>, dim: nat,
                                   add: (T, T) -> T, zero: T)
    returns (sums: Option<seq<T>>)
    requires HasBands(mel) && PatchByPatch(run, each, dim)
    requires forall cells :: |cells| == CELLS ==> |each(cells)| == dim
    ensures sums.None? <==> |mel| < PATCH_SIZE
    ensures sums.Some? ==> |sums.value| == dim
    ensures sums.Some? ==>
      forall d :: 0 <= d < dim ==> sums.value[d] == Summed(mel, PatchCount(|mel|), d, each, add, zero)
  {
    var nPatches := PatchCount(|mel|);
    if nPatches == 0 {
      return None;
    }
    var sum := new T[dim](_ => zero);
    var nBatches := (nPatches + BATCH - 1) / BATCH;
    for bi := 0 to nBatches
      invariant fresh(sum)
      invariant forall d :: 0 <= d < dim ==> sum[d] == Summed(mel, Min(bi * BATCH, nPatches), d, each, add, zero)
    {
      var cstart := bi * BATCH;
      var bs := Min(nPatches - cstart, BATCH);
      var data := FillBatch(mel, cstart, bs);
      var emb := run(data[..], bs);
      AddBatch(mel, cstart, bs, data[..], emb, run, each, dim, add, zero, sum);
    }
    return Some(sum[..]);
  }

  /** What the network says of the patch in slot `p`. */
  lemma PatchAnswer<T(!new)>(mel: Mel<T>, cstart: nat, data: seq<T>, bs: nat, p: nat,
                             run: (seq<T>, nat) -> seq<T>, each: seq<T> -> seq<T>, dim: nat)
    requires HasBands(mel) && PatchByPatch(run, each, dim) && cstart + bs <= PatchCount(|mel|)
    requires |data| == bs * CELLS && HoldsPatches(mel, cstart, data, bs) && p < bs
    ensures p * dim + dim <= |run(data, bs)|
    ensures run(data, bs)[p * dim..p * dim + dim] == each(Patch(mel, cstart + p))
  {
    assert SlotHolds(mel, cstart, data, p);
  }

  method AddBatch<T(!new)>(ghost mel: Mel<T>, ghost cstart: nat, bs: nat, ghost data: seq<T>, emb: seq<T>,
                           ghost run: (seq<T>, nat) -> seq<T>, ghost each: seq<T> -> seq<T>, dim: nat,
                           add: (T, T) -> T, ghost zero: T, sum: array<T>)
    requires HasBands(mel) && PatchByPatch(run, each, dim) && cstart + bs <= PatchCount(|mel|)
    requires forall cells :: |cells| == CELLS ==> |each(cells)| == dim
    requires |data| == bs * CELLS && emb == run(data, bs) && sum.Length == dim
    requires HoldsPatches(mel, cstart, data, bs)
    requires forall d :: 0 <= d < dim ==> sum[d] == Summed(mel, cstart, d, each, add, zero)
    modifies sum
    ensures forall d :: 0 <= d < dim ==> sum[d] == Summed(mel, cstart + bs, d, each, add, zero)
  {
    for p := 0 to bs
      invariant forall d :: 0 <= d < dim ==> sum[d] == Summed(mel, cstart + p, d, each, add, zero)
    {
      PatchAnswer(mel, cstart, data, bs, p, run, each, dim);
      AddPatch(mel, cstart + p, p, emb, each, dim, add, zero, sum);
    }
  }

  /** The answer for one patch, the `p`-th of the batch, added cell by cell. */
  method AddPatch<T>(ghost mel: Mel<T>, ghost q: nat, p: nat, emb: seq<T>, ghost each: seq<T> -> seq<T>, dim: nat,
                     add: (T, T) -> T, ghost zero: T, sum: array<T>)
    requires HasBands(mel) && q < PatchCount(|mel|)
    requires forall cells :: |cells| == CELLS ==> |each(cells)| == dim
    requires p * dim + dim <= |emb| && emb[p * dim..p * dim + dim] == each(Patch(mel, q))
    requires sum.Length == dim
    requires forall d :: 0 <= d < dim ==> sum[d] == Summed(mel, q, d, each, add, zero)
    modifies sum
    ensures forall d :: 0 <= d < dim ==> sum[d] == Summed(mel, q + 1, d, each, add, zero)
  {
    for d := 0 to dim
      invariant forall c :: 0 <= c < dim ==> sum[c] == Summed(mel, if c < d then q + 1 else q, c, each, add, zero)
    {
      assert emb[p * dim + d] == emb[p * dim..p * dim + dim][d];
      sum[d] := add(sum[d], emb[p * dim + d]);
    }
  }
}
