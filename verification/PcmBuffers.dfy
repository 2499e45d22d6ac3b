/**
  The loops over the frames of a buffer: pointers that move on by a stride, which can leave
  room for other channels between the samples of this one.
 */
module PcmBuffers {
  import opened Common
  import opened Division
  import opened Pcm

  // ------------------------------------------------------------------ on values

  /** All frames lie inside of a buffer of that length. */
  predicate Fits(length: nat, off: nat, step: nat, width: nat, frames: nat)
    decreases frames
  {
    frames == 0 || (off + width <= length && Fits(length, off + step, step, width, frames - 1))
  }

  function Splice<T>(b: seq<T>, off: nat, s: seq<T>): (r: seq<T>)
    requires off + |s| <= |b|
    ensures |r| == |b| && r[off..off + |s|] == s
    ensures forall i {:trigger r[i]} :: 0 <= i < |b| && !(off <= i < off + |s|) ==> r[i] == b[i]
  {
    b[..off] + s + b[off + |s|..]
  }

  /** The buffer after the samples were played into it. */
  function Played(f: Format, b: seq<Byte>, off: nat, step: nat, samples: seq<real>): (r: seq<Byte>)
    requires Fits(|b|, off, step, Width(f), |samples|)
    ensures |r| == |b|
    decreases |samples|
  {
    if |samples| == 0 then b
    else Played(f, Splice(b, off, Encode(f, samples[0])), off + step, step, samples[1..])
  }

  function Captured(f: Format, b: seq<Byte>, off: nat, step: nat, frames: nat): (r: seq<real>)
    requires Fits(|b|, off, step, Width(f), frames)
    ensures |r| == frames
    decreases frames
  {
    if frames == 0 then []
    else [Decode(f, b[off..off + Width(f)])] + Captured(f, b, off + step, step, frames - 1)
  }

  /** A byte belongs to one of the frames. */
  predicate Covered(i: int, off: nat, step: nat, width: nat, frames: nat)
    decreases frames
  {
    frames > 0 && (off <= i < off + width || Covered(i, off + step, step, width, frames - 1))
  }

  /** Bytes outside of the frames are not touched. */
  lemma {:induction false} OthersUntouched(f: Format, b: seq<Byte>, off: nat, step: nat, samples: seq<real>, i: nat)
    requires Fits(|b|, off, step, Width(f), |samples|) && i < |b|
    requires !Covered(i, off, step, Width(f), |samples|)
    ensures Played(f, b, off, step, samples)[i] == b[i]
    decreases |samples|
  {
    hide Encode, Width;
    if |samples| > 0 {
      OthersUntouched(f, Splice(b, off, Encode(f, samples[0])), off + step, step, samples[1..], i);
    }
  }

  lemma {:induction false} NotCovered(i: int, off: nat, step: nat, width: nat, frames: nat)
    requires i < off
    ensures !Covered(i, off, step, width, frames)
    decreases frames
  {
    if frames > 0 {
      NotCovered(i, off + step, step, width, frames - 1);
    }
  }

  /** The first frame holds the first sample. */
  lemma FirstFrame(f: Format, b: seq<Byte>, off: nat, step: nat, samples: seq<real>)
    requires |samples| > 0 && Fits(|b|, off, step, Width(f), |samples|) && step >= Width(f)
    ensures Played(f, b, off, step, samples)[off..off + Width(f)] == Encode(f, samples[0])
  {
    hide Encode, Width;
    var s, r := Splice(b, off, Encode(f, samples[0])), Played(f, b, off, step, samples);
    forall i | off <= i < off + Width(f)
      ensures r[i] == s[i]
    {
      NotCovered(i, off + step, step, Width(f), |samples| - 1);
      OthersUntouched(f, s, off + step, step, samples[1..], i);
    }
    assert r[off..off + Width(f)] == s[off..off + Width(f)];
  }

  function Levels(f: Format, samples: seq<real>): (r: seq<real>)
    ensures |r| == |samples|
  {
    seq(|samples|, k requires 0 <= k < |samples| => Level(f, samples[k]) as real / Peak(f) as real)
  }

  /** Capturing from a buffer what was played into it, with a common stride that leaves room for
      a sample, gives the level of every sample. */
  lemma {:induction false} StridedRoundTrip(f: Format, b: seq<Byte>, off: nat, step: nat, samples: seq<real>)
    requires Fits(|b|, off, step, Width(f), |samples|) && step >= Width(f)
    ensures Captured(f, Played(f, b, off, step, samples), off, step, |samples|) == Levels(f, samples)
    decreases |samples|
  {
    hide Encode, Decode, Width, Level, Peak;
    if |samples| > 0 {
      var s := Splice(b, off, Encode(f, samples[0]));
      var r := Played(f, b, off, step, samples);
      StridedRoundTrip(f, s, off + step, step, samples[1..]);
      FirstFrame(f, b, off, step, samples);
      RoundTrip(f, samples[0]);
      assert Levels(f, samples) == [Level(f, samples[0]) as real / Peak(f) as real] + Levels(f, samples[1..]);
    }
  }

  /** Playing again what was captured changes nothing. */
  lemma {:induction false} PlayedAgain(f: Format, b: seq<Byte>, off: nat, step: nat, samples: seq<real>)
    requires Fits(|b|, off, step, Width(f), |samples|) && step >= Width(f)
    ensures var r := Played(f, b, off, step, samples);
            Played(f, r, off, step, Captured(f, r, off, step, |samples|)) == r
    decreases |samples|
  {
    hide Encode, Decode, Width;
    if |samples| > 0 {
      var s := Splice(b, off, Encode(f, samples[0]));
      var r := Played(f, b, off, step, samples);
      FirstFrame(f, b, off, step, samples);
      Idempotent(f, samples[0]);
      var again := Captured(f, r, off, step, |samples|);
      assert Splice(r, off, Encode(f, again[0])) == r;
      assert again[1..] == Captured(f, r, off + step, step, |samples| - 1);
      PlayedAgain(f, s, off + step, step, samples[1..]);
    }
  }

  /** Every sample of a source with a stride of its own. */
  function Strided(src: seq<real>, at: nat, step: nat, frames: nat): (r: seq<real>)
    requires Fits(|src|, at, step, 1, frames)
    ensures |r| == frames
    decreases frames
  {
    if frames == 0 then [] else [src[at]] + Strided(src, at + step, step, frames - 1)
  }

  function Stored(d: seq<real>, off: nat, step: nat, values: seq<real>): (r: seq<real>)
    requires Fits(|d|, off, step, 1, |values|)
    ensures |r| == |d|
    decreases |values|
  {
    if |values| == 0 then d else Stored(d[off := values[0]], off + step, step, values[1..])
  }

  lemma FrameAt(off: nat, step: nat, k: nat)
    ensures k * step >= 0 && (k == 0 ==> k * step == 0)
    ensures k > 0 ==> off + k * step == off + step + (k - 1) * step
  {
  }

  /** The samples of a source, by where they stand. */
  lemma {:induction false} StridedAt(src: seq<real>, at: nat, step: nat, frames: nat, k: nat)
    requires Fits(|src|, at, step, 1, frames) && k < frames
    ensures 0 <= at + k * step < |src| && Strided(src, at, step, frames)[k] == src[at + k * step]
    decreases k
  {
    FrameAt(at, step, k);
    if k > 0 {
      StridedAt(src, at + step, step, frames - 1, k - 1);
    }
  }

  /** And the bytes of a buffer. */
  lemma {:induction false} CapturedAt(f: Format, b: seq<Byte>, off: nat, step: nat, frames: nat, k: nat)
    requires Fits(|b|, off, step, Width(f), frames) && k < frames
    ensures 0 <= off + k * step && off + k * step + Width(f) <= |b|
    ensures Captured(f, b, off, step, frames)[k] == Decode(f, b[off + k * step..off + k * step + Width(f)])
    decreases k
  {
    hide Width, Decode;
    FrameAt(off, step, k);
    if k > 0 {
      CapturedAt(f, b, off + step, step, frames - 1, k - 1);
    }
  }

  /** What is stored between the frames of the destination is not touched. */
  lemma {:induction false} StoredElsewhere(d: seq<real>, off: nat, step: nat, values: seq<real>, i: nat)
    requires Fits(|d|, off, step, 1, |values|) && i < |d| && !Covered(i, off, step, 1, |values|)
    ensures Stored(d, off, step, values)[i] == d[i]
    decreases |values|
  {
    if |values| > 0 {
      StoredElsewhere(d[off := values[0]], off + step, step, values[1..], i);
    }
  }

  /** The stored samples are found again where they were stored. */
  lemma {:induction false} StoredIs(d: seq<real>, off: nat, step: nat, values: seq<real>)
    requires Fits(|d|, off, step, 1, |values|) && step >= 1
    ensures Strided(Stored(d, off, step, values), off, step, |values|) == values
    decreases |values|
  {
    if |values| > 0 {
      var e := d[off := values[0]];
      StoredIs(e, off + step, step, values[1..]);
      NotCovered(off, off + step, step, 1, |values| - 1);
      StoredElsewhere(e, off + step, step, values[1..], off);
    }
  }

  /** So what Capture stores of what Play has written are the levels of the samples, in order, and
      it stores nothing else. */
  lemma CaptureAfterPlay(
    f: Format, src: seq<real>, at: nat, step: nat, b: seq<Byte>, off: nat, byteStep: nat, frames: nat,
    d: seq<real>, to: nat, toStep: nat)
    requires Fits(|src|, at, step, 1, frames) && Fits(|b|, off, byteStep, Width(f), frames)
    requires Fits(|d|, to, toStep, 1, frames) && byteStep >= Width(f) && toStep >= 1
    ensures var played := Played(f, b, off, byteStep, Strided(src, at, step, frames));
            var stored := Stored(d, to, toStep, Captured(f, played, off, byteStep, frames));
            && Strided(stored, to, toStep, frames) == Levels(f, Strided(src, at, step, frames))
            && forall i :: 0 <= i < |d| && !Covered(i, to, toStep, 1, frames) ==> stored[i] == d[i]
  {
    hide Width, Captured, Played, Levels;
    var samples := Strided(src, at, step, frames);
    var values := Captured(f, Played(f, b, off, byteStep, samples), off, byteStep, frames);
    StridedRoundTrip(f, b, off, byteStep, samples);
    StoredIs(d, to, toStep, values);
    forall i | 0 <= i < |d| && !Covered(i, to, toStep, 1, frames)
      ensures Stored(d, to, toStep, values)[i] == d[i]
    {
      StoredElsewhere(d, to, toStep, values, i);
    }
  }

  /** One round of the playing loop. */
  lemma PlayRound(f: Format, b: seq<Byte>, off: nat, step: nat, src: seq<real>, at: nat, srcStep: nat, frames: nat)
    requires frames > 0 && Fits(|src|, at, srcStep, 1, frames) && Fits(|b|, off, step, Width(f), frames)
    ensures var s := Splice(b, off, Encode(f, src[at]));
            Played(f, b, off, step, Strided(src, at, srcStep, frames))
            == Played(f, s, off + step, step, Strided(src, at + srcStep, srcStep, frames - 1))
  {
    hide Width, Encode;
    assert Strided(src, at, srcStep, frames)[1..] == Strided(src, at + srcStep, srcStep, frames - 1);
  }

  lemma PlayedNothing(f: Format, b: seq<Byte>, off: nat, step: nat, src: seq<real>, at: nat, srcStep: nat)
    ensures Played(f, b, off, step, Strided(src, at, srcStep, 0)) == b
  {
  }

  // ------------------------------------------------------------------ the loops

  /** `play_16le` to `play_32be`. */
  method Play(f: Format, src: seq<real>, at: nat, step: nat, dst: array<Byte>, off: nat, frames: nat, playStep: nat)
    returns (end: nat)
    requires Fits(|src|, at, step, 1, frames) && Fits(dst.Length, off, playStep, Width(f), frames)
    modifies dst
    ensures dst[..] == Played(f, old(dst[..]), off, playStep, Strided(src, at, step, frames))
    ensures end == off + frames * playStep
  {
    hide Width, Encode, Played, Strided;
    ghost var all := Played(f, dst[..], off, playStep, Strided(src, at, step, frames));
    var p: nat, n: nat := at, frames;
    end := off;
    while n > 0
      invariant end + n * playStep == off + frames * playStep
      invariant Fits(|src|, p, step, 1, n) && Fits(dst.Length, end, playStep, Width(f), n)
      invariant Played(f, dst[..], end, playStep, Strided(src, p, step, n)) == all
    {
      PlayRound(f, dst[..], end, playStep, src, p, step, n);
      OneFactorLess(n, playStep);
      n := n - 1;
      WriteBytes(dst, end, Encode(f, src[p]));
      end := end + playStep;
      p := p + step;
    }
    PlayedNothing(f, dst[..], end, playStep, src, p, step);
  }

  /** The bytes of one sample. */
  method WriteBytes(dst: array<Byte>, off: nat, bytes: seq<Byte>)
    requires off + |bytes| <= dst.Length
    modifies dst
    ensures dst[..] == Splice(old(dst[..]), off, bytes)
  {
    for i := 0 to |bytes|
      invariant forall j :: 0 <= j < i ==> dst[off + j] == bytes[j]
      invariant forall j :: 0 <= j < dst.Length && !(off <= j < off + i) ==> dst[j] == old(dst[j])
    {
      dst[off + i] := bytes[i];
    }
  }

  /** `capt_16le` to `capt_32be`. */
  method Capture(f: Format, src: seq<Byte>, at: nat, captStep: nat, dst: array<real>, off: nat, frames: nat, step: nat)
    returns (end: nat)
    requires Fits(|src|, at, captStep, Width(f), frames) && Fits(dst.Length, off, step, 1, frames)
    modifies dst
    ensures dst[..] == Stored(old(dst[..]), off, step, Captured(f, src, at, captStep, frames))
    ensures end == at + frames * captStep
  {
    hide Width, Decode;
    ghost var all := Stored(dst[..], off, step, Captured(f, src, at, captStep, frames));
    var p: nat, n: nat := off, frames;
    end := at;
    while n > 0
      invariant end + n * captStep == at + frames * captStep
      invariant Fits(|src|, end, captStep, Width(f), n) && Fits(dst.Length, p, step, 1, n)
      invariant Stored(dst[..], p, step, Captured(f, src, end, captStep, n)) == all
    {
      OneFactorLess(n, captStep);
      n := n - 1;
      ghost var before := dst[..];
      dst[p] := Decode(f, src[end..end + Width(f)]);
      assert dst[..] == before[p := dst[p]];
      assert Captured(f, src, end, captStep, n + 1)[1..] == Captured(f, src, end + captStep, captStep, n);
      p := p + step;
      end := end + captStep;
    }
  }

  // ------------------------------------------------------------------ silence

  function Silence(frames: nat): (r: seq<real>)
    ensures |r| == frames
  {
    seq(frames, _ => 0.0)
  }

  lemma SilentBytes(f: Format)
    ensures Encode(f, 0.0) == seq(Width(f), _ => 0)
  {
  }

  lemma SilentEnd(f: Format, b: seq<Byte>, off: nat, step: nat)
    ensures Played(f, b, off, step, Silence(0)) == b
  {
  }

  lemma SilentRound(f: Format, b: seq<Byte>, off: nat, step: nat, frames: nat)
    requires frames > 0 && Fits(|b|, off, step, Width(f), frames)
    ensures Played(f, b, off, step, Silence(frames))
         == Played(f, Splice(b, off, seq(Width(f), _ => 0)), off + step, step, Silence(frames - 1))
  {
    SilentBytes(f);
    assert Silence(frames)[1..] == Silence(frames - 1);
  }

  /** `clear_16` to `clear_32` leave what playing silence would. */
  method Clear(f: Format, dst: array<Byte>, off: nat, frames: nat, playStep: nat) returns (end: nat)
    requires Fits(dst.Length, off, playStep, Width(f), frames)
    modifies dst
    ensures dst[..] == Played(f, old(dst[..]), off, playStep, Silence(frames))
    ensures end == off + frames * playStep
  {
    hide Width, Encode, Played;
    ghost var all := Played(f, dst[..], off, playStep, Silence(frames));
    var n: nat := frames;
    end := off;
    while n > 0
      invariant end + n * playStep == off + frames * playStep
      invariant Fits(dst.Length, end, playStep, Width(f), n)
      invariant Played(f, dst[..], end, playStep, Silence(n)) == all
    {
      SilentRound(f, dst[..], end, playStep, n);
      n := n - 1;
      WriteBytes(dst, end, seq(Width(f), _ => 0));
      end := end + playStep;
    }
    SilentEnd(f, dst[..], end, playStep);
  }
}
