/** Which frames run the detector: every `skip_frames`-th successful read. */
module Sampling {

  /** `skip_frames` */
  const SkipFrames: nat := 2

  /** The frame numbered `n` (counting successful reads from 1) is passed to the detector. */
  predicate IsSampled(n: nat)
  {
    n % SkipFrames == 0
  }

  /** The numbers of the frames among 1..n that ran the detector, in order. */
  function SampledUpTo(n: nat): seq<nat>
  {
    if n == 0 then [] else SampledUpTo(n - 1) + (if IsSampled(n) then [n] else [])
  }

  /** Over n frames the detector runs floor(n / skip_frames) times, on frames skip_frames, 2 * skip_frames, ... */
  lemma {:induction false} SampledUpToExact(n: nat)
    ensures |SampledUpTo(n)| == n / SkipFrames
    ensures forall i :: 0 <= i < |SampledUpTo(n)| ==> SampledUpTo(n)[i] == SkipFrames * (i + 1)
  {
    if n > 0 {
      SampledUpToExact(n - 1);
    }
  }

  /** A frame is in the history exactly when it has been read and is sampled. */
  lemma {:induction false} SampledUpToMembers(n: nat, m: nat)
    ensures m in SampledUpTo(n) <==> 1 <= m <= n && IsSampled(m)
  {
    if n > 0 {
      SampledUpToMembers(n - 1, m);
    }
  }
}
