/**
 Facts about the processor over a whole stream of samples: the block-concatenation
 law, the counting law for the fill index and the number of analysed windows, the
 contents of each analysed window, and what the event list, the repaint flag and
 the spectrogram's top row do over time.
 */
module Stream {
  import opened Layout
  import opened Spectrogram
  import opened Processor

  /** Pushing `a ++ b` is pushing `a` and then `b`. */
  lemma {:induction false} PushAllAppend(nums: Numerics, s: ProcessorState, a: seq<real>, b: seq<real>)
    requires Valid(s)
    ensures PushAll(nums, s, a + b) == PushAll(nums, PushAll(nums, s, a), b)
    decreases |b|
  {
    if b == [] {
      assert a + b == a;
    } else {
      var b' := b[..|b| - 1];
      assert (a + b)[..|a + b| - 1] == a + b';
      assert (a + b)[|a + b| - 1] == b[|b| - 1];
      PushAllAppend(nums, s, a, b');
    }
  }

  /** Processing block A and then block B ends in the state processing A's samples followed by B's reaches. */
  lemma ProcessBlockSequential(nums: Numerics, s: ProcessorState, a: AudioBuffer, b: AudioBuffer)
    requires Valid(s)
    requires |a.channels| > 0 && |b.channels| > 0
    ensures ProcessBlock(nums, ProcessBlock(nums, s, a), b)
         == ProcessBlock(nums, s, AudioBuffer([a.channels[0] + b.channels[0]]))
  {
    PushAllAppend(nums, s, a.channels[0], b.channels[0]);
  }

  /** The number of windows analysed after `k` pushes from a fresh processor. */
  function WindowsAfter(k: nat): nat {
    if k == 0 then 0 else (k - 1) / FftSize
  }

  /** The fill index after `k` pushes from a fresh processor. */
  function IndexAfter(k: nat): (i: nat)
    ensures i <= FftSize
    ensures k > 0 ==> 1 <= i
  {
    if k == 0 then 0 else (k - 1) % FftSize + 1
  }

  /** One more push: either the index wraps and one more window is counted, or the index steps. */
  lemma CountStep(k: nat)
    ensures IndexAfter(k) == FftSize ==> IndexAfter(k + 1) == 1 && WindowsAfter(k + 1) == WindowsAfter(k) + 1
    ensures IndexAfter(k) < FftSize ==> IndexAfter(k + 1) == IndexAfter(k) + 1 && WindowsAfter(k + 1) == WindowsAfter(k)
  {
    if k > 0 {
      var q, r := (k - 1) / FftSize, (k - 1) % FftSize;
      assert k - 1 == q * FftSize + r;
      if r == FftSize - 1 {
        assert k == (q + 1) * FftSize;
        assert k / FftSize == q + 1 && k % FftSize == 0;
      } else {
        assert k == q * FftSize + (r + 1);
        assert k / FftSize == q && k % FftSize == r + 1;
      }
    }
  }

  /**
   The counting law: after `k` pushes from a fresh processor the index is
   `((k - 1) mod N) + 1` (0 when `k = 0`) and `(k - 1) div N` windows have produced
   an event, since a window fires only on a push that finds the index at N.
   */
  lemma {:induction false} CountingLaw(nums: Numerics, samples: seq<real>)
    ensures PushAll(nums, Init(), samples).fifoIndex == IndexAfter(|samples|)
    ensures |PushAll(nums, Init(), samples).events| == WindowsAfter(|samples|)
    decreases |samples|
  {
    if samples != [] {
      var k := |samples| - 1;
      CountingLaw(nums, samples[..k]);
      CountStep(k);
    }
  }

  /** After `N * m` pushes the FIFO is full and `m - 1` windows are done; the next push is the m-th analysis. */
  lemma FullAfterWholeWindows(nums: Numerics, samples: seq<real>, m: nat)
    requires m >= 1 && |samples| == m * FftSize
    ensures Fires(PushAll(nums, Init(), samples))
    ensures |PushAll(nums, Init(), samples).events| == m - 1
  {
    CountingLaw(nums, samples);
    assert |samples| - 1 == (m - 1) * FftSize + (FftSize - 1);
  }

  /** The FIFO's occupied part holds the newest samples of `history`. */
  ghost predicate HoldsRecent(s: ProcessorState, history: seq<real>)
    requires Valid(s)
  {
    s.fifoIndex <= |history| && s.fifo[..s.fifoIndex] == history[|history| - s.fifoIndex..]
  }

  /**
   Writing `sample` into slot `i` of a FIFO whose first `i` slots hold the newest `i`
   samples of `history` makes its first `i + 1` slots the newest of `history + [sample]`.
   */
  lemma SlotWriteExtendsRecent(before: seq<real>, after: seq<real>, i: nat, history: seq<real>, sample: real)
    requires i < |before| == |after| && i <= |history|
    requires before[..i] == history[|history| - i..]
    requires after[i] == sample
    requires forall j :: 0 <= j < i ==> after[j] == before[j]
    ensures after[..i + 1] == (history + [sample])[|history| - i..]
  {
    assert after[..i] == before[..i];
    assert after[..i + 1] == after[..i] + [sample];
    assert (history + [sample])[|history| - i..] == history[|history| - i..] + [sample];
  }

  /** One push keeps the occupied part equal to the newest samples, the pushed one last. */
  lemma PushKeepsRecent(nums: Numerics, s: ProcessorState, history: seq<real>, sample: real)
    requires Valid(s) && HoldsRecent(s, history)
    ensures HoldsRecent(Push(nums, s, sample), history + [sample])
  {
    var t := Push(nums, s, sample);
    var i: nat := if Fires(s) then 0 else s.fifoIndex;
    assert t.fifoIndex == i + 1;
    SlotWriteExtendsRecent(s.fifo, t.fifo, i, history, sample);
  }

  /**
   The occupied part of the FIFO holds exactly the most recent samples, in push order:
   the ones pushed since the index last restarted.
   */
  lemma {:induction false} FifoHoldsRecentSamples(nums: Numerics, samples: seq<real>)
    ensures HoldsRecent(PushAll(nums, Init(), samples), samples)
    decreases |samples|
  {
    if samples != [] {
      var k := |samples| - 1;
      FifoHoldsRecentSamples(nums, samples[..k]);
      PushKeepsRecent(nums, PushAll(nums, Init(), samples[..k]), samples[..k], samples[k]);
      assert samples[..k] + [samples[k]] == samples;
    }
  }

  /**
   Frame isolation: when a push fires, the transform sees exactly the last N samples
   pushed, followed by N zeros; nothing from an earlier window survives.
   */
  lemma AnalysedWindowIsLastSamples(nums: Numerics, samples: seq<real>, next: real)
    requires Fires(PushAll(nums, Init(), samples))
    ensures |samples| >= FftSize && |samples| % FftSize == 0
    ensures PushAll(nums, Init(), samples + [next]).fftData
         == Transform(nums, samples[|samples| - FftSize..] + Zeros(FftSize))
  {
    var s := PushAll(nums, Init(), samples);
    CountingLaw(nums, samples);
    FullIndexMeansWholeWindows(|samples|);
    FifoHoldsRecentSamples(nums, samples);
    assert s.fifo == s.fifo[..FftSize] == samples[|samples| - FftSize..];
    assert (samples + [next])[..|samples|] == samples;
    assert PushAll(nums, Init(), samples + [next]) == Push(nums, s, next);
  }

  /** The index is at N exactly after a positive whole number of windows' worth of pushes. */
  lemma FullIndexMeansWholeWindows(k: nat)
    requires IndexAfter(k) == FftSize
    ensures k >= FftSize && k % FftSize == 0
  {
    var q := (k - 1) / FftSize;
    assert k - 1 == q * FftSize + (FftSize - 1);
    assert k == (q + 1) * FftSize;
  }

  /** The processor only appends to the event list, and only the note-on events of fired windows. */
  lemma {:induction false} EventsOnlyGrow(nums: Numerics, s: ProcessorState, samples: seq<real>)
    requires Valid(s)
    ensures var t := PushAll(nums, s, samples);
            |s.events| <= |t.events| && t.events[..|s.events|] == s.events
    ensures var t := PushAll(nums, s, samples);
            forall j :: |s.events| <= j < |t.events| ==>
              t.events[j].channel == 0 && t.events[j].velocity == 0.5 && t.events[j].sampleOffset == 0
    decreases |samples|
  {
    if samples != [] {
      var k := |samples| - 1;
      EventsOnlyGrow(nums, s, samples[..k]);
      var m := PushAll(nums, s, samples[..k]);
      var t := PushAll(nums, s, samples);
      assert t == Push(nums, m, samples[k]);
      if Fires(m) {
        assert t.events[..|s.events|] == t.events[..|m.events|][..|s.events|];
      }
    }
  }

  /** Events from a later block come after those of an earlier one: window-completion order. */
  lemma EventsInCompletionOrder(nums: Numerics, s: ProcessorState, a: seq<real>, b: seq<real>)
    requires Valid(s)
    ensures var ta := PushAll(nums, s, a);
            var tab := PushAll(nums, s, a + b);
            |ta.events| <= |tab.events| && tab.events[..|ta.events|] == ta.events
  {
    PushAllAppend(nums, s, a, b);
    EventsOnlyGrow(nums, PushAll(nums, s, a), b);
  }

  /** The repaint flag is only ever raised: it is set afterwards iff it was set before or a window fired. */
  lemma {:induction false} RepaintFlagIffWindowFired(nums: Numerics, s: ProcessorState, samples: seq<real>)
    requires Valid(s)
    ensures var t := PushAll(nums, s, samples);
            t.mustRepaint <==> s.mustRepaint || |t.events| > |s.events|
    decreases |samples|
  {
    if samples != [] {
      var k := |samples| - 1;
      RepaintFlagIffWindowFired(nums, s, samples[..k]);
      EventsOnlyGrow(nums, s, samples[..k]);
    }
  }

  /** A fresh processor never raises the flag before the first analysis, i.e. within N pushes. */
  lemma NoRepaintWithinFirstWindow(nums: Numerics, samples: seq<real>)
    requires |samples| <= FftSize
    ensures !PushAll(nums, Init(), samples).mustRepaint
    ensures PushAll(nums, Init(), samples).events == []
  {
    CountingLaw(nums, samples);
    assert WindowsAfter(|samples|) == 0 by {
      FftSizeIsPowerOfTwo();
    }
    RepaintFlagIffWindowFired(nums, Init(), samples);
  }

  /**
   Row 0 is never painted and the scroll moves it along unchanged, so a processor
   created with a black image keeps a black top row forever; the image size never changes.
   */
  lemma {:induction false} TopRowStaysBlack(nums: Numerics, samples: seq<real>)
    ensures WellFormed(PushAll(nums, Init(), samples).spectrogram)
    ensures TopRowIs(PushAll(nums, Init(), samples).spectrogram, Black)
    decreases |samples|
  {
    if samples != [] {
      var k := |samples| - 1;
      TopRowStaysBlack(nums, samples[..k]);
      var s := PushAll(nums, Init(), samples[..k]);
      if Fires(s) {
        RenderKeepsTopRow(nums, s.spectrogram, Transform(nums, WindowBuffer(s.fifo)), Black);
      }
    }
  }
}
