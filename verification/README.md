# midicypher analysis core in Dafny

This project models the audio-analysis core of the midicypher plugin processor.
The processor collects mono samples in an N-slot FIFO, with N = 2^10 = 1024. For each full
window it does the following:

- copies the window into a zero-padded 2N-slot working buffer;
- runs a frequency-only transform over that buffer;
- scrolls the 512x512 spectrogram left by one column and paints the new rightmost column;
- finds the loudest of the first N/2 bins and emits one note-on event for it;
- raises a repaint flag.

The state is an immutable record, `Layout.ProcessorState`. It holds the FIFO, the fill index,
the working buffer, the image (a sequence of columns), the note-on events emitted so far,
and the repaint flag. `Processor.Push` models `pushNextSampleIntoFifo`.
`Processor.ProcessBlock` models `processBlock` as a left fold of `Push` over channel 0.

The floating-point collaborators are fields of a `Spectrogram.Numerics` record of function
values, passed in as a parameter and left uninterpreted. They are:

- the JUCE transform;
- the skew curve `1 - exp(log(y/H) * 0.2)`;
- `Colour::fromHSV`;
- `binToFrequency` and `freqToMidi`;
- the host's sample rate.

The logic around these collaborators is modelled exactly. That covers the following:

- the lazy trigger;
- the zero padding;
- the first-occurrence argmax (`std::max_element`);
- the peak of the first N/2 bins and its `1e-5` floor;
- the `jmap` normalisation, as exact real arithmetic;
- the float-to-int truncation;
- the `jlimit` clamp to `[0, N/2]`;
- the scroll that leaves row 0 of the new column unpainted;
- the order in which one run of pushes emits its events.

The trigger is lazy. A push that finds the index already at N first analyses the window,
then resets the index to 0, then stores its sample in slot 0 and advances the index to 1.
So the first analysis happens on the (N+1)-th push, not the N-th. After a push the index is
never 0 and can equal N: its range is `[1, N]` rather than `[0, N)` (`Stream.CountingLaw`).

## Model

| member | source | states |
|---|---|---|
| Layout.FftSizeIsPowerOfTwo | source/processor.hpp:50-52 | The window size is `1 << 10` = 1024, a power of two. N/2 lies inside the 2N-slot working buffer. |
| Layout.Init | source/processor.hpp:40-54 | A new processor has fill index 0, a zeroed FIFO, no events and the repaint flag down. Its capacities are N and 2N, and its spectrogram is 512x512 and all black. |
| Search.MaxIndex | source/processor.cpp:84-88 | `findMaxIndex` on a non-empty range returns an index below `size` whose value is at least every value in range and strictly greater than every earlier one. An empty range returns 0. |
| Search.FirstMaxIsUnique | source/processor.cpp:84-88 | Any index that is a first maximum of the range is the index `findMaxIndex` returns. The argmax is therefore fully determined. |
| Search.MaxIndexReadsPrefixOnly | source/processor.cpp:84-88 | `findMaxIndex` depends only on the first `size` entries of the array. |
| Search.MaxOf | source/processor.cpp:109 | The upper end of `findMinAndMax` is a value of the range and is at least every value in it. |
| Search.MaxOfAtMaxIndex | source/processor.cpp:109-116 | The peak level equals the magnitude at the detected bin. |
| Spectrogram.Clamp | source/processor.cpp:112 | `jlimit` yields a value in `[lo, hi]`. In-range values pass unchanged; values outside go to the nearer bound. |
| Spectrogram.TruncateToInt | source/processor.cpp:112 | The `(int)` cast drops the fractional part toward zero, for both signs. |
| Spectrogram.RowBin | source/processor.cpp:111-112 | The bin read for any row lies in `[0, N/2]`, so it indexes inside the 2N working buffer. |
| Spectrogram.PeakLevel | source/processor.cpp:109-113 | The normalisation peak is at least `1e-5` (so positive) and at least every magnitude among the first N/2 bins. It is either the floor or one of those magnitudes. |
| Spectrogram.Level | source/processor.cpp:113 | `jmap(v, 0, peak, 0, 1)` is `v / peak`. So a magnitude in `[0, peak]` maps into `[0, 1]`, zero maps to 0 and the peak to 1. |
| Spectrogram.RowColour | source/processor.cpp:113-114 | A row's colour is `fromHSV(level, 1, level, 1)` with level the magnitude of its bin divided by the peak. A silent bin gives `fromHSV(0, 1, 0, 1)` and a peak bin `fromHSV(1, 1, 1, 1)`. |
| Spectrogram.RowColourReadsLowBins | source/processor.cpp:112-114 | A row's colour depends only on bins 0..N/2 of the working buffer, the range the clamped index can reach. |
| Spectrogram.ScrollLeft | source/processor.cpp:105-107 | After `moveImageSection`, column x holds old column x+1 for x < W-1. The rightmost column keeps its old content. The size is unchanged. |
| Spectrogram.PaintRows | source/processor.cpp:110-115 | The paint loop from row y on gives rows y..H-1 their row colour and leaves rows below y as they were. |
| Spectrogram.RenderColumn | source/processor.cpp:105-115 | After the update, column x equals old column x+1 for x < W-1, and pixel (W-1, 0) keeps its old value. Pixels (W-1, y) for 1 <= y < H hold the colour of their bin's level. The dimensions are unchanged. |
| Spectrogram.RowLevelInUnitRange | source/processor.cpp:109-113 | For non-negative magnitudes, a row whose bin lies below N/2 gets a level in `[0, 1]`. |
| Spectrogram.SilenceRendersBlack | source/processor.cpp:109-114 | A spectrum that is zero in every bin a row can read paints rows 1..H-1 of the new column black, provided level 0 maps to black. The peak floor keeps the division defined. |
| Spectrogram.NewColumnIgnoresHistory | source/processor.cpp:105-114 | Rows 1..H-1 of the new column depend only on the spectrum, not on what the image showed before. |
| Spectrogram.RenderKeepsTopRow | source/processor.cpp:105-114 | A top row of one uniform colour stays uniform through an update. |
| Processor.WindowBuffer | source/processor.cpp:102-103 | The buffer given to the transform holds the N FIFO samples in slot order, then N zeros. |
| Processor.DetectedNote | source/processor.cpp:116-118 | The emitted note is `freqToMidi(binToFrequency(b, N, rate))` for the bin b that is the first loudest among the first N/2 bins. |
| Processor.DetectedNoteReadsHalfSpectrum | source/processor.cpp:116-118 | Two working buffers that agree on their first N/2 bins give the same note; the upper half is never searched. |
| Processor.AnalyseWindow | source/processor.cpp:101-123 | A fired window does the following: it transforms exactly the FIFO plus zeros; it scrolls and repaints the image; it appends exactly one note-on for the argmax of the first N/2 bins after the old events; it raises the flag; it resets the index to 0. |
| Processor.Push | source/processor.cpp:99-125 | After a push the index lies in `[1, N]` and the sample sits in slot index-1, so the write is inside the FIFO. No other FIFO slot changes. A push that finds the index at N fires a window. Any other push leaves the events, the flag, the working buffer and the image unchanged. |
| Processor.PushAll | source/processor.cpp:134-136 | Pushing a run of samples keeps every capacity fixed. After at least one push the index lies in `[1, N]`. |
| Processor.ProcessBlockReadsChannelZeroOnly | source/processor.cpp:129-138 | Only channel 0 is read: two buffers whose first channels are equal lead to the same state, whatever the other channels hold. |
| Stream.PushAllAppend | source/processor.cpp:134-136 | Pushing `a ++ b` gives the same state as pushing `a` and then `b`. |
| Stream.ProcessBlockSequential | source/processor.cpp:129-138 | Processing block A and then block B gives the same state as one block holding A's channel-0 samples followed by B's. |
| Stream.CountingLaw | source/processor.cpp:101-124 | After k pushes from a fresh processor, the index is `((k-1) mod N) + 1` (0 for k = 0). Exactly `(k-1) div N` windows have emitted an event. |
| Stream.FullAfterWholeWindows | source/processor.cpp:101-124 | After m*N pushes (m >= 1) the FIFO is full with m-1 windows done, so the next push performs the m-th analysis. |
| Stream.PushKeepsRecent | source/processor.cpp:101-124 | If the occupied part of the FIFO holds the newest samples of the history, it still does after one more push, with the pushed sample last. |
| Stream.FifoHoldsRecentSamples | source/processor.cpp:101-124 | From a fresh processor, the occupied part of the FIFO is exactly the samples pushed since the last reset, in push order. |
| Stream.AnalysedWindowIsLastSamples | source/processor.cpp:101-124 | When a push fires, the stream length is a positive multiple of N. The transform input is exactly the last N samples followed by N zeros, so no earlier window's data survives. |
| Stream.EventsOnlyGrow | source/processor.cpp:119-136 | Pushing samples only appends to the event list. Every appended event has channel argument 0, velocity 0.5 and offset 0. |
| Stream.EventsInCompletionOrder | source/processor.cpp:119-136 | The events of a longer stream extend those of its prefix, so events appear in window-completion order. |
| Stream.RepaintFlagIffWindowFired | source/processor.cpp:119-121 | After any run of pushes, the flag is set if and only if it was set before or at least one window fired. The processor never lowers it. |
| Stream.NoRepaintWithinFirstWindow | source/processor.cpp:101-124 | For the first N pushes of a fresh processor, no window fires, no event is emitted and the flag stays down. |
| Stream.TopRowStaysBlack | source/processor.cpp:105-114 | From a fresh processor the image stays 512x512 and its row 0 stays black forever, because row 0 is scrolled but never painted. |

## Left out

- The transform `performFrequencyOnlyForwardTransform` is a JUCE float routine. It is the uninterpreted `transform` field, a function from the whole buffer to each output slot.
- The skew curve, `binToFrequency`, `freqToMidi` and `Colour::fromHSV` are float formulas and library calls, kept uninterpreted. That includes the `log2(0)` case when bin 0 is loudest and note numbers outside 0..127: both are properties of those formulas.
- Spectrogram.Level: computed as exact real arithmetic, because float rounding in `jmap` is not modelled.
- Spectrogram.TruncateToInt: a float outside the `int` range makes the C++ cast undefined. The model truncates every real, because the opaque skew curve gives no range to check against.
- Spectrogram.RowLevelInUnitRange: proved only for rows whose bin lies below N/2. The clamp admits bin N/2, which the peak search does not cover. Whether the real skew curve ever reaches that bin is a float question the model leaves open.
- `findMaxIndex` and `findMinAndMax` over floats: NaN and unordered values are not modelled. Magnitudes are reals, which are totally ordered.
- The wire encoding done by JUCE's `MidiMessage::noteOn` is not modelled: how channel argument 0 and velocity 0.5 become status and data bytes. Events record the arguments the processor passes.
- The host's MIDI buffer is not processor state. Each `processBlock` call receives its own buffer and places each note-on at sample offset 0 of it. The model's `events` list is the concatenation, over all calls so far, of the note-ons each call added to its buffer. So `Stream.ProcessBlockSequential` and `Stream.EventsInCompletionOrder` relate events the host receives split across two buffers. The model assumes each buffer arrives without events at a positive offset, as the plugin accepts no MIDI input (`acceptsMidi()` returns false).
- The block is taken to be channel 0's whole sample sequence. The shared `getNumSamples()` length of a JUCE buffer is not modelled separately.
- `ScopedNoDenormals` is omitted because it changes float behaviour only.
- The host-plugin lifecycle overrides are omitted: constructor parameters, bus layout, programs, names, tail length, `prepareToPlay` and `releaseResources`. They return constants and contain no analysis logic.
- State persistence (`getStateInformation`, `setStateInformation`) is omitted. It serialises one integer parameter through JUCE streams.
- The editor is omitted: painting, the 60 Hz timer, and its unsynchronised read and clear of the repaint flag and image. It is UI plus concurrency on another thread. The model records only that the processor raises the flag.
