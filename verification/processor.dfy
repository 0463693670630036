/**
 The per-sample driver `pushNextSampleIntoFifo` and the block callback `processBlock`.
 A window is analysed lazily: only a push that finds the FIFO already full
 triggers the analysis, after which the index restarts and the new sample goes
 into slot 0.
 */
module Processor {
  import opened Layout
  import opened Spectrogram
  import Search

  /** A push fires exactly when the FIFO is already full. */
  predicate Fires(s: ProcessorState) {
    s.fifoIndex == FftSize
  }

  /** The working buffer handed to the transform: the window, then N zeros. */
  function WindowBuffer(fifo: seq<real>): (buf: seq<real>)
    requires |fifo| == FftSize
    ensures |buf| == WorkSize
    ensures forall i :: 0 <= i < FftSize ==> buf[i] == fifo[i]
    ensures forall i :: FftSize <= i < WorkSize ==> buf[i] == 0.0
  {
    fifo + Zeros(FftSize)
  }

  /**
   The MIDI note for a transformed window: the note of the frequency of the first
   loudest of the N/2 bins below Nyquist.
   */
  function DetectedNote(nums: Numerics, spectrum: seq<real>): (note: int)
    requires |spectrum| == WorkSize
    ensures forall b :: Search.IsFirstMax(spectrum, HalfSize, b) ==>
              note == nums.freqToMidi(nums.binToFrequency(b, FftSize, nums.sampleRate))
  {
    var bin := Search.MaxIndex(spectrum, HalfSize);
    nums.freqToMidi(nums.binToFrequency(bin, FftSize, nums.sampleRate))
  }

  /** Only the first N/2 bins decide the note: the upper half of the buffer is never searched. */
  lemma DetectedNoteReadsHalfSpectrum(nums: Numerics, a: seq<real>, b: seq<real>)
    requires |a| == WorkSize && |b| == WorkSize
    requires a[..HalfSize] == b[..HalfSize]
    ensures DetectedNote(nums, a) == DetectedNote(nums, b)
  {
    Search.MaxIndexReadsPrefixOnly(a, b, HalfSize);
  }

  /** The note-on event emitted for a window: channel argument 0, velocity 0.5, offset 0. */
  function NoteEvent(note: int): (e: NoteOn)
    ensures e.channel == 0 && e.note == note && e.velocity == 0.5 && e.sampleOffset == 0
  {
    NoteOn(0, note, 0.5, 0)
  }

  /**
   The body of the `_fifo_index == _fft_size` branch: zero the working buffer, copy the
   window in, scroll and transform, paint the new column, emit the note, raise the
   repaint flag and restart the index.
   */
  function AnalyseWindow(nums: Numerics, s: ProcessorState): (t: ProcessorState)
    requires Valid(s)
    ensures Valid(t)
    ensures t.fifoIndex == 0 && t.fifo == s.fifo && t.mustRepaint
    ensures t.fftData == Transform(nums, WindowBuffer(s.fifo))
    ensures t.spectrogram == RenderColumn(nums, s.spectrogram, t.fftData)
    ensures |t.events| == |s.events| + 1 && t.events[..|s.events|] == s.events
    ensures t.events[|s.events|] == NoteEvent(DetectedNote(nums, t.fftData))
  {
    var spectrum := Transform(nums, WindowBuffer(s.fifo));
    var image := RenderColumn(nums, s.spectrogram, spectrum);
    var event := NoteEvent(DetectedNote(nums, spectrum));
    s.(fftData := spectrum, spectrogram := image, events := s.events + [event],
       mustRepaint := true, fifoIndex := 0)
  }

  /**
   `pushNextSampleIntoFifo`: analyse the window if the FIFO is full, then store the
   sample at the fill index and advance it. The write lands inside the FIFO, and a push
   that does not fire touches nothing but that slot and the index.
   */
  function Push(nums: Numerics, s: ProcessorState, sample: real): (t: ProcessorState)
    requires Valid(s)
    ensures Valid(t)
    ensures 1 <= t.fifoIndex <= FftSize
    ensures t.fifo[t.fifoIndex - 1] == sample
    ensures Fires(s) ==> t.fifoIndex == 1
    ensures !Fires(s) ==> t.fifoIndex == s.fifoIndex + 1
    ensures forall i :: 0 <= i < FftSize && i != t.fifoIndex - 1 ==> t.fifo[i] == s.fifo[i]
    ensures Fires(s) ==>
              && t.mustRepaint
              && |t.events| == |s.events| + 1
              && t.events[..|s.events|] == s.events
              && t.events[|s.events|] == NoteEvent(DetectedNote(nums, t.fftData))
              && t.fftData == Transform(nums, WindowBuffer(s.fifo))
              && t.spectrogram == RenderColumn(nums, s.spectrogram, t.fftData)
    ensures !Fires(s) ==>
              && t.events == s.events
              && t.mustRepaint == s.mustRepaint
              && t.fftData == s.fftData
              && t.spectrogram == s.spectrogram
  {
    var r := if Fires(s) then AnalyseWindow(nums, s) else s;
    r.(fifo := r.fifo[r.fifoIndex := sample], fifoIndex := r.fifoIndex + 1)
  }

  /** Pushing a run of samples one by one, oldest first. */
  function PushAll(nums: Numerics, s: ProcessorState, samples: seq<real>): (t: ProcessorState)
    requires Valid(s)
    ensures Valid(t)
    ensures samples != [] ==> 1 <= t.fifoIndex <= FftSize
    decreases |samples|
  {
    if samples == [] then s
    else Push(nums, PushAll(nums, s, samples[..|samples| - 1]), samples[|samples| - 1])
  }

  /** The host's audio buffer: one sample sequence per channel. */
  datatype AudioBuffer = AudioBuffer(channels: seq<seq<real>>)

  /** `processBlock`: only channel 0 is read; a buffer without channels changes nothing. */
  function ProcessBlock(nums: Numerics, s: ProcessorState, buffer: AudioBuffer): (t: ProcessorState)
    requires Valid(s)
    ensures Valid(t)
    ensures |buffer.channels| == 0 ==> t == s
    ensures |buffer.channels| > 0 ==> t == PushAll(nums, s, buffer.channels[0])
  {
    if |buffer.channels| > 0 then PushAll(nums, s, buffer.channels[0]) else s
  }

  /** Only channel 0 is read: buffers with the same first channel lead to the same state. */
  lemma ProcessBlockReadsChannelZeroOnly(nums: Numerics, s: ProcessorState, a: AudioBuffer, b: AudioBuffer)
    requires Valid(s)
    requires |a.channels| > 0 && |b.channels| > 0 && a.channels[0] == b.channels[0]
    ensures ProcessBlock(nums, s, a) == ProcessBlock(nums, s, b)
  {
  }
}
