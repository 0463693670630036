/**
 The fixed state of the audio processor: the analysis constants, the sample FIFO,
 the 2N-slot working buffer, the 512x512 RGB spectrogram, the repaint flag, and the
 note-on events the processor has added to the host's MIDI buffers so far.
 */
module Layout {

  /** `_fft_order`: the window size is 2 to this power. */
  const FftOrder: nat := 10

  /** `_fft_size`, written out as the value of `1 << _fft_order` (see `FftSizeIsPowerOfTwo`). */
  const FftSize: nat := 1024

  /** The capacity of `_fft_data`: twice the window size, as the in-place transform needs. */
  const WorkSize: nat := 2 * FftSize

  /** The number of bins searched for the dominant pitch and for the peak level. */
  const HalfSize: nat := FftSize / 2

  /** The fixed dimensions of `spectrogram`. */
  const Width: nat := 512
  const Height: nat := 512

  /** `1 << k`. */
  function Pow2(k: nat): nat {
    if k == 0 then 1 else 2 * Pow2(k - 1)
  }

  /** The window size is `1 << FftOrder`, an even power of two whose half lies inside the working buffer. */
  lemma FftSizeIsPowerOfTwo()
    ensures FftSize == Pow2(FftOrder)
    ensures FftSize % 2 == 0 && HalfSize * 2 == FftSize
    ensures HalfSize < WorkSize
  {
  }

  newtype byte = x: int | 0 <= x < 256

  /** One pixel of an RGB image (no alpha channel). */
  datatype Pixel = Pixel(red: byte, green: byte, blue: byte)

  const Black: Pixel := Pixel(0, 0, 0)

  /** An image as a sequence of columns, each column a sequence of pixels indexed by row. */
  type Image = seq<seq<Pixel>>

  predicate WellFormed(img: Image) {
    |img| == Width && forall x :: 0 <= x < |img| ==> |img[x]| == Height
  }

  /** A note-on message as passed to `MidiMessage::noteOn` and `MidiBuffer::addEvent`. */
  datatype NoteOn = NoteOn(channel: int, note: int, velocity: real, sampleOffset: int)

  /**
   The processor's analysis state. `events` is not state of the processor itself: it is
   the concatenation, over all `processBlock` calls so far, of the note-on events each
   call added to the MIDI buffer the host passed to that call.
   */
  datatype ProcessorState = ProcessorState(
    fifo: seq<real>,
    fifoIndex: nat,
    fftData: seq<real>,
    spectrogram: Image,
    events: seq<NoteOn>,
    mustRepaint: bool)

  /** The shape every reachable state has: fixed capacities and an index inside the FIFO. */
  predicate Valid(s: ProcessorState) {
    && |s.fifo| == FftSize
    && s.fifoIndex <= FftSize
    && |s.fftData| == WorkSize
    && WellFormed(s.spectrogram)
  }

  function Zeros(n: nat): (z: seq<real>)
    ensures |z| == n && forall i :: 0 <= i < n ==> z[i] == 0.0
  {
    seq(n, _ => 0.0)
  }

  /** An image created with `clearImage = true`: every pixel black. */
  function ClearedImage(): (img: Image)
    ensures WellFormed(img)
    ensures forall x, y :: 0 <= x < Width && 0 <= y < Height ==> img[x][y] == Black
  {
    seq(Width, _ => seq(Height, _ => Black))
  }

  /** The state a freshly constructed processor is in. */
  function Init(): (s: ProcessorState)
    ensures Valid(s)
    ensures s.fifoIndex == 0 && s.events == [] && !s.mustRepaint
    ensures forall i :: 0 <= i < FftSize ==> s.fifo[i] == 0.0
    ensures forall x, y :: 0 <= x < Width && 0 <= y < Height ==> s.spectrogram[x][y] == Black
  {
    ProcessorState(Zeros(FftSize), 0, Zeros(WorkSize), ClearedImage(), [], false)
  }
}
