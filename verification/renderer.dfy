/**
 * The renderer's configuration and its builder. Building allocates a frame
 * buffer of blanks whose length is the configured width times height.
 */
module Renderers {
  import opened Options

  /** Rust's `i16`, the type of the frame rate. */
  newtype Int16 = n: int | -0x8000 <= n < 0x8000

  /** Width and height of the frame, in character cells. */
  datatype Size = Size(width: nat, height: nat)

  /** How many workers present a frame: Low = 1, Medium = 2, High = 4. */
  datatype RenderQuality = Low | Medium | High {
    function Workers(): nat {
      match this
      case Low => 1
      case Medium => 2
      case High => 4
    }
  }

  datatype Renderer = Renderer(buffer: seq<char>, bufferSize: Size, fps: Int16, quality: RenderQuality)

  datatype RendererBuilder = RendererBuilder(bufferSize: Option<Size>, fps: Int16, quality: Option<RenderQuality>)

  /** `Renderer::new`: no size, 60 frames per second, no quality. */
  function New(): (b: RendererBuilder)
    ensures b.bufferSize == None && b.fps == 60 && b.quality == None
  {
    RendererBuilder(None, 60, None)
  }

  /** `n` blank cells: `vec![' '; n]`. */
  function Blanks(n: nat): seq<char> {
    seq(n, _ => ' ')
  }

  /**
   * `build`: one blank per cell of the configured size, the size defaulting
   * to 100 by 50 and the quality to Low; the frame rate is carried over.
   */
  function Build(b: RendererBuilder): (r: Renderer)
    ensures r.bufferSize == (if b.bufferSize.Some? then b.bufferSize.value else Size(100, 50))
    ensures |r.buffer| == r.bufferSize.width * r.bufferSize.height
    ensures forall i :: 0 <= i < |r.buffer| ==> r.buffer[i] == ' '
    ensures r.quality == (if b.quality.Some? then b.quality.value else Low)
    ensures r.fps == b.fps
  {
    Renderer(
      Blanks(match b.bufferSize
             case Some(size) => size.height * size.width
             case None => 100 * 50),
      match b.bufferSize
      case Some(size) => size
      case None => Size(100, 50),
      b.fps,
      match b.quality
      case Some(q) => q
      case None => Low)
  }

  /** `set_fps`: overrides exactly the frame rate of the built renderer. */
  function SetFps(b: RendererBuilder, fps: Int16): (r: RendererBuilder)
    ensures Build(r) == Build(b).(fps := fps)
    ensures r.(fps := b.fps) == b
  {
    b.(fps := fps)
  }

  /** `set_quality`: overrides exactly the quality of the built renderer. */
  function SetQuality(b: RendererBuilder, quality: RenderQuality): (r: RendererBuilder)
    ensures Build(r) == Build(b).(quality := quality)
    ensures r.(quality := b.quality) == b
  {
    b.(quality := Some(quality))
  }

  /** `set_size`: the built renderer has this size and a buffer to match; nothing else changes. */
  function SetSize(b: RendererBuilder, size: Size): (r: RendererBuilder)
    ensures Build(r).bufferSize == size && |Build(r).buffer| == size.width * size.height
    ensures r.(bufferSize := b.bufferSize) == b
  {
    b.(bufferSize := Some(size))
  }

  /**
   * `set_width`: on a set size it changes the width alone; on an unset size
   * the height becomes 0, so the built buffer is empty.
   */
  function SetWidth(b: RendererBuilder, width: nat): (r: RendererBuilder)
    ensures b.bufferSize.Some? ==> Build(r).bufferSize == b.bufferSize.value.(width := width)
    ensures b.bufferSize.None? ==> Build(r).bufferSize == Size(width, 0) && Build(r).buffer == []
    ensures r.(bufferSize := b.bufferSize) == b
  {
    match b.bufferSize
    case Some(size) => b.(bufferSize := Some(size.(width := width)))
    case None => b.(bufferSize := Some(Size(width, 0)))
  }

  /** `set_height`: as `set_width`, for the height; on an unset size the width becomes 0. */
  function SetHeight(b: RendererBuilder, height: nat): (r: RendererBuilder)
    ensures b.bufferSize.Some? ==> Build(r).bufferSize == b.bufferSize.value.(height := height)
    ensures b.bufferSize.None? ==> Build(r).bufferSize == Size(0, height) && Build(r).buffer == []
    ensures r.(bufferSize := b.bufferSize) == b
  {
    match b.bufferSize
    case Some(size) => b.(bufferSize := Some(size.(height := height)))
    case None => b.(bufferSize := Some(Size(0, height)))
  }

  /** With nothing set: a 100 by 50 frame of 5000 blanks, 60 fps, one worker. */
  lemma BuildDefaults()
    ensures Build(New()) == Renderer(Blanks(5000), Size(100, 50), 60, Low)
    ensures |Build(New()).buffer| == 5000
    ensures Build(New()).quality.Workers() == 1
  {
  }
}
