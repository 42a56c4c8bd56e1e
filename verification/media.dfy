/**
 * The collaborators the video layer talks to, reduced to what it observes:
 * decoded frames and textures as opaque values with a size, renders as the
 * shape of what gets drawn, and the audio/video backend as a record of the
 * answers it gives plus a log of the commands it is sent.
 */
module Media {
  import opened Wrappers

  /** A decoded frame, a rectangular view of one, or a colour view whose alpha was filled from a mask view. */
  datatype Surface =
    | Frame(id: nat, w: nat, h: nat)
    | Sub(parent: Surface, x: nat, y: nat, w: nat, h: nat)
    | Masked(color: Surface, alpha: Surface)

  function Size(s: Surface): (nat, nat)
  {
    match s
    case Frame(_, w, h) => (w, h)
    case Sub(_, _, _, w, h) => (w, h)
    case Masked(c, _) => Size(c)
  }

  /** A surface loaded as a texture (`draw.load_texture`). */
  datatype Texture = Texture(surface: Surface)

  /** A displayable image (`image`, `start_image`), with the size it renders at. */
  datatype Image = Image(id: nat, w: nat, h: nat)

  /** What a Movie draws. */
  datatype Render =
    | Empty                                          // Render(0, 0)
    | ImageRender(image: Image)                      // an image blitted at (0, 0) into a render of its size
    | TextureRender(texture: Texture, oversample: real)  // a frame at its native size, scaled by 1/oversample when that is not 1
    | Blank(w: nat, h: nat)                          // resize_movie of a render with a zero dimension
    | Scaled(inner: Render, w: nat, h: nat)          // resize_movie: inner scaled uniformly and centred in w x h

  function RenderSize(r: Render): (nat, nat)
  {
    match r
    case Empty => (0, 0)
    case ImageRender(i) => (i.w, i.h)
    case TextureRender(t, _) => Size(t.surface)
    case Blank(w, h) => (w, h)
    case Scaled(_, w, h) => (w, h)
  }

  /**
   * `resize_movie` for a render that exists: the result always has the
   * requested size; a render with a zero dimension is not scaled.
   */
  function ResizeMovie(r: Render, w: nat, h: nat): (res: Render)
    ensures RenderSize(res) == (w, h)
    ensures RenderSize(r).0 == 0 || RenderSize(r).1 == 0 ==> res == Blank(w, h)
    ensures RenderSize(r).0 > 0 && RenderSize(r).1 > 0 ==> res == Scaled(r, w, h)
  {
    var (sw, sh) := RenderSize(r);
    if sw == 0 || sh == 0 then Blank(w, h) else Scaled(r, w, h)
  }

  /**
   * The frame `get_movie_texture` produces from what the backend returned for
   * the channel (`surf`) and for the mask channel (`maskRead`, consulted only
   * when `useMaskChannel`). In side-by-side mode the left half is colour and
   * the right half alpha; a mask without a base frame gives no frame.
   */
  function ComposeFrame(surf: Option<Surface>, maskRead: Option<Surface>, useMaskChannel: bool, sideMask: bool)
    : (r: Option<Surface>)
    ensures surf.None? ==> r.None?
    ensures sideMask && surf.Some? ==>
              var (w, h) := Size(surf.value);
              r == Some(Masked(Sub(surf.value, 0, 0, w / 2, h), Sub(surf.value, w / 2, 0, w / 2, h)))
    ensures !sideMask && !useMaskChannel ==> r == surf
    ensures !sideMask && useMaskChannel && surf.Some? ==>
              r == Some(if maskRead.Some? then Masked(surf.value, maskRead.value) else surf.value)
    ensures r.Some? ==> Size(r.value) == if sideMask then (Size(surf.value).0 / 2, Size(surf.value).1) else Size(surf.value)
  {
    var (color, mask) :=
      if sideMask then
        (if surf.None? then (None, None)
         else
           var (w, h) := Size(surf.value);
           var half := w / 2;
           (Some(Sub(surf.value, 0, 0, half, h)), Some(Sub(surf.value, half, 0, half, h))))
      else if useMaskChannel then (surf, maskRead)
      else (surf, None);
    if mask.Some? then
      (if color.Some? then Some(Masked(color.value, mask.value)) else None)
    else color
  }

  /** A command sent to the audio/video backend. */
  datatype Command =
    | Register(channel: string, framedrop: bool)       // register_channel(..., loop=True, movie=True, framedrop, force=True)
    | Play(channel: string, files: seq<string>, loop: bool)
    | Stop(channel: string, immediate: bool)           // immediate: fadeout=0
    | Callback(channel: string)                        // a Movie's own play_callback was invoked for its channel

  /**
   * The audio/video backend and the loader, as seen from the video layer:
   * what it answers (channels playing, defined, with a frame ready, loadable
   * files, the frame `read_video` returns) and what it has been told.
   */
  class Backend {
    var playing: set<string>
    var defined: set<string>
    var ready: set<string>
    var loadable: set<string>
    var frames: map<string, Option<Surface>>
    var log: seq<Command>

    constructor (playing: set<string>, defined: set<string>, ready: set<string>, loadable: set<string>,
                 frames: map<string, Option<Surface>>)
      ensures this.playing == playing && this.defined == defined && this.ready == ready
      ensures this.loadable == loadable && this.frames == frames && log == []
    {
      this.playing, this.defined, this.ready := playing, defined, ready;
      this.loadable, this.frames, this.log := loadable, frames, [];
    }

    /** `get_channel(c).read_video()`. */
    function ReadVideo(c: string): Option<Surface>
      reads this`frames
    {
      if c in frames then frames[c] else None
    }

    /** The frame `get_movie_texture` builds for a channel, its mask channel and the side-by-side flag. */
    function ReadFrame(channel: string, maskChannel: Option<string>, sideMask: bool): Option<Surface>
      reads this`frames
    {
      var useMask := maskChannel.Some? && maskChannel.value != "";
      ComposeFrame(ReadVideo(channel), if useMask then ReadVideo(maskChannel.value) else None, useMask, sideMask)
    }

    method RegisterChannel(name: string, framedrop: bool)
      modifies this`defined, this`log
      ensures defined == old(defined) + {name}
      ensures log == old(log) + [Register(name, framedrop)]
    {
      defined := defined + {name};
      log := log + [Register(name, framedrop)];
    }

    method PlayFiles(channel: string, files: seq<string>, loop: bool)
      modifies this`log
      ensures log == old(log) + [Play(channel, files, loop)]
    {
      log := log + [Play(channel, files, loop)];
    }

    method StopChannel(channel: string, immediate: bool)
      modifies this`log
      ensures log == old(log) + [Stop(channel, immediate)]
    {
      log := log + [Stop(channel, immediate)];
    }

    /** Hands control to a Movie's play_callback, which is code outside this model. */
    method InvokeCallback(channel: string)
      modifies this`log
      ensures log == old(log) + [Callback(channel)]
    {
      log := log + [Callback(channel)];
    }
  }

  /** The side-by-side split of a 200x100 frame: a 100x100 colour view at (0, 0) and a 100x100 alpha view at (100, 0). */
  lemma SideMaskExample(id: nat)
    ensures ComposeFrame(Some(Frame(id, 200, 100)), None, false, true) ==
              Some(Masked(Sub(Frame(id, 200, 100), 0, 0, 100, 100), Sub(Frame(id, 200, 100), 100, 0, 100, 100)))
  {
  }
}
