/**
 * The rules of the video layer stated as functions of values: how a Movie's
 * channels are named, which texture a redraw shows, which backend commands
 * a play or stop issues, which Movies the synchronizer plays and stops, and
 * how group textures are carried over. The classes in `Video` are proved to
 * follow these rules, and the lemmas here state what the rules promise.
 */
module Decisions {
  import opened Wrappers
  import opened PyStr
  import opened Settings
  import opened Oversample
  import opened Media

  /** A key of `displayable_channels`: a channel and its mask channel. */
  type ChannelKey = (string, Option<string>)

  // ---------------------------------------------------------------------
  // Channel naming (Movie.__init__, Movie.after_setstate)
  // ---------------------------------------------------------------------

  /** `"_movie_{}".format(serial)`. */
  function GeneratedChannel(serial: nat): (r: string)
    ensures ' ' !in r && '/' !in r
    ensures |r| > 7 && r[..7] == "_movie_"
  {
    var digits := NatToString(serial);
    assert forall i :: 0 <= i < |digits| ==> IsDigit(digits[i]);
    "_movie_" + digits
  }

  /** Different serials give different channel names. */
  lemma {:induction false} GeneratedChannelsDistinct(a: nat, b: nat)
    requires a != b
    ensures GeneratedChannel(a) != GeneratedChannel(b)
  {
    NatToStringInjective(a, b);
    assert GeneratedChannel(a)[7..] == NatToString(a);
    assert GeneratedChannel(b)[7..] == NatToString(b);
  }

  /** `"_keep_last_frame_" + str(serial)`. */
  function KeepLastFrameGroup(serial: nat): string
  {
    "_keep_last_frame_" + NatToString(serial)
  }

  /** The fields `Movie.__init__` derives from its arguments, and the two serial counters afterwards. */
  datatype Setup = Setup(
    channel: string,
    play: Option<Source>,
    originalPlay: Option<Source>,
    mask: Option<Source>,
    maskChannel: Option<string>,
    group: Option<string>,
    channelSerial: nat,
    keepLastFrameSerial: nat)

  /**
   * `Movie.__init__`: the default "movie" channel of a Movie with something to
   * play becomes the single movie channel or, failing that, a generated
   * channel; `play` is kept only when loadable; `side_mask` drops the mask; the
   * mask channel defaults to the resolved channel plus "_mask"; a
   * keep_last_frame Movie without a group gets a generated group.
   */
  function Construct(channel: string, play: Option<Source>, mask: Option<Source>, maskChannel: Option<string>,
                     sideMask: bool, group: Option<string>, keepLastFrame: bool,
                     cfg: Config, loadable: set<string>, channelSerial: nat, keepSerial: nat): (s: Setup)
    ensures s.originalPlay == play
    ensures s.play.Some? <==> play.Some? && AnyLoadable(play.value, loadable)
    ensures s.play.Some? ==> s.play == play
    ensures sideMask ==> s.mask.None?
    ensures !sideMask ==> s.mask == mask
    ensures s.maskChannel.None? <==> s.mask.None?
    ensures s.mask.Some? ==> s.maskChannel == Some(if maskChannel.Some? then maskChannel.value else s.channel + "_mask")
    ensures s.channel != channel ==> channel == "movie" && Truthy(play)
    ensures channel == "movie" && Truthy(play) && cfg.singleMovieChannel != [] ==> s.channel == cfg.singleMovieChannel
    ensures !(channel == "movie" && Truthy(play) && (cfg.singleMovieChannel != [] || cfg.autoMovieChannel)) ==> s.channel == channel
    ensures s.channelSerial == channelSerial || (s.channelSerial == channelSerial + 1 && s.channel == GeneratedChannel(channelSerial))
    ensures s.channelSerial == channelSerial + 1 <==>
              channel == "movie" && Truthy(play) && cfg.singleMovieChannel == [] && cfg.autoMovieChannel
    ensures group.Some? ==> s.group == group && s.keepLastFrameSerial == keepSerial
    ensures group.None? && !keepLastFrame ==> s.group.None? && s.keepLastFrameSerial == keepSerial
    ensures group.None? && keepLastFrame ==> s.group == Some(KeepLastFrameGroup(keepSerial)) && s.keepLastFrameSerial == keepSerial + 1
  {
    var (resolved, serial) := ResolveChannel(channel, play, cfg, channelSerial);
    var kept := if play.Some? && AnyLoadable(play.value, loadable) then play else None;
    var m := if sideMask then None else mask;
    var mc := if m.None? then None else if maskChannel.None? then Some(resolved + "_mask") else maskChannel;
    var (g, k) := GroupFor(group, keepLastFrame, keepSerial);
    Setup(resolved, kept, play, m, mc, g, serial, k)
  }

  /** The channel `Movie.__init__` settles on, and the channel serial after it. */
  function ResolveChannel(channel: string, play: Option<Source>, cfg: Config, channelSerial: nat): (r: (string, nat))
    ensures r.0 != channel ==> channel == "movie" && Truthy(play)
    ensures channel == "movie" && Truthy(play) && cfg.singleMovieChannel != [] ==> r.0 == cfg.singleMovieChannel
    ensures !(channel == "movie" && Truthy(play) && (cfg.singleMovieChannel != [] || cfg.autoMovieChannel)) ==> r.0 == channel
    ensures r.1 == channelSerial || (r.1 == channelSerial + 1 && r.0 == GeneratedChannel(channelSerial))
    ensures r.1 == channelSerial + 1 <==>
              channel == "movie" && Truthy(play) && cfg.singleMovieChannel == [] && cfg.autoMovieChannel
  {
    if channel == "movie" && Truthy(play) && cfg.singleMovieChannel != [] then (cfg.singleMovieChannel, channelSerial)
    else if channel == "movie" && Truthy(play) && cfg.autoMovieChannel then (GeneratedChannel(channelSerial), channelSerial + 1)
    else (channel, channelSerial)
  }

  /** The group of a new Movie and the keep_last_frame serial after it. */
  function GroupFor(group: Option<string>, keepLastFrame: bool, keepSerial: nat): (r: (Option<string>, nat))
    ensures group.Some? ==> r == (group, keepSerial)
    ensures group.None? && !keepLastFrame ==> r == (None, keepSerial)
    ensures group.None? && keepLastFrame ==> r == (Some(KeepLastFrameGroup(keepSerial)), keepSerial + 1)
  {
    if group.None? && keepLastFrame then (Some(KeepLastFrameGroup(keepSerial)), keepSerial + 1) else (group, keepSerial)
  }

  /** The consistency every constructed Movie has and every later operation keeps. */
  predicate Consistent(mask: Option<Source>, maskChannel: Option<string>, sideMask: bool,
                       play: Option<Source>, originalPlay: Option<Source>)
  {
    (mask.None? <==> maskChannel.None?) && (sideMask ==> mask.None?) && (play.Some? ==> play == originalPlay)
  }

  lemma ConstructConsistent(channel: string, play: Option<Source>, mask: Option<Source>, maskChannel: Option<string>,
                            sideMask: bool, group: Option<string>, keepLastFrame: bool,
                            cfg: Config, loadable: set<string>, channelSerial: nat, keepSerial: nat)
    ensures var s := Construct(channel, play, mask, maskChannel, sideMask, group, keepLastFrame, cfg, loadable, channelSerial, keepSerial);
            Consistent(s.mask, s.maskChannel, sideMask, s.play, s.originalPlay)
  {
  }

  /**
   * Two Movies constructed one after the other on the default channel, with
   * automatic channels on, get different channels: the second sees the
   * serial the first left behind.
   */
  lemma {:induction false} AutoChannelsDistinct(play1: Option<Source>, play2: Option<Source>, cfg: Config,
                                                 loadable: set<string>, serial: nat, keepSerial: nat)
    requires Truthy(play1) && Truthy(play2) && cfg.singleMovieChannel == [] && cfg.autoMovieChannel
    ensures var s1 := Construct("movie", play1, None, None, false, None, false, cfg, loadable, serial, keepSerial);
            var s2 := Construct("movie", play2, None, None, false, None, false, cfg, loadable, s1.channelSerial, keepSerial);
            s1.channel != s2.channel && s2.channelSerial == serial + 2
  {
    GeneratedChannelsDistinct(serial, serial + 1);
  }

  /** The fields `Movie.after_setstate` rewrites, and the channel serial afterwards. */
  datatype Restored = Restored(play: Option<Source>, originalPlay: Option<Source>, channel: string,
                               maskChannel: Option<string>, channelSerial: nat)

  predicate NeedsRename(channel: string)
  {
    ' ' in channel || '/' in channel
  }

  /**
   * `Movie.after_setstate`: the play source is re-chosen (the original if it
   * is truthy) and kept only if loadable; a channel with a space or slash is
   * replaced by a generated one, and a mask channel follows it.
   */
  function Restore(play: Option<Source>, originalPlay: Option<Source>, channel: string,
                   maskChannel: Option<string>, loadable: set<string>, serial: nat): (r: Restored)
    ensures !NeedsRename(r.channel)
    ensures r.originalPlay == if Truthy(originalPlay) then originalPlay else play
    ensures r.play.Some? <==> r.originalPlay.Some? && AnyLoadable(r.originalPlay.value, loadable)
    ensures r.play.Some? ==> r.play == r.originalPlay
    ensures r.maskChannel.None? <==> maskChannel.None?
    ensures !NeedsRename(channel) ==> r.channel == channel && r.maskChannel == maskChannel && r.channelSerial == serial
    ensures NeedsRename(channel) ==>
              r.channel == GeneratedChannel(serial) && r.channelSerial == serial + 1 &&
              (maskChannel.Some? ==> r.maskChannel == Some(r.channel + "_mask"))
  {
    var p := if Truthy(originalPlay) then originalPlay else play;
    var (newPlay, newOriginal) := if p.Some? && AnyLoadable(p.value, loadable) then (p, p) else (None, p);
    if NeedsRename(channel) then
      var c := GeneratedChannel(serial);
      Restored(newPlay, newOriginal, c, if maskChannel.Some? then Some(c + "_mask") else None, serial + 1)
    else
      Restored(newPlay, newOriginal, channel, maskChannel, serial)
  }

  /**
   * Restoring a restored Movie again renames nothing and chooses the same
   * play source; the original source is kept too unless it is a false value
   * other than None that was not loadable.
   */
  lemma RestoreTwice(play: Option<Source>, originalPlay: Option<Source>, channel: string,
                     maskChannel: Option<string>, loadable: set<string>, serial: nat)
    ensures var r1 := Restore(play, originalPlay, channel, maskChannel, loadable, serial);
            var r2 := Restore(r1.play, r1.originalPlay, r1.channel, r1.maskChannel, loadable, r1.channelSerial);
            r2.play == r1.play && r2.channel == r1.channel && r2.maskChannel == r1.maskChannel &&
            r2.channelSerial == r1.channelSerial &&
            (Truthy(r1.originalPlay) || r1.originalPlay.None? || r1.play.Some? ==> r2.originalPlay == r1.originalPlay)
  {
  }

  /** Restoring keeps a Movie consistent. */
  lemma RestoreConsistent(play: Option<Source>, originalPlay: Option<Source>, channel: string,
                          mask: Option<Source>, maskChannel: Option<string>, sideMask: bool,
                          loadable: set<string>, serial: nat)
    requires Consistent(mask, maskChannel, sideMask, play, originalPlay)
    ensures var r := Restore(play, originalPlay, channel, maskChannel, loadable, serial);
            Consistent(mask, r.maskChannel, sideMask, r.play, r.originalPlay)
  {
  }

  /** The channels `ensure_channels` looks after. */
  function ChannelNames(channel: string, maskChannel: Option<string>): set<string>
  {
    {channel} + if maskChannel.Some? then {maskChannel.value} else {}
  }

  /**
   * The registrations `ensure_channels` issues given the channels already
   * defined: one for each of the Movie's channels that is not, in order, and
   * none twice.
   */
  function Registrations(defined: set<string>, channel: string, maskChannel: Option<string>, framedrop: bool)
    : (r: seq<Command>)
    ensures forall i :: 0 <= i < |r| ==> r[i].Register? && r[i].framedrop == framedrop
    ensures forall i :: 0 <= i < |r| ==> r[i].channel in ChannelNames(channel, maskChannel) - defined
    ensures forall n :: n in ChannelNames(channel, maskChannel) - defined ==> exists i :: 0 <= i < |r| && r[i].channel == n
    ensures forall i, j :: 0 <= i < j < |r| ==> r[i].channel != r[j].channel
    ensures |r| > 0 && channel !in defined ==> r[0] == Register(channel, framedrop)
  {
    var first := if channel in defined then [] else [Register(channel, framedrop)];
    var afterFirst := defined + {channel};
    var second := if maskChannel.None? || maskChannel.value in afterFirst then [] else [Register(maskChannel.value, framedrop)];
    var r := first + second;
    assert channel !in defined ==> r[0].channel == channel;
    assert second != [] ==> r[|r| - 1].channel == maskChannel.value;
    r
  }

  // ---------------------------------------------------------------------
  // Frame fetch, texture cache and the per-redraw display decision
  // ---------------------------------------------------------------------

  /** What `get_movie_texture` returns, and the texture cache afterwards. */
  datatype Fetched = Fetched(tex: Option<Texture>, isNew: bool, cache: map<string, Texture>)

  /**
   * `get_movie_texture` given whether the channel plays and the frame built
   * from the backend: a new frame replaces the cache entry and is reported
   * new; otherwise the cached entry, if any, is returned and nothing changes.
   */
  function FetchTexture(cache: map<string, Texture>, channel: string, playing: bool, frame: Option<Surface>)
    : (r: Fetched)
    ensures !playing ==> r == Fetched(None, false, cache)
    ensures r.isNew <==> playing && frame.Some?
    ensures r.isNew ==> r.tex == Some(Texture(frame.value)) && r.cache == cache[channel := Texture(frame.value)]
    ensures playing && !r.isNew ==> r.tex == Get(cache, channel) && r.cache == cache
    ensures forall c :: c != channel ==> Get(r.cache, c) == Get(cache, c)
  {
    if !playing then Fetched(None, false, cache)
    else if frame.Some? then
      var t := Texture(frame.value);
      Fetched(Some(t), true, cache[channel := t])
    else Fetched(Get(cache, channel), false, cache)
  }

  /** A texture fetched twice with no new frame in between is the one fetched the first time. */
  lemma {:induction false} FetchKeepsLastFrame(cache: map<string, Texture>, channel: string, frame: Surface)
    ensures var first := FetchTexture(cache, channel, true, Some(frame));
            FetchTexture(first.cache, channel, true, None) == Fetched(first.tex, false, first.cache)
  {
    var first := FetchTexture(cache, channel, true, Some(frame));
    assert channel in first.cache;
  }

  /** `group_texture.get(group)`: an absent group and a group mapped to None both give None. */
  function GroupLookup(groups: map<string, Option<Texture>>, g: string): Option<Texture>
  {
    if g in groups then groups[g] else None
  }

  /**
   * `not_playing` in `Movie.render`: the channel is not playing, was not
   * reset by a "show", and the group is not a key of `group_texture` (a key
   * mapped to None counts as present).
   */
  predicate NotPlaying(playing: bool, reset: bool, group: Option<string>, groups: map<string, Option<Texture>>)
    ensures NotPlaying(playing, reset, group, groups) ==> !playing && !reset
    ensures group.Some? && group.value in groups ==> !NotPlaying(playing, reset, group, groups)
    ensures !playing && !reset && (group.None? || group.value !in groups) ==> NotPlaying(playing, reset, group, groups)
  {
    !playing && !reset && !(group.Some? && group.value in groups)
  }

  /** The texture a Movie draws after the group exchange, and `group_texture` afterwards. */
  datatype Exchange = Exchange(tex: Option<Texture>, groups: map<string, Option<Texture>>)

  /**
   * A grouped Movie with a texture publishes it to its group; one without
   * borrows the group's. Ungrouped Movies keep their own.
   */
  function GroupExchange(tex: Option<Texture>, group: Option<string>, groups: map<string, Option<Texture>>)
    : (r: Exchange)
    ensures group.None? ==> r == Exchange(tex, groups)
    ensures tex.Some? ==> r.tex == tex
    ensures group.Some? && tex.Some? ==> r.groups == groups[group.value := tex]
    ensures group.Some? && tex.None? ==> r.tex == GroupLookup(groups, group.value) && r.groups == groups
    ensures r.groups.Keys == groups.Keys + if group.Some? && tex.Some? then {group.value} else {}
  {
    if group.None? then Exchange(tex, groups)
    else if tex.None? then Exchange(GroupLookup(groups, group.value), groups)
    else Exchange(tex, groups[group.value := tex])
  }

  /**
   * What `Movie.render` draws once the fallback image is out of the way: the
   * texture when playing and there is one, else the start image when
   * playing, else nothing.
   */
  function MovieRender(notPlaying: bool, tex: Option<Texture>, startImage: Option<Image>, oversample: real): (r: Render)
    ensures r.TextureRender? <==> !notPlaying && tex.Some?
    ensures r.TextureRender? ==> r == TextureRender(tex.value, oversample)
    ensures r.ImageRender? <==> !notPlaying && tex.None? && startImage.Some?
    ensures r.ImageRender? ==> r.image == startImage.value
    ensures r == Empty <==> notPlaying || (tex.None? && startImage.None?)
  {
    if !notPlaying && tex.Some? then TextureRender(tex.value, oversample)
    else if !notPlaying && startImage.Some? then ImageRender(startImage.value)
    else Empty
  }

  /** A Movie with a `size` has its render resized to it. */
  function Sized(r: Render, size: Option<(nat, nat)>): (res: Render)
    ensures size.Some? ==> RenderSize(res) == size.value
    ensures size.None? ==> res == r
    ensures size.Some? && RenderSize(r).0 > 0 && RenderSize(r).1 > 0 ==> res == Scaled(r, size.value.0, size.value.1)
    ensures size.Some? && (RenderSize(r).0 == 0 || RenderSize(r).1 == 0) ==> res == Blank(size.value.0, size.value.1)
  {
    if size.Some? then ResizeMovie(r, size.value.0, size.value.1) else r
  }

  /**
   * Two Movies X and Y of group g in the same tick: X, with a fresh texture,
   * publishes it; Y, with no frame of its own, counts as playing because g is
   * a key, and draws X's texture rather than nothing.
   */
  lemma {:induction false} GroupBorrowExample(t: Texture, g: string, groups: map<string, Option<Texture>>,
                                              oversample: real, startImage: Option<Image>)
    requires g in groups
    ensures var x := GroupExchange(Some(t), Some(g), groups);
            var y := GroupExchange(None, Some(g), x.groups);
            var notPlaying := NotPlaying(false, false, Some(g), x.groups);
            !notPlaying && MovieRender(notPlaying, y.tex, startImage, oversample) == TextureRender(t, oversample)
  {
    var x := GroupExchange(Some(t), Some(g), groups);
    assert x.groups[g] == Some(t);
  }

  // ---------------------------------------------------------------------
  // Play and stop (Movie.play, Movie.stop, default_play_callback)
  // ---------------------------------------------------------------------

  /** The fields of a Movie that play and stop consult. */
  datatype Slot = Slot(
    channel: string,
    maskChannel: Option<string>,
    mask: Option<Source>,
    play: Option<Source>,
    loop: bool,
    oversample: Option<real>,
    customCallback: bool)

  predicate SlotValid(s: Slot)
  {
    s.mask.Some? ==> s.maskChannel.Some?
  }

  /** The backend commands a play or stop issues, the oversampling factor stored, and the error raised. */
  datatype PlayEffect = PlayEffect(commands: seq<Command>, oversample: Option<real>, error: Option<ModifierError>)

  /** The fadeout-0 stops of the channel and, when there is a mask, of the mask channel. */
  function ImmediateStops(s: Slot): (r: seq<Command>)
    requires SlotValid(s)
    ensures |r| >= 1 && r[0] == Stop(s.channel, true)
    ensures forall i :: 0 <= i < |r| ==> r[i].Stop? && r[i].immediate
    ensures |r| == 2 <==> Truthy(s.mask)
    ensures |r| <= 2
    ensures |r| == 2 ==> r[1] == Stop(s.maskChannel.value, true)
  {
    [Stop(s.channel, true)] + if Truthy(s.mask) then [Stop(s.maskChannel.value, true)] else []
  }

  /**
   * `default_play_callback`: the mask, when there is one, is resolved and
   * played on the mask channel before the movie is resolved and played on
   * the channel. An unknown modifier stops it where it is raised.
   */
  function DefaultPlayEffect(s: Slot, cfg: Config, loadable: set<string>): (e: PlayEffect)
    requires SlotValid(s) && s.play.Some?
    ensures forall i :: 0 <= i < |e.commands| ==> e.commands[i].Play? && e.commands[i].loop == s.loop
    ensures e.error.None? ==>
              OversampledSource(s.oversample, s.play.value, cfg, loadable).Ok? &&
              var p := OversampledSource(s.oversample, s.play.value, cfg, loadable).value;
              |e.commands| >= 1 &&
              e.commands[|e.commands| - 1] == Play(s.channel, FileList(p.source), s.loop) &&
              e.oversample == Some(p.oversample)
    ensures e.error.None? ==> |e.commands| == if Truthy(s.mask) then 2 else 1
    ensures Truthy(s.mask) && |e.commands| >= 1 ==>
              OversampledSource(s.oversample, s.mask.value, cfg, loadable).Ok? &&
              e.commands[0] == Play(s.maskChannel.value,
                                    FileList(OversampledSource(s.oversample, s.mask.value, cfg, loadable).value.source), s.loop)
    ensures e.error.Some? ==> |e.commands| < if Truthy(s.mask) then 2 else 1
    ensures e.oversample.None? ==> e.commands == []
  {
    var main := OversampledSource(s.oversample, s.play.value, cfg, loadable);
    if Truthy(s.mask) then
      match OversampledSource(s.oversample, s.mask.value, cfg, loadable)
      case Err(err) => PlayEffect([], None, Some(err))
      case Ok(m) =>
        var first := Play(s.maskChannel.value, FileList(m.source), s.loop);
        match main
        case Err(err) => PlayEffect([first], Some(m.oversample), Some(err))
        case Ok(p) => PlayEffect([first, Play(s.channel, FileList(p.source), s.loop)], Some(p.oversample), None)
    else
      match main
      case Err(err) => PlayEffect([], None, Some(err))
      case Ok(p) => PlayEffect([Play(s.channel, FileList(p.source), s.loop)], Some(p.oversample), None)
  }

  /**
   * `default_play_callback` raises exactly when the mask (if any) or the
   * movie has an unknown modifier; the mask's error is raised first, with
   * nothing played, and the movie's after the mask played, with the mask's
   * factor stored.
   */
  lemma DefaultPlayEffectError(s: Slot, cfg: Config, loadable: set<string>)
    requires SlotValid(s) && s.play.Some?
    ensures var e := DefaultPlayEffect(s, cfg, loadable);
            var main := OversampledSource(s.oversample, s.play.value, cfg, loadable);
            var maskErr := Truthy(s.mask) && OversampledSource(s.oversample, s.mask.value, cfg, loadable).Err?;
            && (e.error.Some? <==> maskErr || main.Err?)
            && (maskErr ==> e == PlayEffect([], None, Some(OversampledSource(s.oversample, s.mask.value, cfg, loadable).error)))
            && (!maskErr && main.Err? ==>
                  e.error == Some(main.error) &&
                  e.oversample == if Truthy(s.mask) then Some(OversampledSource(s.oversample, s.mask.value, cfg, loadable).value.oversample)
                                  else None)
  {
  }

  const NoEffect := PlayEffect([], None, None)

  /**
   * `Movie.play(old)` after `ensure_channels`, given the play source of
   * `old`: nothing when neither has a source, or when the sources are equal
   * and replay is off; otherwise a truthy source starts (through the
   * Movie's own callback when it has one) and a false one stops the
   * channels at once.
   */
  function PlayEffectOf(s: Slot, oldPlay: Option<Source>, cfg: Config, loadable: set<string>): (e: PlayEffect)
    requires SlotValid(s)
    ensures s.play.None? && oldPlay.None? ==> e == NoEffect
    ensures s.play == oldPlay && !cfg.replayMovieSprites ==> e == NoEffect
    ensures e != NoEffect ==> s.play != oldPlay || cfg.replayMovieSprites
    ensures e.error.Some? ==> Truthy(s.play) && !s.customCallback
    ensures !Truthy(s.play) && (s.play.Some? || oldPlay.Some?) && (s.play != oldPlay || cfg.replayMovieSprites) ==>
              e == PlayEffect(ImmediateStops(s), None, None)
    ensures Truthy(s.play) && s.customCallback && (s.play != oldPlay || cfg.replayMovieSprites) ==>
              e == PlayEffect([Callback(s.channel)], None, None)
    ensures Truthy(s.play) && !s.customCallback && (s.play != oldPlay || cfg.replayMovieSprites) ==>
              e == DefaultPlayEffect(s, cfg, loadable)
  {
    if s.play.None? && oldPlay.None? then NoEffect
    else if s.play != oldPlay || cfg.replayMovieSprites then
      if Truthy(s.play) then
        if s.customCallback then PlayEffect([Callback(s.channel)], None, None)
        else DefaultPlayEffect(s, cfg, loadable)
      else PlayEffect(ImmediateStops(s), None, None)
    else NoEffect
  }

  /**
   * Playing a Movie with itself as the previous occupant does nothing unless
   * replay is on: the identity that keeps a Movie that stays on screen from
   * restarting.
   */
  lemma {:induction false} PlayAgainstSelf(s: Slot, cfg: Config, loadable: set<string>)
    requires SlotValid(s)
    ensures PlayEffectOf(s, s.play, cfg, loadable).commands != [] ==> cfg.replayMovieSprites && s.play.Some?
  {
    if !cfg.replayMovieSprites || s.play.None? {
      assert PlayEffectOf(s, s.play, cfg, loadable) == NoEffect;
    }
  }

  /** `Movie.stop` after `ensure_channels`: with a truthy source, stops of the channels that are defined. */
  function StopCommands(s: Slot, defined: set<string>): (r: seq<Command>)
    requires SlotValid(s)
    ensures !Truthy(s.play) ==> r == []
    ensures forall i :: 0 <= i < |r| ==> r[i].Stop? && r[i].immediate && r[i].channel in defined
    ensures Truthy(s.play) && s.channel in defined ==> |r| >= 1 && r[0] == Stop(s.channel, true)
    ensures Truthy(s.play) && Truthy(s.mask) && s.maskChannel.value in defined ==>
              |r| >= 1 && r[|r| - 1] == Stop(s.maskChannel.value, true)
    ensures |r| == (if Truthy(s.play) && s.channel in defined then 1 else 0) +
                   (if Truthy(s.play) && Truthy(s.mask) && s.maskChannel.value in defined then 1 else 0)
  {
    if !Truthy(s.play) then []
    else
      (if s.channel in defined then [Stop(s.channel, true)] else []) +
      (if Truthy(s.mask) && s.maskChannel.value in defined then [Stop(s.maskChannel.value, true)] else [])
  }

  /**
   * Once `ensure_channels` has defined the Movie's channels, the
   * `channel_defined` tests in `Movie.stop` always pass.
   */
  lemma {:induction false} StopAfterEnsureChannels(s: Slot, defined: set<string>, framedrop: bool)
    requires SlotValid(s)
    ensures var after := defined + ChannelNames(s.channel, s.maskChannel);
            StopCommands(s, after) == if Truthy(s.play) then ImmediateStops(s) else []
  {
    var after := defined + ChannelNames(s.channel, s.maskChannel);
    assert s.channel in after;
    if s.maskChannel.Some? {
      assert s.maskChannel.value in after;
    }
  }

  // ---------------------------------------------------------------------
  // The playback synchronizer (update_playing)
  // ---------------------------------------------------------------------

  /** A play of `movie` against `prev`, or a stop of `movie`, on a channel. */
  datatype Call<M> = PlayCall(channel: string, movie: M, prev: Option<M>) | StopCall(channel: string, movie: M)

  /** What `update_playing` does with the Movie `m` shown on a channel. */
  datatype Action<M> = Skip | PlayFrom(prev: Option<M>)

  /**
   * The four branches of `update_playing` for a channel shown by `m`, with
   * `prior` the context's previous occupant (`old` in the source) and `last` the occupant at the
   * last update, as they are written.
   */
  function Decide<M(==)>(m: M, prior: Option<M>, last: Option<M>, inReset: bool, replay: bool, loop: bool): (a: Action<M>)
    ensures a.PlayFrom? <==> ShouldPlay(m, prior, last, inReset, replay)
    ensures a.PlayFrom? ==> a.prev == prior
  {
    if inReset && replay then PlayFrom(prior)
    else if prior == Some(m) || last == Some(m) then Skip
    else if prior != Some(m) then PlayFrom(prior)
    else if loop && last != Some(m) then PlayFrom(last)
    else Skip
  }

  /** A shown Movie is played exactly when it was reset with replay on, or was neither the previous nor the last occupant. */
  predicate ShouldPlay<M(==)>(m: M, prior: Option<M>, last: Option<M>, inReset: bool, replay: bool)
  {
    (inReset && replay) || (prior != Some(m) && last != Some(m))
  }

  /** `m.play(last)` is never chosen: the `loop` branch cannot be reached. */
  lemma LoopBranchUnreachable<M>(m: M, prior: Option<M>, last: Option<M>, inReset: bool, replay: bool, loop: bool)
    requires last != prior
    ensures Decide(m, prior, last, inReset, replay, loop) != PlayFrom(last)
  {
  }

  predicate Planned<M(==)>(cm: map<string, M>, oldMap: map<string, M>, last: map<string, M>,
                           reset: set<string>, replay: bool, c: string)
  {
    c in cm && ShouldPlay(cm[c], Get(oldMap, c), Get(last, c), c in reset, replay)
  }

  /**
   * The channels `update_playing` stops and whom it stops on each: those
   * shown at the last update or in the context but not now, stopping the
   * last occupant in preference to the context's.
   */
  function StopTargets<M>(cm: map<string, M>, oldMap: map<string, M>, last: map<string, M>): (r: map<string, M>)
    ensures r.Keys == (last.Keys + oldMap.Keys) - cm.Keys
    ensures forall c :: c in r && c in last ==> r[c] == last[c]
    ensures forall c :: c in r && c !in last ==> r[c] == oldMap[c]
  {
    map c | c in (last.Keys + oldMap.Keys) - cm.Keys :: if c in last then last[c] else oldMap[c]
  }

  /** Every call in `p` is a planned play on a channel of `done`, no channel twice, and no planned channel of `done` missed. */
  ghost predicate PlaysCover<M>(p: seq<Call<M>>, cm: map<string, M>, oldMap: map<string, M>, last: map<string, M>,
                                    reset: set<string>, replay: bool, done: set<string>)
  {
    && (forall i :: 0 <= i < |p| ==>
          p[i].channel in done && Planned(cm, oldMap, last, reset, replay, p[i].channel) &&
          p[i] == PlayCall(p[i].channel, cm[p[i].channel], Get(oldMap, p[i].channel)))
    && (forall c :: c in done && Planned(cm, oldMap, last, reset, replay, c) ==>
          exists i :: 0 <= i < |p| && p[i].channel == c)
    && (forall i, j :: 0 <= i < j < |p| ==> p[i].channel != p[j].channel)
  }

  /** Every call in `s` stops a target of a channel of `done` on its target Movie, no channel twice, none of `done` missed. */
  ghost predicate StopsCover<M>(s: seq<Call<M>>, targets: map<string, M>, done: set<string>)
  {
    && (forall i :: 0 <= i < |s| ==>
          s[i].channel in done && s[i].channel in targets && s[i] == StopCall(s[i].channel, targets[s[i].channel]))
    && (forall c :: c in done && c in targets ==> exists i :: 0 <= i < |s| && s[i].channel == c)
    && (forall i, j :: 0 <= i < j < |s| ==> s[i].channel != s[j].channel)
  }

  /** The plays and stops of one complete `update_playing`. */
  ghost predicate Synchronized<M>(p: seq<Call<M>>, s: seq<Call<M>>, cm: map<string, M>, oldMap: map<string, M>,
                                      last: map<string, M>, reset: set<string>, replay: bool)
  {
    PlaysCover(p, cm, oldMap, last, reset, replay, cm.Keys) &&
    StopsCover(s, StopTargets(cm, oldMap, last), StopTargets(cm, oldMap, last).Keys)
  }

  /** Adding a channel whose decision has been carried out. */
  lemma PlaysCoverStep<M>(p: seq<Call<M>>, cm: map<string, M>, oldMap: map<string, M>, last: map<string, M>,
                              reset: set<string>, replay: bool, done: set<string>, c: string, played: bool)
    requires PlaysCover(p, cm, oldMap, last, reset, replay, done)
    requires c in cm && c !in done
    requires played <==> Planned(cm, oldMap, last, reset, replay, c)
    ensures var p' := if played then p + [PlayCall(c, cm[c], Get(oldMap, c))] else p;
            PlaysCover(p', cm, oldMap, last, reset, replay, done + {c})
  {
    var p' := if played then p + [PlayCall(c, cm[c], Get(oldMap, c))] else p;
    forall d | d in done + {c} && Planned(cm, oldMap, last, reset, replay, d)
      ensures exists i :: 0 <= i < |p'| && p'[i].channel == d
    {
      if d == c {
        assert p'[|p'| - 1].channel == c;
      } else {
        var i :| 0 <= i < |p| && p[i].channel == d;
        assert p'[i].channel == d;
      }
    }
  }

  lemma StopsCoverStep<M>(s: seq<Call<M>>, targets: map<string, M>, done: set<string>, c: string)
    requires StopsCover(s, targets, done)
    requires c in targets && c !in done
    ensures StopsCover(s + [StopCall(c, targets[c])], targets, done + {c})
  {
    var s' := s + [StopCall(c, targets[c])];
    forall d | d in done + {c} && d in targets
      ensures exists i :: 0 <= i < |s'| && s'[i].channel == d
    {
      if d == c {
        assert s'[|s'| - 1].channel == c;
      } else {
        var i :| 0 <= i < |s| && s[i].channel == d;
        assert s'[i].channel == d;
      }
    }
  }

  /** Progress of the play loop: the channels not in `todo` have been decided, and `p` covers them. */
  ghost predicate PlaysSoFar<M>(p: seq<Call<M>>, cm: map<string, M>, oldMap: map<string, M>, last: map<string, M>,
                                reset: set<string>, replay: bool, todo: set<string>)
  {
    todo <= cm.Keys && PlaysCover(p, cm, oldMap, last, reset, replay, cm.Keys - todo)
  }

  lemma PlaysStep<M>(p: seq<Call<M>>, cm: map<string, M>, oldMap: map<string, M>, last: map<string, M>,
                     reset: set<string>, replay: bool, todo: set<string>, c: string, played: bool)
    requires PlaysSoFar(p, cm, oldMap, last, reset, replay, todo)
    requires c in todo
    requires played <==> Planned(cm, oldMap, last, reset, replay, c)
    ensures played ==>
              PlaysSoFar(p + [PlayCall(c, cm[c], Get(oldMap, c))], cm, oldMap, last, reset, replay, todo - {c})
    ensures !played ==> PlaysSoFar(p, cm, oldMap, last, reset, replay, todo - {c})
  {
    PlaysCoverStep(p, cm, oldMap, last, reset, replay, cm.Keys - todo, c, played);
    assert cm.Keys - (todo - {c}) == (cm.Keys - todo) + {c};
  }

  /** A play loop stopped early has only played planned channels. */
  lemma PlaysSoFarPlanned<M>(p: seq<Call<M>>, cm: map<string, M>, oldMap: map<string, M>, last: map<string, M>,
                             reset: set<string>, replay: bool, todo: set<string>)
    requires PlaysSoFar(p, cm, oldMap, last, reset, replay, todo)
    ensures forall i :: 0 <= i < |p| ==> Planned(cm, oldMap, last, reset, replay, p[i].channel)
  {
  }

  /** A finished play loop covers every claimed channel. */
  lemma PlaysSoFarDone<M>(p: seq<Call<M>>, cm: map<string, M>, oldMap: map<string, M>, last: map<string, M>,
                          reset: set<string>, replay: bool)
    requires PlaysSoFar(p, cm, oldMap, last, reset, replay, {})
    ensures PlaysCover(p, cm, oldMap, last, reset, replay, cm.Keys)
  {
    assert cm.Keys - {} == cm.Keys;
  }

  /**
   * Progress of the loop over the last occupants: `stopped` holds the
   * channels visited so far that are no longer claimed, and `s` stops each
   * of them once.
   */
  ghost predicate LastStopsSoFar<M>(s: seq<Call<M>>, cm: map<string, M>, oldMap: map<string, M>, last: map<string, M>,
                                    todo: set<string>, stopped: set<string>)
  {
    && todo <= last.Keys
    && (forall x :: x in stopped <==> x in last && x !in todo && x !in cm)
    && StopsCover(s, StopTargets(cm, oldMap, last), stopped)
  }

  lemma LastStopsStep<M>(s: seq<Call<M>>, cm: map<string, M>, oldMap: map<string, M>, last: map<string, M>,
                         todo: set<string>, stopped: set<string>, c: string)
    requires LastStopsSoFar(s, cm, oldMap, last, todo, stopped)
    requires c in todo
    ensures c !in cm ==> LastStopsSoFar(s + [StopCall(c, last[c])], cm, oldMap, last, todo - {c}, stopped + {c})
    ensures c in cm ==> LastStopsSoFar(s, cm, oldMap, last, todo - {c}, stopped)
  {
    if c !in cm {
      StopsCoverStep(s, StopTargets(cm, oldMap, last), stopped, c);
    }
  }

  /**
   * Progress of the loop over the context's occupants: `done` holds the
   * channels stopped by either loop so far, and `s` stops each of them once.
   */
  ghost predicate ContextStopsSoFar<M>(s: seq<Call<M>>, cm: map<string, M>, oldMap: map<string, M>, last: map<string, M>,
                                       stopped: set<string>, todo: set<string>, done: set<string>)
  {
    && todo <= oldMap.Keys
    && (forall x :: x in stopped <==> x in last && x !in cm)
    && (forall x :: x in done <==> x in stopped || (x in oldMap && x !in todo && x !in cm))
    && StopsCover(s, StopTargets(cm, oldMap, last), done)
  }

  /** The second loop starts where the first one ended. */
  lemma ContextStopsStart<M>(s: seq<Call<M>>, cm: map<string, M>, oldMap: map<string, M>, last: map<string, M>,
                             stopped: set<string>)
    requires LastStopsSoFar(s, cm, oldMap, last, {}, stopped)
    ensures ContextStopsSoFar(s, cm, oldMap, last, stopped, oldMap.Keys, stopped)
  {
  }

  lemma ContextStopsStep<M>(s: seq<Call<M>>, cm: map<string, M>, oldMap: map<string, M>, last: map<string, M>,
                            stopped: set<string>, todo: set<string>, done: set<string>, c: string)
    requires ContextStopsSoFar(s, cm, oldMap, last, stopped, todo, done)
    requires c in todo
    ensures c !in cm && c !in stopped ==>
              ContextStopsSoFar(s + [StopCall(c, oldMap[c])], cm, oldMap, last, stopped, todo - {c}, done + {c})
    ensures !(c !in cm && c !in stopped) ==> ContextStopsSoFar(s, cm, oldMap, last, stopped, todo - {c}, done)
  {
    if c !in cm && c !in stopped {
      StopsCoverStep(s, StopTargets(cm, oldMap, last), done, c);
    }
  }

  /** When both loops are over, every target has been stopped. */
  lemma ContextStopsEnd<M>(s: seq<Call<M>>, cm: map<string, M>, oldMap: map<string, M>, last: map<string, M>,
                           stopped: set<string>, done: set<string>)
    requires ContextStopsSoFar(s, cm, oldMap, last, stopped, {}, done)
    ensures StopsCover(s, StopTargets(cm, oldMap, last), StopTargets(cm, oldMap, last).Keys)
  {
    assert done == StopTargets(cm, oldMap, last).Keys;
  }

  // ---------------------------------------------------------------------
  // The commands a trace of calls sends
  // ---------------------------------------------------------------------

  /** The play source of a previous occupant, as `Movie.play(old)` reads it. */
  function PrevPlay<M>(prev: Option<M>, slotOf: map<M, Slot>): (r: Option<Source>)
    ensures prev.None? ==> r.None?
    ensures prev.Some? && prev.value in slotOf ==> r == slotOf[prev.value].play
  {
    if prev.Some? && prev.value in slotOf then slotOf[prev.value].play else None
  }

  /**
   * The commands one call sends, given the channels already defined and the
   * slot of each Movie: the registrations of `ensure_channels`, then the
   * commands of `Movie.play` or `Movie.stop`.
   */
  function CallLog<M>(c: Call<M>, slotOf: map<M, Slot>, defined: set<string>, cfg: Config, loadable: set<string>)
    : (r: seq<Command>)
  {
    if c.movie !in slotOf || !SlotValid(slotOf[c.movie]) then []
    else
      var s := slotOf[c.movie];
      Registrations(defined, s.channel, s.maskChannel, Truthy(s.mask)) +
      if c.PlayCall? then PlayEffectOf(s, PrevPlay(c.prev, slotOf), cfg, loadable).commands
      else if Truthy(s.play) then ImmediateStops(s)
      else []
  }

  /** What a play of a Movie with a known, valid slot sends. */
  lemma CallLogPlay<M>(c: string, m: M, prev: Option<M>, slotOf: map<M, Slot>, defined: set<string>,
                       cfg: Config, loadable: set<string>)
    requires m in slotOf && SlotValid(slotOf[m])
    ensures var s := slotOf[m];
            CallLog(PlayCall(c, m, prev), slotOf, defined, cfg, loadable) ==
              Registrations(defined, s.channel, s.maskChannel, Truthy(s.mask)) +
              PlayEffectOf(s, PrevPlay(prev, slotOf), cfg, loadable).commands
    ensures CallError(PlayCall(c, m, prev), slotOf, cfg, loadable) == PlayEffectOf(slotOf[m], PrevPlay(prev, slotOf), cfg, loadable).error
  {
  }

  /** What a stop of a Movie with a known, valid slot sends. */
  lemma CallLogStop<M>(c: string, m: M, slotOf: map<M, Slot>, defined: set<string>, cfg: Config, loadable: set<string>)
    requires m in slotOf && SlotValid(slotOf[m])
    ensures var s := slotOf[m];
            CallLog(StopCall(c, m), slotOf, defined, cfg, loadable) ==
              Registrations(defined, s.channel, s.maskChannel, Truthy(s.mask)) +
              if Truthy(s.play) then ImmediateStops(s) else []
  {
  }

  /** The channels defined after one call. */
  function CallDefines<M>(c: Call<M>, slotOf: map<M, Slot>, defined: set<string>): (r: set<string>)
  {
    if c.movie in slotOf then defined + ChannelNames(slotOf[c.movie].channel, slotOf[c.movie].maskChannel) else defined
  }

  /** The unknown modifier a call raises, if any: only a play through `default_play_callback` raises one. */
  function CallError<M>(c: Call<M>, slotOf: map<M, Slot>, cfg: Config, loadable: set<string>): (r: Option<ModifierError>)
  {
    if c.PlayCall? && c.movie in slotOf && SlotValid(slotOf[c.movie]) then
      PlayEffectOf(slotOf[c.movie], PrevPlay(c.prev, slotOf), cfg, loadable).error
    else None
  }

  /** The commands a trace of calls sends, in order, and the channels defined after it. */
  function SentLog<M>(calls: seq<Call<M>>, slotOf: map<M, Slot>, defined: set<string>, cfg: Config, loadable: set<string>)
    : (r: (seq<Command>, set<string>))
    ensures defined <= r.1
    ensures calls == [] ==> r == ([], defined)
    decreases |calls|
  {
    if calls == [] then ([], defined)
    else
      var before := SentLog(calls[..|calls| - 1], slotOf, defined, cfg, loadable);
      var c := calls[|calls| - 1];
      (before.0 + CallLog(c, slotOf, before.1, cfg, loadable), CallDefines(c, slotOf, before.1))
  }

  /** One more call sends its own commands after those of the trace. */
  lemma SentLogStep<M>(calls: seq<Call<M>>, c: Call<M>, slotOf: map<M, Slot>, defined: set<string>,
                       cfg: Config, loadable: set<string>)
    ensures var before := SentLog(calls, slotOf, defined, cfg, loadable);
            SentLog(calls + [c], slotOf, defined, cfg, loadable) ==
              (before.0 + CallLog(c, slotOf, before.1, cfg, loadable), CallDefines(c, slotOf, before.1))
  {
    assert (calls + [c])[..|calls|] == calls;
  }

  /**
   * `log` is `log0` followed by the commands the trace `calls` sends from the
   * defined channels `d0`, and `defined` the channels defined after it.
   */
  ghost predicate Logged<M>(log0: seq<Command>, log: seq<Command>, defined: set<string>, calls: seq<Call<M>>,
                            slotOf: map<M, Slot>, d0: set<string>, cfg: Config, loadable: set<string>)
  {
    var sent := SentLog(calls, slotOf, d0, cfg, loadable);
    log == log0 + sent.0 && defined == sent.1
  }

  /** A log that held the commands of a trace, extended by what one more call sends, holds those of the longer trace. */
  lemma LoggedNext<M>(log0: seq<Command>, calls: seq<Call<M>>, c: Call<M>, slotOf: map<M, Slot>, d0: set<string>,
                      cfg: Config, loadable: set<string>,
                      log: seq<Command>, defined: set<string>, log': seq<Command>, defined': set<string>)
    requires Logged(log0, log, defined, calls, slotOf, d0, cfg, loadable)
    requires log' == log + CallLog(c, slotOf, defined, cfg, loadable) && defined' == CallDefines(c, slotOf, defined)
    ensures Logged(log0, log', defined', calls + [c], slotOf, d0, cfg, loadable)
  {
    SentLogStep(calls, c, slotOf, d0, cfg, loadable);
    var before := SentLog(calls, slotOf, d0, cfg, loadable);
    ConcatAssoc(log0, before.0, CallLog(c, slotOf, defined, cfg, loadable));
  }

  /** Logging two traces one after the other logs the two together. */
  lemma LoggedAppend<M>(a: seq<Call<M>>, b: seq<Call<M>>, slotOf: map<M, Slot>, cfg: Config, loadable: set<string>,
                        log0: seq<Command>, d0: set<string>, log1: seq<Command>, d1: set<string>,
                        log2: seq<Command>, d2: set<string>)
    requires Logged(log0, log1, d1, a, slotOf, d0, cfg, loadable)
    requires Logged(log1, log2, d2, b, slotOf, d1, cfg, loadable)
    ensures Logged(log0, log2, d2, a + b, slotOf, d0, cfg, loadable)
  {
    SentLogAppend(a, b, slotOf, d0, cfg, loadable);
    var first := SentLog(a, slotOf, d0, cfg, loadable);
    ConcatAssoc(log0, first.0, SentLog(b, slotOf, d1, cfg, loadable).0);
  }

  /** No call of the trace raises an unknown modifier. */
  ghost predicate NoErrors<M>(calls: seq<Call<M>>, slotOf: map<M, Slot>, cfg: Config, loadable: set<string>)
  {
    forall i :: 0 <= i < |calls| ==> CallError(calls[i], slotOf, cfg, loadable).None?
  }

  /**
   * The trace ended at its first error: every call but the last passed and
   * the last one raised `err`.
   */
  ghost predicate EndsInError<M>(calls: seq<Call<M>>, slotOf: map<M, Slot>, cfg: Config, loadable: set<string>,
                                 err: ModifierError)
  {
    && |calls| >= 1
    && CallError(calls[|calls| - 1], slotOf, cfg, loadable) == Some(err)
    && NoErrors(calls[..|calls| - 1], slotOf, cfg, loadable)
  }

  lemma NoErrorsNext<M>(calls: seq<Call<M>>, c: Call<M>, slotOf: map<M, Slot>, cfg: Config, loadable: set<string>)
    requires NoErrors(calls, slotOf, cfg, loadable)
    ensures CallError(c, slotOf, cfg, loadable).None? ==> NoErrors(calls + [c], slotOf, cfg, loadable)
    ensures CallError(c, slotOf, cfg, loadable).Some? ==>
              EndsInError(calls + [c], slotOf, cfg, loadable, CallError(c, slotOf, cfg, loadable).value)
  {
    assert (calls + [c])[..|calls|] == calls;
  }

  /** Two traces one after the other send the commands of the first, then those of the second. */
  lemma {:induction false} SentLogAppend<M>(a: seq<Call<M>>, b: seq<Call<M>>, slotOf: map<M, Slot>,
                                            defined: set<string>, cfg: Config, loadable: set<string>)
    ensures var first := SentLog(a, slotOf, defined, cfg, loadable);
            var second := SentLog(b, slotOf, first.1, cfg, loadable);
            SentLog(a + b, slotOf, defined, cfg, loadable) == (first.0 + second.0, second.1)
    decreases |b|
  {
    if b == [] {
      assert a + b == a;
      var first := SentLog(a, slotOf, defined, cfg, loadable);
      assert first.0 + [] == first.0;
    } else {
      var b' := b[..|b| - 1];
      var c := b[|b| - 1];
      assert b == b' + [c];
      assert a + b == (a + b') + [c];
      SentLogAppend(a, b', slotOf, defined, cfg, loadable);
      SentLogStep(a + b', c, slotOf, defined, cfg, loadable);
      var first := SentLog(a, slotOf, defined, cfg, loadable);
      SentLogStep(b', c, slotOf, first.1, cfg, loadable);
      var mid := SentLog(b', slotOf, first.1, cfg, loadable);
      var last := CallLog(c, slotOf, mid.1, cfg, loadable);
      assert SentLog(b, slotOf, first.1, cfg, loadable) == (mid.0 + last, CallDefines(c, slotOf, mid.1));
      ConcatAssoc(first.0, mid.0, last);
    }
  }

  lemma ConcatAssoc<T>(a: seq<T>, b: seq<T>, c: seq<T>)
    ensures (a + b) + c == a + (b + c)
  {
  }

  /** A covering trace holds one call for each planned channel. */
  lemma {:induction false} PlaysCoverCount<M>(p: seq<Call<M>>, cm: map<string, M>, oldMap: map<string, M>,
                                                   last: map<string, M>, reset: set<string>, replay: bool)
    requires PlaysCover(p, cm, oldMap, last, reset, replay, cm.Keys)
    ensures |p| == |set c | c in cm && Planned(cm, oldMap, last, reset, replay, c)|
  {
    var planned := set c | c in cm && Planned(cm, oldMap, last, reset, replay, c);
    var channels := set i | 0 <= i < |p| :: p[i].channel;
    assert channels == planned;
    ChannelsOfDistinct(p);
  }

  /** A sequence of calls on distinct channels has as many channels as calls. */
  lemma {:induction false} ChannelsOfDistinct<M>(p: seq<Call<M>>)
    requires forall i, j :: 0 <= i < j < |p| ==> p[i].channel != p[j].channel
    ensures |set i | 0 <= i < |p| :: p[i].channel| == |p|
    decreases |p|
  {
    if p != [] {
      var q := p[..|p| - 1];
      ChannelsOfDistinct(q);
      var s := set i | 0 <= i < |p| :: p[i].channel;
      var t := set i | 0 <= i < |q| :: q[i].channel;
      assert s == t + {p[|p| - 1].channel};
      assert p[|p| - 1].channel !in t;
    }
  }

  /** A covering stop trace holds one call for each target. */
  lemma {:induction false} StopsCoverCount<M>(s: seq<Call<M>>, targets: map<string, M>)
    requires StopsCover(s, targets, targets.Keys)
    ensures |s| == |targets.Keys|
  {
    var channels := set i | 0 <= i < |s| :: s[i].channel;
    assert channels == targets.Keys;
    ChannelsOfDistinct(s);
  }

  /** When the shown Movies are those of the last update and the context and nothing was reset, nothing is played or stopped. */
  lemma {:induction false} SteadyStateIsQuiet<M>(p: seq<Call<M>>, s: seq<Call<M>>, cm: map<string, M>,
                                                 reset: set<string>, replay: bool)
    requires Synchronized(p, s, cm, cm, cm, reset, replay)
    requires !replay || reset == {}
    ensures p == [] && s == []
  {
    PlaysCoverCount(p, cm, cm, cm, reset, replay);
    assert (set c | c in cm && Planned(cm, cm, cm, reset, replay, c)) == {};
    StopsCoverCount(s, StopTargets(cm, cm, cm));
  }

  /**
   * Movie A replacing Movie B on channel c: A is played once against B, and
   * nothing is stopped.
   */
  lemma {:induction false} ReplacementPlaysOnce<M>(p: seq<Call<M>>, s: seq<Call<M>>, c: string, a: M, b: M,
                                                   reset: set<string>, replay: bool)
    requires a != b
    requires Synchronized(p, s, map[c := a], map[c := b], map[c := b], reset, replay)
    ensures p == [PlayCall(c, a, Some(b))] && s == []
  {
    var cm := map[c := a];
    PlaysCoverCount(p, cm, map[c := b], map[c := b], reset, replay);
    assert (set d | d in cm && Planned(cm, map[c := b], map[c := b], reset, replay, d)) == {c};
    StopsCoverCount(s, StopTargets(cm, map[c := b], map[c := b]));
    assert p[0].channel in cm;
  }

  /**
   * A channel shown at the last update and in the context but not now is
   * stopped once, on its last occupant.
   */
  lemma {:induction false} HiddenStopsOnce<M>(p: seq<Call<M>>, s: seq<Call<M>>, c: string, a: M, b: M,
                                              reset: set<string>, replay: bool)
    requires Synchronized(p, s, map[], map[c := b], map[c := a], reset, replay)
    ensures p == [] && s == [StopCall(c, a)]
  {
    var none: map<string, M> := map[];
    PlaysCoverCount(p, none, map[c := b], map[c := a], reset, replay);
    assert (set d | d in none && Planned(none, map[c := b], map[c := a], reset, replay, d)) == {};
    var t := StopTargets(none, map[c := b], map[c := a]);
    assert t == map[c := a];
    StopsCoverCount(s, t);
    assert s[0].channel in t;
  }

  /**
   * A looping Movie shown on "movie" at three updates in a row, starting
   * from an empty history: it is played once, against no previous occupant,
   * at the first update and nothing happens at the next two (each update
   * leaves the shown map as both the last and the context map).
   */
  lemma {:induction false} ThreeUpdatesPlayOnce<M>(m: M,
                                                   p1: seq<Call<M>>, s1: seq<Call<M>>,
                                                   p2: seq<Call<M>>, s2: seq<Call<M>>,
                                                   p3: seq<Call<M>>, s3: seq<Call<M>>, replay: bool)
    requires var cm := map["movie" := m];
             Synchronized(p1, s1, cm, map[], map[], {}, replay) &&
             Synchronized(p2, s2, cm, cm, cm, {}, replay) &&
             Synchronized(p3, s3, cm, cm, cm, {}, replay)
    ensures p1 == [PlayCall("movie", m, None)] && s1 == []
    ensures p2 == [] && s2 == [] && p3 == [] && s3 == []
  {
    var cm := map["movie" := m];
    var none: map<string, M> := map[];
    PlaysCoverCount(p1, cm, none, none, {}, replay);
    assert (set d | d in cm && Planned(cm, none, none, {}, replay, d)) == {"movie"};
    StopsCoverCount(s1, StopTargets(cm, none, none));
    assert p1[0].channel in cm;
    SteadyStateIsQuiet(p2, s2, cm, {}, replay);
    SteadyStateIsQuiet(p3, s3, cm, {}, replay);
  }

  // ---------------------------------------------------------------------
  // The frequent-update driver and the fullscreen flag
  // ---------------------------------------------------------------------

  /** The groups `group_texture` keeps: one per grouped Movie shown, carrying its previous texture (or None). */
  function CycleGroups(groups: set<string>, previous: map<string, Option<Texture>>): (r: map<string, Option<Texture>>)
    ensures r.Keys == groups
    ensures forall g :: g in r ==> r[g] == GroupLookup(previous, g)
  {
    map g | g in groups :: GroupLookup(previous, g)
  }

  /** Cycling one more group adds that group's entry and changes no other. */
  lemma CycleGroupsAdd(groups: set<string>, previous: map<string, Option<Texture>>, g: string)
    ensures CycleGroups(groups + {g}, previous) == CycleGroups(groups, previous)[g := GroupLookup(previous, g)]
  {
  }

  /**
   * After the groups are cycled, a shown grouped Movie never counts as not
   * playing, so its fallback image is never drawn while its group is shown,
   * even when its channel has stopped.
   */
  lemma GroupedMovieAlwaysPlaying(g: string, groups: set<string>, previous: map<string, Option<Texture>>,
                                  playing: bool, reset: bool)
    requires g in groups
    ensures !NotPlaying(playing, reset, Some(g), CycleGroups(groups, previous))
  {
  }

  /** A channel key is ready when its channel has a frame ready and so has its mask channel, if it names one. */
  predicate KeyReady(k: ChannelKey, ready: set<string>)
    ensures KeyReady(k, ready) ==> k.0 in ready
    ensures k.1.None? || k.1.value == [] ==> (KeyReady(k, ready) <==> k.0 in ready)
    ensures k.1.Some? && k.1.value != [] && k.1.value !in ready ==> !KeyReady(k, ready)
  {
    k.0 in ready && (k.1.Some? && k.1.value != [] ==> k.1.value in ready)
  }

  /** `interact`'s fullscreen flag: "movie" plays and no shown Movie uses it as its channel. */
  predicate FullscreenOf(playing: set<string>, keys: set<ChannelKey>)
    ensures FullscreenOf(playing, keys) ==> "movie" in playing
    ensures (exists k :: k in keys && k.0 == "movie") ==> !FullscreenOf(playing, keys)
    ensures keys == {} ==> (FullscreenOf(playing, keys) <==> "movie" in playing)
  {
    "movie" in playing && forall k :: k in keys ==> k.0 != "movie"
  }

  /** The texture cache after `interact`: the entries of channels that still play. */
  function EvictStopped(cache: map<string, Texture>, playing: set<string>): (r: map<string, Texture>)
    ensures r.Keys == cache.Keys * playing
    ensures forall c :: c in r ==> r[c] == cache[c]
  {
    map c | c in cache && c in playing :: cache[c]
  }

  // ---------------------------------------------------------------------
  // movie_start
  // ---------------------------------------------------------------------

  /** `[f] * n`, which is empty for n <= 0. */
  function Repeat(f: string, n: int): (r: seq<string>)
    ensures |r| == if n > 0 then n else 0
    ensures forall i :: 0 <= i < |r| ==> r[i] == f
    decreases n
  {
    if n <= 0 then [] else [f] + Repeat(f, n - 1)
  }

  /** The files and loop flag `movie_start` plays on "movie". */
  datatype StartPlan = StartPlan(files: seq<string>, loop: bool)

  /**
   * `movie_start(filename, loops=...)`: -1 loops the file forever; otherwise
   * the file is queued loops + 1 times (no times at all below -1) without
   * looping.
   */
  function MovieStartPlan(filename: string, loops: int): (r: StartPlan)
    ensures loops == -1 ==> r == StartPlan([filename], true)
    ensures loops != -1 ==> !r.loop && |r.files| == (if loops >= 0 then loops + 1 else 0)
    ensures forall i :: 0 <= i < |r.files| ==> r.files[i] == filename
  {
    if loops == -1 then StartPlan([filename], true) else StartPlan(Repeat(filename, loops + 1), false)
  }
}
