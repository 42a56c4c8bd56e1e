/**
 * Movie displayables and the module state of the video layer
 * (renpy/display/video.py), as classes whose methods update their fields
 * and talk to the backend. Each method is proved to follow the rules in
 * `Decisions` and `Oversample`.
 */
module Video {
  import opened Wrappers
  import opened PyStr
  import opened Settings
  import opened Oversample
  import opened Media
  import opened Decisions

  /** A redraw of `movie` requested after `delay` seconds (`renpy.display.render.redraw`). */
  datatype Redraw = Redraw(movie: Movie, delay: real)

  /** A Movie displayable: one video sprite shown on a channel. */
  class Movie {
    const size: Option<(nat, nat)>
    const mask: Option<Source>
    const sideMask: bool
    const image: Option<Image>
    const startImage: Option<Image>
    /** A `play_callback` was given; what it does is outside this model. */
    const customCallback: bool
    const loop: bool
    const group: Option<string>
    /** The `oversample` given to the constructor. */
    const oversample: Option<real>

    var channel: string
    /** `_play`: the source to play, when it is loadable. */
    var play: Option<Source>
    /** `_original_play`: the source as it was requested. */
    var originalPlay: Option<Source>
    var maskChannel: Option<string>
    /** `playing_oversample`: the factor of what is playing now. */
    var playingOversample: real

    ghost predicate Valid()
      reads this`play, this`originalPlay, this`maskChannel
    {
      Consistent(mask, maskChannel, sideMask, play, originalPlay)
    }

    /** The fields play and stop consult. */
    function Snapshot(): (s: Slot)
      reads this`channel, this`maskChannel, this`play
      ensures s.channel == channel && s.maskChannel == maskChannel && s.mask == mask && s.play == play
    {
      Slot(channel, maskChannel, mask, play, loop, oversample, customCallback)
    }

    /** `Movie.__init__`, with the channels registered by `ensure_channels`. */
    constructor (vs: VideoState, channel: string, play: Option<Source>, mask: Option<Source>,
                 maskChannel: Option<string>, sideMask: bool, size: Option<(nat, nat)>,
                 image: Option<Image>, startImage: Option<Image>, customCallback: bool, loop: bool,
                 group: Option<string>, keepLastFrame: bool, oversample: Option<real>)
      modifies vs`movieChannelSerial, vs`keepLastFrameSerial, vs.backend`defined, vs.backend`log
      ensures var s := Construct(channel, play, mask, maskChannel, sideMask, group, keepLastFrame, vs.config,
                                 vs.backend.loadable, old(vs.movieChannelSerial), old(vs.keepLastFrameSerial));
              && this.channel == s.channel && this.play == s.play && this.originalPlay == s.originalPlay
              && this.mask == s.mask && this.maskChannel == s.maskChannel && this.group == s.group
              && vs.movieChannelSerial == s.channelSerial && vs.keepLastFrameSerial == s.keepLastFrameSerial
      ensures this.sideMask == sideMask && this.size == size && this.image == image && this.startImage == startImage
      ensures this.customCallback == customCallback && this.loop == loop && this.oversample == oversample
      ensures playingOversample == 1.0
      ensures vs.backend.defined == old(vs.backend.defined) + ChannelNames(this.channel, this.maskChannel)
      ensures vs.backend.log ==
                old(vs.backend.log) + Registrations(old(vs.backend.defined), this.channel, this.maskChannel, Truthy(this.mask))
      ensures Valid()
    {
      var s := Construct(channel, play, mask, maskChannel, sideMask, group, keepLastFrame, vs.config,
                         vs.backend.loadable, vs.movieChannelSerial, vs.keepLastFrameSerial);
      this.channel, this.play, this.originalPlay := s.channel, s.play, s.originalPlay;
      this.mask, this.maskChannel, this.group := s.mask, s.maskChannel, s.group;
      this.size, this.sideMask, this.loop, this.oversample := size, sideMask, loop, oversample;
      this.image, this.startImage, this.customCallback := image, startImage, customCallback;
      this.playingOversample := 1.0;
      vs.movieChannelSerial, vs.keepLastFrameSerial := s.channelSerial, s.keepLastFrameSerial;
      new;
      EnsureChannels(vs.backend);
    }

    /** `after_setstate`: re-chooses the play source and renames a channel with a space or slash. */
    method AfterSetstate(vs: VideoState)
      requires Valid()
      modifies this`play, this`originalPlay, this`channel, this`maskChannel, vs`movieChannelSerial
      ensures var r := Restore(old(play), old(originalPlay), old(channel), old(maskChannel), vs.backend.loadable,
                               old(vs.movieChannelSerial));
              play == r.play && originalPlay == r.originalPlay && channel == r.channel &&
              maskChannel == r.maskChannel && vs.movieChannelSerial == r.channelSerial
      ensures Valid()
    {
      var p := if Truthy(originalPlay) then originalPlay else play;
      if p.Some? && AnyLoadable(p.value, vs.backend.loadable) {
        originalPlay, play := p, p;
      } else {
        play := None;
        originalPlay := p;
      }
      if ' ' in channel || '/' in channel {
        channel := GeneratedChannel(vs.movieChannelSerial);
        vs.movieChannelSerial := vs.movieChannelSerial + 1;
        if maskChannel.Some? {
          maskChannel := Some(channel + "_mask");
        }
      }
    }

    /** `ensure_channel(name)`: registers a channel the backend does not know yet. */
    method EnsureChannel(backend: Backend, name: Option<string>)
      modifies backend`defined, backend`log
      ensures name.None? || name.value in old(backend.defined) ==>
                backend.defined == old(backend.defined) && backend.log == old(backend.log)
      ensures name.Some? && name.value !in old(backend.defined) ==>
                backend.defined == old(backend.defined) + {name.value} &&
                backend.log == old(backend.log) + [Register(name.value, Truthy(mask))]
    {
      if name.None? {
        return;
      }
      if name.value in backend.defined {
        return;
      }
      var framedrop := Truthy(mask);
      backend.RegisterChannel(name.value, framedrop);
    }

    /** `ensure_channels`: the channel, then the mask channel. */
    method EnsureChannels(backend: Backend)
      modifies backend`defined, backend`log
      ensures backend.defined == old(backend.defined) + ChannelNames(channel, maskChannel)
      ensures backend.log == old(backend.log) + Registrations(old(backend.defined), channel, maskChannel, Truthy(mask))
    {
      EnsureChannel(backend, Some(channel));
      EnsureChannel(backend, maskChannel);
    }

    /**
     * `find_oversampled(self, src)`: the source to play, with the factor stored
     * in `playingOversample`; an unknown modifier is raised before anything
     * is stored.
     */
    method FindOversampled(src: Source, cfg: Config, loadable: set<string>) returns (r: Result<Source, ModifierError>)
      modifies this`playingOversample
      ensures var e := OversampledSource(oversample, src, cfg, loadable);
              && (e.Ok? ==> r == Ok(e.value.source) && playingOversample == e.value.oversample)
              && (e.Err? ==> r == Err(e.error) && playingOversample == old(playingOversample))
    {
      var factor: real;
      var result: Source;
      if oversample.Some? {
        factor, result := oversample.value, src;
      } else if src.Files? {
        factor, result := 1.0, src;
      } else {
        var filename := FindOversampledFilename(src.name, cfg, loadable);
        factor := 1.0;
        if '@' in filename {
          if filename[0] == '<' {
            filename := Partition(filename, '>').after;
          }
          var scanned := ScanModifiers(ModifierTokens(filename));
          if scanned.Err? {
            return Err(UnknownModifier(scanned.error, filename));
          }
          factor := scanned.value;
        }
        result := File(filename);
      }
      playingOversample := factor;
      r := Ok(result);
    }

    /** `default_play_callback(old, self)`: the mask first, then the movie. */
    method DefaultPlayCallback(backend: Backend, cfg: Config) returns (o: Outcome<ModifierError>)
      requires Valid() && play.Some?
      modifies this`playingOversample, backend`log
      ensures var e := DefaultPlayEffect(Snapshot(), cfg, backend.loadable);
              && backend.log == old(backend.log) + e.commands
              && playingOversample == (if e.oversample.Some? then e.oversample.value else old(playingOversample))
              && o == (if e.error.Some? then Fail(e.error.value) else Pass)
    {
      if Truthy(mask) {
        var m := FindOversampled(mask.value, cfg, backend.loadable);
        if m.Err? {
          return Fail(m.error);
        }
        backend.PlayFiles(maskChannel.value, FileList(m.value), loop);
      }
      var p := FindOversampled(play.value, cfg, backend.loadable);
      if p.Err? {
        return Fail(p.error);
      }
      backend.PlayFiles(channel, FileList(p.value), loop);
      o := Pass;
    }

    /** `play(old)`, with `previous` the Movie that occupied the channel before (if any). */
    method Play(previous: Option<Movie>, backend: Backend, cfg: Config) returns (o: Outcome<ModifierError>)
      requires Valid()
      modifies this`playingOversample, backend`defined, backend`log
      ensures var e := PlayEffectOf(Snapshot(), if previous.None? then None else previous.value.play, cfg, backend.loadable);
              && backend.defined == old(backend.defined) + ChannelNames(channel, maskChannel)
              && backend.log == old(backend.log) + Registrations(old(backend.defined), channel, maskChannel, Truthy(mask)) + e.commands
              && playingOversample == (if e.oversample.Some? then e.oversample.value else old(playingOversample))
              && o == (if e.error.Some? then Fail(e.error.value) else Pass)
    {
      EnsureChannels(backend);
      var oldPlay := if previous.None? then None else previous.value.play;
      o := Pass;
      if play.None? && oldPlay.None? {
        return;
      }
      if play != oldPlay || cfg.replayMovieSprites {
        if Truthy(play) {
          if customCallback {
            backend.InvokeCallback(channel);
          } else {
            o := DefaultPlayCallback(backend, cfg);
          }
        } else {
          backend.StopChannel(channel, true);
          if Truthy(mask) {
            backend.StopChannel(maskChannel.value, true);
          }
        }
      }
    }

    /**
     * `stop()`: with a truthy source, fadeout-0 stops of the channels that are
     * defined, which after `ensure_channels` is all of them.
     */
    method Stop(backend: Backend)
      requires Valid()
      modifies backend`defined, backend`log
      ensures backend.defined == old(backend.defined) + ChannelNames(channel, maskChannel)
      ensures backend.log == old(backend.log) + Registrations(old(backend.defined), channel, maskChannel, Truthy(mask))
                             + StopCommands(Snapshot(), backend.defined)
      ensures backend.log == old(backend.log) + Registrations(old(backend.defined), channel, maskChannel, Truthy(mask))
                             + (if Truthy(play) then ImmediateStops(Snapshot()) else [])
    {
      EnsureChannels(backend);
      if Truthy(play) {
        if channel in backend.defined {
          backend.StopChannel(channel, true);
        }
        if Truthy(mask) {
          if maskChannel.value in backend.defined {
            backend.StopChannel(maskChannel.value, true);
          }
        }
      }
    }

    /** `set_transform_event`: a "show" marks the channel for replay. */
    method SetTransformEvent(vs: VideoState, event: string)
      modifies vs`resetChannels
      ensures vs.resetChannels == if event == "show" then old(vs.resetChannels) + {channel} else old(vs.resetChannels)
    {
      if event == "show" {
        vs.resetChannels := vs.resetChannels + {channel};
      }
    }

    /** `per_interact`: registers the Movie under its channel pair and asks for an immediate redraw. */
    method PerInteract(vs: VideoState)
      modifies vs`displayableChannels, vs`redraws, vs.backend`defined, vs.backend`log
      ensures var k := (channel, maskChannel);
              vs.displayableChannels ==
                old(vs.displayableChannels)[k := (if k in old(vs.displayableChannels) then old(vs.displayableChannels)[k] else []) + [this]]
      ensures vs.redraws == old(vs.redraws) + [Redraw(this, 0.0)]
      ensures vs.backend.defined == old(vs.backend.defined) + ChannelNames(channel, maskChannel)
      ensures vs.backend.log == old(vs.backend.log) + Registrations(old(vs.backend.defined), channel, maskChannel, Truthy(mask))
    {
      EnsureChannels(vs.backend);
      var k := (channel, maskChannel);
      var movies := if k in vs.displayableChannels then vs.displayableChannels[k] else [];
      vs.displayableChannels := vs.displayableChannels[k := movies + [this]];
      vs.redraws := vs.redraws + [Redraw(this, 0.0)];
    }

    /**
     * `render`: claims the channel when the Movie has something to play, then
     * draws the fallback image when not playing, else the texture (shared
     * through the group), the start image or nothing, resized to `size`.
     */
    method Render(vs: VideoState) returns (r: Render)
      requires Valid() && vs.Valid()
      modifies vs`channelMovie, vs`groupTexture, vs`texture, vs`redraws, vs.backend`defined, vs.backend`log
      ensures vs.backend.defined == old(vs.backend.defined) + ChannelNames(channel, maskChannel)
      ensures vs.backend.log == old(vs.backend.log) + Registrations(old(vs.backend.defined), channel, maskChannel, Truthy(mask))
      ensures vs.channelMovie ==
                if Truthy(play) && !vs.config.videoImageFallback then old(vs.channelMovie)[channel := this]
                else old(vs.channelMovie)
      ensures var notPlaying := NotPlaying(channel in vs.backend.playing, channel in vs.resetChannels, group, old(vs.groupTexture));
              image.Some? && notPlaying ==>
                r == ImageRender(image.value) && vs.texture == old(vs.texture) &&
                vs.groupTexture == old(vs.groupTexture) && vs.redraws == old(vs.redraws)
      ensures var notPlaying := NotPlaying(channel in vs.backend.playing, channel in vs.resetChannels, group, old(vs.groupTexture));
              !(image.Some? && notPlaying) ==>
                var f := FetchTexture(old(vs.texture), channel, channel in vs.backend.playing,
                                      vs.backend.ReadFrame(channel, maskChannel, sideMask));
                var x := GroupExchange(f.tex, group, old(vs.groupTexture));
                && vs.texture == f.cache
                && vs.groupTexture == x.groups
                && r == Sized(MovieRender(notPlaying, x.tex, startImage, playingOversample), size)
                && vs.redraws == old(vs.redraws) + [Redraw(this, 0.1)]
    {
      EnsureChannels(vs.backend);
      assert vs.Valid();
      ClaimChannel(vs);
      var playing := channel in vs.backend.playing;
      var notPlaying := !playing;
      if channel in vs.resetChannels {
        notPlaying := false;
      }
      if group.Some? && group.value in vs.groupTexture {
        notPlaying := false;
      }
      if image.Some? && notPlaying {
        return ImageRender(image.value);
      }
      r := DrawFrame(vs, notPlaying);
    }

    /** The first step of `render`: a Movie with something to play claims its channel in `channel_movie`. */
    method ClaimChannel(vs: VideoState)
      requires Valid() && vs.Valid()
      modifies vs`channelMovie
      ensures vs.Valid()
      ensures vs.channelMovie ==
                if Truthy(play) && !vs.config.videoImageFallback then old(vs.channelMovie)[channel := this]
                else old(vs.channelMovie)
    {
      if Truthy(play) && !vs.config.videoImageFallback {
        if Get(vs.channelMovie, channel) != Some(this) {
          vs.channelMovie := vs.channelMovie[channel := this];
        }
      }
    }

    /**
     * The rest of `render` once the fallback image is ruled out: fetch the
     * texture, exchange it with the group, choose what to draw, resize it
     * and ask to be redrawn in a tenth of a second.
     */
    method DrawFrame(vs: VideoState, notPlaying: bool) returns (r: Render)
      modifies vs`groupTexture, vs`texture, vs`redraws
      ensures var f := FetchTexture(old(vs.texture), channel, channel in old(vs.backend.playing),
                                    old(vs.backend.ReadFrame(channel, maskChannel, sideMask)));
              var x := GroupExchange(f.tex, group, old(vs.groupTexture));
              && vs.texture == f.cache
              && vs.groupTexture == x.groups
              && r == Sized(MovieRender(notPlaying, x.tex, startImage, playingOversample), size)
              && vs.redraws == old(vs.redraws) + [Redraw(this, 0.1)]
    {
      ghost var frame := vs.backend.ReadFrame(channel, maskChannel, sideMask);
      var tex, _ := vs.GetMovieTexture(channel, maskChannel, sideMask);
      assert frame == vs.backend.ReadFrame(channel, maskChannel, sideMask);
      var groups := vs.groupTexture;
      if group.Some? {
        if tex.None? {
          tex := GroupLookup(groups, group.value);
        } else {
          groups := groups[group.value := tex];
        }
      }
      vs.groupTexture := groups;
      if !notPlaying && tex.Some? {
        r := TextureRender(tex.value, playingOversample);
      } else if !notPlaying && startImage.Some? {
        r := ImageRender(startImage.value);
      } else {
        r := Empty;
      }
      if size.Some? {
        r := ResizeMovie(r, size.value.0, size.value.1);
      }
      vs.redraws := vs.redraws + [Redraw(this, 0.1)];
    }
  }

  /**
   * The token loop of `find_oversampled`: parses each modifier in turn,
   * stopping at the first that does not parse.
   */
  method ScanModifiers(tokens: seq<string>) returns (r: Result<real, string>)
    ensures r == LastModifier(tokens, 1.0)
  {
    var factor := 1.0;
    var i := 0;
    assert tokens[i..] == tokens;
    while i < |tokens|
      invariant 0 <= i <= |tokens|
      invariant LastModifier(tokens[i..], factor) == LastModifier(tokens, 1.0)
    {
      var v := ParseDecimal(tokens[i]);
      if v.None? {
        return Err(tokens[i]);
      }
      assert tokens[i..][1..] == tokens[i + 1..];
      factor := v.value;
      i := i + 1;
    }
    r := Ok(factor);
  }

  /** The Movies registered in `displayable_channels` under the keys `ks`. */
  ghost function ShownMovies(dc: map<ChannelKey, seq<Movie>>, ks: set<ChannelKey>): set<Movie>
  {
    set k, j | k in ks && k in dc && 0 <= j < |dc[k]| :: dc[k][j]
  }

  /** The groups of the Movies registered under the keys `ks`. */
  ghost function ShownGroups(dc: map<ChannelKey, seq<Movie>>, ks: set<ChannelKey>): set<string>
  {
    set k, j | k in ks && k in dc && 0 <= j < |dc[k]| && dc[k][j].group.Some? :: dc[k][j].group.value
  }

  /** The groups of the Movies in `ms`. */
  ghost function GroupsIn(ms: seq<Movie>): set<string>
  {
    set j | 0 <= j < |ms| && ms[j].group.Some? :: ms[j].group.value
  }

  lemma ShownGroupsAdd(dc: map<ChannelKey, seq<Movie>>, ks: set<ChannelKey>, k: ChannelKey)
    requires k in dc
    ensures ShownGroups(dc, ks + {k}) == ShownGroups(dc, ks) + GroupsIn(dc[k])
  {
    forall g | g in GroupsIn(dc[k])
      ensures g in ShownGroups(dc, ks + {k})
    {
      var j :| 0 <= j < |dc[k]| && dc[k][j].group.Some? && dc[k][j].group.value == g;
      assert k in ks + {k};
    }
  }

  lemma GroupsInAppend(ms: seq<Movie>, j: nat)
    requires j < |ms|
    ensures GroupsIn(ms[..j + 1]) == GroupsIn(ms[..j]) + if ms[j].group.Some? then {ms[j].group.value} else {}
  {
    var a := ms[..j + 1];
    if ms[j].group.Some? {
      assert a[j] == ms[j];
    }
    forall g | g in GroupsIn(ms[..j])
      ensures g in GroupsIn(a)
    {
      var i :| 0 <= i < j && ms[..j][i].group.Some? && ms[..j][i].group.value == g;
      assert a[i] == ms[..j][i];
    }
  }

  /** One more Movie of a key visited: its group, if any, joins the cycled map. */
  lemma CycleGroupsStep(before: set<string>, ms: seq<Movie>, j: nat, previous: map<string, Option<Texture>>)
    requires j < |ms|
    ensures CycleGroups(before + GroupsIn(ms[..j + 1]), previous) ==
              if ms[j].group.Some? then
                CycleGroups(before + GroupsIn(ms[..j]), previous)[ms[j].group.value := GroupLookup(previous, ms[j].group.value)]
              else CycleGroups(before + GroupsIn(ms[..j]), previous)
  {
    GroupsInAppend(ms, j);
    if ms[j].group.Some? {
      CycleGroupsAdd(before + GroupsIn(ms[..j]), previous, ms[j].group.value);
      assert before + GroupsIn(ms[..j + 1]) == (before + GroupsIn(ms[..j])) + {ms[j].group.value};
    } else {
      assert before + GroupsIn(ms[..j + 1]) == before + GroupsIn(ms[..j]);
    }
  }

  lemma ShownMoviesAdd(dc: map<ChannelKey, seq<Movie>>, ks: set<ChannelKey>, k: ChannelKey)
    requires k in dc
    ensures ShownMovies(dc, ks + {k}) == ShownMovies(dc, ks) + set j | 0 <= j < |dc[k]| :: dc[k][j]
  {
    forall m | m in set j | 0 <= j < |dc[k]| :: dc[k][j]
      ensures m in ShownMovies(dc, ks + {k})
    {
      var j :| 0 <= j < |dc[k]| && dc[k][j] == m;
      assert k in ks + {k};
    }
  }

  /** Every redraw in `rs` is immediate and of a shown Movie, and every shown Movie has one. */
  ghost predicate RedrawsAll(rs: seq<Redraw>, shown: set<Movie>)
  {
    (forall i :: 0 <= i < |rs| ==> rs[i].delay == 0.0 && rs[i].movie in shown) &&
    (forall m :: m in shown ==> exists i :: 0 <= i < |rs| && rs[i].movie == m)
  }

  lemma RedrawsAllAppend(rs: seq<Redraw>, shown: set<Movie>, m: Movie)
    requires RedrawsAll(rs, shown)
    ensures RedrawsAll(rs + [Redraw(m, 0.0)], shown + {m})
  {
    var rs' := rs + [Redraw(m, 0.0)];
    forall n | n in shown + {m}
      ensures exists i :: 0 <= i < |rs'| && rs'[i].movie == n
    {
      if n == m {
        assert rs'[|rs|].movie == m;
      } else {
        var i :| 0 <= i < |rs| && rs[i].movie == n;
        assert rs'[i].movie == n;
      }
    }
  }

  /** Appends an immediate redraw of each of `movies` to `rs`. */
  method RedrawEach(rs: seq<Redraw>, ghost shown: set<Movie>, movies: seq<Movie>) returns (r: seq<Redraw>)
    requires RedrawsAll(rs, shown)
    ensures RedrawsAll(r, shown + set i | 0 <= i < |movies| :: movies[i])
  {
    r := rs;
    ghost var seen: set<Movie> := {};
    var j := 0;
    while j < |movies|
      invariant 0 <= j <= |movies|
      invariant seen == set i | 0 <= i < j :: movies[i]
      invariant RedrawsAll(r, shown + seen)
    {
      RedrawsAllAppend(r, shown + seen, movies[j]);
      r := r + [Redraw(movies[j], 0.0)];
      assert (set i | 0 <= i < j + 1 :: movies[i]) == seen + {movies[j]};
      seen := seen + {movies[j]};
      j := j + 1;
    }
  }

  /** The slot of each of `ms`, as play and stop consult it. */
  ghost function Snapshots(ms: set<Movie>): (r: map<Movie, Slot>)
    reads ms`channel, ms`maskChannel, ms`play
    ensures r.Keys == ms
    ensures forall m :: m in ms ==> r[m] == m.Snapshot()
  {
    map m | m in ms :: m.Snapshot()
  }

  /** `slotOf` holds the current slot of every Movie of `mm`. */
  ghost predicate Snapped(slotOf: map<Movie, Slot>, mm: map<string, Movie>)
    reads mm.Values`channel, mm.Values`maskChannel, mm.Values`play
  {
    forall c :: c in mm ==> mm[c] in slotOf && slotOf[mm[c]] == mm[c].Snapshot()
  }

  /** Every Movie of `mm` is valid and `slotOf` holds its current slot. */
  ghost predicate Ready(slotOf: map<Movie, Slot>, mm: map<string, Movie>)
    reads mm.Values`channel, mm.Values`maskChannel, mm.Values`play, mm.Values`originalPlay
  {
    forall c :: c in mm ==> mm[c].Valid() && mm[c] in slotOf && slotOf[mm[c]] == mm[c].Snapshot()
  }

  /** The snapshots of a set of Movies cover every map whose Movies are among them. */
  lemma SnapshotsSnapped(mm: map<string, Movie>, ms: set<Movie>)
    requires mm.Values <= ms
    ensures Snapped(Snapshots(ms), mm)
  {
    forall c | c in mm
      ensures mm[c] in ms
    {
      assert mm[c] in mm.Values;
    }
  }

  /** The claims `update_playing` remembers, the resets it clears, and the backend's log and defined channels. */
  datatype Tracking = Tracking(last: map<string, Movie>, context: map<string, Movie>, reset: set<string>,
                               log: seq<Command>, defined: set<string>)

  /**
   * What `update_playing` leaves in `after`, from `before`, given the claims
   * `cm` and the slot of each Movie: the log holds the log before and then
   * the commands of the plays and the stops, in order. Without an error
   * every claimed channel was decided and every unclaimed one stopped
   * (`Synchronized`), no play raised, and the claims are remembered and the
   * resets cleared; with an error the plays made were planned ones, the last
   * of them raised the error, nothing was stopped and nothing is remembered.
   */
  ghost predicate PlayingUpdated(o: Outcome<ModifierError>, plays: seq<Call<Movie>>, stops: seq<Call<Movie>>,
                                 slotOf: map<Movie, Slot>, cfg: Config, loadable: set<string>,
                                 cm: map<string, Movie>, before: Tracking, after: Tracking)
  {
    && Logged(before.log, after.log, after.defined, plays + stops, slotOf, before.defined, cfg, loadable)
    && (o.Pass? ==>
          && Synchronized(plays, stops, cm, before.context, before.last, before.reset, cfg.replayMovieSprites)
          && NoErrors(plays, slotOf, cfg, loadable)
          && after.last == cm && after.context == cm && after.reset == {})
    && (o.Fail? ==>
          && (forall i :: 0 <= i < |plays| ==>
                Planned(cm, before.context, before.last, before.reset, cfg.replayMovieSprites, plays[i].channel))
          && EndsInError(plays, slotOf, cfg, loadable, o.error)
          && stops == [] && after.last == before.last && after.context == before.context && after.reset == before.reset)
  }

  /** A pass of `update_playing` that played and stopped as planned, with no error. */
  lemma UpdatedPass(plays: seq<Call<Movie>>, stops: seq<Call<Movie>>, slotOf: map<Movie, Slot>, cfg: Config,
                    loadable: set<string>, cm: map<string, Movie>, before: Tracking, log: seq<Command>, defined: set<string>)
    requires Logged(before.log, log, defined, plays + stops, slotOf, before.defined, cfg, loadable)
    requires Synchronized(plays, stops, cm, before.context, before.last, before.reset, cfg.replayMovieSprites)
    requires NoErrors(plays, slotOf, cfg, loadable)
    ensures PlayingUpdated(Pass, plays, stops, slotOf, cfg, loadable, cm, before, Tracking(cm, cm, {}, log, defined))
  {
  }

  /** A pass of `update_playing` cut short by the error of its last play. */
  lemma UpdatedFail(err: ModifierError, plays: seq<Call<Movie>>, slotOf: map<Movie, Slot>, cfg: Config,
                    loadable: set<string>, cm: map<string, Movie>, before: Tracking, log: seq<Command>, defined: set<string>)
    requires Logged(before.log, log, defined, plays, slotOf, before.defined, cfg, loadable)
    requires forall i :: 0 <= i < |plays| ==>
               Planned(cm, before.context, before.last, before.reset, cfg.replayMovieSprites, plays[i].channel)
    requires EndsInError(plays, slotOf, cfg, loadable, err)
    ensures PlayingUpdated(Fail(err), plays, [], slotOf, cfg, loadable, cm, before,
                           Tracking(before.last, before.context, before.reset, log, defined))
  {
    assert plays + [] == plays;
  }

  /** The video layer's module state, with the backend it talks to and the configuration it reads. */
  class VideoState {
    const backend: Backend
    const config: Config
    /** `texture`: the last texture of each channel. */
    var texture: map<string, Texture>
    /** `displayable_channels`: the Movies shown this interaction, by channel pair, in registration order. */
    var displayableChannels: map<ChannelKey, seq<Movie>>
    /** `channel_movie`: the Movie that claimed each channel this redraw. */
    var channelMovie: map<string, Movie>
    var fullscreen: bool
    /** `reset_channels`: channels shown again since the last update. */
    var resetChannels: set<string>
    /** `group_texture`: the texture of each group; a key mapped to None is a group with no texture yet. */
    var groupTexture: map<string, Option<Texture>>
    /** `last_channel_movie`: `channel_movie` as of the last update. */
    var lastChannelMovie: map<string, Movie>
    /** `renpy.game.context().movie`: the context's copy of it, which rollback and loading can replace. */
    var contextMovie: map<string, Movie>
    /** `movie_channel_serial`. */
    var movieChannelSerial: nat
    /** `Movie.keep_last_frame_serial`. */
    var keepLastFrameSerial: nat
    /** The redraws requested so far. */
    var redraws: seq<Redraw>

    ghost predicate Valid()
      reads this`channelMovie, this`lastChannelMovie, this`contextMovie
      reads channelMovie.Values`play, channelMovie.Values`originalPlay, channelMovie.Values`maskChannel
      reads lastChannelMovie.Values`play, lastChannelMovie.Values`originalPlay, lastChannelMovie.Values`maskChannel
      reads contextMovie.Values`play, contextMovie.Values`originalPlay, contextMovie.Values`maskChannel
    {
      && (forall m :: m in channelMovie.Values ==> m.Valid())
      && (forall m :: m in lastChannelMovie.Values ==> m.Valid())
      && (forall m :: m in contextMovie.Values ==> m.Valid())
    }

    constructor (backend: Backend, config: Config)
      ensures this.backend == backend && this.config == config
      ensures texture == map[] && displayableChannels == map[] && channelMovie == map[] && !fullscreen
      ensures resetChannels == {} && groupTexture == map[] && lastChannelMovie == map[] && contextMovie == map[]
      ensures movieChannelSerial == 0 && keepLastFrameSerial == 0 && redraws == []
      ensures Valid()
    {
      this.backend, this.config := backend, config;
      texture, displayableChannels, channelMovie, fullscreen := map[], map[], map[], false;
      resetChannels, groupTexture, lastChannelMovie, contextMovie := {}, map[], map[], map[];
      movieChannelSerial, keepLastFrameSerial, redraws := 0, 0, [];
    }

    /** `early_interact`: forgets which Movies are shown and which claimed channels. */
    method EarlyInteract()
      requires Valid()
      modifies this`displayableChannels, this`channelMovie
      ensures displayableChannels == map[] && channelMovie == map[]
      ensures Valid()
    {
      displayableChannels := map[];
      channelMovie := map[];
    }

    /**
     * `interact`: drops the textures of channels that stopped and computes the
     * fullscreen flag: "movie" plays and no shown Movie uses it.
     */
    method Interact() returns (r: bool)
      modifies this`texture, this`fullscreen
      ensures texture == EvictStopped(old(texture), backend.playing)
      ensures fullscreen == FullscreenOf(backend.playing, displayableChannels.Keys)
      ensures r == fullscreen
    {
      var keys := texture.Keys;
      while keys != {}
        invariant keys <= old(texture).Keys
        invariant texture == map c | c in old(texture) && (c in keys || c in backend.playing) :: old(texture)[c]
        decreases |keys|
      {
        var c :| c in keys;
        if c !in backend.playing {
          texture := texture - {c};
        }
        keys := keys - {c};
      }
      if "movie" in backend.playing {
        var claimed := false;
        var ks := displayableChannels.Keys;
        while ks != {}
          invariant ks <= displayableChannels.Keys
          invariant !claimed
          invariant forall k :: k in displayableChannels.Keys - ks ==> k.0 != "movie"
          decreases |ks|
        {
          var k :| k in ks;
          if k.0 == "movie" {
            claimed := true;
            break;
          }
          ks := ks - {k};
        }
        fullscreen := !claimed;
      } else {
        fullscreen := false;
      }
      r := fullscreen;
    }

    /** `get_movie_texture(channel, mask_channel, side_mask)`. */
    method GetMovieTexture(channel: string, maskChannel: Option<string>, sideMask: bool) returns (tex: Option<Texture>, isNew: bool)
      modifies this`texture
      ensures var f := FetchTexture(old(texture), channel, channel in backend.playing,
                                    backend.ReadFrame(channel, maskChannel, sideMask));
              tex == f.tex && isNew == f.isNew && texture == f.cache
    {
      if channel !in backend.playing {
        return None, false;
      }
      var surf := backend.ReadVideo(channel);
      var maskSurf: Option<Surface>;
      if sideMask {
        if surf.Some? {
          var (w, h) := Size(surf.value);
          var half := w / 2;
          maskSurf := Some(Sub(surf.value, half, 0, half, h));
          surf := Some(Sub(surf.value, 0, 0, half, h));
        } else {
          maskSurf := None;
        }
      } else if maskChannel.Some? && maskChannel.value != [] {
        maskSurf := backend.ReadVideo(maskChannel.value);
      } else {
        maskSurf := None;
      }
      if maskSurf.Some? {
        if surf.Some? {
          surf := Some(Masked(surf.value, maskSurf.value));
        } else {
          surf := None;
        }
      }
      if surf.Some? {
        tex := Some(Texture(surf.value));
        texture := texture[channel := tex.value];
        isNew := true;
      } else {
        tex := Get(texture, channel);
        isNew := false;
      }
    }

    /** `render_movie(channel, width, height)`: the channel's texture scaled to the screen, if there is one. */
    method RenderMovie(channel: string, width: nat, height: nat) returns (r: Option<Render>)
      modifies this`texture
      ensures var f := FetchTexture(old(texture), channel, channel in backend.playing, backend.ReadFrame(channel, None, false));
              texture == f.cache &&
              r == if f.tex.None? then None else Some(ResizeMovie(TextureRender(f.tex.value, 1.0), width, height))
    {
      var tex, _ := GetMovieTexture(channel, None, false);
      r := if tex.None? then None else Some(ResizeMovie(TextureRender(tex.value, 1.0), width, height));
    }

    /** `playing()`: whether "movie" or the channel of any shown Movie plays. */
    method Playing() returns (r: bool)
      ensures r <==> "movie" in backend.playing || exists k :: k in displayableChannels && k.0 in backend.playing
    {
      if "movie" in backend.playing {
        return true;
      }
      var ks := displayableChannels.Keys;
      while ks != {}
        invariant ks <= displayableChannels.Keys
        invariant forall k :: k in displayableChannels.Keys - ks ==> k.0 !in backend.playing
        decreases |ks|
      {
        var k :| k in ks;
        if k.0 in backend.playing {
          return true;
        }
        ks := ks - {k};
      }
      r := false;
    }

    /**
     * `update_playing`: plays the Movies that newly claimed a channel (or were
     * shown again with replay on), stops the previous occupants of channels no
     * longer claimed, each once, then remembers the claims and clears the
     * resets. An unknown modifier raised by a play ends it there.
     */
    method UpdatePlaying(ghost slotOf: map<Movie, Slot>)
      returns (o: Outcome<ModifierError>, ghost plays: seq<Call<Movie>>, ghost stops: seq<Call<Movie>>)
      requires Valid()
      requires Snapped(slotOf, channelMovie) && Snapped(slotOf, contextMovie) && Snapped(slotOf, lastChannelMovie)
      modifies this`lastChannelMovie, this`contextMovie, this`resetChannels, backend`defined, backend`log
      modifies channelMovie.Values`playingOversample
      ensures Valid()
      ensures PlayingUpdated(o, plays, stops, slotOf, config, backend.loadable, channelMovie, old(Tracked()), Tracked())
    {
      o, plays, stops := Synchronize(slotOf, channelMovie, contextMovie, lastChannelMovie, resetChannels);
      if o.Pass? {
        lastChannelMovie := channelMovie;
        contextMovie := channelMovie;
        resetChannels := {};
      }
    }

    /** The part of the state `update_playing` tracks and changes. */
    function Tracked(): (t: Tracking)
      reads this`lastChannelMovie, this`contextMovie, this`resetChannels, backend`log, backend`defined
      ensures t.last == lastChannelMovie && t.context == contextMovie && t.reset == resetChannels
      ensures t.log == backend.log && t.defined == backend.defined
    {
      Tracking(lastChannelMovie, contextMovie, resetChannels, backend.log, backend.defined)
    }

    /** The three loops of `update_playing`, over the claims, the context's occupants and the last occupants given. */
    method Synchronize(ghost slotOf: map<Movie, Slot>, cm: map<string, Movie>, prior: map<string, Movie>,
                       last: map<string, Movie>, reset: set<string>)
      returns (o: Outcome<ModifierError>, ghost plays: seq<Call<Movie>>, ghost stops: seq<Call<Movie>>)
      requires Ready(slotOf, cm) && Ready(slotOf, prior) && Ready(slotOf, last)
      modifies backend`defined, backend`log, cm.Values`playingOversample
      ensures forall m :: m in cm.Values ==> m.Valid()
      ensures forall m :: m in prior.Values ==> m.Valid()
      ensures forall m :: m in last.Values ==> m.Valid()
      ensures PlayingUpdated(o, plays, stops, slotOf, config, backend.loadable, cm,
                             Tracking(last, prior, reset, old(backend.log), old(backend.defined)),
                             if o.Pass? then Tracking(cm, cm, {}, backend.log, backend.defined)
                             else Tracking(last, prior, reset, backend.log, backend.defined))
    {
      ghost var before := Tracking(last, prior, reset, backend.log, backend.defined);
      stops := [];
      o, plays := PlayClaimed(slotOf, cm, prior, last, reset, config.replayMovieSprites);
      if o.Fail? {
        UpdatedFail(o.error, plays, slotOf, config, backend.loadable, cm, before, backend.log, backend.defined);
        return;
      }
      ghost var log, defined := backend.log, backend.defined;
      stops := StopUnclaimed(slotOf, cm, prior, last);
      LoggedAppend(plays, stops, slotOf, config, backend.loadable, before.log, before.defined,
                   log, defined, backend.log, backend.defined);
      UpdatedPass(plays, stops, slotOf, config, backend.loadable, cm, before, backend.log, backend.defined);
    }

    /** `m.play(old=prev)` as the play loop issues it on channel `c`, described through the slots of the Movies. */
    method PlayOccupant(ghost slotOf: map<Movie, Slot>, c: string, m: Movie, prev: Option<Movie>)
      returns (o: Outcome<ModifierError>)
      requires m.Valid() && m in slotOf && slotOf[m] == m.Snapshot()
      requires prev.Some? ==> prev.value in slotOf && slotOf[prev.value] == prev.value.Snapshot()
      modifies m`playingOversample, backend`defined, backend`log
      ensures backend.log == old(backend.log) + CallLog(PlayCall(c, m, prev), slotOf, old(backend.defined), config, backend.loadable)
      ensures backend.defined == CallDefines(PlayCall(c, m, prev), slotOf, old(backend.defined))
      ensures var err := CallError(PlayCall(c, m, prev), slotOf, config, backend.loadable);
              o == if err.Some? then Fail(err.value) else Pass
      ensures var e := PlayEffectOf(slotOf[m], PrevPlay(prev, slotOf), config, backend.loadable);
              m.playingOversample == if e.oversample.Some? then e.oversample.value else old(m.playingOversample)
    {
      ghost var s := m.Snapshot();
      ghost var previousPlay := PrevPlay(prev, slotOf);
      assert previousPlay == if prev.None? then None else prev.value.play;
      CallLogPlay(c, m, prev, slotOf, backend.defined, config, backend.loadable);
      ghost var log0 := backend.log;
      ghost var registrations := Registrations(backend.defined, s.channel, s.maskChannel, Truthy(s.mask));
      ghost var effect := PlayEffectOf(s, previousPlay, config, backend.loadable);
      ConcatAssoc(log0, registrations, effect.commands);
      o := m.Play(prev, backend, config);
      assert m.Snapshot() == s;
      assert previousPlay == if prev.None? then None else prev.value.play;
      assert backend.log == log0 + registrations + effect.commands;
    }

    /** `PlayOccupant`, which leaves every Movie of the three maps ready. */
    method PlayReady(ghost slotOf: map<Movie, Slot>, ghost cm: map<string, Movie>, ghost prior: map<string, Movie>,
                     ghost last: map<string, Movie>, c: string, m: Movie, prev: Option<Movie>)
      returns (o: Outcome<ModifierError>)
      requires m.Valid() && m in slotOf && slotOf[m] == m.Snapshot()
      requires prev.Some? ==> prev.value in slotOf && slotOf[prev.value] == prev.value.Snapshot()
      requires Ready(slotOf, cm) && Ready(slotOf, prior) && Ready(slotOf, last)
      modifies m`playingOversample, backend`defined, backend`log
      ensures Ready(slotOf, cm) && Ready(slotOf, prior) && Ready(slotOf, last)
      ensures backend.log == old(backend.log) + CallLog(PlayCall(c, m, prev), slotOf, old(backend.defined), config, backend.loadable)
      ensures backend.defined == CallDefines(PlayCall(c, m, prev), slotOf, old(backend.defined))
      ensures var err := CallError(PlayCall(c, m, prev), slotOf, config, backend.loadable);
              o == if err.Some? then Fail(err.value) else Pass
    {
      o := PlayOccupant(slotOf, c, m, prev);
      forall c | c in cm ensures cm[c].Valid() && cm[c] in slotOf && slotOf[cm[c]] == cm[c].Snapshot() {
        assert old(cm[c].Valid() && cm[c].Snapshot() == slotOf[cm[c]]);
      }
      forall c | c in prior ensures prior[c].Valid() && prior[c] in slotOf && slotOf[prior[c]] == prior[c].Snapshot() {
        assert old(prior[c].Valid() && prior[c].Snapshot() == slotOf[prior[c]]);
      }
      forall c | c in last ensures last[c].Valid() && last[c] in slotOf && slotOf[last[c]] == last[c].Snapshot() {
        assert old(last[c].Valid() && last[c].Snapshot() == slotOf[last[c]]);
      }
    }

    /** The first loop of `update_playing`: the decision of `Decide` for each claimed channel. */
    method PlayClaimed(ghost slotOf: map<Movie, Slot>, cm: map<string, Movie>, prior: map<string, Movie>,
                       last: map<string, Movie>, reset: set<string>, replay: bool)
      returns (o: Outcome<ModifierError>, ghost plays: seq<Call<Movie>>)
      requires Ready(slotOf, cm) && Ready(slotOf, prior) && Ready(slotOf, last)
      modifies backend`defined, backend`log, cm.Values`playingOversample
      ensures Ready(slotOf, cm) && Ready(slotOf, prior) && Ready(slotOf, last)
      ensures o.Pass? ==> PlaysCover(plays, cm, prior, last, reset, replay, cm.Keys)
      ensures o.Fail? ==> forall i :: 0 <= i < |plays| ==> Planned(cm, prior, last, reset, replay, plays[i].channel)
      ensures Logged(old(backend.log), backend.log, backend.defined, plays, slotOf, old(backend.defined), config, backend.loadable)
      ensures o.Pass? ==> NoErrors(plays, slotOf, config, backend.loadable)
      ensures o.Fail? ==> EndsInError(plays, slotOf, config, backend.loadable, o.error)
    {
      plays := [];
      ghost var log0, d0 := backend.log, backend.defined;
      var todo := cm.Keys;
      while todo != {}
        invariant PlaysSoFar(plays, cm, prior, last, reset, replay, todo)
        invariant Ready(slotOf, cm) && Ready(slotOf, prior) && Ready(slotOf, last)
        invariant Logged(log0, backend.log, backend.defined, plays, slotOf, d0, config, backend.loadable)
        invariant NoErrors(plays, slotOf, config, backend.loadable)
        decreases |todo|
      {
        var c :| c in todo;
        o, plays := PlayChannel(slotOf, cm, prior, last, reset, replay, c, todo, plays, log0, d0);
        if o.Fail? {
          PlaysSoFarPlanned(plays, cm, prior, last, reset, replay, todo - {c});
          return;
        }
        todo := todo - {c};
      }
      PlaysSoFarDone(plays, cm, prior, last, reset, replay);
      o := Pass;
    }

    /** One round of the play loop: the decision for channel `c`, carried out. */
    method PlayChannel(ghost slotOf: map<Movie, Slot>, cm: map<string, Movie>, prior: map<string, Movie>,
                       last: map<string, Movie>, reset: set<string>, replay: bool, c: string,
                       ghost todo: set<string>, ghost plays: seq<Call<Movie>>, ghost log0: seq<Command>, ghost d0: set<string>)
      returns (o: Outcome<ModifierError>, ghost plays': seq<Call<Movie>>)
      requires c in todo && PlaysSoFar(plays, cm, prior, last, reset, replay, todo)
      requires Ready(slotOf, cm) && Ready(slotOf, prior) && Ready(slotOf, last)
      requires Logged(log0, backend.log, backend.defined, plays, slotOf, d0, config, backend.loadable)
      requires NoErrors(plays, slotOf, config, backend.loadable)
      modifies backend`defined, backend`log, cm.Values`playingOversample
      ensures PlaysSoFar(plays', cm, prior, last, reset, replay, todo - {c})
      ensures Ready(slotOf, cm) && Ready(slotOf, prior) && Ready(slotOf, last)
      ensures Logged(log0, backend.log, backend.defined, plays', slotOf, d0, config, backend.loadable)
      ensures o.Pass? ==> NoErrors(plays', slotOf, config, backend.loadable)
      ensures o.Fail? ==> EndsInError(plays', slotOf, config, backend.loadable, o.error)
    {
      var m := cm[c];
      var a := Decide(m, Get(prior, c), Get(last, c), c in reset, replay, m.loop);
      PlaysStep(plays, cm, prior, last, reset, replay, todo, c, a.PlayFrom?);
      o, plays' := Pass, plays;
      if a.PlayFrom? {
        ghost var call := PlayCall(c, m, a.prev);
        ghost var log, defined := backend.log, backend.defined;
        o := PlayReady(slotOf, cm, prior, last, c, m, a.prev);
        LoggedNext(log0, plays, call, slotOf, d0, config, backend.loadable, log, defined, backend.log, backend.defined);
        NoErrorsNext(plays, call, slotOf, config, backend.loadable);
        plays' := plays + [call];
      }
    }

    /**
     * The last two loops of `update_playing`: the last occupant of each
     * channel no longer claimed is stopped, and then the context's occupant of
     * each such channel that had none.
     */
    method StopUnclaimed(ghost slotOf: map<Movie, Slot>, cm: map<string, Movie>, prior: map<string, Movie>,
                         last: map<string, Movie>)
      returns (ghost stops: seq<Call<Movie>>)
      requires Ready(slotOf, cm) && Ready(slotOf, prior) && Ready(slotOf, last)
      modifies backend`defined, backend`log
      ensures Ready(slotOf, cm) && Ready(slotOf, prior) && Ready(slotOf, last)
      ensures StopsCover(stops, StopTargets(cm, prior, last), StopTargets(cm, prior, last).Keys)
      ensures Logged(old(backend.log), backend.log, backend.defined, stops, slotOf, old(backend.defined), config, backend.loadable)
    {
      var stopped;
      stops, stopped := StopLastOccupants(slotOf, cm, prior, last);
      stops := StopContextOccupants(slotOf, cm, prior, last, stops, stopped, old(backend.log), old(backend.defined));
    }

    /** `m.stop()` as the stop loops issue it on channel `c`, described through the slot of the Movie. */
    method StopOccupant(ghost slotOf: map<Movie, Slot>, c: string, m: Movie)
      requires m.Valid() && m in slotOf && slotOf[m] == m.Snapshot()
      modifies backend`defined, backend`log
      ensures backend.log == old(backend.log) + CallLog(StopCall(c, m), slotOf, old(backend.defined), config, backend.loadable)
      ensures backend.defined == CallDefines(StopCall(c, m), slotOf, old(backend.defined))
    {
      CallLogStop(c, m, slotOf, backend.defined, config, backend.loadable);
      ghost var s := m.Snapshot();
      ConcatAssoc(backend.log, Registrations(backend.defined, s.channel, s.maskChannel, Truthy(s.mask)),
                  if Truthy(s.play) then ImmediateStops(s) else []);
      m.Stop(backend);
    }

    /** Stops one occupant, extending the stops the log already accounts for by that call. */
    method StopLogged(ghost slotOf: map<Movie, Slot>, ghost cm: map<string, Movie>, ghost prior: map<string, Movie>,
                      ghost last: map<string, Movie>, c: string, m: Movie, ghost stops: seq<Call<Movie>>,
                      ghost log0: seq<Command>, ghost d0: set<string>)
      requires m.Valid() && m in slotOf && slotOf[m] == m.Snapshot()
      requires Ready(slotOf, cm) && Ready(slotOf, prior) && Ready(slotOf, last)
      requires Logged(log0, backend.log, backend.defined, stops, slotOf, d0, config, backend.loadable)
      modifies backend`defined, backend`log
      ensures Ready(slotOf, cm) && Ready(slotOf, prior) && Ready(slotOf, last)
      ensures Logged(log0, backend.log, backend.defined, stops + [StopCall(c, m)], slotOf, d0, config, backend.loadable)
    {
      ghost var log, defined := backend.log, backend.defined;
      StopOccupant(slotOf, c, m);
      LoggedNext(log0, stops, StopCall(c, m), slotOf, d0, config, backend.loadable, log, defined, backend.log, backend.defined);
    }

    /** One turn of the second loop: stops `last[c]` when no Movie claims `c` this frame. */
    method StopLastChannel(ghost slotOf: map<Movie, Slot>, cm: map<string, Movie>, ghost prior: map<string, Movie>,
                           last: map<string, Movie>, ghost todo: set<string>, c: string, ghost stops0: seq<Call<Movie>>,
                           stopped0: set<string>, ghost log0: seq<Command>, ghost d0: set<string>)
      returns (ghost stops: seq<Call<Movie>>, stopped: set<string>)
      requires Ready(slotOf, cm) && Ready(slotOf, prior) && Ready(slotOf, last)
      requires c in todo && LastStopsSoFar(stops0, cm, prior, last, todo, stopped0)
      requires Logged(log0, backend.log, backend.defined, stops0, slotOf, d0, config, backend.loadable)
      modifies backend`defined, backend`log
      ensures Ready(slotOf, cm) && Ready(slotOf, prior) && Ready(slotOf, last)
      ensures LastStopsSoFar(stops, cm, prior, last, todo - {c}, stopped)
      ensures Logged(log0, backend.log, backend.defined, stops, slotOf, d0, config, backend.loadable)
    {
      LastStopsStep(stops0, cm, prior, last, todo, stopped0, c);
      stops, stopped := stops0, stopped0;
      if c !in cm {
        StopLogged(slotOf, cm, prior, last, c, last[c], stops, log0, d0);
        stops := stops + [StopCall(c, last[c])];
        stopped := stopped + {c};
      }
    }

    /** The second loop of `update_playing`: stops the last occupant of each channel no longer claimed. */
    method StopLastOccupants(ghost slotOf: map<Movie, Slot>, cm: map<string, Movie>, ghost prior: map<string, Movie>,
                             last: map<string, Movie>)
      returns (ghost stops: seq<Call<Movie>>, stopped: set<string>)
      requires Ready(slotOf, cm) && Ready(slotOf, prior) && Ready(slotOf, last)
      modifies backend`defined, backend`log
      ensures Ready(slotOf, cm) && Ready(slotOf, prior) && Ready(slotOf, last)
      ensures LastStopsSoFar(stops, cm, prior, last, {}, stopped)
      ensures Logged(old(backend.log), backend.log, backend.defined, stops, slotOf, old(backend.defined), config, backend.loadable)
    {
      stops, stopped := [], {};
      ghost var log0, d0 := backend.log, backend.defined;
      var todo := last.Keys;
      while todo != {}
        invariant Ready(slotOf, cm) && Ready(slotOf, prior) && Ready(slotOf, last)
        invariant LastStopsSoFar(stops, cm, prior, last, todo, stopped)
        invariant Logged(log0, backend.log, backend.defined, stops, slotOf, d0, config, backend.loadable)
        decreases |todo|
      {
        var c :| c in todo;
        stops, stopped := StopLastChannel(slotOf, cm, prior, last, todo, c, stops, stopped, log0, d0);
        todo := todo - {c};
      }
    }

    /** The third loop of `update_playing`: stops the context's occupant of each unclaimed channel not stopped already. */
    method StopContextOccupants(ghost slotOf: map<Movie, Slot>, cm: map<string, Movie>, prior: map<string, Movie>,
                                ghost last: map<string, Movie>, ghost stops0: seq<Call<Movie>>, stopped: set<string>,
                                ghost log0: seq<Command>, ghost d0: set<string>)
      returns (ghost stops: seq<Call<Movie>>)
      requires Ready(slotOf, cm) && Ready(slotOf, prior) && Ready(slotOf, last)
      requires LastStopsSoFar(stops0, cm, prior, last, {}, stopped)
      requires Logged(log0, backend.log, backend.defined, stops0, slotOf, d0, config, backend.loadable)
      modifies backend`defined, backend`log
      ensures Ready(slotOf, cm) && Ready(slotOf, prior) && Ready(slotOf, last)
      ensures StopsCover(stops, StopTargets(cm, prior, last), StopTargets(cm, prior, last).Keys)
      ensures Logged(log0, backend.log, backend.defined, stops, slotOf, d0, config, backend.loadable)
    {
      ContextStopsStart(stops0, cm, prior, last, stopped);
      ghost var done := stopped;
      stops := stops0;
      var todo := prior.Keys;
      while todo != {}
        invariant Ready(slotOf, cm) && Ready(slotOf, prior) && Ready(slotOf, last)
        invariant ContextStopsSoFar(stops, cm, prior, last, stopped, todo, done)
        invariant Logged(log0, backend.log, backend.defined, stops, slotOf, d0, config, backend.loadable)
        decreases |todo|
      {
        var c :| c in todo;
        ContextStopsStep(stops, cm, prior, last, stopped, todo, done, c);
        if c !in cm && c !in stopped {
          StopLogged(slotOf, cm, prior, last, c, prior[c], stops, log0, d0);
          stops := stops + [StopCall(c, prior[c])];
          done := done + {c};
        }
        todo := todo - {c};
      }
      ContextStopsEnd(stops, cm, prior, last, stopped, done);
    }

    /**
     * `frequent`: runs the synchronizer, carries each shown group's texture
     * over (dropping the other groups), and reports whether the fullscreen
     * movie has a frame ready; with no fullscreen movie and every shown
     * channel (and mask channel) ready, every shown Movie is redrawn at once.
     */
    method Frequent(ghost slotOf: map<Movie, Slot>)
      returns (r: Result<bool, ModifierError>, ghost plays: seq<Call<Movie>>, ghost stops: seq<Call<Movie>>)
      requires Valid()
      requires Snapped(slotOf, channelMovie) && Snapped(slotOf, contextMovie) && Snapped(slotOf, lastChannelMovie)
      modifies this`lastChannelMovie, this`contextMovie, this`resetChannels, this`groupTexture, this`redraws
      modifies backend`defined, backend`log, channelMovie.Values`playingOversample
      ensures PlayingUpdated(if r.Ok? then Pass else Fail(r.error), plays, stops, slotOf, config, backend.loadable,
                             channelMovie, old(Tracked()), Tracked())
      ensures r.Err? ==> groupTexture == old(groupTexture) && redraws == old(redraws)
      ensures r.Ok? ==> CycledAndRedrawn(r.value, old(groupTexture), old(redraws))
    {
      var o;
      o, plays, stops := UpdatePlaying(slotOf);
      if o.Fail? {
        return Err(o.error), plays, stops;
      }
      ghost var t := Tracked();
      var ready := CycleAndRedraw();
      assert Tracked() == t;
      return Ok(ready), plays, stops;
    }

    /**
     * What the part of `frequent` after `update_playing` leaves, from the
     * group textures `groups0` and redraws `redraws0` it started with: each
     * shown group keeps its texture and no other group is kept; with a
     * fullscreen movie the result is whether "movie" has a frame ready and
     * nothing is redrawn; otherwise the result is false, and every shown Movie
     * is redrawn at once exactly when every shown channel and mask channel is
     * ready.
     */
    ghost predicate CycledAndRedrawn(r: bool, groups0: map<string, Option<Texture>>, redraws0: seq<Redraw>)
      reads this`groupTexture, this`redraws, this`displayableChannels, this`fullscreen, backend`ready
    {
      && groupTexture == CycleGroups(ShownGroups(displayableChannels, displayableChannels.Keys), groups0)
      && (fullscreen ==> r == ("movie" in backend.ready) && redraws == redraws0)
      && (!fullscreen ==> !r)
      && (!fullscreen && (forall k :: k in displayableChannels ==> KeyReady(k, backend.ready)) ==>
            |redraws| >= |redraws0| && redraws[..|redraws0|] == redraws0 &&
            RedrawsAll(redraws[|redraws0|..], ShownMovies(displayableChannels, displayableChannels.Keys)))
      && (!fullscreen && !(forall k :: k in displayableChannels ==> KeyReady(k, backend.ready)) ==>
            redraws == redraws0)
    }

    /** The part of `frequent` after `update_playing`: the group-texture cycle, the readiness test and the redraws. */
    method CycleAndRedraw() returns (r: bool)
      modifies this`groupTexture, this`redraws
      ensures CycledAndRedrawn(r, old(groupTexture), old(redraws))
    {
      CycleGroupTextures();
      if fullscreen {
        return "movie" in backend.ready;
      } else if displayableChannels != map[] {
        var update := AllShownReady();
        if update {
          RedrawShown();
        }
        return false;
      }
      return false;
    }

    /** The group-texture cycle of `frequent`: each shown group keeps its texture (or gets None); other groups are dropped. */
    method CycleGroupTextures()
      modifies this`groupTexture
      ensures groupTexture == CycleGroups(ShownGroups(displayableChannels, displayableChannels.Keys), old(groupTexture))
    {
      var dc := displayableChannels;
      var previous := groupTexture;
      var cycled: map<string, Option<Texture>> := map[];
      var keys := dc.Keys;
      while keys != {}
        invariant keys <= dc.Keys
        invariant cycled == CycleGroups(ShownGroups(dc, dc.Keys - keys), previous)
        decreases |keys|
      {
        var k :| k in keys;
        var movies := dc[k];
        var j := 0;
        ghost var before := ShownGroups(dc, dc.Keys - keys);
        while j < |movies|
          invariant 0 <= j <= |movies|
          invariant cycled == CycleGroups(before + GroupsIn(movies[..j]), previous)
        {
          CycleGroupsStep(before, movies, j, previous);
          var m := movies[j];
          if m.group.Some? {
            cycled := cycled[m.group.value := GroupLookup(previous, m.group.value)];
          }
          j := j + 1;
        }
        assert movies[..|movies|] == movies;
        ShownGroupsAdd(dc, dc.Keys - keys, k);
        assert dc.Keys - (keys - {k}) == (dc.Keys - keys) + {k};
        keys := keys - {k};
      }
      groupTexture := cycled;
    }

    /** The readiness scan of `frequent`: every shown channel, and every non-empty mask channel, has a frame ready. */
    method AllShownReady() returns (update: bool)
      ensures update <==> forall k :: k in displayableChannels ==> KeyReady(k, backend.ready)
    {
      var dc := displayableChannels;
      update := true;
      var ks := dc.Keys;
      while ks != {}
        invariant ks <= dc.Keys
        invariant update
        invariant forall k :: k in dc.Keys - ks ==> KeyReady(k, backend.ready)
        decreases |ks|
      {
        var k :| k in ks;
        if k.0 !in backend.ready {
          update := false;
          return;
        }
        if k.1.Some? && k.1.value != [] && k.1.value !in backend.ready {
          update := false;
          return;
        }
        ks := ks - {k};
      }
    }

    /** The redraw loop of `frequent`: one immediate redraw per shown Movie, appended to those already requested. */
    method RedrawShown()
      modifies this`redraws
      ensures |redraws| >= |old(redraws)| && redraws[..|old(redraws)|] == old(redraws)
      ensures RedrawsAll(redraws[|old(redraws)|..], ShownMovies(displayableChannels, displayableChannels.Keys))
    {
      var dc := displayableChannels;
      var added: seq<Redraw> := [];
      var pending := dc.Keys;
      while pending != {}
        invariant pending <= dc.Keys
        invariant RedrawsAll(added, ShownMovies(dc, dc.Keys - pending))
        invariant redraws == old(redraws)
        decreases |pending|
      {
        var k :| k in pending;
        added := RedrawEach(added, ShownMovies(dc, dc.Keys - pending), dc[k]);
        ShownMoviesAdd(dc, dc.Keys - pending, k);
        assert dc.Keys - (pending - {k}) == (dc.Keys - pending) + {k};
        pending := pending - {k};
      }
      assert dc.Keys - pending == dc.Keys;
      var before := redraws;
      redraws := redraws + added;
      assert redraws[|before|..] == added;
    }

    /** `movie_start(filename, loops=...)`: plays the file on "movie", unless updates are reduced. */
    method MovieStart(filename: string, loops: int)
      modifies backend`log
      ensures config.lessUpdates ==> backend.log == old(backend.log)
      ensures !config.lessUpdates ==>
                var plan := MovieStartPlan(filename, loops);
                backend.log == old(backend.log) + [Play("movie", plan.files, plan.loop)]
    {
      if config.lessUpdates {
        return;
      }
      var files := [filename];
      var loop: bool;
      if loops == -1 {
        loop := true;
      } else {
        loop := false;
        files := Repeat(filename, loops + 1);
      }
      backend.PlayFiles("movie", files, loop);
    }

    /** `movie_start_fullscreen`: `movie_start` of the oversampled variant of the file. */
    method MovieStartFullscreen(filename: string, loops: int)
      modifies backend`log
      ensures config.lessUpdates ==> backend.log == old(backend.log)
      ensures !config.lessUpdates ==>
                var plan := MovieStartPlan(OversampledFilename(filename, config, backend.loadable), loops);
                backend.log == old(backend.log) + [Play("movie", plan.files, plan.loop)]
    {
      var f := FindOversampledFilename(filename, config, backend.loadable);
      MovieStart(f, loops);
    }

    /** `movie_stop(only_fullscreen=...)`: stops "movie" with the default fadeout. */
    method MovieStop(onlyFullscreen: bool)
      modifies backend`log
      ensures !fullscreen && onlyFullscreen ==> backend.log == old(backend.log)
      ensures fullscreen || !onlyFullscreen ==> backend.log == old(backend.log) + [Stop("movie", false)]
    {
      if !fullscreen && onlyFullscreen {
        return;
      }
      backend.StopChannel("movie", false);
    }
  }
}
