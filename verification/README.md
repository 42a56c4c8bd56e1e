# Ren'Py movie playback layer, modelled in Dafny

This project models `renpy/display/video.py`, the part of Ren'Py that plays
movies. That covers:

- **Movie displayables.** `Movie` objects each show a video sprite on an
  audio/video channel. They can have a mask channel or a side-by-side mask,
  a fallback image, a start image, and a group that shares textures.
- **Module-level state.** A per-channel texture cache, the Movies shown in
  this interaction, the channel claims made while rendering, and the last
  claims, reset channels and group textures.
- **The update cycle.** `early_interact` and `interact` run around each
  interaction. `frequent` runs the playback synchronizer
  (`update_playing`), cycles the group textures, and decides whether to
  redraw.
- **Oversampling.** `find_oversampled_filename` and `find_oversampled`
  choose the best `name@N.ext` file for the current draw scale and parse
  the `@` modifiers.
- **The fullscreen entry points.** `movie_start`, `movie_start_fullscreen`
  and `movie_stop`.

The modules, in dependency order:

| file | module | contents |
|---|---|---|
| `wrappers.dfy` | `Wrappers` | `Option`, `Result`, `Outcome` |
| `pystr.dfy` | `PyStr` | The Python string operations the code relies on: `partition`, `rpartition`, `split`, `str(n)`, and `float` restricted to plain decimals. |
| `settings.dfy` | `Settings` | The configuration and preference values that are read. |
| `oversample.dfy` | `Oversample` | Loadability checks and oversampled file resolution, as functions. `FindOversampledFilename` is the search loop. |
| `media.dfy` | `Media` | Surfaces, textures and renders as values. `ResizeMovie`. The mask compositing of `get_movie_texture`. The audio backend as a `Backend` class: it answers queries (playing, defined, ready, loadable, frames) and records every command it is sent in `log`. |
| `decisions.dfy` | `Decisions` | The rules as functions of values, and the lemmas about them: channel naming, restore after load, which texture a render shows, what a play or stop sends to the backend, which Movies the synchronizer plays and stops, group cycling, and `movie_start`'s plan. |
| `video.dfy` | `Video` | The imperative layer. `Movie` and `VideoState` are classes whose methods update their fields and the backend, and each method is proved against the rules in `Decisions`. |

The module-level globals of `video.py` become the fields of `VideoState`:

- `texture`, `displayable_channels`, `channel_movie`, `fullscreen`,
  `reset_channels` and `group_texture`;
- `last_channel_movie`, plus the context's `movie` map as `contextMovie`;
- the serial counters `movie_channel_serial` and
  `Movie.keep_last_frame_serial`;
- the redraws requested, as `redraws`.

`update_playing` and `frequent` also return a ghost trace of the
`play`/`stop` calls they make. Their contracts use it to say that every
channel is played or stopped exactly when it should be, and at most once.
They also say that the backend log grows by exactly the commands those
calls send, in the order they were made (`SentLog`). A call's commands are
computed from the slot of its Movie, that is, the channel, mask and source
that `play` and `stop` read. The slots come from a ghost map `slotOf` that
must hold each Movie's current slot (`Snapped`). `SnapshotsSnapped` shows
that such a map always exists.

### Behaviour followed from the code

- **Oversample modifiers.** `find_oversampled` parses every comma-separated
  token after the last `@`. The last token gives the factor, and any token
  that does not parse raises an error. It does not stop at the first valid
  token.
- **Texture cache eviction.** `get_movie_texture` never evicts. The cache
  entries of stopped channels are dropped by `interact`.
- **The looping branch of `update_playing`.** The `m.loop and last is not m`
  branch (lines 801-802) cannot be reached: the branch before it covers
  every case. `Decide` keeps the branch as written, and
  `LoopBranchUnreachable` proves it dead.
- **Group lookup in `render`.** A group counts as present when it is a key
  of `group_texture`, even if its value is None. Because `frequent` puts
  every shown group in as a key, a grouped Movie never falls back to its
  image while its group is shown (`GroupedMovieAlwaysPlaying`).

## Model

| member | source | states |
|---|---|---|
| PyStr.Partition | renpy/display/video.py:311 | If the separator occurs, the string equals `before + sep + after` and `before` holds no separator. Otherwise the whole string is in `before`. |
| PyStr.RPartition | renpy/display/video.py:310 | If the separator occurs, the string equals `before + sep + after` and `after` holds no separator. Otherwise the whole string is in `after`. |
| PyStr.Split | renpy/display/video.py:345 | The result is never empty, no piece contains the separator, and joining the pieces with it gives back the string. |
| PyStr.NatToString | renpy/display/video.py:590 | `str(n)` is a non-empty run of digits with no leading zero, and those digits denote n. |
| PyStr.ParseDecimal | renpy/display/video.py:349 | `float(t)` succeeds exactly when t is digits with at most one point and at least one digit. The value is never negative; `ParseDigits` and `ParseDigitsPoint` give it exactly. |
| PyStr.ParseDigits | renpy/display/video.py:349 | A run of digits parses to the number it denotes. |
| PyStr.ParseDigitsPoint | renpy/display/video.py:349 | `a.b`, with a and b digit runs and not both empty, parses to a + b / 10^len(b). |
| PyStr.ParseNatToString | renpy/display/video.py:349 | `float(str(n)) == n`: a number written by `str` parses back to itself. |
| PyStr.NatToStringInjective | renpy/display/video.py:590 | Different serials print differently. |
| Oversample.StripLoaderPrefix | renpy/display/video.py:519-521 | A name without a leading `<` is unchanged. A leading `<...>` directive is cut at its last `>`, and the rest is a suffix with no `>`. |
| Oversample.LoaderPrefixStripped | renpy/display/video.py:519-521 | `<a>b` becomes `b` when `b` holds no `>`. |
| Oversample.AnyLoadable | renpy/display/video.py:511-524 | A list is loadable iff one of its entries is. A plain name is loadable iff it is loadable itself. |
| Oversample.AnyLoadableWithDirective | renpy/display/video.py:518-522 | `<a>b` is loadable exactly when `b` is. |
| Oversample.SmallestPow2AtLeast | renpy/display/video.py:307 | `2 ** ceil(log2 x)` is the least power of two that is at least x. |
| Oversample.SearchApplies | renpy/display/video.py:301-305 | The search is attempted only for a name with no `@`, with automatic oversampling on, a draw object present and a draw scale above 1. |
| Oversample.MaxOversample | renpy/display/video.py:307-308 | The first multiplier tried is exactly the smaller of `2 ** ceil(log2 scale)` and `automatic_oversampling`. It is at least 2 when the scale exceeds 1 and the maximum is at least 2. |
| Oversample.PatternOf | renpy/display/video.py:310-314 | The extension holds no `.`. The extras are empty or start with `,`. A name without `.` is all extension. A name without `@` but with a `.` is `base.ext` with no extras. |
| Oversample.Candidate | renpy/display/video.py:317 | `base@N{extras}.ext` starts with the base followed by `@`, and ends with `.` and the extension. |
| Oversample.FirstLoadable | renpy/display/video.py:316-321 | Returns the largest multiplier in [2, i] whose candidate is loadable; none above it is loadable. With no result, none in the range is loadable. |
| Oversample.OversampledFilename | renpy/display/video.py:295-323 | Without an applicable search the name is unchanged. With one, the result is either the unchanged name (no candidate loadable) or the loadable candidate with the largest multiplier. |
| Oversample.FindOversampledFilename | renpy/display/video.py:316-321 | The downward search loop returns exactly `OversampledFilename`. |
| Oversample.ExtrasEmptyWhenSearching | renpy/display/video.py:301-314 | On the search path the name has no `@`, so no extras are carried into the candidates. |
| Oversample.ModifierTokens | renpy/display/video.py:344-345 | At least one modifier token is always parsed. |
| Oversample.LastModifier | renpy/display/video.py:347-351 | The result is Ok iff every token parses. Its value is the last token's. An error names a token that is in the list and does not parse. |
| Oversample.LastModifierReportsFirstBad | renpy/display/video.py:347-351 | The token named in the error is the first one that does not parse. |
| Oversample.OversampledSource | renpy/display/video.py:326-354 | An explicit factor passes the source through unchanged. A list gets 1.0. A name that has no `@` after the search gets 1.0. Otherwise the loader prefix is dropped and the modifiers decide the factor, as `OversampledSourceModifier` states. An error only arises on that last path. |
| Oversample.OversampledSourceModifier | renpy/display/video.py:339-351 | On the `@` path the result is Ok exactly when `LastModifier` of the name's modifier tokens is. Its factor is that last token's value, and its source is the name after the `<...>` prefix is cut. An error names the first bad token and that name. |
| Oversample.CandidateTokens | renpy/display/video.py:317-345 | The modifier tokens of a candidate `base@N.ext` are exactly `[str(N)]`. |
| Oversample.SearchPattern | renpy/display/video.py:301-311 | A searched name has no `@` in its base and no `.` in its extension. |
| Oversample.CandidateRoundTrip | renpy/display/video.py:295-354 | Round trip: the candidate the search picks for N is played with factor exactly N. |
| Oversample.CandidatePlayed | renpy/display/video.py:317-351 | A chosen candidate whose only modifier is `str(N)` is played with factor N. |
| Oversample.ScaleExample | renpy/display/video.py:301-321 | At scale 2.3 with maximum 4 the search starts at 4. When only `@2` exists, it is chosen. |
| Media.ResizeMovie | renpy/display/video.py:258-283 | The result always has the requested size. A render with a zero dimension is replaced by a blank render; any other is scaled into it. |
| Media.ComposeFrame | renpy/display/video.py:167-192 | No base frame gives no frame. A side-by-side frame becomes its left half masked by its right half. A mask channel frame is the alpha source. The size is the base's, or half its width when side-by-side. |
| Media.SideMaskExample | renpy/display/video.py:170-176 | Worked example: a 200x100 frame splits into two 100x100 views at x = 0 and x = 100. |
| Media.Backend.RegisterChannel | renpy/display/video.py:555-557 | The channel becomes defined and a registration is logged. |
| Media.Backend.PlayFiles | renpy/display/video.py:80 | A play command is logged. |
| Media.Backend.StopChannel | renpy/display/video.py:56 | A stop command is logged. |
| Media.Backend.InvokeCallback | renpy/display/video.py:732-733 | A custom play callback is logged as a call for the channel. |
| Decisions.GeneratedChannel | renpy/display/video.py:590 | A generated channel name starts with `_movie_` and has no space or slash, so it never needs renaming. |
| Decisions.GeneratedChannelsDistinct | renpy/display/video.py:589-591 | Different serials give different channel names. |
| Decisions.Construct | renpy/display/video.py:565-626 | `original_play` is the argument. `play` is kept iff loadable. `side_mask` drops the mask. A mask channel exists iff a mask does, and defaults to `channel + "_mask"`. The channel changes only for "movie" with a truthy source, and is kept whenever neither a single nor an automatic movie channel is configured. The serial moves exactly when a channel is generated. A group is generated only for keep_last_frame without a group. |
| Decisions.ResolveChannel | renpy/display/video.py:587-591 | For "movie" with a truthy source: the single movie channel if set, else a generated channel (advancing the serial) if auto channels are on. In every other case the given channel is kept. The serial moves exactly when a channel is generated. |
| Decisions.GroupFor | renpy/display/video.py:622-626 | A given group is kept. keep_last_frame without a group gets `_keep_last_frame_N` and advances the serial. |
| Decisions.ConstructConsistent | renpy/display/video.py:597-611 | A new Movie is consistent: a mask iff a mask channel, no mask with `side_mask`, and `play` equal to `original_play` when set. |
| Decisions.AutoChannelsDistinct | renpy/display/video.py:587-591 | Two Movies constructed in turn with automatic channels get different channels. |
| Decisions.Restore | renpy/display/video.py:526-541 | The restored channel never needs renaming. The original source is re-chosen and `play` is kept iff loadable. A renamed channel is the next generated one and its mask channel follows; otherwise nothing about the channel changes. |
| Decisions.RestoreTwice | renpy/display/video.py:526-541 | Restoring again is idempotent on `play`, the channel, the mask channel and the serial, and on the original source except for a false, unloadable, non-None one. |
| Decisions.RestoreConsistent | renpy/display/video.py:526-541 | Restoring preserves consistency. |
| Decisions.Registrations | renpy/display/video.py:543-561 | `ensure_channels` registers exactly the Movie's channels that are not yet defined, each once, with framedrop iff there is a mask, channel first. |
| Decisions.FetchTexture | renpy/display/video.py:156-203 | A channel that is not playing gives nothing and changes nothing. A new frame replaces the channel's cache entry and is reported new. Otherwise the cached texture is returned. No other channel's entry changes. |
| Decisions.FetchKeepsLastFrame | renpy/display/video.py:194-201 | With no new frame, the last frame fetched is drawn again. |
| Decisions.GroupExchange | renpy/display/video.py:682-686 | A grouped Movie with a texture publishes it to its group. One without borrows the group's. Ungrouped Movies keep their own texture and leave the groups alone. |
| Decisions.NotPlaying | renpy/display/video.py:662-670 | A Movie counts as not playing exactly when its channel is not playing, it was not reset, and it has no group present in `group_texture`. |
| Decisions.MovieRender | renpy/display/video.py:688-707 | The texture is drawn iff playing with a texture. The start image is drawn iff playing without one. Otherwise nothing is drawn. |
| Decisions.Sized | renpy/display/video.py:709-710 | Without a size the render is unchanged. With one, the result has exactly that size: the render scaled to it when both of its dimensions are positive, else a blank render of that size. |
| Decisions.GroupBorrowExample | renpy/display/video.py:669-686 | A stopped Movie of a group that another Movie has just published to counts as playing and draws that texture. |
| Decisions.ImmediateStops | renpy/display/video.py:738-741 | A fadeout-0 stop of the channel, then one of the mask channel iff there is a mask, and nothing else. |
| Decisions.DefaultPlayEffect | renpy/display/video.py:357-361 | The mask is resolved and played on the mask channel before the movie is played on its channel, with the Movie's loop flag. On success exactly those one or two plays are sent, and the stored factor is the movie's. An unknown modifier stops the sequence at that point. |
| Decisions.DefaultPlayEffectError | renpy/display/video.py:357-361 | An error occurs exactly when the mask or the movie has an unknown modifier. A mask error sends nothing and stores nothing. A movie error after a good mask stores the mask's factor. |
| Decisions.PlayEffectOf | renpy/display/video.py:719-741 | Nothing happens when there is no source now or before, or when the source is unchanged and replay is off. Otherwise a truthy source plays, through the custom callback if there is one, and a false one stops the channels at once. Errors only arise on the default callback. |
| Decisions.PlayAgainstSelf | renpy/display/video.py:727-730 | Playing a Movie against itself sends nothing unless replay is on. |
| Decisions.StopCommands | renpy/display/video.py:746-752 | Without a truthy source a stop sends nothing. With one it sends a fadeout-0 stop of the channel if defined, first, and of the mask channel if there is a mask and it is defined, last, and nothing else. |
| Decisions.StopAfterEnsureChannels | renpy/display/video.py:743-752 | After `ensure_channels` the `channel_defined` tests always pass, so a stop stops the channel and, with a mask, the mask channel. |
| Decisions.Decide | renpy/display/video.py:795-802 | The four branches of the play loop. A Movie is played iff it was reset with replay on, or was neither the context's nor the last occupant. It is always played against the context's occupant. |
| Decisions.LoopBranchUnreachable | renpy/display/video.py:797-802 | `m.play(last)` is never chosen. |
| Decisions.StopTargets | renpy/display/video.py:804-814 | The channels stopped are those in the last or context maps but not claimed now. The last occupant is stopped in preference to the context's. |
| Decisions.PlaysCoverCount | renpy/display/video.py:791-802 | A play trace that covers its channels holds exactly one play per planned channel. |
| Decisions.StopsCoverCount | renpy/display/video.py:804-814 | A covering stop trace holds exactly one stop per channel to stop. |
| Decisions.PrevPlay | renpy/display/video.py:791-797 | The source of the previous occupant that `play(old)` compares against, or none without one. |
| Decisions.CallLogPlay | renpy/display/video.py:719-741 | A play sends the channel registrations of `ensure_channels`, then the commands of `PlayEffectOf` against the previous occupant's source, and raises that effect's error. |
| Decisions.CallLogStop | renpy/display/video.py:743-752 | A stop sends the channel registrations, then immediate stops of the channel and mask channel iff the source is truthy. |
| Decisions.SentLogAppend | renpy/display/video.py:790-814 | Two traces of calls one after the other send the commands of the first, then those of the second, from the channels the first left defined. |
| Decisions.LoggedNext | renpy/display/video.py:790-814 | A log holding a trace's commands, extended by what one more call sends, holds the longer trace's commands. |
| Decisions.NoErrorsNext | renpy/display/video.py:790-802 | An error-free trace extended by a call stays error-free, or ends at that call's error. |
| Decisions.SteadyStateIsQuiet | renpy/display/video.py:782-817 | When nothing changed since the last update and nothing was reset, nothing is played or stopped. |
| Decisions.ReplacementPlaysOnce | renpy/display/video.py:791-802 | Movie A replacing B on a channel is played once against B, and nothing is stopped. |
| Decisions.HiddenStopsOnce | renpy/display/video.py:804-814 | A channel no longer claimed is stopped once, on its last occupant. |
| Decisions.ThreeUpdatesPlayOnce | renpy/display/video.py:776-817 | A looping Movie shown across three updates is played once, at the first, and never restarted. |
| Decisions.CycleGroups | renpy/display/video.py:828-837 | The groups kept are exactly the shown ones, each with its previous texture or None. |
| Decisions.CycleGroupsAdd | renpy/display/video.py:835-837 | Cycling one more group adds only that group's entry. |
| Decisions.KeyReady | renpy/display/video.py:853-865 | A channel pair is ready only if its channel is. Without a non-empty mask channel that is enough. A mask channel that is not ready makes the pair not ready. |
| Decisions.FullscreenOf | renpy/display/video.py:142-151 | Fullscreen needs "movie" to be playing. It is off when a shown Movie uses "movie", and with no shown Movie it holds exactly when "movie" plays. |
| Decisions.GroupedMovieAlwaysPlaying | renpy/display/video.py:669-670 | After cycling, a shown grouped Movie never counts as not playing. |
| Decisions.EvictStopped | renpy/display/video.py:138-140 | The cache keeps exactly the entries of channels that still play, unchanged. |
| Decisions.Repeat | renpy/display/video.py:78 | `[f] * n` has max(n, 0) copies of f. |
| Decisions.MovieStartPlan | renpy/display/video.py:72-80 | loops = -1 loops the single file. Otherwise the file is queued loops + 1 times (none below -1), without looping. |
| Video.Movie.constructor | renpy/display/video.py:565-632 | The fields and both serials follow `Construct`. The Movie's channels are registered. `playing_oversample` is 1. The Movie is consistent. |
| Video.Movie.AfterSetstate | renpy/display/video.py:526-541 | The fields and the serial follow `Restore`, and consistency is kept. |
| Video.Movie.EnsureChannel | renpy/display/video.py:543-557 | None or a defined channel changes nothing. Otherwise the channel is registered once, with framedrop iff there is a mask. |
| Video.Movie.EnsureChannels | renpy/display/video.py:559-561 | The channel and mask channel become defined, with exactly `Registrations` logged. |
| Video.Movie.FindOversampled | renpy/display/video.py:326-354 | Returns the source of `OversampledSource` and stores its factor. An unknown modifier is reported and nothing is stored. |
| Video.Movie.DefaultPlayCallback | renpy/display/video.py:357-361 | Sends exactly the commands of `DefaultPlayEffect` and stores its factor. It fails iff an unknown modifier occurred. |
| Video.Movie.Play | renpy/display/video.py:719-741 | Registers the channels, then sends exactly the commands of `PlayEffectOf` against the previous Movie's source. |
| Video.Movie.Stop | renpy/display/video.py:743-752 | Registers the channels, then stops the channel and mask channel at once iff the source is truthy. |
| Video.Movie.SetTransformEvent | renpy/display/video.py:651-653 | A "show" adds the channel to the reset channels. Any other event changes nothing. |
| Video.Movie.PerInteract | renpy/display/video.py:754-758 | Registers the channels, appends the Movie under its channel pair, and requests an immediate redraw. |
| Video.Movie.Render | renpy/display/video.py:655-717 | With a truthy source and no image fallback, the Movie claims its channel. A non-playing Movie with an image draws it and changes nothing else. Otherwise it draws `Sized(MovieRender(...))` of the fetched texture after the group exchange, updates the cache and groups, and asks for a 0.1 s redraw. |
| Video.Movie.ClaimChannel | renpy/display/video.py:658-660 | `channel_movie[channel]` becomes this Movie exactly when it has a truthy source and image fallback is off. Validity of the state is kept. |
| Video.Movie.DrawFrame | renpy/display/video.py:680-717 | Fetch, group exchange, choice of render, resize and redraw, as `FetchTexture`, `GroupExchange`, `MovieRender` and `Sized` state them. |
| Video.ScanModifiers | renpy/display/video.py:347-352 | The token loop returns exactly `LastModifier`. |
| Video.RedrawEach | renpy/display/video.py:866-868 | Appending an immediate redraw for each Movie of a list keeps "every redraw is of a shown Movie and every shown Movie has one". |
| Video.VideoState.constructor | renpy/display/video.py:100-117 | The initial module state: empty maps and sets, not fullscreen, serials 0. |
| Video.VideoState.EarlyInteract | renpy/display/video.py:120-127 | Clears the shown Movies and the channel claims. |
| Video.VideoState.Interact | renpy/display/video.py:130-153 | Evicts the textures of stopped channels. Fullscreen holds iff "movie" plays and no shown Movie uses it. |
| Video.VideoState.GetMovieTexture | renpy/display/video.py:156-203 | Returns the texture, the newness flag and the new cache of `FetchTexture` for the composed frame. |
| Video.VideoState.RenderMovie | renpy/display/video.py:286-292 | The channel's texture resized to the requested size, or nothing. |
| Video.VideoState.Playing | renpy/display/video.py:764-774 | True iff "movie" or the channel of some shown Movie plays. |
| Video.VideoState.UpdatePlaying | renpy/display/video.py:782-817 | On success: every planned Movie is played once against the context's occupant, and every unclaimed channel is stopped once on its last (else context) occupant, with no error raised. The backend log grows by exactly the commands of those plays and then those stops (`SentLog`). The last and context maps become the claims and the resets are cleared. On an error: every play made was planned, the last play raised that error, nothing was stopped, the log holds exactly the plays' commands, and the last map, context map and resets are unchanged. |
| Video.VideoState.Synchronize | renpy/display/video.py:782-817 | The play loop then the stop loops, as `UpdatePlaying` states them, for given claim, context, last and reset values. |
| Video.VideoState.PlayClaimed | renpy/display/video.py:791-802 | On success the play loop's trace covers every claimed channel and raises no error. On an error every play made was planned and the last one raised it. The log grows by exactly the trace's commands. |
| Video.VideoState.PlayChannel | renpy/display/video.py:791-802 | One iteration of the play loop: the channel leaves the to-do set, the trace covers exactly the channels handled so far, and the log grows by exactly the trace's commands. |
| Video.VideoState.PlayOccupant | renpy/display/video.py:796-802 | `m.play(old)` sends exactly `CallLog` of that call and defines the Movie's channels. It fails exactly with that call's error. The stored factor is the play effect's, if it has one. |
| Video.VideoState.PlayReady | renpy/display/video.py:796-802 | `PlayOccupant`, which also keeps every tracked Movie's slot. |
| Video.VideoState.StopUnclaimed | renpy/display/video.py:804-814 | The stop loops' trace covers `StopTargets` exactly once each, and the log grows by exactly its commands. |
| Video.VideoState.StopOccupant | renpy/display/video.py:804-814 | `m.stop()` sends exactly `CallLog` of that stop and defines the Movie's channels. |
| Video.VideoState.StopLogged | renpy/display/video.py:804-814 | A stop extends the logged trace by that one call. |
| Video.VideoState.StopLastChannel | renpy/display/video.py:804-809 | One iteration of the last-occupant loop: the channel leaves the to-do set, `stopped` holds exactly the handled channels of the last map that are not claimed, and the log grows by exactly the stops' commands. |
| Video.VideoState.StopLastOccupants | renpy/display/video.py:804-809 | Stops the last occupant of exactly the unclaimed channels of the last map, and returns them as `stopped`. The log grows by exactly the commands of those stops. |
| Video.VideoState.StopContextOccupants | renpy/display/video.py:811-814 | Stops the context occupants not already stopped, completing the coverage of `StopTargets`. The log grows by exactly the commands of all the stops. |
| Video.VideoState.Frequent | renpy/display/video.py:819-874 | Synchronizes as `UpdatePlaying` does, with the same log and the same outcome on success and on error. On success it keeps exactly the shown groups' textures. In fullscreen it returns whether "movie" has a frame ready. Otherwise it returns false, and redraws every shown Movie at once exactly when every shown channel and mask channel is ready. On an error the groups and redraws are unchanged. |
| Video.VideoState.CycleGroupTextures | renpy/display/video.py:828-837 | `group_texture` becomes `CycleGroups` of the shown groups. |
| Video.VideoState.AllShownReady | renpy/display/video.py:848-863 | True iff every shown channel, and every non-empty mask channel, has a frame ready. |
| Video.VideoState.RedrawShown | renpy/display/video.py:865-868 | Appends immediate redraws that are exactly of the shown Movies, each at least once. |
| Video.VideoState.MovieStart | renpy/display/video.py:59-80 | With reduced updates nothing happens. Otherwise the files and loop flag of `MovieStartPlan` are played on "movie". |
| Video.VideoState.MovieStartFullscreen | renpy/display/video.py:83-92 | Like `MovieStart`, applied to the oversampled file name. |
| Video.VideoState.MovieStop | renpy/display/video.py:48-56 | Stops "movie" unless only fullscreen was asked for and the movie is not fullscreen. |

## Left out

- `get_movie_texture_web` (lines 206-255): the web build's texture path, which has no counterpart outside the browser.
- Pixel work is not modelled: `alpha_munge`, `mutated_surface`, texture loading options and mipmapping, the transform matrices of `render` and `resize_movie`, and the float geometry of `resize_movie`. Renders are modelled as shapes with sizes.
- `renpy.audio.audio.advance_time()` in `frequent` is outside the video layer.
- `read_video` is modelled as a query that does not consume the frame.
- A custom `play_callback` is code outside this module. It is logged as a `Callback` command.
- `PyStr.ParseDecimal`: accepts only plain ASCII decimals (`digits[.digits]`). Python's `float()` also accepts signs, exponents, underscores between digits, Unicode digits, `inf`/`nan` and surrounding whitespace. Here those are unknown modifiers.
- `Oversample.SmallestPow2AtLeast`: `math.log2`, `math.ceil` and the draw scale are computed over exact reals, not IEEE doubles. Rounding near a power of two, where the double result can differ from the exact one, is not modelled.
- `_duplicate`, `visit` and `_handles_event` (lines 634-649, 760-761) only concern the displayable framework's copying and traversal.
- `fps`, `style.mipmap`, `surface`, `default_size` and the `size` argument of `movie_start` do not influence playback.
- The `clear` argument of `movie_stop` is never used.
- Dictionary iteration order is not modelled. The loops visit keys in an arbitrary order, and the traces are stated up to order.
- `movie_start` with a list of files, and `movie_start_fullscreen` with a non-string argument, are not modelled.
- A channel of `None` is not modelled (channels are strings).
- `Video.Movie.Render`: does not restate that `VideoState.Valid()` still holds afterwards (only `ClaimChannel`, its one step that changes the claims, does), to keep the proof within the resource budget.
- `Video.VideoState.Frequent`: does not restate `Valid()` afterwards for the same reason (`UpdatePlaying` does). On an error, `playing_oversample` of the Movies played before it may have changed, as in the source.
- `Video.VideoState.UpdatePlaying`: the log is stated command by command, but the `playing_oversample` each played Movie stores is stated only by `PlayOccupant`, not carried through the loops. The commands are stated through a ghost map `slotOf` of each Movie's slot, which the caller supplies (`SnapshotsSnapped` shows one exists).
