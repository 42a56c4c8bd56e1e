/** The configuration and preference values the video layer consults. */
module Settings {
  import opened Wrappers

  datatype Config = Config(
    /** config.automatic_oversampling; 0 means disabled. */
    automaticOversampling: nat,
    /** draw_per_virt of the current draw object, None when there is no draw object. */
    drawPerVirt: Option<real>,
    /** config.single_movie_channel; "" stands for None (both are false). */
    singleMovieChannel: string,
    /** config.auto_movie_channel. */
    autoMovieChannel: bool,
    /** config.replay_movie_sprites. */
    replayMovieSprites: bool,
    /** preferences.video_image_fallback is True. */
    videoImageFallback: bool,
    /** renpy.game.less_updates. */
    lessUpdates: bool)
}
