/** The value types of the `com.doublesymmetry.kotlinaudio.models` package that
    the notification core reads, and the per-item holder whose artwork cache the
    metadata setter clears. */
module Models {
  import opened Wrappers
  import opened Android

  /** One transport button of the notification. Icons are drawable resource ids;
      None leaves the library's default icon. The four skip/seek variants also
      say whether the button appears in the compact (collapsed) view. */
  datatype NotificationButton =
    | PlayPause(playIcon: Option<int>, pauseIcon: Option<int>)
    | Stop(icon: Option<int>)
    | Forward(icon: Option<int>, isCompact: bool)
    | Backward(icon: Option<int>, isCompact: bool)
    | Next(icon: Option<int>, isCompact: bool)
    | Previous(icon: Option<int>, isCompact: bool)

  /** Caller-supplied metadata for the notification. */
  datatype NotificationMetadata = NotificationMetadata(
    title: Option<string>,
    artist: Option<string>,
    artworkUrl: Option<string>)

  /** What `createNotification` is given. The button list may hold null entries. */
  datatype NotificationConfig = NotificationConfig(
    buttons: seq<Option<NotificationButton>>,
    accentColor: Option<int>,
    smallIcon: Option<int>,
    pendingIntent: Option<PendingIntent>)

  /** The metadata of one playable item. Only the fields the notification reads are kept. */
  datatype AudioItem = AudioItem(
    title: Option<string>,
    artist: Option<string>,
    artwork: Option<string>)

  /** The item with every field null. */
  const EmptyAudioItem := AudioItem(None, None, None)

  /** The object attached as tag to the player's current media item; it caches
      the item's decoded artwork. */
  class AudioItemHolder {
    var artworkBitmap: Option<Bitmap>

    constructor (artworkBitmap: Option<Bitmap>)
      ensures this.artworkBitmap == artworkBitmap
    {
      this.artworkBitmap := artworkBitmap;
    }
  }

  /** The non-null tag of the current media item: either an `AudioItemHolder`,
      or an object of some other class, on which a cast to `AudioItemHolder?` throws. */
  datatype MediaTag = HolderTag(holder: AudioItemHolder) | ForeignTag
}
