/** The sample app's `DescriptionAdapter`: what the media notification shows as
    title, text, artwork source and tap intent for the player's current item.
    Each field is a fallback chain: the current `AudioItem`, then the player's
    own media metadata, then a default. Kotlin's `?:` becomes FirstPresent. */
module Description {
  import opened Wrappers
  import opened Android
  import opened Models

  /** The fields of the player's `MediaMetadata` that the adapter reads. */
  datatype MediaMetadata = MediaMetadata(
    displayTitle: Option<string>,
    artist: Option<string>,
    albumArtist: Option<string>,
    artworkUri: Option<string>,
    artworkData: Option<seq<byte>>)

  /** The tag of a media item: an `AudioItem`, or an object of another class. */
  datatype Tag = AudioItemTag(item: AudioItem) | OtherTag

  datatype PlaybackProperties = PlaybackProperties(tag: Option<Tag>)
  datatype MediaItem = MediaItem(playbackProperties: Option<PlaybackProperties>)

  /** What the adapter reads from the player. */
  datatype Player = Player(currentMediaItem: Option<MediaItem>, mediaMetadata: MediaMetadata)

  /** The adapter is built from a context (not modelled) and an optional intent. */
  datatype DescriptionAdapter = DescriptionAdapter(pendingIntent: Option<PendingIntent>)

  /** What the image request is given as its data: the item's artwork string,
      the metadata's artwork URI, or a bitmap decoded from the artwork bytes. */
  datatype ArtworkSource = ItemArtwork(artwork: string) | ArtworkUri(uri: string) | DecodedArtwork(bitmap: Bitmap)

  // ---------------------------------------------------------------------------
  // Fallback chains

  /** The first non-null candidate, as `a ?: b ?: c` evaluates. */
  function FirstPresent<T>(candidates: seq<Option<T>>): Option<T>
    decreases |candidates|
  {
    if candidates == [] then None
    else if candidates[0].Some? then candidates[0]
    else FirstPresent(candidates[1..])
  }

  /** FirstPresent is null exactly when every candidate is, and otherwise it is
      the candidate at the first non-null position. */
  lemma {:induction false} FirstPresentIsFirst<T>(candidates: seq<Option<T>>)
    decreases |candidates|
    ensures FirstPresent(candidates).None? <==> forall k :: 0 <= k < |candidates| ==> candidates[k].None?
    ensures FirstPresent(candidates).Some? ==>
      exists k :: 0 <= k < |candidates| && candidates[k] == FirstPresent(candidates) &&
        forall j :: 0 <= j < k ==> candidates[j].None?
  {
    if candidates != [] && candidates[0].None? {
      var rest := candidates[1..];
      FirstPresentIsFirst(rest);
      assert forall k :: 1 <= k < |candidates| ==> candidates[k] == rest[k - 1];
      if FirstPresent(rest).Some? {
        var k :| 0 <= k < |rest| && rest[k] == FirstPresent(rest) &&
          forall j :: 0 <= j < k ==> rest[j].None?;
        assert candidates[k + 1] == FirstPresent(candidates);
      } else {
        forall k | 0 <= k < |candidates| ensures candidates[k].None? {
          if k > 0 { assert candidates[k] == rest[k - 1]; }
        }
      }
    } else if candidates != [] {
      assert candidates[0] == FirstPresent(candidates);
    }
  }

  /** A chain of two candidates is `a ?: b`. */
  lemma FirstPresentOfTwo<T>(a: Option<T>, b: Option<T>)
    ensures FirstPresent([a, b]) == if a.Some? then a else b
  {
    assert [b][1..] == [];
    assert FirstPresent([b]) == b;
    assert [a, b][1..] == [b];
  }

  /** A chain of three candidates is `a ?: b ?: c`. */
  lemma FirstPresentOfThree<T>(a: Option<T>, b: Option<T>, c: Option<T>)
    ensures FirstPresent([a, b, c]) == if a.Some? then a else if b.Some? then b else c
  {
    assert [a, b, c][1..] == [b, c];
    FirstPresentOfTwo(b, c);
  }

  // ---------------------------------------------------------------------------
  // The current item

  /** `player.currentMediaItem?.playbackProperties?.tag`. */
  function CurrentTag(player: Player): Option<Tag> {
    match player.currentMediaItem
    case None => None
    case Some(item) =>
      match item.playbackProperties
      case None => None
      case Some(properties) => properties.tag
  }

  /** `... as AudioItem?`: null stays null, an `AudioItem` is taken, and a tag
      of any other class makes the cast throw. */
  function CurrentAudioItem(player: Player): (r: Result<Option<AudioItem>, Exception>)
    ensures r.Failure? <==> CurrentTag(player) == Some(OtherTag)
    ensures r.Failure? ==> r.error == ClassCastException
    ensures r == Success(None) <==> CurrentTag(player).None?
    ensures r.Success? && r.value.Some? ==> CurrentTag(player) == Some(AudioItemTag(r.value.value))
  {
    match CurrentTag(player)
    case None => Success(None)
    case Some(AudioItemTag(item)) => Success(Some(item))
    case Some(OtherTag) => Failure(ClassCastException)
  }

  function ItemTitleOf(item: Option<AudioItem>): Option<string> {
    if item.None? then None else item.value.title
  }

  function ItemArtistOf(item: Option<AudioItem>): Option<string> {
    if item.None? then None else item.value.artist
  }

  function ItemArtworkOf(item: Option<AudioItem>): Option<string> {
    if item.None? then None else item.value.artwork
  }

  // ---------------------------------------------------------------------------
  // Title

  /** `audioItem?.title ?: player.mediaMetadata.displayTitle ?: ""`: the item's
      title wins, then the display title; the result is never null. */
  function ContentTitle(item: Option<AudioItem>, metadata: MediaMetadata): (r: string)
    ensures ItemTitleOf(item).Some? ==> r == ItemTitleOf(item).value
    ensures ItemTitleOf(item).None? && metadata.displayTitle.Some? ==> r == metadata.displayTitle.value
    ensures ItemTitleOf(item).None? && metadata.displayTitle.None? ==> r == ""
  {
    match ItemTitleOf(item)
    case Some(title) => title
    case None =>
      match metadata.displayTitle
      case Some(title) => title
      case None => ""
  }

  /** The title is the first present of the item's title and the display title,
      or the empty string. */
  lemma ContentTitleIsFirstPresent(item: Option<AudioItem>, metadata: MediaMetadata)
    ensures var first := FirstPresent([ItemTitleOf(item), metadata.displayTitle]);
      ContentTitle(item, metadata) == if first.Some? then first.value else ""
  {
    FirstPresentOfTwo(ItemTitleOf(item), metadata.displayTitle);
  }

  /** `getCurrentContentTitle(player)`. */
  function GetCurrentContentTitle(player: Player): (r: Result<string, Exception>)
    ensures r.Failure? <==> CurrentTag(player) == Some(OtherTag)
    ensures r.Success? ==> r.value == ContentTitle(CurrentAudioItem(player).value, player.mediaMetadata)
  {
    match CurrentAudioItem(player)
    case Failure(e) => Failure(e)
    case Success(item) => Success(ContentTitle(item, player.mediaMetadata))
  }

  // ---------------------------------------------------------------------------
  // Text

  /** `audioItem?.artist ?: mediaMetadata.artist ?: mediaMetadata.albumArtist`:
      may be null when all three are. */
  function ContentText(item: Option<AudioItem>, metadata: MediaMetadata): (r: Option<string>)
    ensures ItemArtistOf(item).Some? ==> r == ItemArtistOf(item)
    ensures ItemArtistOf(item).None? && metadata.artist.Some? ==> r == metadata.artist
    ensures ItemArtistOf(item).None? && metadata.artist.None? ==> r == metadata.albumArtist
  {
    if ItemArtistOf(item).Some? then ItemArtistOf(item)
    else if metadata.artist.Some? then metadata.artist
    else metadata.albumArtist
  }

  /** The text is the first present of item artist, artist and album artist. */
  lemma ContentTextIsFirstPresent(item: Option<AudioItem>, metadata: MediaMetadata)
    ensures ContentText(item, metadata) == FirstPresent([ItemArtistOf(item), metadata.artist, metadata.albumArtist])
    ensures ContentText(item, metadata).None? <==>
      ItemArtistOf(item).None? && metadata.artist.None? && metadata.albumArtist.None?
  {
    FirstPresentOfThree(ItemArtistOf(item), metadata.artist, metadata.albumArtist);
  }

  /** `getCurrentContentText(player)`. */
  function GetCurrentContentText(player: Player): (r: Result<Option<string>, Exception>)
    ensures r.Failure? <==> CurrentTag(player) == Some(OtherTag)
    ensures r.Success? ==> r.value == ContentText(CurrentAudioItem(player).value, player.mediaMetadata)
  {
    match CurrentAudioItem(player)
    case Failure(e) => Failure(e)
    case Success(item) => Success(ContentText(item, player.mediaMetadata))
  }

  // ---------------------------------------------------------------------------
  // Artwork source

  /** `BitmapFactory.decodeByteArray` applied to the artwork bytes, when there are any. */
  function DecodedBytes(data: Option<seq<byte>>, decode: seq<byte> -> Option<Bitmap>): Option<ArtworkSource> {
    if data.None? then None
    else
      match decode(data.value)
      case Some(bitmap) => Some(DecodedArtwork(bitmap))
      case None => None
  }

  /** `getArtworkSource(audioItem, mediaMetadata)`: the item's artwork if it has
      one; otherwise the metadata's artwork URI; otherwise the artwork bytes
      decoded by `decode` (which stands for the platform decoder and may fail
      with null); otherwise null. */
  function GetArtworkSource(item: Option<AudioItem>, metadata: MediaMetadata, decode: seq<byte> -> Option<Bitmap>)
    : (r: Option<ArtworkSource>)
    ensures ItemArtworkOf(item).Some? ==> r == Some(ItemArtwork(ItemArtworkOf(item).value))
    ensures r.Some? && r.value.ArtworkUri? <==> ItemArtworkOf(item).None? && metadata.artworkUri.Some?
    ensures r.Some? && r.value.ArtworkUri? ==> r.value.uri == metadata.artworkUri.value
    ensures r.Some? && r.value.DecodedArtwork? <==>
      ItemArtworkOf(item).None? && metadata.artworkUri.None? && metadata.artworkData.Some? &&
      decode(metadata.artworkData.value).Some?
    ensures r.Some? && r.value.DecodedArtwork? ==> Some(r.value.bitmap) == decode(metadata.artworkData.value)
    ensures r.None? <==>
      ItemArtworkOf(item).None? && metadata.artworkUri.None? &&
      (metadata.artworkData.None? || decode(metadata.artworkData.value).None?)
  {
    var data := metadata.artworkData;
    if ItemArtworkOf(item).Some? then Some(ItemArtwork(ItemArtworkOf(item).value))
    else if metadata.artworkUri.Some? then Some(ArtworkUri(metadata.artworkUri.value))
    else if data.Some? then
      match decode(data.value)
      case Some(bitmap) => Some(DecodedArtwork(bitmap))
      case None => None
    else None
  }

  /** The artwork source is the first present of item artwork, URI and decoded bytes. */
  lemma ArtworkSourceIsFirstPresent(item: Option<AudioItem>, metadata: MediaMetadata, decode: seq<byte> -> Option<Bitmap>)
    ensures var itemArtwork := if ItemArtworkOf(item).Some? then Some(ItemArtwork(ItemArtworkOf(item).value)) else None;
      var uri := if metadata.artworkUri.Some? then Some(ArtworkUri(metadata.artworkUri.value)) else None;
      GetArtworkSource(item, metadata, decode) == FirstPresent([itemArtwork, uri, DecodedBytes(metadata.artworkData, decode)])
  {
    var itemArtwork := if ItemArtworkOf(item).Some? then Some(ItemArtwork(ItemArtworkOf(item).value)) else None;
    var uri := if metadata.artworkUri.Some? then Some(ArtworkUri(metadata.artworkUri.value)) else None;
    FirstPresentOfThree(itemArtwork, uri, DecodedBytes(metadata.artworkData, decode));
  }

  /** An item with artwork fixes the source, whatever the player's metadata says. */
  lemma ItemArtworkIgnoresMetadata(item: Option<AudioItem>, m1: MediaMetadata, m2: MediaMetadata,
                                   d1: seq<byte> -> Option<Bitmap>, d2: seq<byte> -> Option<Bitmap>)
    requires ItemArtworkOf(item).Some?
    ensures GetArtworkSource(item, m1, d1) == GetArtworkSource(item, m2, d2)
  {
  }

  /** The bytes are decoded only when there is neither item artwork nor a URI:
      otherwise the decoder has no influence on the result. */
  lemma DecoderOnlyConsultedLast(item: Option<AudioItem>, metadata: MediaMetadata,
                                 d1: seq<byte> -> Option<Bitmap>, d2: seq<byte> -> Option<Bitmap>)
    requires ItemArtworkOf(item).Some? || metadata.artworkUri.Some? || metadata.artworkData.None?
    ensures GetArtworkSource(item, metadata, d1) == GetArtworkSource(item, metadata, d2)
  {
  }

  // ---------------------------------------------------------------------------
  // No current item

  /** With no current item, no playback properties or no tag, every chain reads
      as for an item whose fields are all null, and so falls through to the
      player's metadata. */
  lemma MissingItemActsAsEmpty(player: Player, decode: seq<byte> -> Option<Bitmap>)
    requires CurrentTag(player).None?
    ensures GetCurrentContentTitle(player) == Success(ContentTitle(Some(EmptyAudioItem), player.mediaMetadata))
    ensures GetCurrentContentText(player) == Success(ContentText(Some(EmptyAudioItem), player.mediaMetadata))
    ensures GetArtworkSource(CurrentAudioItem(player).value, player.mediaMetadata, decode) ==
            GetArtworkSource(Some(EmptyAudioItem), player.mediaMetadata, decode)
  {
  }

  // ---------------------------------------------------------------------------
  // Content intent

  /** `createCurrentContentIntent(player)`: the intent the adapter was built with. */
  function CreateCurrentContentIntent(adapter: DescriptionAdapter, player: Player): (r: Option<PendingIntent>)
    ensures r == adapter.pendingIntent
  {
    adapter.pendingIntent
  }

  /** The content intent is the constructor's intent, whatever the player. */
  lemma ContentIntentIgnoresPlayer(adapter: DescriptionAdapter, p: Player, q: Player)
    ensures CreateCurrentContentIntent(adapter, p) == adapter.pendingIntent
    ensures CreateCurrentContentIntent(adapter, p) == CreateCurrentContentIntent(adapter, q)
  {
  }
}
