/** The notification manager of the audio library: it owns the button flags,
    the registered buttons and the metadata override, and builds the media
    notification. Coroutine launches on the main dispatcher are modelled as the
    immediate, sequential effects they have. The platform notification manager
    is recorded only as the values requested on it. */
module Notification {
  import opened Wrappers
  import opened Android
  import opened Models
  import opened ButtonState
  import OrderedSet

  const NOTIFICATION_ID: int := 1
  const CHANNEL_ID: string := "kotlin_audio_player"

  /** What has been requested on the platform `PlayerNotificationManager`. */
  datatype InternalManager = InternalManager(
    notificationId: int,
    channelId: string,
    icons: BuilderIcons,          // icon resources set on its builder
    color: int,                   // accent colour set with setColor
    smallIcon: Option<int>,       // None keeps the library's small icon
    playerAttached: bool,         // setPlayer(player) rather than setPlayer(null)
    invalidations: nat)           // number of invalidate() requests

  /** The description adapter built by `createNotification` (its own class is
      not part of this model): the tap intent and whether it has been released. */
  datatype AdapterBinding = AdapterBinding(pendingIntent: Option<PendingIntent>, released: bool)

  /** `config.accentColor ?: Color.TRANSPARENT`. */
  function AccentColor(accentColor: Option<int>): (r: int)
    ensures accentColor.Some? ==> r == accentColor.value
    ensures accentColor.None? ==> r == TRANSPARENT
  {
    match accentColor
    case Some(c) => c
    case None => TRANSPARENT
  }

  /** `metadata?.artworkUrl`: null both when there is no metadata and when it has no URL. */
  function ArtworkUrlOf(metadata: Option<NotificationMetadata>): (r: Option<string>)
    ensures r.Some? <==> metadata.Some? && metadata.value.artworkUrl.Some?
    ensures r.Some? ==> r == metadata.value.artworkUrl
  {
    if metadata.None? then None else metadata.value.artworkUrl
  }

  /** The objects a metadata assignment may write: the current item's holder, if any. */
  function HolderRefs(tag: Option<MediaTag>): set<object> {
    if tag.Some? && tag.value.HolderTag? then {tag.value.holder} else {}
  }

  /** Helper for the ghost bookkeeping: a nullable value as a list of zero or one. */
  function OptionToSeq<T>(o: Option<T>): (r: seq<T>)
    ensures o.None? ==> r == []
    ensures o.Some? ==> r == [o.value]
  {
    if o.None? then [] else [o.value]
  }

  function Invalidated(m: Option<InternalManager>): Option<InternalManager> {
    if m.None? then None else Some(m.value.(invalidations := m.value.invalidations + 1))
  }

  function Detached(m: Option<InternalManager>): Option<InternalManager> {
    if m.None? then None else Some(m.value.(playerAttached := false))
  }

  class NotificationManager {
    var notificationMetadata: Option<NotificationMetadata>

    var showPlayPauseButton: bool
    var showStopButton: bool
    var showForwardButton: bool
    var showForwardButtonCompact: bool
    var showRewindButton: bool
    var showRewindButtonCompact: bool
    var showNextButton: bool
    var showNextButtonCompact: bool
    var showPreviousButton: bool
    var showPreviousButtonCompact: bool

    /** The registered buttons, a linked hash set in iteration order. */
    var buttons: seq<Option<NotificationButton>>

    /** A `lateinit var`: None until `createNotification` has run. */
    var descriptionAdapter: Option<AdapterBinding>
    var internalNotificationManager: Option<InternalManager>

    /** Number of times `reload()` has been called. */
    ghost var reloadRequests: nat

    /** Platform managers that a later `createNotification` overwrote, in the
        state they were left in: nothing detaches them afterwards. */
    ghost var replacedManagers: seq<InternalManager>

    constructor ()
      ensures notificationMetadata.None? && buttons == []
      ensures Flags() == ButtonFlags(false, false, false, false, false, false, false, false, false, false)
      ensures descriptionAdapter.None? && internalNotificationManager.None? && reloadRequests == 0
      ensures replacedManagers == []
    {
      notificationMetadata := None;
      showPlayPauseButton, showStopButton := false, false;
      showForwardButton, showForwardButtonCompact := false, false;
      showRewindButton, showRewindButtonCompact := false, false;
      showNextButton, showNextButtonCompact := false, false;
      showPreviousButton, showPreviousButtonCompact := false, false;
      buttons := [];
      descriptionAdapter := None;
      internalNotificationManager := None;
      reloadRequests := 0;
      replacedManagers := [];
    }

    /** The ten flags as one value. */
    function Flags(): ButtonFlags
      reads this
    {
      ButtonFlags(showPlayPauseButton, showStopButton,
                  showForwardButton, showForwardButtonCompact,
                  showRewindButton, showRewindButtonCompact,
                  showNextButton, showNextButtonCompact,
                  showPreviousButton, showPreviousButtonCompact)
    }

    // -------------------------------------------------------------------------
    // The metadata provider handed to the description adapter

    function ProviderTitle(): (r: Option<string>)
      reads this
      ensures notificationMetadata.None? ==> r.None?
      ensures notificationMetadata.Some? ==> r == notificationMetadata.value.title
    {
      if notificationMetadata.None? then None else notificationMetadata.value.title
    }

    function ProviderArtist(): (r: Option<string>)
      reads this
      ensures notificationMetadata.None? ==> r.None?
      ensures notificationMetadata.Some? ==> r == notificationMetadata.value.artist
    {
      if notificationMetadata.None? then None else notificationMetadata.value.artist
    }

    function ProviderArtworkUrl(): (r: Option<string>)
      reads this
      ensures r == ArtworkUrlOf(notificationMetadata)
    {
      if notificationMetadata.None? then None else notificationMetadata.value.artworkUrl
    }

    // -------------------------------------------------------------------------
    // The metadata override

    /** Assigning `notificationMetadata`. `currentTag` is the tag of the player's
        current media item (None when the item, its local configuration or its
        tag is null). When the artwork URL changes, the tag is cast to
        `AudioItemHolder?`, which throws for a tag of another class; otherwise
        a holder's cached bitmap is cleared. Then the value is stored and a
        reload requested. Title and artist play no part in clearing. */
    method SetNotificationMetadata(value: Option<NotificationMetadata>, currentTag: Option<MediaTag>)
      returns (outcome: Outcome<Exception>)
      modifies this`notificationMetadata, this`reloadRequests, this`internalNotificationManager
      modifies HolderRefs(currentTag)
      ensures outcome.Fail? <==>
        ArtworkUrlOf(old(notificationMetadata)) != ArtworkUrlOf(value) && currentTag == Some(ForeignTag)
      ensures outcome.Fail? ==>
        outcome.error == ClassCastException &&
        notificationMetadata == old(notificationMetadata) && reloadRequests == old(reloadRequests) &&
        internalNotificationManager == old(internalNotificationManager)
      ensures outcome.Pass? ==>
        notificationMetadata == value && reloadRequests == old(reloadRequests) + 1 &&
        internalNotificationManager == Invalidated(old(internalNotificationManager))
      ensures currentTag.Some? && currentTag.value.HolderTag? ==>
        currentTag.value.holder.artworkBitmap ==
          if ArtworkUrlOf(old(notificationMetadata)) != ArtworkUrlOf(value) then None
          else old(currentTag.value.holder.artworkBitmap)
    {
      if ArtworkUrlOf(notificationMetadata) != ArtworkUrlOf(value) {
        if currentTag.Some? {
          match currentTag.value
          case ForeignTag =>
            return Fail(ClassCastException);
          case HolderTag(itemHolder) =>
            itemHolder.artworkBitmap := None;
        }
      }
      notificationMetadata := value;
      Reload();
      outcome := Pass;
    }

    /** `reload()`: invalidates the platform notification if it has been built. */
    method Reload()
      modifies this`reloadRequests, this`internalNotificationManager
      ensures reloadRequests == old(reloadRequests) + 1
      ensures internalNotificationManager == Invalidated(old(internalNotificationManager))
    {
      reloadRequests := reloadRequests + 1;
      if internalNotificationManager.Some? {
        var m := internalNotificationManager.value;
        internalNotificationManager := Some(m.(invalidations := m.invalidations + 1));
      }
    }

    // -------------------------------------------------------------------------
    // The ten flag setters

    method SetShowPlayPauseButton(value: bool)
      modifies this`showPlayPauseButton
      ensures showPlayPauseButton == value
    {
      showPlayPauseButton := value;
    }

    method SetShowStopButton(value: bool)
      modifies this`showStopButton
      ensures showStopButton == value
    {
      showStopButton := value;
    }

    method SetShowForwardButton(value: bool)
      modifies this`showForwardButton
      ensures showForwardButton == value
    {
      showForwardButton := value;
    }

    method SetShowForwardButtonCompact(value: bool)
      modifies this`showForwardButtonCompact
      ensures showForwardButtonCompact == value
    {
      showForwardButtonCompact := value;
    }

    method SetShowRewindButton(value: bool)
      modifies this`showRewindButton
      ensures showRewindButton == value
    {
      showRewindButton := value;
    }

    method SetShowRewindButtonCompact(value: bool)
      modifies this`showRewindButtonCompact
      ensures showRewindButtonCompact == value
    {
      showRewindButtonCompact := value;
    }

    method SetShowNextButton(value: bool)
      modifies this`showNextButton
      ensures showNextButton == value
    {
      showNextButton := value;
    }

    method SetShowNextButtonCompact(value: bool)
      modifies this`showNextButtonCompact
      ensures showNextButtonCompact == value
    {
      showNextButtonCompact := value;
    }

    method SetShowPreviousButton(value: bool)
      modifies this`showPreviousButton
      ensures showPreviousButton == value
    {
      showPreviousButton := value;
    }

    method SetShowPreviousButtonCompact(value: bool)
      modifies this`showPreviousButtonCompact
      ensures showPreviousButtonCompact == value
    {
      showPreviousButtonCompact := value;
    }

    /** `hideAllButtonsByDefault`: the six visibility flags off; the four compact
        flags and everything else untouched. */
    method HideAllButtonsByDefault()
      modifies this`showPlayPauseButton, this`showForwardButton, this`showRewindButton
      modifies this`showNextButton, this`showPreviousButton, this`showStopButton
      ensures Flags() == HideAll(old(Flags()))
      ensures forall v :: !Shown(Flags(), v)
      ensures forall v | HasCompactFlag(v) :: CompactShown(Flags(), v) == CompactShown(old(Flags()), v)
    {
      SetShowPlayPauseButton(false);
      SetShowForwardButton(false);
      SetShowRewindButton(false);
      SetShowNextButton(false);
      SetShowPreviousButton(false);
      SetShowStopButton(false);
    }

    // -------------------------------------------------------------------------
    // Building the notification

    /** `createNotification(config)`. The registered buttons become exactly the
        distinct entries of `config.buttons`, in first-occurrence order; the
        visibility flags are reset and then turned on exactly for the variants
        present; each compact flag takes the `isCompact` of the last button of its
        variant in that order (the configured list's own last one when the list
        has one button per variant), or keeps its value; the builder receives
        each non-null icon; the accent colour falls back to transparent; the
        player is attached. Nothing guards against a second call: the previous
        platform manager is overwritten with its player still attached. */
    method CreateNotification(config: NotificationConfig)
      modifies this`buttons, this`descriptionAdapter, this`internalNotificationManager, this`replacedManagers
      modifies this`showPlayPauseButton, this`showStopButton
      modifies this`showForwardButton, this`showForwardButtonCompact
      modifies this`showRewindButton, this`showRewindButtonCompact
      modifies this`showNextButton, this`showNextButtonCompact
      modifies this`showPreviousButton, this`showPreviousButtonCompact
      ensures buttons == OrderedSet.AddAll([], config.buttons)
      ensures OrderedSet.Distinct(buttons) && OrderedSet.SameElements(buttons, config.buttons)
      ensures Flags() == CreateFlags(old(Flags()), buttons)
      ensures ShowsExactly(Flags(), config.buttons)
      ensures CompactsFrom(old(Flags()), Flags(), buttons)
      ensures OneButtonPerVariant(config.buttons) ==> CompactsFrom(old(Flags()), Flags(), config.buttons)
      ensures descriptionAdapter == Some(AdapterBinding(config.pendingIntent, false))
      ensures internalNotificationManager.Some?
      ensures var m := internalNotificationManager.value;
        && m.notificationId == NOTIFICATION_ID && m.channelId == CHANNEL_ID
        && IconsFrom(m.icons, buttons)
        && m.color == AccentColor(config.accentColor)
        && m.smallIcon == config.smallIcon
        && m.playerAttached && m.invalidations == 0
      ensures replacedManagers == old(replacedManagers) + OptionToSeq(old(internalNotificationManager))
    {
      Prepare(config);
      ApplySettings(config);

      CreateFlagsEffect(old(Flags()), buttons);
      ShowsExactlySameElements(Flags(), buttons, config.buttons);
      if OneButtonPerVariant(config.buttons) {
        CompactsFromSameElements(old(Flags()), Flags(), buttons, config.buttons);
      }
    }

    /** The first part of `createNotification`, up to the built platform
        manager: register the buttons, bind the description adapter, and build
        with the visibility flags reset and the icons of the registered buttons. */
    method Prepare(config: NotificationConfig)
      modifies this`buttons, this`descriptionAdapter, this`internalNotificationManager, this`replacedManagers
      modifies this`showPlayPauseButton, this`showForwardButton, this`showRewindButton
      modifies this`showNextButton, this`showPreviousButton, this`showStopButton
      ensures buttons == OrderedSet.AddAll([], config.buttons)
      ensures OrderedSet.Distinct(buttons) && OrderedSet.SameElements(buttons, config.buttons)
      ensures descriptionAdapter == Some(AdapterBinding(config.pendingIntent, false))
      ensures Flags() == HideAll(old(Flags()))
      ensures internalNotificationManager.Some?
      ensures var m := internalNotificationManager.value;
        && m.notificationId == NOTIFICATION_ID && m.channelId == CHANNEL_ID
        && IconsFrom(m.icons, buttons)
        && m.color == TRANSPARENT && m.smallIcon.None?
        && !m.playerAttached && m.invalidations == 0
      ensures replacedManagers == old(replacedManagers) + OptionToSeq(old(internalNotificationManager))
    {
      RegisterButtons(config.buttons);

      // A previous adapter is replaced without being released.
      descriptionAdapter := Some(AdapterBinding(config.pendingIntent, false));

      var built := Build();
      Install(built);
    }

    /** `internalNotificationManager = ...build()`: the new platform manager
        replaces the previous one, which is recorded as left behind. */
    method Install(built: InternalManager)
      modifies this`internalNotificationManager, this`replacedManagers
      ensures internalNotificationManager == Some(built)
      ensures replacedManagers == old(replacedManagers) + OptionToSeq(old(internalNotificationManager))
    {
      replacedManagers := replacedManagers + OptionToSeq(internalNotificationManager);
      internalNotificationManager := Some(built);
    }

    /** The builder block of `createNotification`: reset the visibility flags,
        set every non-null icon of the registered buttons on the builder, and
        build a platform notification manager with the fixed id and channel. */
    method Build() returns (built: InternalManager)
      modifies this`showPlayPauseButton, this`showForwardButton, this`showRewindButton
      modifies this`showNextButton, this`showPreviousButton, this`showStopButton
      ensures Flags() == HideAll(old(Flags()))
      ensures built.notificationId == NOTIFICATION_ID && built.channelId == CHANNEL_ID
      ensures IconsFrom(built.icons, buttons)
      ensures built.color == TRANSPARENT && built.smallIcon.None?
      ensures !built.playerAttached && built.invalidations == 0
    {
      HideAllButtonsByDefault();
      var icons := ConfigureIcons(buttons);
      built := InternalManager(NOTIFICATION_ID, CHANNEL_ID, icons, TRANSPARENT, None, false, 0);
    }

    /** The `internalNotificationManager?.apply` block of `createNotification`:
        accent colour, small icon if given, the button flags, and the player. */
    method ApplySettings(config: NotificationConfig)
      requires internalNotificationManager.Some?
      modifies this`internalNotificationManager
      modifies this`showPlayPauseButton, this`showStopButton
      modifies this`showForwardButton, this`showForwardButtonCompact
      modifies this`showRewindButton, this`showRewindButtonCompact
      modifies this`showNextButton, this`showNextButtonCompact
      modifies this`showPreviousButton, this`showPreviousButtonCompact
      ensures Flags() == ShowAll(old(Flags()), buttons)
      ensures var before := old(internalNotificationManager.value);
        internalNotificationManager == Some(before.(
          color := AccentColor(config.accentColor),
          smallIcon := if config.smallIcon.Some? then config.smallIcon else before.smallIcon,
          playerAttached := true))
    {
      var m := internalNotificationManager.value;
      m := m.(color := AccentColor(config.accentColor));
      if config.smallIcon.Some? {
        m := m.(smallIcon := config.smallIcon);
      }
      internalNotificationManager := Some(m);
      ShowConfiguredButtons();
      internalNotificationManager := Some(m.(playerAttached := true));
    }

    /** `buttons.clear(); buttons.addAll(configured)`: whatever was registered
        before is discarded, and the set then holds exactly the distinct entries
        of `configured`, null included, in first-occurrence order. */
    method RegisterButtons(configured: seq<Option<NotificationButton>>)
      modifies this`buttons
      ensures buttons == OrderedSet.AddAll([], configured)
      ensures OrderedSet.Distinct(buttons) && OrderedSet.SameElements(buttons, configured)
    {
      buttons := [];
      buttons := OrderedSet.AddAll(buttons, configured);
      OrderedSet.ClearThenAddAll(configured);
    }

    /** One pass of the second loop of `createNotification`: a null entry is
        skipped; a button turns its variant's visibility flag on and, for the
        skip/seek variants, copies `isCompact` into the compact flag. */
    method ApplyButton(button: Option<NotificationButton>)
      modifies this`showPlayPauseButton, this`showStopButton
      modifies this`showForwardButton, this`showForwardButtonCompact
      modifies this`showRewindButton, this`showRewindButtonCompact
      modifies this`showNextButton, this`showNextButtonCompact
      modifies this`showPreviousButton, this`showPreviousButtonCompact
      ensures Flags() == Step(old(Flags()), button)
    {
      if button.None? {
        return;
      }
      match button.value
      case PlayPause(_, _) => ShowPlayPause();
      case Stop(_) => ShowStop();
      case Forward(_, isCompact) => ShowForward(isCompact);
      case Backward(_, isCompact) => ShowRewind(isCompact);
      case Next(_, isCompact) => ShowNext(isCompact);
      case Previous(_, isCompact) => ShowPrevious(isCompact);
    }

    // One branch each of the `when (button)` in the second loop.

    method ShowPlayPause()
      modifies this`showPlayPauseButton
      ensures Flags() == old(Flags()).(playPause := true)
    {
      SetShowPlayPauseButton(true);
    }

    method ShowStop()
      modifies this`showStopButton
      ensures Flags() == old(Flags()).(stop := true)
    {
      SetShowStopButton(true);
    }

    method ShowForward(isCompact: bool)
      modifies this`showForwardButton, this`showForwardButtonCompact
      ensures Flags() == old(Flags()).(forward := true, forwardCompact := isCompact)
    {
      SetShowForwardButton(true);
      SetShowForwardButtonCompact(isCompact);
    }

    method ShowRewind(isCompact: bool)
      modifies this`showRewindButton, this`showRewindButtonCompact
      ensures Flags() == old(Flags()).(rewind := true, rewindCompact := isCompact)
    {
      SetShowRewindButton(true);
      SetShowRewindButtonCompact(isCompact);
    }

    method ShowNext(isCompact: bool)
      modifies this`showNextButton, this`showNextButtonCompact
      ensures Flags() == old(Flags()).(next := true, nextCompact := isCompact)
    {
      SetShowNextButton(true);
      SetShowNextButtonCompact(isCompact);
    }

    method ShowPrevious(isCompact: bool)
      modifies this`showPreviousButton, this`showPreviousButtonCompact
      ensures Flags() == old(Flags()).(previous := true, previousCompact := isCompact)
    {
      SetShowPreviousButton(true);
      SetShowPreviousButtonCompact(isCompact);
    }

    /** The second loop of `createNotification`, over the registered buttons in
        iteration order: exactly the variants present are turned on, and each
        compact flag ends at the last `isCompact` of its variant or keeps its value. */
    method ShowConfiguredButtons()
      modifies this`showPlayPauseButton, this`showStopButton
      modifies this`showForwardButton, this`showForwardButtonCompact
      modifies this`showRewindButton, this`showRewindButtonCompact
      modifies this`showNextButton, this`showNextButtonCompact
      modifies this`showPreviousButton, this`showPreviousButtonCompact
      ensures Flags() == ShowAll(old(Flags()), buttons)
    {
      for i := 0 to |buttons|
        invariant Flags() == ShowAll(old(Flags()), buttons[..i])
      {
        assert buttons[..i + 1][..i] == buttons[..i];
        ApplyButton(buttons[i]);
      }
      assert buttons[..|buttons|] == buttons;
    }

    /** `hideNotification()`: detaches the player from the platform notification. */
    method HideNotification()
      modifies this`internalNotificationManager
      ensures internalNotificationManager == Detached(old(internalNotificationManager))
    {
      if internalNotificationManager.Some? {
        internalNotificationManager := Some(internalNotificationManager.value.(playerAttached := false));
      }
    }

    /** `destroy()`: releases the description adapter and detaches the player.
        Before `createNotification` the adapter is an unassigned `lateinit var`,
        and reading it throws before anything else happens. */
    method Destroy() returns (outcome: Outcome<Exception>)
      modifies this`descriptionAdapter, this`internalNotificationManager
      ensures outcome.Fail? <==> old(descriptionAdapter).None?
      ensures outcome.Fail? ==>
        outcome.error == UninitializedPropertyAccessException &&
        internalNotificationManager == old(internalNotificationManager) &&
        descriptionAdapter == old(descriptionAdapter)
      ensures outcome.Pass? ==>
        descriptionAdapter == Some(old(descriptionAdapter).value.(released := true)) &&
        internalNotificationManager == Detached(old(internalNotificationManager))
    {
      if descriptionAdapter.None? {
        return Fail(UninitializedPropertyAccessException);
      }
      descriptionAdapter := Some(descriptionAdapter.value.(released := true));
      HideNotification();
      outcome := Pass;
    }
  }

  /** Calling `createNotification` twice with the same configuration leaves the
      flags and the registered buttons as one call does. The first platform
      manager, though, is overwritten with its player still attached, and a
      later `destroy()` reaches only the second one. */
  method CreateNotificationTwice(config: NotificationConfig)
    returns (once: ButtonFlags, twice: ButtonFlags, onceButtons: seq<Option<NotificationButton>>,
             twiceButtons: seq<Option<NotificationButton>>, destroyed: Outcome<Exception>,
             ghost orphaned: seq<InternalManager>)
    ensures once == twice && onceButtons == twiceButtons
    ensures ShowsExactly(twice, config.buttons)
    ensures destroyed.Pass?
    ensures |orphaned| == 1 && orphaned[0].playerAttached && orphaned[0].notificationId == NOTIFICATION_ID
  {
    var manager := new NotificationManager();
    ghost var initial := manager.Flags();
    manager.CreateNotification(config);
    once, onceButtons := manager.Flags(), manager.buttons;
    manager.CreateNotification(config);
    twice, twiceButtons := manager.Flags(), manager.buttons;
    CreateFlagsIdempotent(initial, onceButtons);
    destroyed := manager.Destroy();
    orphaned := manager.replacedManagers;
  }
}
