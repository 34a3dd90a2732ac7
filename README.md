# KotlinAudio notification core in Dafny

This project models the two deterministic parts of the KotlinAudio media notification.

**The library's `NotificationManager`** is a stateful class, modelled as the Dafny class
`Notification.NotificationManager`. It holds:

- ten button flags: six visibility flags and four compact-view flags;
- the registered button set;
- the nullable metadata override;
- the lateinit description adapter;
- the platform notification manager.

Its operations are modelled:

- the metadata setter, which clears the current item's cached artwork only when the
  artwork URL changes, then stores the value and reloads;
- the ten flag setters;
- `hideAllButtonsByDefault`;
- `createNotification`, which registers the buttons, binds the adapter, resets the
  visibility flags, sets icons on the builder, applies the accent colour and small icon,
  turns on the flags of the buttons present and attaches the player;
- `hideNotification`, `destroy` and `reload`;
- the metadata provider getters.

Each loop of the source is a Dafny loop. Each is proved against a specification function
over the button list, and lemmas state what those functions compute:

- a visibility flag is on exactly when a non-null button of its variant is present;
- a compact flag ends at the `isCompact` of the last button of its variant in the
  registered set's order, or keeps its value;
- applying the same configuration twice gives the flags of applying it once.

**The `app` module's `DescriptionAdapter`** is modelled as pure functions: the content
title, content text, artwork source and content intent for the player's current item.
Each is a Kotlin `?:` fallback chain. Lemmas tie each chain to a generic "first non-null
candidate" function (`FirstPresent`) and state the precedence properties.

Modules and files:

| module | file |
|---|---|
| `Wrappers` | `wrappers.dfy` |
| `Android` | `android.dfy` (bytes, bitmaps, pending intents, the two exceptions) |
| `Models` | `models.dfy` (`NotificationButton`, `NotificationMetadata`, `NotificationConfig`, `AudioItem`, `AudioItemHolder`) |
| `OrderedSet` | `ordered_set.dfy` (Kotlin's `LinkedHashSet` as a duplicate-free sequence in iteration order) |
| `ButtonState` | `button_state.dfy` (flag and icon functions and their lemmas) |
| `Notification` | `notification_manager.dfy` (the manager class) |
| `Description` | `description_adapter.dfy` |

Modelling choices:

- **Coroutines.** Every `scope.launch` is modelled as its immediate, sequential effect. This
  matches the source only when the work each call launches has finished before the next
  call is made. The launches run one at a time on the main dispatcher, but in the order
  they are queued, and a launch made inside a launched block queues behind whatever the
  caller issued meanwhile (see "## Left out").
- **Ghost bookkeeping.** `reloadRequests` (the number of `reload()` calls) and
  `replacedManagers` (platform managers overwritten by a later `createNotification`) are
  ghost fields. The source keeps neither.
- **Unsafe casts raise errors.** Kotlin's `as AudioItemHolder?` and `as AudioItem?` throw
  `ClassCastException` on a non-null tag of another class. The model returns that error:
  `Outcome.Fail` or `Result.Failure`.
- **`destroy` before `createNotification`.** It reads the unassigned `lateinit`
  `descriptionAdapter`, which throws `UninitializedPropertyAccessException`. In the source
  the exception is raised inside the launched coroutine and reaches the main dispatcher
  as an uncaught exception; `destroy()`'s caller only holds a `Job`. The model returns it
  from `Destroy` as `Fail`.
- **The platform `PlayerNotificationManager`** is recorded only as the values requested on
  it: id and channel, builder icons, colour, small icon, whether a player is attached, and
  the number of `invalidate()` calls.
- **`BitmapFactory.decodeByteArray`** is a function parameter `decode` that may return
  `None`.
- **The current item's tag** is a parameter of the metadata setter.

Points where the code does less than its comments or its callers might expect:

- The doc comment of `createNotification` (NotificationManager.kt:133-136) says later calls
  result in an error. The code has no such check, and a second call simply runs again.
  `CreateNotificationTwice` proves that it leaves the same buttons and flags. It also
  proves that the first platform manager is overwritten with its player still attached, and
  that `destroy()` then reaches only the second one.
- Nothing checks for calls after `destroy()`, and the model has no such check either.
- `createNotification` passes a metadata provider to a three-argument adapter that is not
  modelled. The `app` module's `DescriptionAdapter` takes a context and an intent only and
  never reads an override.
- The configured list may repeat a variant. The registered set keeps each distinct button
  at its first occurrence. A compact flag therefore takes the `isCompact` of the last
  button of its variant in that first-occurrence order, which need not be the list's last
  one. `RepeatedVariantInSetOrder` shows this for FORWARD entries that are compact, not
  compact, then compact again, where the flag ends false. When the list has one button per
  variant (`OneButtonPerVariant`), `CreateNotification` proves the compact flags follow the
  configured list itself.

## Model

| member | source | states |
|---|---|---|
| OrderedSet.Add | kotlin-audio/src/main/java/com/doublesymmetry/kotlinaudio/notification/NotificationManager.kt:25 | adding to the linked hash set keeps it duplicate-free, adds exactly x to its elements, leaves it unchanged when x is present and appends x at the end otherwise |
| OrderedSet.AddAll | kotlin-audio/src/main/java/com/doublesymmetry/kotlinaudio/notification/NotificationManager.kt:138-141 | `addAll` keeps the earlier elements as a prefix, keeps the set duplicate-free, and its elements are the old ones plus those of the argument |
| OrderedSet.Fresh | kotlin-audio/src/main/java/com/doublesymmetry/kotlinaudio/notification/NotificationManager.kt:140 | reference for what `addAll` appends: its elements are exactly those of xs not seen before, each at its first occurrence in xs |
| OrderedSet.FreshSnoc | kotlin-audio/src/main/java/com/doublesymmetry/kotlinaudio/notification/NotificationManager.kt:140 | offering one more element at the end appends it iff it was neither present nor offered before |
| OrderedSet.AddAllInOrder | kotlin-audio/src/main/java/com/doublesymmetry/kotlinaudio/notification/NotificationManager.kt:138-141 | `addAll(xs)` gives the old elements followed by the new elements of xs in the order of their first occurrence in xs |
| OrderedSet.ClearThenAddAll | kotlin-audio/src/main/java/com/doublesymmetry/kotlinaudio/notification/NotificationManager.kt:138-141 | `clear()` then `addAll(xs)` gives a duplicate-free sequence with exactly the elements of xs and no longer than xs |
| OrderedSet.AddAllLength | kotlin-audio/src/main/java/com/doublesymmetry/kotlinaudio/notification/NotificationManager.kt:140 | `addAll` grows the set by at most the number of elements offered |
| Notification.NotificationManager.RegisterButtons | kotlin-audio/src/main/java/com/doublesymmetry/kotlinaudio/notification/NotificationManager.kt:138-141 | the registered buttons become `AddAll([], configured)`, duplicate-free with exactly the elements of the configuration (null included), whatever they were before; nothing else changes |
| ButtonState.CompactOf | kotlin-audio/src/main/java/com/doublesymmetry/kotlinaudio/notification/NotificationManager.kt:190-211 | a button carries an `isCompact` exactly when its variant has a compact flag (not PLAY_PAUSE, not STOP) |
| ButtonState.HasVariantSnoc | kotlin-audio/src/main/java/com/doublesymmetry/kotlinaudio/notification/NotificationManager.kt:187-189 | a list holds a non-null button of a variant iff its prefix does or its last entry is one |
| ButtonState.HasVariantSameElements | kotlin-audio/src/main/java/com/doublesymmetry/kotlinaudio/notification/NotificationManager.kt:138-141 | whether a button of a variant is present depends only on the elements of the list, so the registered set and the configured list agree |
| ButtonState.LastCompactIsLast | kotlin-audio/src/main/java/com/doublesymmetry/kotlinaudio/notification/NotificationManager.kt:196-211 | for a skip/seek variant the last `isCompact` exists iff a button of that variant is present, and it belongs to a button of that variant after which no other comes |
| ButtonState.LastIconIsLast | kotlin-audio/src/main/java/com/doublesymmetry/kotlinaudio/notification/NotificationManager.kt:168-181 | a builder icon slot receives nothing iff no button supplies a non-null icon for it; otherwise it is the icon of the last button that supplies one |
| ButtonState.ConfigureIcons | kotlin-audio/src/main/java/com/doublesymmetry/kotlinaudio/notification/NotificationManager.kt:168-181 | the icon loop skips null entries, sets only non-null icons, and leaves every slot holding the last icon supplied for it (the builder default when none is) |
| ButtonState.FlagsExtensional | kotlin-audio/src/main/java/com/doublesymmetry/kotlinaudio/notification/NotificationManager.kt:40-130 | two flag states that agree on every visibility and compact flag are equal: the ten fields are all the state there is |
| ButtonState.HideAll | kotlin-audio/src/main/java/com/doublesymmetry/kotlinaudio/notification/NotificationManager.kt:246-255 | every visibility flag off, every compact flag as before |
| ButtonState.Step | kotlin-audio/src/main/java/com/doublesymmetry/kotlinaudio/notification/NotificationManager.kt:188-211 | one pass of the flag loop: a null entry changes nothing; a button turns its own variant's visibility flag on and no other, and sets its variant's compact flag to `isCompact`; play/pause and stop touch no compact flag |
| ButtonState.ShowAllEffect | kotlin-audio/src/main/java/com/doublesymmetry/kotlinaudio/notification/NotificationManager.kt:187-213 | after the whole flag loop a visibility flag is on iff it was on or a button of its variant is present; a compact flag is the last `isCompact` of its variant, or its earlier value when none is present |
| ButtonState.ShowsExactlySameElements | kotlin-audio/src/main/java/com/doublesymmetry/kotlinaudio/notification/NotificationManager.kt:138-141 | "the flags show exactly the variants present" reads the same over two lists with the same elements |
| ButtonState.CreateFlagsEffect | kotlin-audio/src/main/java/com/doublesymmetry/kotlinaudio/notification/NotificationManager.kt:166-213 | after the reset and the loop, a visibility flag is on iff a non-null button of its variant is present; each compact flag is the last `isCompact` of its variant or keeps its value |
| ButtonState.LastCompactSameElements | kotlin-audio/src/main/java/com/doublesymmetry/kotlinaudio/notification/NotificationManager.kt:138-211 | with one button per variant, the last `isCompact` of a variant is the same over the registered set and the configured list |
| ButtonState.CompactsFromSameElements | kotlin-audio/src/main/java/com/doublesymmetry/kotlinaudio/notification/NotificationManager.kt:138-211 | with one button per variant, compact flags set from the registered set are those set from the configured list |
| ButtonState.RepeatedForwardRegistered | kotlin-audio/src/main/java/com/doublesymmetry/kotlinaudio/notification/NotificationManager.kt:138-141 | registering FORWARD compact, not compact, compact keeps only the first two, in that order |
| ButtonState.RepeatedVariantInSetOrder | kotlin-audio/src/main/java/com/doublesymmetry/kotlinaudio/notification/NotificationManager.kt:138-211 | for that list the forward compact flag is set from the set's last FORWARD (not compact), although the list's last FORWARD is compact |
| ButtonState.CreateFlagsIdempotent | kotlin-audio/src/main/java/com/doublesymmetry/kotlinaudio/notification/NotificationManager.kt:166-213 | running the reset and the loop again over the same buttons gives the same ten flags |
| Notification.AccentColor | kotlin-audio/src/main/java/com/doublesymmetry/kotlinaudio/notification/NotificationManager.kt:185 | the accent colour is the configured one if present, TRANSPARENT otherwise |
| Notification.ArtworkUrlOf | kotlin-audio/src/main/java/com/doublesymmetry/kotlinaudio/notification/NotificationManager.kt:30 | `metadata?.artworkUrl` is non-null iff there is metadata with a URL, and then it is that URL |
| Notification.NotificationManager.constructor | kotlin-audio/src/main/java/com/doublesymmetry/kotlinaudio/notification/NotificationManager.kt:22-130 | a new manager has no metadata, no buttons, all ten flags false, no adapter, no platform manager |
| Notification.NotificationManager.ProviderTitle | kotlin-audio/src/main/java/com/doublesymmetry/kotlinaudio/notification/NotificationManager.kt:145-147 | the provider's title is the current override's title, null when no override is set |
| Notification.NotificationManager.ProviderArtist | kotlin-audio/src/main/java/com/doublesymmetry/kotlinaudio/notification/NotificationManager.kt:149-151 | the provider's artist is the current override's artist, null when no override is set |
| Notification.NotificationManager.ProviderArtworkUrl | kotlin-audio/src/main/java/com/doublesymmetry/kotlinaudio/notification/NotificationManager.kt:153-155 | the provider's artwork URL is the current override's URL, null when no override is set |
| Notification.NotificationManager.SetNotificationMetadata | kotlin-audio/src/main/java/com/doublesymmetry/kotlinaudio/notification/NotificationManager.kt:27-38 | the holder's cached bitmap is cleared iff `old?.artworkUrl != new?.artworkUrl` (null counted as a value), otherwise left as it was; no holder means nothing is cleared. It fails with ClassCastException, changing nothing, iff the URL changed and the tag is of another class. Otherwise it stores the value and requests exactly one reload; nothing else changes |
| Notification.NotificationManager.Reload | kotlin-audio/src/main/java/com/doublesymmetry/kotlinaudio/notification/NotificationManager.kt:240-244 | one more reload request; the platform manager, if built, is invalidated once; nothing else changes |
| Notification.NotificationManager.SetShowPlayPauseButton | kotlin-audio/src/main/java/com/doublesymmetry/kotlinaudio/notification/NotificationManager.kt:40-46 | the flag takes the value; no other field changes |
| Notification.NotificationManager.SetShowStopButton | kotlin-audio/src/main/java/com/doublesymmetry/kotlinaudio/notification/NotificationManager.kt:48-54 | the flag takes the value; no other field changes |
| Notification.NotificationManager.SetShowForwardButton | kotlin-audio/src/main/java/com/doublesymmetry/kotlinaudio/notification/NotificationManager.kt:56-62 | the flag takes the value; no other field changes |
| Notification.NotificationManager.SetShowForwardButtonCompact | kotlin-audio/src/main/java/com/doublesymmetry/kotlinaudio/notification/NotificationManager.kt:67-73 | the flag takes the value; no other field changes |
| Notification.NotificationManager.SetShowRewindButton | kotlin-audio/src/main/java/com/doublesymmetry/kotlinaudio/notification/NotificationManager.kt:75-81 | the flag takes the value; no other field changes |
| Notification.NotificationManager.SetShowRewindButtonCompact | kotlin-audio/src/main/java/com/doublesymmetry/kotlinaudio/notification/NotificationManager.kt:86-92 | the flag takes the value; no other field changes |
| Notification.NotificationManager.SetShowNextButton | kotlin-audio/src/main/java/com/doublesymmetry/kotlinaudio/notification/NotificationManager.kt:94-100 | the flag takes the value; no other field changes |
| Notification.NotificationManager.SetShowNextButtonCompact | kotlin-audio/src/main/java/com/doublesymmetry/kotlinaudio/notification/NotificationManager.kt:105-111 | the flag takes the value; no other field changes |
| Notification.NotificationManager.SetShowPreviousButton | kotlin-audio/src/main/java/com/doublesymmetry/kotlinaudio/notification/NotificationManager.kt:113-119 | the flag takes the value; no other field changes |
| Notification.NotificationManager.SetShowPreviousButtonCompact | kotlin-audio/src/main/java/com/doublesymmetry/kotlinaudio/notification/NotificationManager.kt:124-130 | the flag takes the value; no other field changes |
| Notification.NotificationManager.HideAllButtonsByDefault | kotlin-audio/src/main/java/com/doublesymmetry/kotlinaudio/notification/NotificationManager.kt:246-255 | all six visibility flags false, the four compact flags unchanged, nothing else written |
| Notification.NotificationManager.CreateNotification | kotlin-audio/src/main/java/com/doublesymmetry/kotlinaudio/notification/NotificationManager.kt:137-217 | the buttons become the distinct configured entries in first-occurrence order, earlier contents discarded. Each visibility flag is on iff the config has a non-null button of its variant. Each compact flag is the last `isCompact` of its variant in the set's order, or keeps its value; with one button per variant this is the configured list's last one. The adapter is bound to the config's intent. The platform manager has the fixed id and channel, the last non-null icon per slot, the accent colour or TRANSPARENT, and the configured small icon; the player is attached. A manager built earlier is recorded as replaced, in the state it was left. Metadata and reload count unchanged |
| Notification.NotificationManager.Prepare | kotlin-audio/src/main/java/com/doublesymmetry/kotlinaudio/notification/NotificationManager.kt:138-182 | up to `build()`: buttons registered, adapter bound, visibility flags reset, a platform manager built with the fixed id and channel and the icons of the registered buttons, no colour or small icon yet, no player; a previous manager is recorded as replaced |
| Notification.NotificationManager.Install | kotlin-audio/src/main/java/com/doublesymmetry/kotlinaudio/notification/NotificationManager.kt:161 | the new platform manager replaces the current one, which is appended to the replaced managers as it was |
| Notification.NotificationManager.Build | kotlin-audio/src/main/java/com/doublesymmetry/kotlinaudio/notification/NotificationManager.kt:161-182 | the builder block resets the visibility flags and builds a manager with the fixed id and channel and the icons of the registered buttons |
| Notification.NotificationManager.ApplySettings | kotlin-audio/src/main/java/com/doublesymmetry/kotlinaudio/notification/NotificationManager.kt:184-216 | colour set to the accent colour or TRANSPARENT; small icon replaced only when configured; the flags are the loop's result over the registered buttons; player attached |
| Notification.NotificationManager.ApplyButton | kotlin-audio/src/main/java/com/doublesymmetry/kotlinaudio/notification/NotificationManager.kt:188-211 | the flags after one loop pass are `Step` of the flags before |
| Notification.NotificationManager.ShowPlayPause | kotlin-audio/src/main/java/com/doublesymmetry/kotlinaudio/notification/NotificationManager.kt:190-192 | only the play/pause flag changes, to true |
| Notification.NotificationManager.ShowStop | kotlin-audio/src/main/java/com/doublesymmetry/kotlinaudio/notification/NotificationManager.kt:193-195 | only the stop flag changes, to true |
| Notification.NotificationManager.ShowForward | kotlin-audio/src/main/java/com/doublesymmetry/kotlinaudio/notification/NotificationManager.kt:196-199 | only the forward flags change: visible, and compact as given |
| Notification.NotificationManager.ShowRewind | kotlin-audio/src/main/java/com/doublesymmetry/kotlinaudio/notification/NotificationManager.kt:200-203 | only the rewind flags change: visible, and compact as given |
| Notification.NotificationManager.ShowNext | kotlin-audio/src/main/java/com/doublesymmetry/kotlinaudio/notification/NotificationManager.kt:204-207 | only the next flags change: visible, and compact as given |
| Notification.NotificationManager.ShowPrevious | kotlin-audio/src/main/java/com/doublesymmetry/kotlinaudio/notification/NotificationManager.kt:208-211 | only the previous flags change: visible, and compact as given |
| Notification.NotificationManager.ShowConfiguredButtons | kotlin-audio/src/main/java/com/doublesymmetry/kotlinaudio/notification/NotificationManager.kt:187-213 | the loop over the registered buttons in iteration order leaves the flags at `ShowAll` of the flags before |
| Notification.NotificationManager.HideNotification | kotlin-audio/src/main/java/com/doublesymmetry/kotlinaudio/notification/NotificationManager.kt:219-221 | the player is detached from the platform manager, if one was built; nothing else changes |
| Notification.NotificationManager.Destroy | kotlin-audio/src/main/java/com/doublesymmetry/kotlinaudio/notification/NotificationManager.kt:235-238 | fails with UninitializedPropertyAccessException, changing nothing, iff no adapter was ever assigned (the source raises it inside the launched coroutine); otherwise the adapter is released and the current platform manager's player detached; managers replaced earlier are not touched |
| Notification.CreateNotificationTwice | kotlin-audio/src/main/java/com/doublesymmetry/kotlinaudio/notification/NotificationManager.kt:133-238 | two calls of `createNotification` with the same config leave the same buttons and ten flags as one, showing exactly the configured variants, and raise no error. The first platform manager is overwritten with its player still attached, and a following `destroy()` succeeds without detaching it |
| Description.FirstPresentIsFirst | app/src/main/java/com/doublesymmetry/kotlinaudio/DescriptionAdapter.kt:19-58 | a `?:` chain is null iff every candidate is; otherwise it is the candidate at the first non-null position |
| Description.FirstPresentOfTwo | app/src/main/java/com/doublesymmetry/kotlinaudio/DescriptionAdapter.kt:21 | a two-candidate chain is the first candidate when present, else the second |
| Description.FirstPresentOfThree | app/src/main/java/com/doublesymmetry/kotlinaudio/DescriptionAdapter.kt:30 | a three-candidate chain takes the first present candidate, in order |
| Description.CurrentAudioItem | app/src/main/java/com/doublesymmetry/kotlinaudio/DescriptionAdapter.kt:20-37 | the cast fails with ClassCastException iff the tag is of another class; a missing item, playback properties or tag gives null; an `AudioItem` tag gives that item |
| Description.ContentTitle | app/src/main/java/com/doublesymmetry/kotlinaudio/DescriptionAdapter.kt:21 | the item's title if non-null, else the display title, else the empty string |
| Description.ContentTitleIsFirstPresent | app/src/main/java/com/doublesymmetry/kotlinaudio/DescriptionAdapter.kt:21 | the title is the first present of item title and display title, or "" — never null |
| Description.GetCurrentContentTitle | app/src/main/java/com/doublesymmetry/kotlinaudio/DescriptionAdapter.kt:19-22 | fails iff the tag is of another class; otherwise the title of the cast item over the player's metadata |
| Description.ContentText | app/src/main/java/com/doublesymmetry/kotlinaudio/DescriptionAdapter.kt:30 | the item's artist if non-null, else the metadata artist, else the album artist |
| Description.ContentTextIsFirstPresent | app/src/main/java/com/doublesymmetry/kotlinaudio/DescriptionAdapter.kt:30 | the text is the first present of the three artists, and it is null iff all three are |
| Description.GetCurrentContentText | app/src/main/java/com/doublesymmetry/kotlinaudio/DescriptionAdapter.kt:28-31 | fails iff the tag is of another class; otherwise the text of the cast item over the player's metadata |
| Description.GetArtworkSource | app/src/main/java/com/doublesymmetry/kotlinaudio/DescriptionAdapter.kt:50-59 | item artwork whenever it is non-null. The URI iff item artwork is absent and a URI is present. A decoded bitmap iff both are absent, bytes are present and decoding succeeds. Null iff all of those fail, including the case of null bytes |
| Description.ArtworkSourceIsFirstPresent | app/src/main/java/com/doublesymmetry/kotlinaudio/DescriptionAdapter.kt:53-58 | the artwork source is the first present of item artwork, URI and decoded bytes |
| Description.ItemArtworkIgnoresMetadata | app/src/main/java/com/doublesymmetry/kotlinaudio/DescriptionAdapter.kt:54 | with item artwork present the source is the same for any engine metadata and any decoder |
| Description.DecoderOnlyConsultedLast | app/src/main/java/com/doublesymmetry/kotlinaudio/DescriptionAdapter.kt:51-56 | when there is item artwork, a URI or no bytes, the decoder has no influence on the source |
| Description.MissingItemActsAsEmpty | app/src/main/java/com/doublesymmetry/kotlinaudio/DescriptionAdapter.kt:20-37 | with no current item, playback properties or tag, title, text and artwork source are those of an item whose fields are all null |
| Description.CreateCurrentContentIntent | app/src/main/java/com/doublesymmetry/kotlinaudio/DescriptionAdapter.kt:24-26 | the content intent is the intent the adapter was constructed with |
| Description.ContentIntentIgnoresPlayer | app/src/main/java/com/doublesymmetry/kotlinaudio/DescriptionAdapter.kt:18-26 | the content intent is the constructor's intent, whatever the player |

## Left out

- `getCurrentLargeIcon` (DescriptionAdapter.kt:33-48): it enqueues an asynchronous image request whose callback may or may not have run when it returns. Only its input, the artwork source, is modelled.
- `BitmapFactory.decodeByteArray`: platform decoding, taken as the parameter `decode` that may return null.
- Coroutine scheduling: every `scope.launch` is taken as its immediate sequential effect, which matches the source only when each call's launched work finishes before the next call starts. For example, on the main thread, `createNotification(config)` with a FORWARD button followed at once by `showForwardButton = false` queues the creation body, then that setter. The body's own setter calls (the reset, then the loop's `true`) queue behind it, so the source ends with `showForwardButton == true`, where the model (`CreateNotification` then `SetShowForwardButton(false)`) ends with false. Likewise, reading a flag right after its setter returns still gives the old value in the source.
- The flag setters' forwarding to the platform manager (`setUsePlayPauseActions` and the rest) is not recorded. The platform manager's own action flags are outside the model; only the manager's ten fields are.
- Channel name, description adapter and listener registration on the builder, and the builder's other defaults: platform plumbing without logic.
- `onNotificationPosted` / `onNotificationCancelled`: they only forward to `NotificationEventHolder`, which is not part of this model.
- The doc comment's "only call once" note: the code does not enforce it, so no error is modelled. `CreateNotificationTwice` covers the repeated call, including the first platform manager left attached. The platform side of that orphan (two managers posting under one notification id) is not modelled. A second call also overwrites `descriptionAdapter` without calling `release()` on the first adapter, which the first platform manager still uses; the model replaces its `AdapterBinding` and keeps no trace of the first one.
- The three-argument `DescriptionAdapter` with a metadata provider that `createNotification` constructs is not part of this model. The binding records only its intent and whether it was released. The provider's three getters are modelled on the manager.
- `NotificationButton`'s declaration is not part of this model. Its equality, which decides duplicates in the button set, is taken to be structural, as for a Kotlin data class.
- The sample apps `CodaAudioPlayer.kt` and `AudioPlayer.kt`: logging, a fixed stream URL and a stub, with no logic.
- `PlayerOptions.kt`: a one-field record with a default; nothing to prove.
- Resource ids, colours and drawable handles are plain integers; the platform's checks on them are not modelled.
