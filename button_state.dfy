/** What a list of notification buttons does to the notification manager's
    ten visibility flags and to the icon resources set on the notification
    builder, as functions of the button list in iteration order, with the
    lemmas that say what those functions compute. */
module ButtonState {
  import opened Wrappers
  import opened Models
  import OrderedSet

  // ---------------------------------------------------------------------------
  // Button variants

  datatype Variant =
    | PlayPauseVariant | StopVariant | ForwardVariant
    | BackwardVariant | NextVariant | PreviousVariant

  function VariantOf(b: NotificationButton): Variant {
    match b
    case PlayPause(_, _) => PlayPauseVariant
    case Stop(_) => StopVariant
    case Forward(_, _) => ForwardVariant
    case Backward(_, _) => BackwardVariant
    case Next(_, _) => NextVariant
    case Previous(_, _) => PreviousVariant
  }

  /** The variants that have a compact-view flag of their own. */
  predicate HasCompactFlag(v: Variant) {
    !v.PlayPauseVariant? && !v.StopVariant?
  }

  /** The `isCompact` a button carries; play/pause and stop carry none. */
  function CompactOf(b: NotificationButton): (r: Option<bool>)
    ensures r.Some? <==> HasCompactFlag(VariantOf(b))
  {
    if b.PlayPause? || b.Stop? then None else Some(b.isCompact)
  }

  /** Entry k of bs is a non-null button of variant v. */
  predicate IsVariantAt(bs: seq<Option<NotificationButton>>, k: int, v: Variant) {
    0 <= k < |bs| && bs[k].Some? && VariantOf(bs[k].value) == v
  }

  /** bs holds a non-null button of variant v. */
  predicate HasVariant(bs: seq<Option<NotificationButton>>, v: Variant) {
    exists k :: 0 <= k < |bs| && IsVariantAt(bs, k, v)
  }

  lemma HasVariantSnoc(bs: seq<Option<NotificationButton>>, v: Variant)
    requires bs != []
    ensures HasVariant(bs, v) <==> HasVariant(bs[..|bs| - 1], v) || IsVariantAt(bs, |bs| - 1, v)
  {
    var n := |bs| - 1;
    var init := bs[..n];
    if HasVariant(bs, v) && !IsVariantAt(bs, n, v) {
      var k :| 0 <= k < |bs| && IsVariantAt(bs, k, v);
      assert k < n && init[k] == bs[k];
      assert IsVariantAt(init, k, v);
    }
    if HasVariant(init, v) {
      var k :| 0 <= k < |init| && IsVariantAt(init, k, v);
      assert init[k] == bs[k];
      assert IsVariantAt(bs, k, v);
    }
  }

  /** Whether a button of a variant is present depends only on the elements of
      the list, not on their order or multiplicity. */
  lemma HasVariantSameElements(a: seq<Option<NotificationButton>>, b: seq<Option<NotificationButton>>, v: Variant)
    requires OrderedSet.SameElements(a, b)
    ensures HasVariant(a, v) <==> HasVariant(b, v)
  {
    if HasVariant(a, v) {
      var k :| 0 <= k < |a| && IsVariantAt(a, k, v);
      assert a[k] in b;
      var j :| 0 <= j < |b| && b[j] == a[k];
      assert IsVariantAt(b, j, v);
    }
    if HasVariant(b, v) {
      var k :| 0 <= k < |b| && IsVariantAt(b, k, v);
      assert b[k] in a;
      var j :| 0 <= j < |a| && a[j] == b[k];
      assert IsVariantAt(a, j, v);
    }
  }

  /** The `isCompact` of the last non-null button of variant v in bs. */
  function LastCompact(bs: seq<Option<NotificationButton>>, v: Variant): Option<bool>
    decreases |bs|
  {
    if bs == [] then None
    else if IsVariantAt(bs, |bs| - 1, v) then CompactOf(bs[|bs| - 1].value)
    else LastCompact(bs[..|bs| - 1], v)
  }

  /** For a variant with a compact flag, LastCompact is defined exactly when a
      button of that variant is present, and then it is the `isCompact` of the
      last such button: no button of that variant comes after it. */
  lemma {:induction false} LastCompactIsLast(bs: seq<Option<NotificationButton>>, v: Variant)
    requires HasCompactFlag(v)
    decreases |bs|
    ensures LastCompact(bs, v).Some? <==> HasVariant(bs, v)
    ensures LastCompact(bs, v).Some? ==>
      exists k :: IsVariantAt(bs, k, v) && CompactOf(bs[k].value) == LastCompact(bs, v) &&
        forall j :: k < j < |bs| ==> !IsVariantAt(bs, j, v)
  {
    if bs != [] {
      var n := |bs| - 1;
      var init := bs[..n];
      HasVariantSnoc(bs, v);
      if IsVariantAt(bs, n, v) {
        assert CompactOf(bs[n].value) == LastCompact(bs, v);
      } else {
        LastCompactIsLast(init, v);
        if LastCompact(bs, v).Some? {
          var k :| IsVariantAt(init, k, v) && CompactOf(init[k].value) == LastCompact(init, v) &&
            forall j :: k < j < |init| ==> !IsVariantAt(init, j, v);
          assert IsVariantAt(bs, k, v);
          forall j | k < j < |bs| ensures !IsVariantAt(bs, j, v) {
            if j < n { assert !IsVariantAt(init, j, v); }
          }
        }
      }
    }
  }

  // ---------------------------------------------------------------------------
  // Icons set on the notification builder

  /** The icon resources of `PlayerNotificationManager.Builder` that a button can set. */
  datatype IconSlot =
    | PlayIcon | PauseIcon | StopIcon | FastForwardIcon
    | RewindIcon | NextIcon | PreviousIcon

  /** The icon entry b supplies for a slot, None when b is null, is of another
      variant, or leaves that icon null. */
  function IconIn(b: Option<NotificationButton>, slot: IconSlot): Option<int> {
    if b.None? then None
    else
      match b.value
      case PlayPause(play, pause) =>
        if slot == PlayIcon then play else if slot == PauseIcon then pause else None
      case Stop(icon) => if slot == StopIcon then icon else None
      case Forward(icon, _) => if slot == FastForwardIcon then icon else None
      case Backward(icon, _) => if slot == RewindIcon then icon else None
      case Next(icon, _) => if slot == NextIcon then icon else None
      case Previous(icon, _) => if slot == PreviousIcon then icon else None
  }

  /** The last non-null icon supplied for a slot by the buttons of bs. */
  function LastIcon(bs: seq<Option<NotificationButton>>, slot: IconSlot): Option<int>
    decreases |bs|
  {
    if bs == [] then None
    else if IconIn(bs[|bs| - 1], slot).Some? then IconIn(bs[|bs| - 1], slot)
    else LastIcon(bs[..|bs| - 1], slot)
  }

  /** A slot receives an icon exactly when some button supplies a non-null icon
      for it, and then it is the icon of the last such button. */
  lemma {:induction false} LastIconIsLast(bs: seq<Option<NotificationButton>>, slot: IconSlot)
    decreases |bs|
    ensures LastIcon(bs, slot).None? <==> forall k :: 0 <= k < |bs| ==> IconIn(bs[k], slot).None?
    ensures LastIcon(bs, slot).Some? ==>
      exists k :: 0 <= k < |bs| && IconIn(bs[k], slot) == LastIcon(bs, slot) &&
        forall j :: k < j < |bs| ==> IconIn(bs[j], slot).None?
  {
    if bs != [] {
      var n := |bs| - 1;
      var init := bs[..n];
      if IconIn(bs[n], slot).None? {
        LastIconIsLast(init, slot);
        assert forall k :: 0 <= k < n ==> bs[k] == init[k];
        if LastIcon(bs, slot).Some? {
          var k :| 0 <= k < |init| && IconIn(init[k], slot) == LastIcon(init, slot) &&
            forall j :: k < j < |init| ==> IconIn(init[j], slot).None?;
          assert IconIn(bs[k], slot) == LastIcon(bs, slot);
        }
      }
    }
  }

  /** The icon resource ids requested on the builder; None keeps the builder's default. */
  datatype BuilderIcons = BuilderIcons(
    play: Option<int>, pause: Option<int>, stop: Option<int>, fastForward: Option<int>,
    rewind: Option<int>, next: Option<int>, previous: Option<int>)

  const DefaultIcons := BuilderIcons(None, None, None, None, None, None, None)

  function IconAt(icons: BuilderIcons, slot: IconSlot): Option<int> {
    match slot
    case PlayIcon => icons.play
    case PauseIcon => icons.pause
    case StopIcon => icons.stop
    case FastForwardIcon => icons.fastForward
    case RewindIcon => icons.rewind
    case NextIcon => icons.next
    case PreviousIcon => icons.previous
  }

  /** Every slot of icons holds the last icon supplied for it in bs. */
  ghost predicate IconsFrom(icons: BuilderIcons, bs: seq<Option<NotificationButton>>) {
    forall slot :: IconAt(icons, slot) == LastIcon(bs, slot)
  }

  /** The first loop of `createNotification`: for each non-null button, set on the
      builder each icon the button supplies. Every slot ends with the last icon
      supplied for it, and a slot no button supplies keeps the builder's default. */
  method ConfigureIcons(buttons: seq<Option<NotificationButton>>) returns (icons: BuilderIcons)
    ensures IconsFrom(icons, buttons)
  {
    icons := DefaultIcons;
    for i := 0 to |buttons|
      invariant forall slot :: IconAt(icons, slot) == LastIcon(buttons[..i], slot)
    {
      assert buttons[..i + 1][..i] == buttons[..i];
      var button := buttons[i];
      if button.None? {
        continue;
      }
      match button.value
      case PlayPause(playIcon, pauseIcon) =>
        if playIcon.Some? { icons := icons.(play := playIcon); }
        if pauseIcon.Some? { icons := icons.(pause := pauseIcon); }
      case Stop(icon) =>
        if icon.Some? { icons := icons.(stop := icon); }
      case Forward(icon, _) =>
        if icon.Some? { icons := icons.(fastForward := icon); }
      case Backward(icon, _) =>
        if icon.Some? { icons := icons.(rewind := icon); }
      case Next(icon, _) =>
        if icon.Some? { icons := icons.(next := icon); }
      case Previous(icon, _) =>
        if icon.Some? { icons := icons.(previous := icon); }
    }
    assert buttons[..|buttons|] == buttons;
  }

  // ---------------------------------------------------------------------------
  // The ten button flags

  /** A snapshot of the notification manager's ten flags. */
  datatype ButtonFlags = ButtonFlags(
    playPause: bool, stop: bool,
    forward: bool, forwardCompact: bool,
    rewind: bool, rewindCompact: bool,
    next: bool, nextCompact: bool,
    previous: bool, previousCompact: bool)

  /** The visibility flag of a variant (`showRewindButton` for BACKWARD). */
  function Shown(f: ButtonFlags, v: Variant): bool {
    match v
    case PlayPauseVariant => f.playPause
    case StopVariant => f.stop
    case ForwardVariant => f.forward
    case BackwardVariant => f.rewind
    case NextVariant => f.next
    case PreviousVariant => f.previous
  }

  /** The compact-view flag of a variant that has one. */
  function CompactShown(f: ButtonFlags, v: Variant): bool
    requires HasCompactFlag(v)
  {
    match v
    case ForwardVariant => f.forwardCompact
    case BackwardVariant => f.rewindCompact
    case NextVariant => f.nextCompact
    case PreviousVariant => f.previousCompact
  }

  /** Two snapshots that agree on every flag are the same snapshot. */
  lemma FlagsExtensional(a: ButtonFlags, b: ButtonFlags)
    requires forall v :: Shown(a, v) == Shown(b, v)
    requires forall v | HasCompactFlag(v) :: CompactShown(a, v) == CompactShown(b, v)
    ensures a == b
  {
    // Naming each flag's instance of the hypotheses lets the solver use them.
    ghost var sPlayPause := Shown(a, PlayPauseVariant) == Shown(b, PlayPauseVariant);
    ghost var sStop := Shown(a, StopVariant) == Shown(b, StopVariant);
    ghost var sForward := Shown(a, ForwardVariant) == Shown(b, ForwardVariant);
    ghost var sBackward := Shown(a, BackwardVariant) == Shown(b, BackwardVariant);
    ghost var sNext := Shown(a, NextVariant) == Shown(b, NextVariant);
    ghost var sPrevious := Shown(a, PreviousVariant) == Shown(b, PreviousVariant);
    ghost var cForward := CompactShown(a, ForwardVariant) == CompactShown(b, ForwardVariant);
    ghost var cBackward := CompactShown(a, BackwardVariant) == CompactShown(b, BackwardVariant);
    ghost var cNext := CompactShown(a, NextVariant) == CompactShown(b, NextVariant);
    ghost var cPrevious := CompactShown(a, PreviousVariant) == CompactShown(b, PreviousVariant);
  }

  /** `hideAllButtonsByDefault`: every visibility flag off, compact flags as they were. */
  function HideAll(f: ButtonFlags): (r: ButtonFlags)
    ensures forall v :: !Shown(r, v)
    ensures forall v | HasCompactFlag(v) :: CompactShown(r, v) == CompactShown(f, v)
  {
    f.(playPause := false, forward := false, rewind := false,
       next := false, previous := false, stop := false)
  }

  /** One pass of the second loop of `createNotification`: a null entry changes
      nothing; a button turns its variant's visibility flag on and, for the four
      skip/seek variants, copies its `isCompact` into the compact flag. */
  function Step(f: ButtonFlags, b: Option<NotificationButton>): (r: ButtonFlags)
    ensures forall v :: Shown(r, v) == (Shown(f, v) || (b.Some? && VariantOf(b.value) == v))
    ensures forall v | HasCompactFlag(v) ::
      CompactShown(r, v) == (if b.Some? && VariantOf(b.value) == v then b.value.isCompact else CompactShown(f, v))
  {
    if b.None? then f
    else
      match b.value
      case PlayPause(_, _) => f.(playPause := true)
      case Stop(_) => f.(stop := true)
      case Forward(_, c) => f.(forward := true, forwardCompact := c)
      case Backward(_, c) => f.(rewind := true, rewindCompact := c)
      case Next(_, c) => f.(next := true, nextCompact := c)
      case Previous(_, c) => f.(previous := true, previousCompact := c)
  }

  /** The whole second loop, run over bs in iteration order from flags f. */
  function ShowAll(f: ButtonFlags, bs: seq<Option<NotificationButton>>): ButtonFlags
    decreases |bs|
  {
    if bs == [] then f else Step(ShowAll(f, bs[..|bs| - 1]), bs[|bs| - 1])
  }

  /** The compact flag after the loop: the last `isCompact` of the variant, or,
      when no button of the variant is present, the flag's value before. */
  function CompactAfter(f: ButtonFlags, bs: seq<Option<NotificationButton>>, v: Variant): bool
    requires HasCompactFlag(v)
  {
    match LastCompact(bs, v)
    case Some(c) => c
    case None => CompactShown(f, v)
  }

  /** The loop turns on exactly the visibility flags of the variants present
      (null entries are skipped) and leaves each compact flag at the last
      `isCompact` of its variant, or untouched. */
  lemma {:induction false} ShowAllEffect(f: ButtonFlags, bs: seq<Option<NotificationButton>>, v: Variant)
    decreases |bs|
    ensures Shown(ShowAll(f, bs), v) == (Shown(f, v) || HasVariant(bs, v))
    ensures HasCompactFlag(v) ==> CompactShown(ShowAll(f, bs), v) == CompactAfter(f, bs, v)
  {
    if bs != [] {
      ShowAllEffect(f, bs[..|bs| - 1], v);
      HasVariantSnoc(bs, v);
    }
  }

  /** The flags after `createNotification`, from the flags before it. */
  function CreateFlags(f: ButtonFlags, bs: seq<Option<NotificationButton>>): ButtonFlags {
    ShowAll(HideAll(f), bs)
  }

  /** The visibility flags of g are on for exactly the variants present in bs. */
  ghost predicate ShowsExactly(g: ButtonFlags, bs: seq<Option<NotificationButton>>) {
    forall v :: Shown(g, v) <==> HasVariant(bs, v)
  }

  /** Each compact flag of g is the last `isCompact` of its variant in bs, or
      its value in f when bs holds no button of that variant. */
  ghost predicate CompactsFrom(f: ButtonFlags, g: ButtonFlags, bs: seq<Option<NotificationButton>>) {
    forall v | HasCompactFlag(v) :: CompactShown(g, v) == CompactAfter(f, bs, v)
  }

  /** Whether the flags show exactly the configured variants depends only on
      which buttons are configured. */
  lemma ShowsExactlySameElements(g: ButtonFlags, a: seq<Option<NotificationButton>>, b: seq<Option<NotificationButton>>)
    requires OrderedSet.SameElements(a, b)
    ensures ShowsExactly(g, a) <==> ShowsExactly(g, b)
  {
    forall v {
      HasVariantSameElements(a, b, v);
    }
  }

  /** After `createNotification` a visibility flag is on if and only if a
      button of its variant is present; a compact flag holds the last
      `isCompact` of its variant, or its earlier value when the variant is absent. */
  lemma CreateFlagsEffect(f: ButtonFlags, bs: seq<Option<NotificationButton>>)
    ensures ShowsExactly(CreateFlags(f, bs), bs)
    ensures CompactsFrom(f, CreateFlags(f, bs), bs)
  {
    forall v {
      ShowAllEffect(HideAll(f), bs, v);
    }
  }

  /** Every two non-null buttons of one variant in bs are the same button:
      the configuration names each variant at most once, repeats aside. */
  ghost predicate OneButtonPerVariant(bs: seq<Option<NotificationButton>>) {
    forall i, j ::
      (0 <= i < |bs| && 0 <= j < |bs| && bs[i].Some? && bs[j].Some? &&
       VariantOf(bs[i].value) == VariantOf(bs[j].value)) ==> bs[i] == bs[j]
  }

  /** With one button per variant the last `isCompact` of a variant does not
      depend on the order or multiplicity of the list. */
  lemma LastCompactSameElements(a: seq<Option<NotificationButton>>, b: seq<Option<NotificationButton>>, v: Variant)
    requires HasCompactFlag(v)
    requires OrderedSet.SameElements(a, b) && OneButtonPerVariant(b)
    ensures LastCompact(a, v) == LastCompact(b, v)
  {
    LastCompactIsLast(a, v);
    LastCompactIsLast(b, v);
    HasVariantSameElements(a, b, v);
    if LastCompact(b, v).Some? {
      var ka :| IsVariantAt(a, ka, v) && CompactOf(a[ka].value) == LastCompact(a, v) &&
        forall j :: ka < j < |a| ==> !IsVariantAt(a, j, v);
      var kb :| IsVariantAt(b, kb, v) && CompactOf(b[kb].value) == LastCompact(b, v) &&
        forall j :: kb < j < |b| ==> !IsVariantAt(b, j, v);
      assert a[ka] in b;
      var j :| 0 <= j < |b| && b[j] == a[ka];
      assert b[j] == b[kb];
    }
  }

  /** The compact flags read the same over a registered set and a configured
      list with one button per variant. */
  lemma CompactsFromSameElements(f: ButtonFlags, g: ButtonFlags,
                                 a: seq<Option<NotificationButton>>, b: seq<Option<NotificationButton>>)
    requires CompactsFrom(f, g, a)
    requires OrderedSet.SameElements(a, b) && OneButtonPerVariant(b)
    ensures CompactsFrom(f, g, b)
  {
    forall v | HasCompactFlag(v) ensures CompactShown(g, v) == CompactAfter(f, b, v) {
      LastCompactSameElements(a, b, v);
    }
  }

  /** Three FORWARD entries, compact, not compact, compact again. */
  const RepeatedForward: seq<Option<NotificationButton>> :=
    [Some(Forward(None, true)), Some(Forward(None, false)), Some(Forward(None, true))]

  /** The registered set keeps each distinct button at its first occurrence. */
  lemma RepeatedForwardRegistered()
    ensures OrderedSet.AddAll([], RepeatedForward) == RepeatedForward[..2]
  {
    var xs := RepeatedForward;
    assert xs[..1][..0] == [];
    assert OrderedSet.AddAll([], xs[..1]) == [xs[0]];
    assert xs[..2][..1] == xs[..1];
    assert OrderedSet.AddAll([], xs[..2]) == xs[..2];
    assert xs[..3] == xs;
  }

  /** A repeated variant counts in the set's order, so the last `isCompact` of
      the configured list need not be the one that wins. */
  lemma RepeatedVariantInSetOrder()
    ensures LastCompact(OrderedSet.AddAll([], RepeatedForward), ForwardVariant) == Some(false)
    ensures LastCompact(RepeatedForward, ForwardVariant) == Some(true)
  {
    var xs := RepeatedForward;
    RepeatedForwardRegistered();
    assert xs[..2][..1] == [xs[0]] && [xs[0]][..0] == [];
    assert xs[..2] == [xs[0], xs[1]];
  }

  /** Applying the same button list a second time changes no flag. */
  lemma CreateFlagsIdempotent(f: ButtonFlags, bs: seq<Option<NotificationButton>>)
    ensures CreateFlags(CreateFlags(f, bs), bs) == CreateFlags(f, bs)
  {
    var once := CreateFlags(f, bs);
    var twice := CreateFlags(once, bs);
    CreateFlagsEffect(f, bs);
    CreateFlagsEffect(once, bs);
    forall v | HasCompactFlag(v) ensures CompactShown(twice, v) == CompactShown(once, v) {
      LastCompactIsLast(bs, v);
    }
    FlagsExtensional(twice, once);
  }
}
