/**
 * The launcher's states (normal, spring-loaded, overview, fast overview,
 * all apps, options): the flag word a state is built from, the properties
 * decoded from it, and the static registry every constructed state joins.
 */
module LauncherState {
  import opened Common

  type Flags = bv32

  const FLAG_MULTI_PAGE: Flags := 1
  const FLAG_DISABLE_ACCESSIBILITY: Flags := 1 << 1
  const FLAG_DISABLE_RESTORE: Flags := 1 << 2
  const FLAG_WORKSPACE_ICONS_CAN_BE_DRAGGED: Flags := 1 << 3
  const FLAG_DISABLE_PAGE_CLIPPING: Flags := 1 << 4
  const FLAG_PAGE_BACKGROUNDS: Flags := 1 << 5
  const FLAG_DISABLE_INTERACTION: Flags := 1 << 6
  const FLAG_OVERVIEW_UI: Flags := 1 << 7
  const FLAG_HIDE_BACK_BUTTON: Flags := 1 << 8
  const FLAG_HAS_SYS_UI_SCRIM: Flags := 1 << 9

  /** The ten flags a state can be built with. */
  const KNOWN_FLAGS: Flags := 0x3FF

  /** Android's `View.IMPORTANT_FOR_ACCESSIBILITY_AUTO` and `..._NO_HIDE_DESCENDANTS`. */
  const IMPORTANT_FOR_ACCESSIBILITY_AUTO: int := 0
  const IMPORTANT_FOR_ACCESSIBILITY_NO_HIDE_DESCENDANTS: int := 4

  /** The number of states, the size of the registry. */
  const STATE_COUNT: nat := 6

  /** A constructed state: its final fields. */
  datatype State = State(
    ordinal: int,
    containerType: int,
    transitionDuration: int,
    hasWorkspacePageBackground: bool,
    hasMultipleVisiblePages: bool,
    workspaceAccessibilityFlag: int,
    disableRestore: bool,
    workspaceIconsCanBeDragged: bool,
    disablePageClipping: bool,
    disableInteraction: bool,
    overviewUi: bool,
    hideBackButton: bool,
    hasSysUiScrim: bool)

  predicate Has(flags: Flags, flag: Flags)
  {
    flags & flag != 0
  }

  /** The field assignments of the constructor: each boolean is the test of its flag bit. */
  function Decode(id: int, containerType: int, transitionDuration: int, flags: Flags): (s: State)
    ensures s.ordinal == id && s.containerType == containerType && s.transitionDuration == transitionDuration
    ensures s.workspaceAccessibilityFlag ==
      (if Has(flags, FLAG_DISABLE_ACCESSIBILITY) then IMPORTANT_FOR_ACCESSIBILITY_NO_HIDE_DESCENDANTS
       else IMPORTANT_FOR_ACCESSIBILITY_AUTO)
  {
    State(
      id, containerType, transitionDuration,
      Has(flags, FLAG_PAGE_BACKGROUNDS),
      Has(flags, FLAG_MULTI_PAGE),
      if Has(flags, FLAG_DISABLE_ACCESSIBILITY) then IMPORTANT_FOR_ACCESSIBILITY_NO_HIDE_DESCENDANTS
      else IMPORTANT_FOR_ACCESSIBILITY_AUTO,
      Has(flags, FLAG_DISABLE_RESTORE),
      Has(flags, FLAG_WORKSPACE_ICONS_CAN_BE_DRAGGED),
      Has(flags, FLAG_DISABLE_PAGE_CLIPPING),
      Has(flags, FLAG_DISABLE_INTERACTION),
      Has(flags, FLAG_OVERVIEW_UI),
      Has(flags, FLAG_HIDE_BACK_BUTTON),
      Has(flags, FLAG_HAS_SYS_UI_SCRIM))
  }

  function Bit(b: bool, flag: Flags): Flags
  {
    if b then flag else 0
  }

  /** The flag word a state's fields stand for: the reference the decoding is checked against. */
  function Encode(s: State): Flags
  {
    Bit(s.hasMultipleVisiblePages, FLAG_MULTI_PAGE)
    | Bit(s.workspaceAccessibilityFlag == IMPORTANT_FOR_ACCESSIBILITY_NO_HIDE_DESCENDANTS, FLAG_DISABLE_ACCESSIBILITY)
    | Bit(s.disableRestore, FLAG_DISABLE_RESTORE)
    | Bit(s.workspaceIconsCanBeDragged, FLAG_WORKSPACE_ICONS_CAN_BE_DRAGGED)
    | Bit(s.disablePageClipping, FLAG_DISABLE_PAGE_CLIPPING)
    | Bit(s.hasWorkspacePageBackground, FLAG_PAGE_BACKGROUNDS)
    | Bit(s.disableInteraction, FLAG_DISABLE_INTERACTION)
    | Bit(s.overviewUi, FLAG_OVERVIEW_UI)
    | Bit(s.hideBackButton, FLAG_HIDE_BACK_BUTTON)
    | Bit(s.hasSysUiScrim, FLAG_HAS_SYS_UI_SCRIM)
  }

  /** For a one-bit flag, testing the bit and setting it again gives back the bit. */
  lemma BitOfTest(f: Flags, flag: Flags)
    requires flag == 1 || flag == 2 || flag == 4 || flag == 8 || flag == 16
      || flag == 32 || flag == 64 || flag == 128 || flag == 256 || flag == 512
    ensures Bit(Has(f, flag), flag) == f & flag
  {
  }

  /** The ten one-bit parts of a word together are its known flags. */
  lemma KnownFlagsSplit(f: Flags)
    ensures (f & 1) | (f & 2) | (f & 4) | (f & 8) | (f & 16) | (f & 32) | (f & 64) | (f & 128) | (f & 256) | (f & 512)
      == f & KNOWN_FLAGS
  {
  }

  /** Decoding loses exactly the bits outside the ten flags: the fields determine the known flags. */
  lemma DecodeEncode(id: int, containerType: int, transitionDuration: int, flags: Flags)
    ensures Encode(Decode(id, containerType, transitionDuration, flags)) == flags & KNOWN_FLAGS
  {
    var f := flags;
    BitOfTest(f, 1); BitOfTest(f, 2); BitOfTest(f, 4); BitOfTest(f, 8); BitOfTest(f, 16);
    BitOfTest(f, 32); BitOfTest(f, 64); BitOfTest(f, 128); BitOfTest(f, 256); BitOfTest(f, 512);
    KnownFlagsSplit(f);
  }

  /** Two flag words build states with the same fields exactly when they agree on the ten flags. */
  lemma DecodeInjective(id: int, containerType: int, transitionDuration: int, f1: Flags, f2: Flags)
    ensures Decode(id, containerType, transitionDuration, f1) == Decode(id, containerType, transitionDuration, f2)
      <==> f1 & KNOWN_FLAGS == f2 & KNOWN_FLAGS
  {
    DecodeEncode(id, containerType, transitionDuration, f1);
    DecodeEncode(id, containerType, transitionDuration, f2);
    if f1 & KNOWN_FLAGS == f2 & KNOWN_FLAGS {
      assert f1 & 1 == f2 & 1 && f1 & 2 == f2 & 2 && f1 & 4 == f2 & 4 && f1 & 8 == f2 & 8;
      assert f1 & 16 == f2 & 16 && f1 & 32 == f2 & 32 && f1 & 64 == f2 & 64;
      assert f1 & 128 == f2 & 128 && f1 & 256 == f2 & 256 && f1 & 512 == f2 & 512;
    }
  }

  /** The flags NORMAL is built with. */
  const NORMAL_FLAGS: Flags :=
    FLAG_DISABLE_RESTORE | FLAG_WORKSPACE_ICONS_CAN_BE_DRAGGED | FLAG_HIDE_BACK_BUTTON | FLAG_HAS_SYS_UI_SCRIM

  /**
   * NORMAL: id 0, no transition duration; it can be restored from, drags
   * icons, hides the back button and has the system scrim, and nothing else.
   */
  function Normal(workspaceContainerType: int): (s: State)
    ensures s.ordinal == 0 && s.transitionDuration == 0
    ensures s.disableRestore && s.workspaceIconsCanBeDragged && s.hideBackButton && s.hasSysUiScrim
    ensures !s.hasMultipleVisiblePages && !s.hasWorkspacePageBackground && !s.disablePageClipping
    ensures !s.disableInteraction && !s.overviewUi
    ensures s.workspaceAccessibilityFlag == IMPORTANT_FOR_ACCESSIBILITY_AUTO
  {
    Decode(0, workspaceContainerType, 0, NORMAL_FLAGS)
  }

  /** `getHistoryForState`: no history is kept, every state goes back to NORMAL. */
  function HistoryForState(previous: State, workspaceContainerType: int): (s: State)
    ensures s == Normal(workspaceContainerType) && s.ordinal == 0
  {
    Normal(workspaceContainerType)
  }

  /** The static `sAllStates` array. */
  class Registry {
    const slots: array<Option<State>>

    ghost predicate Valid()
      reads this
    {
      slots.Length == STATE_COUNT
    }

    constructor ()
      ensures Valid() && fresh(slots)
      ensures forall i :: 0 <= i < slots.Length ==> slots[i].None?
    {
      slots := new Option<State>[STATE_COUNT](_ => None);
    }

    /**
     * The `LauncherState` constructor: the fields are decoded, then the
     * state is stored at its id; an id outside the array throws after the
     * fields are set, and nothing is stored.
     */
    method Construct(id: int, containerType: int, transitionDuration: int, flags: Flags) returns (r: Result<State>)
      requires Valid()
      modifies slots
      ensures Valid()
      ensures r.Failure? <==> !(0 <= id < STATE_COUNT)
      ensures r.Ok? ==> r.value == Decode(id, containerType, transitionDuration, flags)
      ensures r.Ok? ==> slots[..] == old(slots[..])[id := Some(r.value)]
      ensures r.Failure? ==> slots[..] == old(slots[..])
    {
      var s := Decode(id, containerType, transitionDuration, flags);
      if !(0 <= id < slots.Length) {
        return Failure("ArrayIndexOutOfBoundsException");
      }
      slots[id] := Some(s);
      return Ok(s);
    }

    /** `values`: a fresh copy of the registry, so changing it leaves the registry alone. */
    method Values() returns (copy: array<Option<State>>)
      requires Valid()
      ensures fresh(copy) && copy != slots
      ensures copy[..] == slots[..]
    {
      copy := new Option<State>[slots.Length](i requires 0 <= i < slots.Length reads slots => slots[i]);
    }
  }

  /** Building the six built-in states with ids 0 .. 5 fills every slot with the state of that ordinal. */
  method RegisterBuiltIns(reg: Registry, containerTypes: seq<int>, durations: seq<int>, flags: seq<Flags>)
    requires reg.Valid() && |containerTypes| == STATE_COUNT && |durations| == STATE_COUNT && |flags| == STATE_COUNT
    modifies reg.slots
    ensures reg.Valid()
    ensures forall i :: 0 <= i < STATE_COUNT ==>
      reg.slots[i] == Some(Decode(i, containerTypes[i], durations[i], flags[i]))
  {
    var id := 0;
    while id < STATE_COUNT
      invariant 0 <= id <= STATE_COUNT && reg.Valid()
      invariant forall i :: 0 <= i < id ==> reg.slots[i] == Some(Decode(i, containerTypes[i], durations[i], flags[i]))
    {
      var r := reg.Construct(id, containerTypes[id], durations[id], flags[id]);
      id := id + 1;
    }
  }
}
