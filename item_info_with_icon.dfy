/**
 * The icon part of an item record and its run-time status word: the
 * disabled reasons, the system-app flags and the badge flag, and the test
 * whether an item is disabled.
 */
module ItemInfoWithIcon {

  /** Java's 32-bit `int` as a bit word. */
  type Flags = bv32

  const FLAG_DISABLED_SAFEMODE: Flags := 1
  const FLAG_DISABLED_NOT_AVAILABLE: Flags := 1 << 1
  const FLAG_DISABLED_SUSPENDED: Flags := 1 << 2
  const FLAG_DISABLED_QUIET_USER: Flags := 1 << 3
  const FLAG_DISABLED_BY_PUBLISHER: Flags := 1 << 4
  const FLAG_DISABLED_LOCKED_USER: Flags := 1 << 5
  const FLAG_DISABLED_BY_SESAME: Flags := 1 << 10

  /** Every reason an icon can be disabled. */
  const FLAG_DISABLED_MASK: Flags :=
    FLAG_DISABLED_SAFEMODE | FLAG_DISABLED_NOT_AVAILABLE | FLAG_DISABLED_SUSPENDED
    | FLAG_DISABLED_QUIET_USER | FLAG_DISABLED_BY_PUBLISHER | FLAG_DISABLED_LOCKED_USER
    | FLAG_DISABLED_BY_SESAME

  const FLAG_SYSTEM_YES: Flags := 1 << 6
  const FLAG_SYSTEM_NO: Flags := 1 << 7
  const FLAG_SYSTEM_MASK: Flags := FLAG_SYSTEM_YES | FLAG_SYSTEM_NO
  const FLAG_ICON_BADGED: Flags := 1 << 9

  /** The fields the icon record adds: bitmap (an opaque reference), colour, low-res flag, status word. */
  datatype IconFields = IconFields(iconBitmap: int, iconColor: int, usingLowResIcon: bool, runtimeStatusFlags: Flags)

  /** Some disabled reason is set in the status word. */
  predicate AnyReason(f: Flags)
  {
    f & FLAG_DISABLED_SAFEMODE != 0 || f & FLAG_DISABLED_NOT_AVAILABLE != 0
    || f & FLAG_DISABLED_SUSPENDED != 0 || f & FLAG_DISABLED_QUIET_USER != 0
    || f & FLAG_DISABLED_BY_PUBLISHER != 0 || f & FLAG_DISABLED_LOCKED_USER != 0
    || f & FLAG_DISABLED_BY_SESAME != 0
  }

  /** `isDisabled`: the status word shares a bit with the disabled mask, i.e. some reason is set. */
  function IsDisabled(info: IconFields): (r: bool)
    ensures r <==> AnyReason(info.runtimeStatusFlags)
  {
    info.runtimeStatusFlags & FLAG_DISABLED_MASK != 0
  }

  /** The disabled mask is bits 0 to 5 and bit 10, disjoint from the system and badge flags. */
  lemma DisabledMaskLayout()
    ensures FLAG_DISABLED_MASK == 0x43F
    ensures FLAG_DISABLED_MASK & (FLAG_SYSTEM_MASK | FLAG_ICON_BADGED) == 0
  {
  }

  /** The system and badge flags lie outside the disabled mask: setting them never disables an item. */
  lemma SystemAndBadgeFlagsNeverDisable(info: IconFields, extra: Flags)
    requires extra & !(FLAG_SYSTEM_MASK | FLAG_ICON_BADGED) == 0
    ensures IsDisabled(info.(runtimeStatusFlags := info.runtimeStatusFlags | extra)) == IsDisabled(info)
  {
    var f := info.runtimeStatusFlags;
    assert (f | extra) & FLAG_DISABLED_MASK == f & FLAG_DISABLED_MASK;
  }

  /** The copy constructor's icon part: bitmap, colour, low-res flag and status word copied. */
  function CopyIconFields(info: IconFields): (r: IconFields)
    ensures r == info
  {
    IconFields(info.iconBitmap, info.iconColor, info.usingLowResIcon, info.runtimeStatusFlags)
  }

  /** A copy is disabled exactly when the original is. */
  lemma CopyKeepsDisabled(info: IconFields)
    ensures IsDisabled(CopyIconFields(info)) == IsDisabled(info)
  {
  }

  /** The protected no-argument constructor: no flags set, so not disabled. */
  function NewIconFields(): (r: IconFields)
    ensures r.runtimeStatusFlags == 0 && !IsDisabled(r)
  {
    IconFields(0, 0, false, 0)
  }
}
