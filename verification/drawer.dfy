/** `drawer.py`: the closed set of drawing modes, their string values, and
    the registry that hands out the drawer for a mode. A drawer is
    identified here by which implementation it is; constructing one has no
    observable effect. */
module Drawer {
  import opened Outcomes

  /** The three members of the `Mode` enumeration. The last one is spelled
      `HALD_BLOCK` in the code. */
  datatype Mode = Braille | Iterm2InlineImage | HaldBlock

  /** The value string each member carries. */
  function Value(m: Mode): (v: string)
    ensures FromValue(v) == Some(m)
  {
    match m
    case Braille => "braille"
    case Iterm2InlineImage => "iterm2_inline_image"
    case HaldBlock => "half_block"
  }

  /** `Mode(value)`: the member carrying `s`, if any. */
  function FromValue(s: string): Option<Mode> {
    if s == "braille" then Some(Braille)
    else if s == "iterm2_inline_image" then Some(Iterm2InlineImage)
    else if s == "half_block" then Some(HaldBlock)
    else None
  }

  /** A string that names a member is that member's value. */
  lemma ValueOfFromValue(s: string)
    requires FromValue(s).Some?
    ensures Value(FromValue(s).value) == s
  {
  }

  /** `Mode.__str__` prints the member's value. */
  function ToString(m: Mode): (s: string)
    ensures FromValue(s) == Some(m)
    ensures s == Value(m)
  {
    Value(m)
  }

  /** No two members share a value. */
  lemma ValueInjective(a: Mode, b: Mode)
    requires Value(a) == Value(b)
    ensures a == b
  {
    assert FromValue(Value(a)) == Some(a);
  }

  /** Exactly three strings name a member. */
  lemma ExactlyThreeValues(s: string)
    ensures FromValue(s).Some? <==> s == "braille" || s == "iterm2_inline_image" || s == "half_block"
  {
  }

  /** The implementations the registry can return. */
  datatype DrawerKind = BrailleDrawer | Iterm2InlineImageDrawer | BlockDrawer

  /** The mode each implementation serves. */
  function ModeOf(k: DrawerKind): Mode {
    match k
    case BrailleDrawer => Braille
    case Iterm2InlineImageDrawer => Iterm2InlineImage
    case BlockDrawer => HaldBlock
  }

  /** What `get_drawer` can be called with: no argument, a member of the
      enumeration, or any other value (a plain string such as `'braille'`
      included, since it never compares equal to a member). */
  datatype ModeArg = Omitted | Given(mode: Mode) | NotAMode

  const UnsupportedMode := "Given not supported mode."

  /** The registry as evidently intended: every member has its drawer. */
  function GetDrawer(arg: ModeArg): (r: Result<DrawerKind>)
    ensures arg.Omitted? ==> r == Ok(BrailleDrawer)
    ensures arg.Given? ==> r.Ok? && ModeOf(r.value) == arg.mode
    ensures arg.NotAMode? ==> r == Err(ValueError(UnsupportedMode))
  {
    match arg
    case Omitted => Ok(BrailleDrawer)
    case Given(m) =>
      (match m
       case Braille => Ok(BrailleDrawer)
       case Iterm2InlineImage => Ok(Iterm2InlineImageDrawer)
       case HaldBlock => Ok(BlockDrawer))
    case NotAMode => Err(ValueError(UnsupportedMode))
  }

  /** The registry never confuses two modes: distinct members get distinct
      drawers, and the drawer's own mode is the one asked for. */
  lemma GetDrawerInjective(a: Mode, b: Mode)
    requires GetDrawer(Given(a)) == GetDrawer(Given(b))
    ensures a == b
  {
    assert ModeOf(GetDrawer(Given(a)).value) == a;
  }

  /** Asking for a drawer's own mode returns that drawer. */
  lemma GetDrawerOfModeOf(k: DrawerKind)
    ensures GetDrawer(Given(ModeOf(k))) == Ok(k)
  {
  }

  const MissingBrailleDrawer := "cannot import name 'BrailleDrawer' from 'teimpy.impl.braille'"

  /** The registry as written: the braille branch imports `BrailleDrawer`,
      which the braille module does not define (it offers only a module
      level `draw`), so that branch, and the default, fail on import. */
  function GetDrawerAsWritten(arg: ModeArg): (r: Result<DrawerKind>)
    ensures r.Err? <==> arg.Omitted? || arg == Given(Braille) || arg.NotAMode?
    ensures (arg.Omitted? || arg == Given(Braille)) ==> r == Err(ImportError(MissingBrailleDrawer))
  {
    match arg
    case Omitted => Err(ImportError(MissingBrailleDrawer))
    case Given(m) =>
      (match m
       case Braille => Err(ImportError(MissingBrailleDrawer))
       case Iterm2InlineImage => Ok(Iterm2InlineImageDrawer)
       case HaldBlock => Ok(BlockDrawer))
    case NotAMode => Err(ValueError(UnsupportedMode))
  }

  /** The two registries differ exactly on the braille mode, the default. */
  lemma AsWrittenDiffersOnBraille(arg: ModeArg)
    ensures GetDrawerAsWritten(arg) != GetDrawer(arg) <==> arg.Omitted? || arg == Given(Braille)
  {
  }
}
