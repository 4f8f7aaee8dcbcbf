/** The reading view's font-size control: a size that starts at 16 and moves in steps of 2,
    clamped to the range 12..24, with a reset back to 16. */
module TopicContent {

  const DefaultFontSize: int := 16
  const MinFontSize: int := 12
  const MaxFontSize: int := 24
  const FontStep: int := 2

  /** `Math.min(prev + 2, 24)`. */
  function Increased(size: int): int {
    if size + FontStep < MaxFontSize then size + FontStep else MaxFontSize
  }

  /** `Math.max(prev - 2, 12)`. */
  function Decreased(size: int): int {
    if size - FontStep > MinFontSize then size - FontStep else MinFontSize
  }

  datatype FontAction = Increase | Decrease | Reset

  function Apply(size: int, action: FontAction): int {
    match action
    case Increase => Increased(size)
    case Decrease => Decreased(size)
    case Reset => DefaultFontSize
  }

  /** The size after pressing the buttons in order. */
  function Run(size: int, actions: seq<FontAction>): int
    decreases |actions|
  {
    if actions == [] then size else Run(Apply(size, actions[0]), actions[1..])
  }

  /** A size the buttons can show: even and within 12..24. */
  predicate ValidSize(size: int) {
    MinFontSize <= size <= MaxFontSize && size % 2 == 0
  }

  /** Each button keeps a valid size valid; increase stops at 24 and decrease at 12. */
  lemma ApplyKeepsValid(size: int, action: FontAction)
    requires ValidSize(size)
    ensures ValidSize(Apply(size, action))
    ensures action == Increase ==> Apply(size, action) == (if size == MaxFontSize then size else size + 2)
    ensures action == Decrease ==> Apply(size, action) == (if size == MinFontSize then size else size - 2)
  {
  }

  /** Any sequence of presses from a valid size, in particular from the initial 16, stays even and
      within 12..24. */
  lemma {:induction false} RunKeepsValid(size: int, actions: seq<FontAction>)
    requires ValidSize(size)
    ensures ValidSize(Run(size, actions))
    decreases |actions|
  {
    if actions != [] {
      ApplyKeepsValid(size, actions[0]);
      RunKeepsValid(Apply(size, actions[0]), actions[1..]);
    }
  }

  /** Below the top, a decrease undoes an increase; above the bottom, an increase undoes a decrease. */
  lemma StepsUndo(size: int)
    requires ValidSize(size)
    ensures size < MaxFontSize ==> Decreased(Increased(size)) == size
    ensures size > MinFontSize ==> Increased(Decreased(size)) == size
  {
  }

  /** The `fontSize` state of the reading view. */
  class FontSizeControl {
    var fontSize: int

    constructor ()
      ensures fontSize == DefaultFontSize
    {
      fontSize := DefaultFontSize;
    }

    method IncreaseFontSize()
      modifies this
      ensures fontSize == Increased(old(fontSize))
    {
      fontSize := if fontSize + 2 < 24 then fontSize + 2 else 24;
    }

    method DecreaseFontSize()
      modifies this
      ensures fontSize == Decreased(old(fontSize))
    {
      fontSize := if fontSize - 2 > 12 then fontSize - 2 else 12;
    }

    method ResetFontSize()
      modifies this
      ensures fontSize == DefaultFontSize
    {
      fontSize := 16;
    }
  }
}
