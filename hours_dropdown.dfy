/**
  The collapsible opening-hours panel: a click on the toggle shows or hides
  the list and turns the toggle's icon; a click anywhere else on the page
  hides the list and turns the icon back.
 */
module HoursDropdown {

  const Block := "block"
  const NoneDisplay := "none"
  const Turned := "rotate(180deg)"
  const Upright := "rotate(0deg)"

  /** The list is shown exactly when its inline `display` is `block`; any
      other value, including the empty one it has before the first click,
      counts as hidden. */
  predicate Shown(display: string)
  {
    display == Block
  }

  /** The `display` a toggle click writes. */
  function Toggled(display: string): (r: string)
    ensures Shown(r) <==> !Shown(display)
    ensures r == Block || r == NoneDisplay
  {
    if display == Block then NoneDisplay else Block
  }

  /** The icon transform that goes with a visibility. */
  function IconFor(display: string): string
  {
    if display == Block then Turned else Upright
  }

  /** Two toggle clicks give back the original visibility, and the original
      `display` itself once it has been written by a click. */
  lemma {:induction false} ToggleTwice(display: string)
    ensures Shown(Toggled(Toggled(display))) == Shown(display)
    ensures display == Block || display == NoneDisplay ==> Toggled(Toggled(display)) == display
  {
  }

  /** The toggle `#hoursDropdownToggle`, its icon and the list `#hoursList`. */
  class Dropdown {
    /** `hoursList.style.display`. */
    var display: string
    /** Whether the toggle holds a `.toggle-icon` element. */
    const hasIcon: bool
    /** `toggleIcon.style.transform`, meaningful only when `hasIcon`. */
    var iconTransform: string

    /** The icon is turned half a turn exactly when the list is shown. */
    ghost predicate InLockstep()
      reads this
    {
      hasIcon ==> iconTransform == IconFor(display)
    }

    constructor (display: string, hasIcon: bool, iconTransform: string)
      ensures this.display == display && this.hasIcon == hasIcon
      ensures this.iconTransform == iconTransform
    {
      this.display := display;
      this.hasIcon := hasIcon;
      this.iconTransform := iconTransform;
    }

    /** Click on the toggle: flip the visibility and turn the icon with it.
        The click does not propagate to the document. */
    method ClickToggle()
      modifies this
      ensures display == Toggled(old(display))
      ensures Shown(display) <==> !Shown(old(display))
      ensures iconTransform == if hasIcon then IconFor(display)
                               else old(iconTransform)
      ensures InLockstep()
    {
      var isVisible := display == Block;
      display := if isVisible then NoneDisplay else Block;
      if hasIcon {
        iconTransform := if isVisible then Upright else Turned;
      }
    }

    /** A click that reaches the document: when its target lies outside both
        the toggle and the list, the list is hidden and the icon turned back;
        a click inside changes nothing. */
    method ClickDocument(outside: bool)
      modifies this
      ensures outside ==> display == NoneDisplay && !Shown(display)
      ensures outside && hasIcon ==> iconTransform == Upright
      ensures !hasIcon ==> iconTransform == old(iconTransform)
      ensures !outside ==> display == old(display) && iconTransform == old(iconTransform)
      ensures outside || old(InLockstep()) ==> InLockstep()
    {
      if outside {
        display := NoneDisplay;
        if hasIcon {
          iconTransform := Upright;
        }
      }
    }
  }
}
