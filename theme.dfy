/** The theme store: one persisted preference, the `data-theme` attribute it applies
    and the toggle button's glyph. */
module Theme {

  datatype Option<T> = None | Some(value: T)

  const Light: string := "light"
  const Dark: string := "dark"

  /** The toggle button's glyph: a moon offers the way back to dark, a sun the way
      to light. */
  datatype Icon = Moon | Sun

  /** The theme applied at start-up from the stored value. A missing value and an
      empty string are both falsy in `stored || "dark"`, so both fall back to dark. */
  function SavedOrDefault(stored: Option<string>): (t: string)
    ensures stored.Some? && stored.value != "" ==> t == stored.value
    ensures stored == None || stored == Some("") ==> t == Dark
    ensures t != ""
  {
    match stored
    case Some(v) => if v == "" then Dark else v
    case None => Dark
  }

  /** The theme the toggle switches to from the applied one. */
  function Toggled(current: string): (t: string)
    ensures t == Light || t == Dark
    ensures t == Light <==> current != Light
  {
    if current == Light then Dark else Light
  }

  /** The glyph shown for an applied theme. */
  function IconFor(theme: string): (icon: Icon)
    ensures icon == Moon <==> theme == Light
  {
    if theme == Light then Moon else Sun
  }

  /** Toggling twice restores light or dark; any other applied value (a stored
      string that is neither) becomes dark. */
  lemma ToggleTwice(t: string)
    ensures Toggled(Toggled(t)) == (if t == Light then Light else Dark)
    ensures t == Light || t == Dark ==> Toggled(Toggled(t)) == t
  {
  }
}
