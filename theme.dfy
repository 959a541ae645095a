/** The theme state of src/contexts/ThemeContext.tsx: the `themeMode` cell, its initial
    value read from `localStorage`, the `toggleTheme` successor, `isDarkMode`, and the effect
    that writes every new value back under the `themeMode` key. The value is a string: it
    comes from storage through a type cast, so it need not be one of the three themes. */
module ThemeContext {
  import opened Wrappers

  const Light: string := "light"
  const Dark: string := "dark"
  const Purple: string := "purple"

  /** The `localStorage` key the theme is kept under. */
  const StorageKey: string := "themeMode"

  predicate IsTheme(mode: string) {
    mode == Light || mode == Dark || mode == Purple
  }

  /** The `useState` initialiser: the saved string when it is truthy; `getItem` answers
      `null` (here `None`) for a missing key, and `""` is falsy, so both give light. */
  function InitialTheme(saved: Option<string>): (r: string)
    ensures saved.Some? && saved.value != "" ==> r == saved.value
    ensures saved.None? || saved.value == "" ==> r == Light
    ensures r != ""
  {
    if saved.Some? && saved.value != "" then saved.value else Light
  }

  /** The function passed to `setThemeMode` by `toggleTheme`. */
  function NextTheme(prev: string): (r: string)
    ensures IsTheme(r)
    ensures r == Dark <==> prev == Light
    ensures r == Purple <==> prev == Dark
    ensures r == Light <==> prev != Light && prev != Dark
  {
    if prev == Light then Dark
    else if prev == Dark then Purple
    else Light
  }

  /** `isDarkMode`. */
  predicate IsDarkMode(mode: string) {
    mode == Dark || mode == Purple
  }

  /** Three toggles from any of the three themes come back to it. */
  lemma ThreeTogglesReturn(mode: string)
    requires IsTheme(mode)
    ensures NextTheme(NextTheme(NextTheme(mode))) == mode
    ensures NextTheme(mode) != mode && NextTheme(NextTheme(mode)) != mode
  {
  }

  /** A saved value that is not one of the themes is kept at start-up, and the first toggle
      turns it into light. */
  lemma UnrecognisedSavedThemeTogglesToLight(saved: string)
    requires saved != "" && !IsTheme(saved)
    ensures InitialTheme(Some(saved)) == saved && !IsDarkMode(saved)
    ensures NextTheme(InitialTheme(Some(saved))) == Light
  {
  }

  /** A toggle leads to a dark mode exactly from light and from dark. */
  lemma ToggleDarkness(mode: string)
    ensures IsDarkMode(NextTheme(mode)) <==> mode == Light || mode == Dark
  {
  }

  class ThemeProvider {
    var themeMode: string
    var storage: map<string, string>

    /** The persistence effect has run for the current value. */
    predicate Persisted()
      reads this
    {
      StorageKey in storage && storage[StorageKey] == themeMode
    }

    /** Mounting the provider: the initialiser reads the saved value, then the effect
        writes the chosen value back (light when nothing usable was saved). */
    constructor (storage0: map<string, string>)
      ensures themeMode == InitialTheme(if StorageKey in storage0 then Some(storage0[StorageKey]) else None)
      ensures storage == storage0[StorageKey := themeMode]
      ensures Persisted()
    {
      var initial := InitialTheme(if StorageKey in storage0 then Some(storage0[StorageKey]) else None);
      themeMode := initial;
      storage := storage0[StorageKey := initial];
    }

    /** `toggleTheme`, followed by the persistence effect. */
    method ToggleTheme()
      requires Persisted()
      modifies this
      ensures themeMode == NextTheme(old(themeMode))
      ensures storage == old(storage)[StorageKey := themeMode]
      ensures Persisted()
    {
      themeMode := NextTheme(themeMode);
      storage := storage[StorageKey := themeMode];
    }

    /** `setThemeMode`, followed by the persistence effect; the effect does not run again
        when the value is unchanged, which leaves the same storage. */
    method SetThemeMode(mode: string)
      requires Persisted()
      modifies this
      ensures themeMode == mode
      ensures storage == old(storage)[StorageKey := mode]
      ensures Persisted()
    {
      if mode != themeMode {
        themeMode := mode;
        storage := storage[StorageKey := themeMode];
      }
    }
  }
}
