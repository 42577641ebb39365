/**
 * The theme store: the current theme, mirrored on the document element's
 * `dark` class and persisted under `theme-storage`.
 */
module ThemeStore {
  import opened Wrappers
  import opened JsString
  import opened Browser

  const Light: string := "light"
  const Dark: string := "dark"
  /** The class the stylesheet keys dark mode on. */
  const DarkClass: string := "dark"
  /** The storage key the theme is persisted under; the JSON wrapping is not modelled. */
  const ThemeKey: string := "theme-storage"

  datatype ThemeState = ThemeState(theme: string)

  const InitialTheme: ThemeState := ThemeState(Light)

  /** A store update together with the environment it leaves behind. */
  datatype ThemeStep = ThemeStep(state: ThemeState, env: Env)

  /**
   * The three mirrors agree: with a window, the `dark` class is present
   * exactly for the dark theme and storage holds the theme.
   */
  predicate InSync(theme: string, env: Env) {
    env.hasWindow ==> (DarkClass in env.classes <==> theme == Dark) && GetItem(env.storage, ThemeKey) == Some(theme)
  }

  /** `"light"` becomes `"dark"`; every other value, `"dark"` included, becomes `"light"`. */
  function NextTheme(theme: string): (r: string)
    ensures r == Dark <==> theme == Light
    ensures r == Dark || r == Light
  {
    if theme == Light then Dark else Light
  }

  /** Adds or removes the `dark` class so it matches `theme`. */
  function ApplyClass(classes: set<string>, theme: string): (r: set<string>)
    ensures DarkClass in r <==> theme == Dark
    ensures SameClassesOutside(r, classes, DarkClass)
  {
    if theme == Dark then classes + {DarkClass} else classes - {DarkClass}
  }

  /**
   * The side effects shared by both setters when a window exists: sync the
   * class and write the theme to storage. Without a window nothing happens.
   */
  function Mirror(env: Env, theme: string): (r: Env)
    ensures InSync(theme, r)
    ensures r.hasWindow == env.hasWindow && r.location == env.location
    ensures SameClassesOutside(r.classes, env.classes, DarkClass)
    ensures SameOutside(r.storage, env.storage, {ThemeKey})
    ensures !env.hasWindow ==> r == env
  {
    if env.hasWindow then
      env.(classes := ApplyClass(env.classes, theme), storage := SetItem(env.storage, ThemeKey, theme))
    else env
  }

  /** `toggleTheme`: flips between light and dark and mirrors the new theme. */
  function ToggleTheme(s: ThemeState, env: Env): (r: ThemeStep)
    ensures r.state.theme == Dark <==> s.theme == Light
    ensures r.state.theme == Dark || r.state.theme == Light
    ensures InSync(r.state.theme, r.env)
    ensures SameClassesOutside(r.env.classes, env.classes, DarkClass)
    ensures SameOutside(r.env.storage, env.storage, {ThemeKey})
    ensures r.env.hasWindow == env.hasWindow && r.env.location == env.location
    ensures !env.hasWindow ==> r.env == env
  {
    var theme := NextTheme(s.theme);
    ThemeStep(ThemeState(theme), Mirror(env, theme))
  }

  /** `setTheme`: takes any value as the theme and mirrors it. */
  function SetTheme(s: ThemeState, env: Env, theme: string): (r: ThemeStep)
    ensures r.state.theme == theme
    ensures InSync(theme, r.env)
    ensures SameClassesOutside(r.env.classes, env.classes, DarkClass)
    ensures SameOutside(r.env.storage, env.storage, {ThemeKey})
    ensures r.env.hasWindow == env.hasWindow && r.env.location == env.location
    ensures !env.hasWindow ==> r.env == env
  {
    ThemeStep(ThemeState(theme), Mirror(env, theme))
  }

  /** Toggling is setting the theme to the next one. */
  lemma ToggleIsSetNext(s: ThemeState, env: Env)
    ensures ToggleTheme(s, env) == SetTheme(s, env, NextTheme(s.theme))
  {
  }

  /** Two toggles from light or dark restore the theme and resynchronise the mirrors to it. */
  lemma ToggleTwiceRestores(s: ThemeState, env: Env)
    requires s.theme == Light || s.theme == Dark
    ensures var once := ToggleTheme(s, env);
            var twice := ToggleTheme(once.state, once.env);
            twice.state == s && twice.env == Mirror(env, s.theme)
  {
    MirrorTwice(env, NextTheme(s.theme), s.theme);
  }

  /** A later mirror overrides an earlier one. */
  lemma MirrorTwice(env: Env, t1: string, t2: string)
    ensures Mirror(Mirror(env, t1), t2) == Mirror(env, t2)
  {
    if env.hasWindow {
      var a := ApplyClass(ApplyClass(env.classes, t1), t2);
      var b := ApplyClass(env.classes, t2);
      assert a == b;
      assert SetItem(SetItem(env.storage, ThemeKey, t1), ThemeKey, t2) == SetItem(env.storage, ThemeKey, t2);
    }
  }

  /** From a value other than light or dark, one toggle lands on light. */
  lemma ToggleFromUnknownIsLight(s: ThemeState, env: Env)
    requires s.theme != Light && s.theme != Dark
    ensures ToggleTheme(s, env).state.theme == Light
  {
  }

  /** Setting the same theme twice is the same as setting it once. */
  lemma SetThemeIdempotent(s: ThemeState, env: Env, theme: string)
    ensures var once := SetTheme(s, env, theme);
            SetTheme(once.state, once.env, theme) == once
  {
    MirrorTwice(env, theme, theme);
  }

  /** `state?.theme || "light"`: the theme the rehydrate hook applies. */
  function ResolvedTheme(hydrated: Option<string>): (r: string)
    ensures Truthy(hydrated) ==> r == hydrated.value
    ensures !Truthy(hydrated) ==> r == Light
    ensures r != ""
  {
    if Truthy(hydrated) then hydrated.value else Light
  }

  /**
   * `onRehydrateStorage`: with a window, syncs the `dark` class to the
   * resolved theme. It neither writes storage nor changes the store.
   */
  function OnRehydrate(env: Env, hydrated: Option<string>): (r: Env)
    ensures env.hasWindow ==> (DarkClass in r.classes <==> ResolvedTheme(hydrated) == Dark)
    ensures SameClassesOutside(r.classes, env.classes, DarkClass)
    ensures r.storage == env.storage && r.hasWindow == env.hasWindow && r.location == env.location
    ensures !env.hasWindow ==> r == env
  {
    if env.hasWindow then env.(classes := ApplyClass(env.classes, ResolvedTheme(hydrated))) else env
  }

  /** Rehydrating twice from the same value is rehydrating once. */
  lemma RehydrateIdempotent(env: Env, hydrated: Option<string>)
    ensures OnRehydrate(OnRehydrate(env, hydrated), hydrated) == OnRehydrate(env, hydrated)
  {
    if env.hasWindow {
      var t := ResolvedTheme(hydrated);
      var once := ApplyClass(env.classes, t);
      assert ApplyClass(once, t) == once;
    }
  }

  /**
   * Round trip through storage: rehydrating from what `setTheme` persisted
   * leaves the document exactly as `setTheme` left it, whatever the theme.
   */
  lemma RehydrateAfterSetThemeChangesNothing(s: ThemeState, env: Env, theme: string)
    ensures var step := SetTheme(s, env, theme);
            OnRehydrate(step.env, GetItem(step.env.storage, ThemeKey)) == step.env
  {
    var step := SetTheme(s, env, theme);
    if env.hasWindow {
      var t := ResolvedTheme(GetItem(step.env.storage, ThemeKey));
      assert t == Dark <==> theme == Dark;
      assert ApplyClass(step.env.classes, t) == step.env.classes;
    }
  }

  /** When the stored theme is truthy, rehydration brings the document in sync with it. */
  lemma RehydrateSyncsStoredTheme(env: Env, theme: string)
    requires theme != "" && GetItem(env.storage, ThemeKey) == Some(theme)
    ensures InSync(theme, OnRehydrate(env, GetItem(env.storage, ThemeKey)))
  {
  }
}
