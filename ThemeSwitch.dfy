/**
 * The light/dark switch: the theme in effect resolves `"system"` through the
 * operating system's preference, and a click picks the opposite of the
 * effective theme. Nothing is shown until the component has mounted.
 */
module ThemeSwitch {
  import opened Basics

  /** `theme === "system" ? systemTheme : theme`; the hook may report either as undefined. */
  function CurrentTheme(theme: Option<string>, systemTheme: Option<string>): (current: Option<string>)
    ensures theme == Some("system") ==> current == systemTheme
    ensures theme != Some("system") ==> current == theme
  {
    if theme == Some("system") then systemTheme else theme
  }

  /** The theme a click sets. */
  function ClickTarget(current: Option<string>): string {
    if current == Some("dark") then "light" else "dark"
  }

  /** The button caption. */
  function Label(current: Option<string>): string {
    if current == Some("dark") then "Light Mode" else "Dark Mode"
  }

  /** The rendered button: its caption and the theme its click sets. */
  datatype Button = Button(caption: string, target: string)

  /** What the switch renders: nothing before mounting, otherwise the button. */
  function Render(mounted: bool, theme: Option<string>, systemTheme: Option<string>): (shown: Option<Button>)
    ensures shown == None <==> !mounted
  {
    if !mounted then None
    else
      var current := CurrentTheme(theme, systemTheme);
      Some(Button(Label(current), ClickTarget(current)))
  }

  /**
   * A click sets "light" when the effective theme is dark and "dark" otherwise,
   * undefined included; it never sets "system", so afterwards the set theme is
   * the effective one.
   */
  lemma ClickSetsOpposite(theme: Option<string>, systemTheme: Option<string>)
    ensures var current := CurrentTheme(theme, systemTheme);
      (current == Some("dark") ==> ClickTarget(current) == "light")
      && (current != Some("dark") ==> ClickTarget(current) == "dark")
    ensures ClickTarget(CurrentTheme(theme, systemTheme)) != "system"
    ensures var t := ClickTarget(CurrentTheme(theme, systemTheme));
      CurrentTheme(Some(t), systemTheme) == Some(t)
  {
  }

  /** Once a click has set a theme, later clicks alternate between the two. */
  lemma ClicksAlternate(theme: Option<string>, systemTheme: Option<string>)
    ensures var first := ClickTarget(CurrentTheme(theme, systemTheme));
      var second := ClickTarget(CurrentTheme(Some(first), systemTheme));
      var third := ClickTarget(CurrentTheme(Some(second), systemTheme));
      second != first && third == first
  {
    var first := ClickTarget(CurrentTheme(theme, systemTheme));
    assert first == "light" || first == "dark";
  }

  /** The caption reads "Light Mode" exactly when the effective theme is dark. */
  lemma LabelIffDark(mounted: bool, theme: Option<string>, systemTheme: Option<string>)
    requires mounted
    ensures Render(mounted, theme, systemTheme).Some?
    ensures Render(mounted, theme, systemTheme).value.caption == "Light Mode" <==> CurrentTheme(theme, systemTheme) == Some("dark")
  {
  }
}
