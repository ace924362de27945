/** The ttkbootstrap themes the application offers and their light/dark classification. */
module Themes {
  import Utils

  /** `AVAILABLE_THEMES`: theme name to description. */
  const AvailableThemes: map<string, string> := map[
    "litera" := "Light theme with clean, modern appearance",
    "cosmo" := "Clean, modern light theme",
    "flatly" := "Flat design light theme",
    "journal" := "Crisp, clean light theme",
    "lumen" := "Light theme with subtle gradients",
    "minty" := "Fresh, light mint-colored theme",
    "pulse" := "Light theme with vibrant colors",
    "sandstone" := "Light theme with a sandstone texture",
    "united" := "Light theme with orange accents",
    "yeti" := "Light theme with a bluish tint",
    "darkly" := "Dark theme with blue accents",
    "cyborg" := "High contrast dark theme",
    "vapor" := "Dark theme with neon accents",
    "solar" := "Dark theme with amber accents",
    "superhero" := "Dark blue theme"]

  const DefaultTheme: string := "darkly"

  const LightThemes: seq<string> :=
    ["litera", "cosmo", "flatly", "journal", "lumen", "minty", "pulse", "sandstone", "united", "yeti"]

  const DarkThemes: seq<string> := ["darkly", "cyborg", "vapor", "solar", "superhero"]

  /** `get_theme_style`: membership in the dark list decides; anything else, unknown names included, is light. */
  function ThemeStyle(name: string): (style: string)
    ensures style == "dark" <==> name in DarkThemes
    ensures style == "light" <==> name !in DarkThemes
  {
    if name in DarkThemes then "dark" else "light"
  }

  /** The default theme is a dark one. */
  lemma DefaultThemeIsDark()
    ensures DefaultTheme in AvailableThemes
    ensures ThemeStyle(DefaultTheme) == "dark"
  {
  }

  /** No theme is listed as both light and dark. */
  lemma CategoriesDisjoint()
    ensures forall n :: n in LightThemes ==> n !in DarkThemes
  {
  }

  /** The two categories together list exactly the available themes. */
  lemma CategoriesCoverAvailable()
    ensures forall n :: n in AvailableThemes <==> (n in LightThemes || n in DarkThemes)
  {
  }

  /** Every theme name, known or not, yields a style that has a palette, so line colours never fail. */
  lemma StyleAlwaysHasPalette(name: string, index: int)
    ensures ThemeStyle(name) in Utils.Colors
    ensures Utils.ColorForLine(index, ThemeStyle(name)).Some?
  {
  }
}
