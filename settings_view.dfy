/** The settings screen of components/settings-view.tsx: the theme tiles,
    the system-theme switch and the label of the current language. */
module SettingsView {
  import opened Wrappers
  import opened Json
  import opened I18n
  import opened Page

  /** `handleThemeChange(theme)`: `{ ...settings, theme }`. */
  function ThemeChanged(settings: Settings, theme: Theme): (r: Settings)
    ensures r.Keys == settings.Keys + {"theme"}
    ensures ThemeField(r) == Some(theme)
    ensures forall k :: k in settings && k != "theme" ==> r[k] == settings[k]
    ensures LanguageField(r) == LanguageField(settings)
  {
    settings["theme" := JStr(ThemeCode(theme))]
  }

  /** The switch's `checked`: `settings.theme === "system"`. */
  predicate SystemSwitchChecked(settings: Settings)
    ensures SystemSwitchChecked(settings) <==> ThemeField(settings) == Some(SystemTheme)
  {
    Get(settings, "theme") == Some(JStr("system"))
  }

  /** The switch's `onCheckedChange(checked)`: system when switched on,
      light when switched off. */
  function SwitchToggled(settings: Settings, checked: bool): (r: Settings)
    ensures SystemSwitchChecked(r) <==> checked
    ensures ThemeField(r) == Some(if checked then SystemTheme else Light)
    ensures ThemeField(r) != Some(Dark)
    ensures forall k :: k in settings && k != "theme" ==> k in r && r[k] == settings[k]
  {
    ThemeChanged(settings, if checked then SystemTheme else Light)
  }

  /** Whether the light or the dark tile shows the selected border and tick. */
  predicate TileSelected(settings: Settings, tile: Theme)
    ensures TileSelected(settings, tile) <==> ThemeField(settings) == Some(tile)
  {
    Get(settings, "theme") == Some(JStr(ThemeCode(tile)))
  }

  /** After picking a theme, exactly the picked tile is marked, the switch
      is on exactly for `system`, nothing but the theme changed, and the
      document turns dark for `dark`, light for `light` and follows the
      platform for `system`. */
  lemma {:induction false} ThemeChoiceShown(settings: Settings, theme: Theme, prefersDark: bool)
    ensures forall tile: Theme :: TileSelected(ThemeChanged(settings, theme), tile) <==> tile == theme
    ensures SystemSwitchChecked(ThemeChanged(settings, theme)) <==> theme == SystemTheme
    ensures ResolveDark(ThemeChanged(settings, theme), prefersDark)
              == (theme == Dark || (theme == SystemTheme && prefersDark))
    ensures !NeedsMigration(settings) ==> !NeedsMigration(ThemeChanged(settings, theme))
    ensures WellTyped(settings) ==> WellTyped(ThemeChanged(settings, theme))
  {
    var r := ThemeChanged(settings, theme);
    assert r["theme"] == JStr(ThemeCode(theme));
    forall tile: Theme
      ensures TileSelected(r, tile) <==> tile == theme
    {
      assert ThemeCode(tile) == ThemeCode(theme) <==> tile == theme;
    }
    if "language" in settings {
      assert r["language"] == settings["language"];
    }
  }

  /** `languageSettings` of one translation table. */
  datatype LanguageLabels = LanguageLabels(system: string, korean: string, english: string, japanese: string)

  /** A supported language's name, from a table's `languageSettings`. */
  function NameIn(labels: LanguageLabels, l: SupportedLanguage): string {
    match l
    case Ko => labels.korean
    case En => labels.english
    case Ja => labels.japanese
  }

  /** `getLanguageDisplayName`: `current` is the table of the language the
      screen is shown in, `table` gives every supported language's table. */
  function LanguageDisplayName(settings: Settings, current: LanguageLabels,
                               table: SupportedLanguage -> LanguageLabels): (r: string)
    ensures LanguageField(settings) == Some(System) ==> r == current.system
    ensures LanguageField(settings).Some? && LanguageField(settings).value != System ==>
              var l: SupportedLanguage := LanguageField(settings).value; r == NameIn(table(l), l)
    ensures LanguageField(settings).None? ==> r == current.system
  {
    var lang := Get(settings, "language");
    if lang == Some(JStr("system")) then current.system
    else if lang == Some(JStr("ko")) then table(Ko).korean
    else if lang == Some(JStr("en")) then table(En).english
    else if lang == Some(JStr("ja")) then table(Ja).japanese
    else current.system
  }
}
