/** The icon a checklist card draws for an item: a preset glyph looked up by
    name, falling back to the lock glyph, or an uploaded image. */
module CardIcon {
  import opened Wrappers
  import opened I18n
  import opened Page

  datatype IconView = Glyph(name: string) | Image(src: string)

  const PlaceholderImage: string := "/placeholder.svg"
  const FallbackGlyph: string := "lock"

  /** The glyph names of the two checklist cards' `iconMap`, as written. */
  const CardGlyphsAsWritten: set<string> := {"flame", "door", "power", "lock", "zap", "home", "lightbulb"}

  /** The glyph names of the item list's `iconMap`, which is the set of
      presets an item can carry (the seeded items included). */
  const PresetGlyphs: set<string> :=
    CardGlyphsAsWritten + {"droplet", "wind", "thermometer", "wifi", "phone", "bell", "shield", "key"}

  /** `iconType === "preset" ? iconMap[icon] || Lock : null`, and the image
      source `icon || "/placeholder.svg"` when there is no glyph. */
  function IconWith(glyphs: set<string>, item: ChecklistItem): (v: IconView)
    requires FallbackGlyph in glyphs
    ensures item.iconType == Preset ==> v.Glyph? && v.name in glyphs
    ensures item.iconType == Preset && item.icon in glyphs ==> v == Glyph(item.icon)
    ensures item.iconType == Preset && item.icon !in glyphs ==> v == Glyph(FallbackGlyph)
    ensures item.iconType == Upload ==> v.Image? && v.src != ""
    ensures item.iconType == Upload && item.icon != "" ==> v == Image(item.icon)
    ensures item.iconType == Upload && item.icon == "" ==> v == Image(PlaceholderImage)
  {
    match item.iconType
    case Preset => if item.icon in glyphs then Glyph(item.icon) else Glyph(FallbackGlyph)
    case Upload => Image(if item.icon != "" then item.icon else PlaceholderImage)
  }

  /** The cards' icon as written: seven glyphs. */
  function CardIconAsWritten(item: ChecklistItem): (v: IconView)
    ensures item.iconType == Preset && item.icon !in CardGlyphsAsWritten ==> v == Glyph(FallbackGlyph)
  {
    IconWith(CardGlyphsAsWritten, item)
  }

  /** The cards' icon with every preset glyph in the map. */
  function CardIconOf(item: ChecklistItem): (v: IconView)
    ensures item.iconType == Preset && item.icon in PresetGlyphs ==> v == Glyph(item.icon)
  {
    IconWith(PresetGlyphs, item)
  }

  /** As written, the seeded faucet item (id "6", active, icon "droplet")
      and the seeded heater item (id "8", icon "wind") are drawn with the
      lock glyph on the checklist cards. */
  lemma SeededIconsLostAsWritten(lang: SupportedLanguage, catalog: Catalog)
    ensures DefaultItems(lang, catalog)[5].icon == "droplet"
    ensures CardIconAsWritten(DefaultItems(lang, catalog)[5]) == Glyph("lock")
    ensures DefaultItems(lang, catalog)[7].icon == "wind"
    ensures CardIconAsWritten(DefaultItems(lang, catalog)[7]) == Glyph("lock")
  {
  }

  /** With the full map, every seeded item is drawn with its own glyph. */
  lemma SeededIconsShown(lang: SupportedLanguage, catalog: Catalog)
    ensures forall i :: 0 <= i < 10 ==>
              CardIconOf(DefaultItems(lang, catalog)[i]) == Glyph(DefaultItems(lang, catalog)[i].icon)
  {
    var r := DefaultItems(lang, catalog);
    forall i | 0 <= i < 10
      ensures r[i].icon in PresetGlyphs
    {
      assert r[i].icon in {"flame", "lock", "home", "zap", "lightbulb", "droplet", "door", "wind", "power"};
    }
  }
}
