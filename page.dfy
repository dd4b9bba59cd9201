/** The home page of app/page.tsx: the item and settings types, the two
    records kept in local storage, the settings migration, the theme
    resolution, the first-run seeding of ten default items, and the page
    state whose effects load, seed and write those records through. */
module Page {
  import opened Wrappers
  import opened Json
  import opened I18n
  import ResetTimer

  // ---------------------------------------------------------------------
  // Types

  datatype IconType = Preset | Upload

  /** A checklist item. `lastChecked` is a timestamp in milliseconds, `None`
      for "never checked"; `resetHours` is the length of the reset window. */
  datatype ChecklistItem = ChecklistItem(
    id: string,
    title: string,
    description: string,
    icon: string,
    iconType: IconType,
    isActive: bool,
    lastChecked: Option<int>,
    resetHours: int)

  datatype Theme = Light | Dark | SystemTheme

  function ThemeCode(t: Theme): string {
    match t
    case Light => "light"
    case Dark => "dark"
    case SystemTheme => "system"
  }

  function ThemeOf(j: Json): (r: Option<Theme>)
    ensures r.Some? ==> j == JStr(ThemeCode(r.value))
    ensures r.None? ==> forall t: Theme :: j != JStr(ThemeCode(t))
  {
    if j == JStr("light") then Some(Light)
    else if j == JStr("dark") then Some(Dark)
    else if j == JStr("system") then Some(SystemTheme)
    else None
  }

  /** The settings as the page holds them: the object parsed from storage,
      whose declared shape is `{ theme, language }`. Fields are looked up by
      name, so a stored record that lacks one, or carries more, is kept as
      it is. */
  type Settings = map<string, Json>

  /** The declared `AppSettings` shape: a `Theme` and a `Language`. */
  predicate WellTyped(s: Settings) {
    && "theme" in s && ThemeOf(s["theme"]).Some?
    && "language" in s && LanguageOf(s["language"]).Some?
  }

  function ThemeField(s: Settings): Option<Theme> {
    if "theme" in s then ThemeOf(s["theme"]) else None
  }

  function LanguageField(s: Settings): Option<Language> {
    if "language" in s then LanguageOf(s["language"]) else None
  }

  /** `{ theme: "system", language: "system" }`. */
  function DefaultSettings(): (s: Settings)
    ensures WellTyped(s)
    ensures ThemeField(s) == Some(SystemTheme) && LanguageField(s) == Some(System)
  {
    map["theme" := JStr("system"), "language" := JStr("system")]
  }

  // ---------------------------------------------------------------------
  // Settings migration and theme resolution

  /** A language that is present, truthy and not one of the four codes. */
  predicate NeedsMigration(parsed: Settings)
    ensures NeedsMigration(parsed) <==>
              "language" in parsed && Truthy(parsed["language"])
              && !(parsed["language"].JStr? && ParseLanguage(parsed["language"].s).Some?)
  {
    TruthyField(Get(parsed, "language")) && LanguageOf(parsed["language"]).None?
  }

  /** Coerces an unsupported stored language to `"system"`; every other
      field, and a supported, absent or falsy language, is left alone. */
  function MigrateSettings(parsed: Settings): (r: Settings)
    ensures r.Keys == parsed.Keys
    ensures forall k :: k in parsed && k != "language" ==> r[k] == parsed[k]
    ensures NeedsMigration(parsed) ==> r["language"] == JStr(Code(System))
    ensures !NeedsMigration(parsed) ==> r == parsed
    ensures !NeedsMigration(r)
    ensures TruthyField(Get(r, "language")) ==> LanguageField(r).Some?
  {
    if NeedsMigration(parsed) then parsed["language" := JStr("system")] else parsed
  }

  /** `applyTheme`: whether the document element carries the `dark` class.
      A theme other than `"dark"` and `"light"` takes the system branch. */
  function ResolveDark(s: Settings, prefersDark: bool): (dark: bool)
    ensures ThemeField(s) == Some(Dark) ==> dark
    ensures ThemeField(s) == Some(Light) ==> !dark
    ensures ThemeField(s) != Some(Dark) && ThemeField(s) != Some(Light) ==> dark == prefersDark
  {
    if Get(s, "theme") == Some(JStr("dark")) then true
    else if Get(s, "theme") == Some(JStr("light")) then false
    else prefersDark
  }

  // ---------------------------------------------------------------------
  // The stored item record

  /** `Date` to and from its JSON text (`toJSON` and `new Date(text)`).
      The text format is not part of this model. */
  datatype DateCodec = DateCodec(format: int -> string, parse: string -> int)

  /** A codec whose text is never empty and reads back as the instant it
      was made from. */
  ghost predicate Faithful(c: DateCodec) {
    forall ms :: c.parse(c.format(ms)) == ms && c.format(ms) != ""
  }

  function IconTypeCode(t: IconType): string {
    match t
    case Preset => "preset"
    case Upload => "upload"
  }

  /** A stored item with the fields of `ChecklistItem`; `lastChecked` is
      `null` or the text of a date. */
  predicate ItemShaped(j: Json) {
    && j.JObj?
    && "id" in j.fields && j.fields["id"].JStr?
    && "title" in j.fields && j.fields["title"].JStr?
    && "description" in j.fields && j.fields["description"].JStr?
    && "icon" in j.fields && j.fields["icon"].JStr?
    && "iconType" in j.fields && (j.fields["iconType"] == JStr("preset") || j.fields["iconType"] == JStr("upload"))
    && "isActive" in j.fields && j.fields["isActive"].JBool?
    && "lastChecked" in j.fields && (j.fields["lastChecked"].JNull? || j.fields["lastChecked"].JStr?)
    && "resetHours" in j.fields && j.fields["resetHours"].JNum?
  }

  predicate ItemsRecord(j: Json) {
    j.JArr? && forall i :: 0 <= i < |j.elems| ==> ItemShaped(j.elems[i])
  }

  /** `JSON.stringify` of one item: a `Date` becomes its text. */
  function SerializeItem(item: ChecklistItem, c: DateCodec): (j: Json)
    ensures ItemShaped(j)
  {
    JObj(map[
      "id" := JStr(item.id),
      "title" := JStr(item.title),
      "description" := JStr(item.description),
      "icon" := JStr(item.icon),
      "iconType" := JStr(IconTypeCode(item.iconType)),
      "isActive" := JBool(item.isActive),
      "lastChecked" := (match item.lastChecked
                        case None => JNull
                        case Some(ms) => JStr(c.format(ms))),
      "resetHours" := JNum(item.resetHours)])
  }

  /** `{ ...item, lastChecked: item.lastChecked ? new Date(item.lastChecked) : null }`. */
  function DeserializeItem(j: Json, c: DateCodec): (item: ChecklistItem)
    requires ItemShaped(j)
    ensures item.id == j.fields["id"].s && item.title == j.fields["title"].s
    ensures item.description == j.fields["description"].s && item.icon == j.fields["icon"].s
    ensures item.isActive == j.fields["isActive"].b && item.resetHours == j.fields["resetHours"].n
    ensures j.fields["iconType"] == JStr(IconTypeCode(item.iconType))
    ensures item.lastChecked.None? <==> !Truthy(j.fields["lastChecked"])
    ensures item.lastChecked.Some? ==> item.lastChecked.value == c.parse(j.fields["lastChecked"].s)
  {
    var f := j.fields;
    ChecklistItem(
      f["id"].s, f["title"].s, f["description"].s, f["icon"].s,
      if f["iconType"] == JStr("preset") then Preset else Upload,
      f["isActive"].b,
      if Truthy(f["lastChecked"]) then Some(c.parse(f["lastChecked"].s)) else None,
      f["resetHours"].n)
  }

  function SerializeItems(items: seq<ChecklistItem>, c: DateCodec): (j: Json)
    ensures ItemsRecord(j) && |j.elems| == |items|
    ensures forall i :: 0 <= i < |items| ==> j.elems[i] == SerializeItem(items[i], c)
  {
    JArr(seq(|items|, i requires 0 <= i < |items| => SerializeItem(items[i], c)))
  }

  /** `parsed.map(...)`: one item per stored element, in the same order. */
  function DeserializeItems(j: Json, c: DateCodec): (items: seq<ChecklistItem>)
    requires ItemsRecord(j)
    ensures |items| == |j.elems|
    ensures forall i :: 0 <= i < |items| ==> items[i] == DeserializeItem(j.elems[i], c)
  {
    seq(|j.elems|, i requires 0 <= i < |j.elems| => DeserializeItem(j.elems[i], c))
  }

  lemma ItemRoundTrip(item: ChecklistItem, c: DateCodec)
    requires Faithful(c)
    ensures DeserializeItem(SerializeItem(item, c), c) == item
  {
    match item.lastChecked
    case None =>
    case Some(ms) =>
      assert c.parse(c.format(ms)) == ms && c.format(ms) != "";
  }

  /** Saving a list and loading it back gives the same list. */
  lemma {:induction false} ItemsRoundTrip(items: seq<ChecklistItem>, c: DateCodec)
    requires Faithful(c)
    ensures DeserializeItems(SerializeItems(items, c), c) == items
  {
    var back := DeserializeItems(SerializeItems(items, c), c);
    forall i | 0 <= i < |items|
      ensures back[i] == items[i]
    {
      ItemRoundTrip(items[i], c);
    }
  }

  // ---------------------------------------------------------------------
  // The store

  const SettingsKey: string := "anxietyOffSettings"
  const ItemsKey: string := "anxietyOffItems"

  /** Local storage, with each value already parsed. The app writes an
      object under the settings key and an item list under the items key. */
  predicate StoreShaped(store: map<string, Json>) {
    && (SettingsKey in store ==> store[SettingsKey].JObj?)
    && (ItemsKey in store ==> ItemsRecord(store[ItemsKey]))
  }

  /** The settings the load effect installs. */
  function LoadedSettings(store: map<string, Json>): (s: Settings)
    requires StoreShaped(store)
    ensures SettingsKey !in store ==> s == DefaultSettings()
    ensures SettingsKey in store ==> s == MigrateSettings(store[SettingsKey].fields)
    ensures !NeedsMigration(s)
  {
    if SettingsKey in store then MigrateSettings(store[SettingsKey].fields) else DefaultSettings()
  }

  /** Settings written by the theme effect load back unchanged, provided they
      are in migrated form (as every loaded or default settings value is). */
  lemma SettingsRoundTrip(store: map<string, Json>, s: Settings)
    requires StoreShaped(store)
    requires !NeedsMigration(s)
    ensures StoreShaped(store[SettingsKey := JObj(s)])
    ensures LoadedSettings(store[SettingsKey := JObj(s)]) == s
  {
  }

  /** The items the load effect finds, `None` when nothing is stored. */
  function LoadedItems(store: map<string, Json>, c: DateCodec): (r: Option<seq<ChecklistItem>>)
    requires StoreShaped(store)
    ensures r.Some? <==> ItemsKey in store
    ensures r.Some? ==> |r.value| == |store[ItemsKey].elems|
  {
    if ItemsKey in store then Some(DeserializeItems(store[ItemsKey], c)) else None
  }

  /** The write-through effect: a non-empty list replaces the stored one, an
      empty list leaves storage alone. */
  function WrittenThrough(store: map<string, Json>, items: seq<ChecklistItem>, c: DateCodec): (r: map<string, Json>)
    requires StoreShaped(store)
    ensures StoreShaped(r)
    ensures |items| == 0 ==> r == store
    ensures |items| > 0 ==> r.Keys == store.Keys + {ItemsKey}
    ensures forall k :: k in store && k != ItemsKey ==> r[k] == store[k]
  {
    if |items| > 0 then store[ItemsKey := SerializeItems(items, c)] else store
  }

  /** A non-empty list written through is what the next load finds. */
  lemma PersistRoundTrip(store: map<string, Json>, items: seq<ChecklistItem>, c: DateCodec)
    requires StoreShaped(store) && Faithful(c) && |items| > 0
    ensures LoadedItems(WrittenThrough(store, items, c), c) == Some(items)
  {
    ItemsRoundTrip(items, c);
  }

  // ---------------------------------------------------------------------
  // First-run seeding

  /** The ten default items, in the order they are seeded. */
  datatype DefaultItemKey =
    GasValve | FrontDoor | Windows | ElectricalPlug | Lights
    | Faucet | RoomDoor | AcHeater | Microwave | BalconyDoor

  const DefaultItemKeys: seq<DefaultItemKey> :=
    [GasValve, FrontDoor, Windows, ElectricalPlug, Lights, Faucet, RoomDoor, AcHeater, Microwave, BalconyDoor]

  datatype ItemText = ItemText(title: string, description: string)

  /** The translation tables' `defaultItems` entries, per language. */
  type Catalog = (SupportedLanguage, DefaultItemKey) -> ItemText

  /** The language the seed text is taken from: the system language when the
      preference is `"system"`, the preference itself when it is a
      supported code, and none otherwise (the tables have no such entry). */
  function SeedLanguage(s: Settings, systemLanguage: SupportedLanguage): (r: Option<SupportedLanguage>)
    ensures LanguageField(s) == Some(System) ==> r == Some(systemLanguage)
    ensures LanguageField(s).Some? && LanguageField(s).value != System ==> r == Some(LanguageField(s).value)
    ensures LanguageField(s).None? ==> r.None?
  {
    match LanguageField(s)
    case None => None
    case Some(System) => Some(systemLanguage)
    case Some(l) => Some(l)
  }

  function Seed(id: string, key: DefaultItemKey, icon: string, isActive: bool, resetHours: int,
                lang: SupportedLanguage, catalog: Catalog): ChecklistItem
  {
    var text := catalog(lang, key);
    ChecklistItem(id, text.title, text.description, icon, Preset, isActive, None, resetHours)
  }

  const SeedIds: seq<string> := ["1", "2", "3", "4", "5", "6", "7", "8", "9", "10"]

  /** The default item list. */
  function DefaultItems(lang: SupportedLanguage, catalog: Catalog): (r: seq<ChecklistItem>)
    ensures |r| == 10
    ensures forall i :: 0 <= i < |r| ==> r[i].id == SeedIds[i]
    ensures forall i :: 0 <= i < |r| ==> r[i].lastChecked.None? && r[i].iconType == Preset
    ensures forall i :: 0 <= i < |r| ==> r[i].resetHours in {8, 12, 24}
    ensures forall i :: 0 <= i < |r| ==> (r[i].isActive <==> r[i].id in {"1", "2", "3", "6"})
    ensures forall i :: 0 <= i < |r| ==> ItemText(r[i].title, r[i].description) == catalog(lang, DefaultItemKeys[i])
  {
    [ Seed("1", GasValve, "flame", true, 8, lang, catalog),
      Seed("2", FrontDoor, "lock", true, 8, lang, catalog),
      Seed("3", Windows, "home", true, 12, lang, catalog),
      Seed("4", ElectricalPlug, "zap", false, 24, lang, catalog),
      Seed("5", Lights, "lightbulb", false, 8, lang, catalog),
      Seed("6", Faucet, "droplet", true, 12, lang, catalog),
      Seed("7", RoomDoor, "door", false, 8, lang, catalog),
      Seed("8", AcHeater, "wind", false, 12, lang, catalog),
      Seed("9", Microwave, "power", false, 24, lang, catalog),
      Seed("10", BalconyDoor, "lock", false, 12, lang, catalog) ]
  }

  /** The seeded ids are distinct. */
  lemma DefaultItemIds(lang: SupportedLanguage, catalog: Catalog)
    ensures forall i, j :: 0 <= i < j < 10 ==> DefaultItems(lang, catalog)[i].id != DefaultItems(lang, catalog)[j].id
  {
  }

  /** Every seeded item starts out needing a check, whatever the time. */
  lemma SeededItemsNeedCheck(lang: SupportedLanguage, catalog: Catalog, now: int)
    ensures forall i :: 0 <= i < 10 ==>
              ResetTimer.Evaluate(now, DefaultItems(lang, catalog)[i].lastChecked,
                                  DefaultItems(lang, catalog)[i].resetHours).needsCheck
  {
  }

  // ---------------------------------------------------------------------
  // The page state and its effects

  class HomePage {
    var items: seq<ChecklistItem>
    var settings: Settings
    var store: map<string, Json>
    /** Whether the document element carries the `dark` class. */
    var darkClass: bool

    ghost predicate Valid()
      reads this
    {
      StoreShaped(store)
    }

    /** First render: no items, default settings, storage as found. */
    constructor(stored: map<string, Json>, darkClass: bool)
      requires StoreShaped(stored)
      ensures Valid()
      ensures items == [] && settings == DefaultSettings()
      ensures store == stored && this.darkClass == darkClass
    {
      items := [];
      settings := DefaultSettings();
      store := stored;
      this.darkClass := darkClass;
    }

    /** The settings load effect. */
    method LoadSettings()
      requires Valid()
      modifies this`settings
      ensures Valid()
      ensures settings == LoadedSettings(store)
    {
      if SettingsKey in store {
        var parsed := store[SettingsKey].fields;
        if TruthyField(Get(parsed, "language")) && LanguageOf(parsed["language"]).None? {
          parsed := parsed["language" := JStr("system")];
        }
        settings := parsed;
      } else {
        settings := map["theme" := JStr("system"), "language" := JStr("system")];
      }
    }

    /** The settings effect: store the settings, then apply the theme. */
    method ApplySettings(prefersDark: bool)
      requires Valid()
      modifies this`store, this`darkClass
      ensures Valid()
      ensures store == old(store)[SettingsKey := JObj(settings)]
      ensures darkClass == ResolveDark(settings, prefersDark)
    {
      store := store[SettingsKey := JObj(settings)];
      if Get(settings, "theme") == Some(JStr("dark")) {
        darkClass := true;
      } else if Get(settings, "theme") == Some(JStr("light")) {
        darkClass := false;
      } else {
        darkClass := prefersDark;
      }
    }

    /** The item load effect: deserialise the stored list, or on first run
        seed the default items in the resolved language and store them. */
    method LoadItems(systemLanguage: SupportedLanguage, catalog: Catalog, c: DateCodec)
      requires Valid()
      requires ItemsKey !in store ==> SeedLanguage(settings, systemLanguage).Some?
      modifies this`items, this`store
      ensures Valid()
      ensures ItemsKey in old(store) ==>
                store == old(store) && Some(items) == LoadedItems(store, c)
      ensures ItemsKey !in old(store) ==>
                && items == DefaultItems(SeedLanguage(settings, systemLanguage).value, catalog)
                && store == old(store)[ItemsKey := SerializeItems(items, c)]
    {
      if ItemsKey in store {
        items := DeserializeItems(store[ItemsKey], c);
      } else {
        var lang := SeedLanguage(settings, systemLanguage).value;
        var defaults := DefaultItems(lang, catalog);
        items := defaults;
        store := store[ItemsKey := SerializeItems(defaults, c)];
      }
    }

    /** The write-through effect on `items`. */
    method WriteItemsThrough(c: DateCodec)
      requires Valid()
      modifies this`store
      ensures Valid()
      ensures store == WrittenThrough(old(store), items, c)
      ensures |items| > 0 && Faithful(c) ==> LoadedItems(store, c) == Some(items)
    {
      if |items| > 0 {
        store := store[ItemsKey := SerializeItems(items, c)];
        if Faithful(c) {
          ItemsRoundTrip(items, c);
        }
      }
    }
  }
}
