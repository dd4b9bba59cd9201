# CHWEK reset-timer model

CHWEK is a checklist web app that reminds its user to check household safety
items (gas valve, door locks, windows) on a schedule. Each item has a reset
window of `resetHours`. Once checked, the item shows a live `HH:MM:SS`
countdown. When the window closes, it turns back to "needs check".

This Dafny project models the parts of the app that hold logic:

- **`ResetTimer`** (reset_timer.dfy) is the evaluator the two checklist cards
  run every second. It decides `needsCheck` from `(now, lastChecked,
  resetHours)` and builds the zero-padded countdown text with floor division
  and remainders on milliseconds. It also holds the card's three-way click
  decision. `ParseCountdown` is a reference reader of the countdown text, so
  that the format can be stated as a round trip.
- **`ChecklistCard`** (checklist_card.dfy) is the card component as a class.
  Its state is `needsCheck`, `timeRemaining` and `showUncheckModal`. Calls to
  the parent's `onCheck`/`onUncheck` are recorded in `calls`. The list card
  (components/checklist-card.tsx) and the grid card
  (components/checklist-card-grid.tsx) contain the same timer effect and the
  same handlers, so both are modelled by one class. The grid card's red dot
  is the predicate `NeedsCheckDotVisible`.
- **`CardIcon`** (card_icon.dfy) is the cards' icon choice: a preset glyph
  looked up by name with a lock fallback, or an uploaded image with a
  placeholder.
- **`Page`** (page.dfy) covers app/page.tsx:
  - the item and settings types;
  - the two local-storage records and the item (de)serialisation;
  - the settings migration and the theme resolution;
  - the ten seeded default items;
  - a `HomePage` class holding `items`, `settings`, the store and the
    document's `dark` class, with one method per effect body.
- **`SettingsView`** (settings_view.dfy) is the settings screen: theme
  change, the system-theme switch, tile selection and the language label.
- **`I18n`** (i18n.dfy) is the `Language` union of lib/i18n/types.ts.
- **`Json`** (json.dfy) holds parsed JSON values and JavaScript truthiness.
- **`Wrappers`** (wrappers.dfy) holds `Option`, for `null` and absent values.

Time is integer milliseconds. Local storage is a map from key to parsed JSON
value. `Date`'s JSON text is a pair of functions, `DateCodec`, passed in.
The round trips of the item list are proved for any codec that reads its own
text back (`Faithful`). Translation tables, the system language and the
platform's dark-mode preference are parameters.

Three behaviours of the code that are easy to misread:

- Stored data that does not parse is not caught anywhere. There is no
  fallback to defaults.
- Only a *truthy* unsupported language is migrated. An absent language or
  `""` passes through unchanged.
- `uncheck` in the cards only calls `onUncheck` after confirmation. What that
  callback writes is not part of this model.

## Model

| member | source | states |
|---|---|---|
| `ResetTimer.Evaluate` | components/checklist-card.tsx:36-60 | An item never checked needs a check and shows `""`. Otherwise `needsCheck` holds iff at least `resetHours` hours have passed since `lastChecked` (the reference predicate `NeedsCheck`). The text is empty iff `needsCheck`. The grid card's lines 36-60 are the same code. |
| `ResetTimer.Remaining` | components/checklist-card.tsx:44-46 | `remaining` plus the elapsed time is the whole window. It is non-positive iff at least `resetHours` hours have elapsed. |
| `ResetTimer.DisplayedClock` | components/checklist-card.tsx:53-57 | In cooldown the countdown text reads back as hours, minutes < 60 and seconds < 60. These recombine to `remaining div 1000`: sub-second time is truncated, not rounded. |
| `ResetTimer.ClockOf` | components/checklist-card.tsx:53-55 | The source's floor divisions and remainders give minutes and seconds in [0,59], and `h*3600 + m*60 + s == remaining div 1000`. |
| `ResetTimer.ClockDecomposes` | components/checklist-card.tsx:53-55 | The arithmetic behind `ClockOf`: the three divisions and remainders on milliseconds split the whole seconds into hours, minutes and seconds. |
| `ResetTimer.ClockUnique` | components/checklist-card.tsx:53-55 | Only one clock with minutes and seconds below 60 has a given total, so the displayed fields are determined by the seconds remaining. |
| `ResetTimer.DivModUnique` | components/checklist-card.tsx:53-55 | A quotient and remainder satisfying the division equation are the ones `/` and `%` give. The source's `Math.floor` of a positive quotient is this division. |
| `ResetTimer.Digits` | components/checklist-card.tsx:57 | `toString()` of a non-negative integer is a non-empty digit string with no leading zero from 10 up. It is one digit below 10, at most two below 100, and at least three from 100 up. |
| `ResetTimer.ValueOfDigits` | components/checklist-card.tsx:57 | The decimal text of `n` denotes `n`. |
| `ResetTimer.PadStart` | components/checklist-card.tsx:57 | `padStart(width, fill)` keeps the string as the suffix, prefixes only fill characters, and reaches `width` when shorter. |
| `ResetTimer.ValueOfPadStart` | components/checklist-card.tsx:57 | Padding with `"0"` keeps a digit string's value. |
| `ResetTimer.ValueOfLeadingZero` | components/checklist-card.tsx:57 | One leading zero does not change a digit string's value. |
| `ResetTimer.Field` | components/checklist-card.tsx:57 | A field is a digit string denoting its number. It is at least two characters wide and exactly two below 100. It is not padded or cut from 100 up. |
| `ResetTimer.Countdown` | components/checklist-card.tsx:56-57 | The template literal is at least eight characters long and holds only digits and colons. |
| `ResetTimer.JoinedFields` | components/checklist-card.tsx:57 | Digit strings joined by colons hold only digits and colons. |
| `ResetTimer.CountdownRoundTrip` | components/checklist-card.tsx:56-57 | The countdown is three fields joined by `:`. Hours are at least two digits; minutes and seconds are exactly two. `ParseCountdown` reads the text back as the clock it came from. |
| `ResetTimer.ParseFields` | components/checklist-card.tsx:56-57 | Three non-empty digit strings joined by two colons split back into those three fields. |
| `ResetTimer.SplitAtSep` | components/checklist-card.tsx:57 | Splitting at the first separator of a string yields the part before it, then the split of the rest. |
| `ResetTimer.SplitNoSep` | components/checklist-card.tsx:57 | A string without the separator splits into itself alone. |
| `ResetTimer.JustChecked` | components/checklist-card.tsx:44-57 | Right after a check with `resetHours > 0`, the item is in cooldown and the countdown reads `resetHours:00:00`. Hours are not wrapped at 24. |
| `ResetTimer.WholeHours` | components/checklist-card.tsx:45 | A positive number of hours is a positive window of exactly `resetHours*3600` whole seconds. |
| `ResetTimer.DisplayedClockIs` | components/checklist-card.tsx:48-57 | While time remains, the displayed clock is the one clock with minutes and seconds below 60 whose total is the whole seconds left. |
| `ResetTimer.RemainingDecreases` | components/checklist-card.tsx:44-46 | For fixed `lastChecked` and `resetHours`, `remaining` strictly decreases as `now` grows. |
| `ResetTimer.NeedsCheckPersists` | components/checklist-card.tsx:44-50 | Once `needsCheck` holds at some `now`, it holds at every later `now`. |
| `ResetTimer.OneSecondTick` | components/checklist-card.tsx:53-55 | A one-second tick that leaves the window open takes exactly one second off the displayed clock. The tick after the last second turns the item to "needs check". |
| `ResetTimer.ClickEffectOf` | components/checklist-card.tsx:67-74 | The click calls `onCheck` iff `needsCheck`. It opens the modal iff not `needsCheck` and `lastChecked` is set. Otherwise it does nothing. |
| `ResetTimer.ClickAfterEvaluation` | components/checklist-card-grid.tsx:67-74 | On state produced by a timer evaluation, the click never does nothing. It checks an item that needs a check and opens the modal for an item in cooldown. |
| `ResetTimer.Scenarios` | components/checklist-card.tsx:44-58 | With an 8-hour window, 8 h 1 s after a check the item needs a check. 1 h after a check the countdown reads `07:00:00`. |
| `ResetTimer.SevenHoursText` | components/checklist-card.tsx:57 | The countdown of seven whole hours is exactly `07:00:00`. |
| `ChecklistCard.Card.constructor` | components/checklist-card.tsx:27-29 | First render: `needsCheck` false, `timeRemaining` `""`, modal closed, no calls. |
| `ChecklistCard.Card.UpdateTimer` | components/checklist-card.tsx:36-60 | After a tick at `now`, the card's state is `Evaluate(now, …)`: `needsCheck` holds iff the item needs a check, and the text is empty iff `needsCheck`. |
| `ChecklistCard.FormatRemaining` | components/checklist-card.tsx:53-57 | The countdown branch builds exactly the countdown of the clock of `remaining`, and that text reads back as that clock. |
| `ChecklistCard.DependenciesChanged` | components/checklist-card.tsx:65 | React sees `[item.lastChecked, item.resetHours]` change iff `resetHours` differs, `lastChecked` differs in instant or nullness, or a non-null `lastChecked` is a new `Date` object. With equal values, only a renewed non-null `Date` counts as a change. |
| `ChecklistCard.Card.ReceiveItem` | components/checklist-card.tsx:35-65 | A new item prop re-runs the timer effect when its dependencies changed, so the card then shows the evaluation at `now`. A new `Date` for the same instant counts as a change, as when the item list is reloaded (app/page.tsx:100). Otherwise the displayed state and the instant it was evaluated at are kept. |
| `ChecklistCard.Card.HandleCardClick` | components/checklist-card.tsx:67-74 | Calls `onCheck(item.id)` once and leaves the modal alone when `needsCheck`. Opens the modal and calls nothing in cooldown with `lastChecked` set. Otherwise changes nothing. |
| `ChecklistCard.ClickAfterTick` | components/checklist-card.tsx:67-74 | After a tick, the click calls `onCheck` iff the item needs a check and opens the modal whenever it does not. |
| `ChecklistCard.Card.CancelUncheck` | components/checklist-card.tsx:144 | Cancel closes the modal. It calls nothing and leaves the item and the timer state as they were. |
| `ChecklistCard.Card.HandleUncheck` | components/checklist-card.tsx:76-79 | Confirm calls `onUncheck(item.id)` exactly once and closes the modal. |
| `ChecklistCard.ConfirmOrCancel` | components/checklist-card-grid.tsx:137-149 | From mount, on an item in cooldown, a click then confirm makes exactly the call `onUncheck(id)`. A click then cancel makes no call. |
| `ChecklistCard.IndicatorsAfterTick` | components/checklist-card-grid.tsx:89-93 | After a tick, the red dot shows iff the item needs a check, and the countdown shows iff the dot does not. |
| `ChecklistCard.Card.CountdownVisible` | components/checklist-card-grid.tsx:93 | The countdown overlay never shows together with the red dot. After a tick it shows iff the item does not need a check. The list card's overlay uses the same condition. |
| `ChecklistCard.Card.NeedsCheckDotVisible` | components/checklist-card-grid.tsx:89 | After a tick, the red dot shows iff the item needs a check. |
| `ChecklistCard.Card.Icon` | components/checklist-card.tsx:33 | The card draws a preset named in its seven-name map with that glyph and any other preset with the lock. An upload draws its image, or `/placeholder.svg` when the reference is empty. |
| `CardIcon.IconWith` | components/checklist-card-grid.tsx:33 | A preset whose name is in the map draws that glyph, and any other preset draws the lock. An upload draws its image, or `/placeholder.svg` when the reference is empty (components/checklist-card-grid.tsx:115). |
| `CardIcon.CardIconAsWritten` | components/checklist-card.tsx:16-33 | With the cards' seven-name map, a preset outside those seven names is drawn as the lock. |
| `CardIcon.CardIconOf` | components/item-card.tsx:30-49 | With the full preset map, every preset name draws its own glyph. |
| `CardIcon.SeededIconsLostAsWritten` | app/page.tsx:159-188 | As written, seeded items 6 (`droplet`) and 8 (`wind`) are drawn as the lock on the checklist cards. |
| `CardIcon.SeededIconsShown` | components/item-card.tsx:30-46 | With the full map, every seeded item is drawn with its own glyph. |
| `I18n.ParseLanguage` | lib/i18n/types.ts:1 | A string names a member of `Language` iff it is that member's code. Codes of other strings do not exist. |
| `I18n.LanguageOf` | app/page.tsx:53 | A JSON value is in `["system","ko","en","ja"]` (strict equality) iff it is the string code of a language. |
| `Page.ThemeOf` | app/page.tsx:24 | A JSON value is a `Theme` iff it is one of the three theme strings. |
| `Page.DefaultSettings` | app/page.tsx:44 | The default settings are well typed, with theme `system` and language `system`. |
| `Page.NeedsMigration` | app/page.tsx:53 | Migration is needed iff `language` is present and truthy and is not the string code of a `Language`. |
| `Page.MigrateSettings` | app/page.tsx:52-56 | A present, truthy, unsupported `language` becomes `"system"`. Every other field, and a supported, absent or falsy language, is unchanged, and the key set is kept. The result never needs migration again, and a truthy language in it is a `Language`. |
| `Page.LoadedSettings` | app/page.tsx:48-61 | With no stored settings the defaults are used. Otherwise the stored object is migrated. |
| `Page.SettingsRoundTrip` | app/page.tsx:63-64 | Settings written by the settings effect load back unchanged (every loaded settings value is in migrated form). |
| `Page.ResolveDark` | app/page.tsx:66-80 | `dark` adds the dark class and `light` removes it. Any other theme, `system` included, follows the platform's preference. |
| `Page.SerializeItem` | app/page.tsx:13-22 | A stored item carries every `ChecklistItem` field with its JSON type. `lastChecked` is `null` or date text. |
| `Page.DeserializeItem` | app/page.tsx:98-101 | Every field but `lastChecked` is copied. A falsy stored `lastChecked` gives `null`, and anything else gives the date its text denotes. |
| `Page.SerializeItems` | app/page.tsx:217 | The stored list has one well-formed element per item, in order. |
| `Page.DeserializeItems` | app/page.tsx:97-102 | The loaded list has the stored length and order, item by item. |
| `Page.ItemRoundTrip` | app/page.tsx:98-101 | Saving an item and loading it back gives the same item, `lastChecked` included. |
| `Page.ItemsRoundTrip` | app/page.tsx:94-102 | Saving a list and loading it back gives the same list. |
| `Page.LoadedItems` | app/page.tsx:93-103 | Items are loaded iff the items key is stored, with the stored length. |
| `Page.WrittenThrough` | app/page.tsx:215-219 | A non-empty list replaces the stored one and touches no other key. An empty list leaves storage exactly as it was. |
| `Page.PersistRoundTrip` | app/page.tsx:215-219 | A non-empty list written through is what the next load finds. |
| `Page.SeedLanguage` | app/page.tsx:105-106 | Seed text uses the system language when the preference is `system` and the preference itself when it is a supported code. There is no table otherwise. |
| `Page.DefaultItems` | app/page.tsx:108-209 | Exactly ten items with ids `"1"`..`"10"` in order, all never checked and preset. `resetHours` is in {8,12,24}. Active exactly for ids 1, 2, 3 and 6. Title and description come from the language's table entry for each default item. |
| `Page.DefaultItemIds` | app/page.tsx:108-209 | The seeded ids are pairwise distinct. |
| `Page.SeededItemsNeedCheck` | app/page.tsx:116 | Every seeded item needs a check at any instant. |
| `Page.HomePage.constructor` | app/page.tsx:43-44 | First render: no items, default settings, storage as found. |
| `Page.HomePage.LoadSettings` | app/page.tsx:48-61 | The page's settings become `LoadedSettings(store)`. |
| `Page.HomePage.ApplySettings` | app/page.tsx:63-82 | The settings are written under their key, and the dark class becomes `ResolveDark(settings, prefersDark)`. |
| `Page.HomePage.LoadItems` | app/page.tsx:93-213 | With stored items, the page's items are the deserialised list and storage is untouched. On first run, the items are the ten defaults in the seed language, and exactly that list is written under the items key. |
| `Page.HomePage.WriteItemsThrough` | app/page.tsx:215-219 | Storage becomes `WrittenThrough(store, items)`. A non-empty list is then what a later load returns. |
| `SettingsView.ThemeChanged` | components/settings-view.tsx:16-18 | The new settings have the chosen theme. Every other field, the language included, is unchanged. |
| `SettingsView.SystemSwitchChecked` | components/settings-view.tsx:91 | The system-theme switch is on iff the theme is `system`. |
| `SettingsView.TileSelected` | components/settings-view.tsx:47-74 | A tile shows its border and tick iff the theme is that tile's theme. |
| `SettingsView.SwitchToggled` | components/settings-view.tsx:90-93 | The switch is on afterwards iff it was turned on. Turning it on gives `system` and turning it off gives `light`, never `dark`. |
| `SettingsView.ThemeChoiceShown` | components/settings-view.tsx:42-93 | After picking a theme, exactly that tile is marked. The switch is on iff the theme is `system`. The dark class follows the theme (`system` follows the platform). Migrated or well-typed settings stay so. |
| `SettingsView.LanguageDisplayName` | components/settings-view.tsx:20-30 | `system` shows the current table's system label. `ko`, `en` and `ja` show their own name from their own table. Any other value shows the system label. |

## Findings

| source | as written | input that shows it | evidently intended | confidence | as-written member | corrected member |
|---|---|---|---|---|---|---|
| components/checklist-card.tsx:16-24 | The cards' `iconMap` has seven glyphs, so any other preset falls back to the lock. | The seeded faucet item (id "6", active, icon `droplet`) and heater item (id "8", icon `wind`) are drawn as locks (`CardIcon.SeededIconsLostAsWritten`). The same holds for the other presets the item list offers. | The same fifteen-glyph map as components/item-card.tsx:30-46, so every seeded item shows its own icon (`CardIcon.SeededIconsShown`). | medium, not executed | `CardIcon.CardIconAsWritten` | `CardIcon.CardIconOf` |

The same map is in components/checklist-card-grid.tsx:16-24. The card class's
`Icon` draws with the map as written. `CardIcon.CardIconOf` is the corrected
choice.

## Left out

- Rendering, CSS classes, the navigation bar and the layout have no behaviour to state.
- The one-second `setInterval`, its cleanup and React's effect scheduling are left out. `UpdateTimer` is one tick at a given `now`. `OneSecondTick` relates two ticks one second apart.
- The `matchMedia` change subscription is left out. Re-running `ApplySettings` with the new preference is what it triggers.
- Effect ordering is left out. On first mount the item effect sees the initial settings before the loaded ones are applied. `HomePage.LoadItems` uses whatever settings the page holds when it is called.
- JSON text and `localStorage` strings are left out. The store holds parsed values. Parse failures are not caught by the app and are not modelled. Neither is a stored empty string, which the app would treat as absent.
- `Date` text is left out. ISO 8601 formatting and parsing are the `DateCodec` parameter.
- Page.HomePage.constructor: requires the stored settings to be an object and the stored items to be a list of well-formed items (`StoreShaped`), because these are the only records the app writes. A stored `null` would make the source throw, and other shapes are not modelled.
- Page.DeserializeItem: requires a well-formed stored item, because the source trusts the declared type. Extra stored fields, which the spread would keep, are dropped. Stored `false` or `0` dates, and text that is not a date, are not modelled.
- Page.HomePage.LoadItems: requires a seed language when nothing is stored. With an absent or empty language preference the source looks up a missing table and throws.
- Numbers are JavaScript doubles in the source. The integer model matches them while millisecond values stay below 2^53 and hours below 10^21. Above that, doubles round, and `toString()` switches to exponent notation (`1e+21`).
- `resetHours` is an integer. The evaluator accepts any integer, as the source does not validate it. Lemmas that need a positive window require `resetHours > 0`. Fractional hours (a JavaScript `number`) are not modelled.
- The `onCheck`, `onUncheck`, toggle and create/update/delete handlers live in views that are not part of this model. The cards record their calls only.
- CardIcon.IconWith: looking up a name inherited from `Object.prototype` (such as `constructor`) yields a truthy non-icon in the source. The model treats it as an unknown name.
- The translation tables, `useTranslation` and `getSystemLanguage` are not part of this model. They are parameters (`Catalog`, `LanguageLabels`, `systemLanguage`).
- Vibration feedback (lib/haptics.ts) and the remote icon storage (lib/supabase) are platform and network calls.
