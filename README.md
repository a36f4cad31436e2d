# Coral Design: theme store, icon paths and component registry

This project models three parts of the Coral Design Vue/uni-app component library and proves properties about them.

- **The theme store** (`src/stores/theme.ts`). It holds the theme settings: a mode out of `light`, `dark`, `system` and `custom`, an optional primary colour and an optional border radius. The settings are loaded from storage, or the defaults are used. The effective theme comes from the mode and the system's dark preference. The H5 document is updated: its `theme-dark` class and the CSS custom properties `--primary`, `--primary-light`, `--primary-dark`, `--primary-darker` and `--radius-md`. Every setter writes the settings back to storage. The colour helpers are modelled on integer byte channels (see "## Left out" for the floating-point difference):
  - `hexToRgb`: the `#?RRGGBB` regular expression and `parseInt(_, 16)`;
  - `darkenColor`: the multiplicative darken, with `toString(16).padStart(2, '0')`;
  - the `rgba(r, g, b, 0.2)` tint.
- **The icon path normaliser** (`src/utils/handlePath.ts`).
- **The component registry** (`src/index.ts`):
  - the component name derived from a module path (`split('/').pop()`, then the `.vue` strip, then the kebab-to-camel rewrite);
  - the `components` table that the `forEach` fills;
  - `getComponent`;
  - the plugin's `install`, which registers every table entry on the app.

The model has six modules:
- `Options`
- `NumberText`: hex digits, `toString(radix)`, `parseInt` and `padStart`
- `ThemeColor`
- `ThemeStore`: the store is a class whose methods update its fields in place
- `IconPath`
- `ComponentRegistry`: includes an `App` class and the `BuildComponents` and `Install` loops

## Model

| member | source | states |
|---|---|---|
| NumberText.ToRadix | src/stores/theme.ts:64 | `n.toString(radix)` gives at least one digit. Every digit is below the radix and in lower case. There is no leading zero unless the number is 0. |
| NumberText.ParseRadix | src/stores/theme.ts:45-47 | Definition of `Number.parseInt(s, radix)` on a numeral of valid digits; see ParseToRadix and TwoHexDigitsBound. |
| NumberText.ParseToRadix | src/stores/theme.ts:64 | Reading back what `toString(radix)` wrote gives the number again (the partner of ToRadix). |
| NumberText.PadStart | src/stores/theme.ts:64 | `padStart(len, fill)` reaches length max(\|s\|, len). It keeps `s` as its suffix and fills only the prefix. |
| NumberText.ByteHex | src/stores/theme.ts:64 | For a byte, `toString(16).padStart(2, '0')` is exactly its two lower-case hex digits (high digit first). |
| NumberText.TwoHexDigitsBound | src/stores/theme.ts:45-47 | `parseInt` of a two-digit hex group is 16·high+low, and at most 255. |
| ThemeColor.IsHexColor | src/stores/theme.ts:42 | Definition of the strings the regular expression accepts: six hex digits of either case, optionally after one `#`; see HexToRgb. |
| ThemeColor.HexByte | src/stores/theme.ts:45-47 | One channel read from a two-digit group, at most 255; see HexByteIsParseInt. |
| ThemeColor.HexToRgb | src/stores/theme.ts:41-50 | Returns channels exactly when the input is an optional `#` followed by six hex digits of either case, and `null` otherwise. Every returned channel is in 0..255. |
| ThemeColor.HexByteIsParseInt | src/stores/theme.ts:45-47 | Each channel is `parseInt(group, 16)` of its two-digit group. |
| ThemeColor.ChannelHex | src/stores/theme.ts:64 | Definition of `c.toString(16).padStart(2, '0')` as written; see ChannelHexIsHex2. |
| ThemeColor.EncodeRgb | src/stores/theme.ts:64 | The `#${r}${g}${b}` template over two-digit channels is seven characters starting with `#`; see EncodeRgbRoundTrip. |
| ThemeColor.ChannelHexIsHex2 | src/stores/theme.ts:64 | The source's `toString(16).padStart(2, '0')` on a channel equals the two-digit encoder the model uses in `darkenColor`. |
| ThemeColor.EncodeRgbRoundTrip | src/stores/theme.ts:64 | The `#rrggbb` text built from byte channels is lower case and parses back to the same channels. |
| ThemeColor.HexToRgbEncode | src/stores/theme.ts:41-64 | Parsing a colour and re-encoding it gives `#` plus its six digits in lower case. |
| ThemeColor.DarkenColor | src/stores/theme.ts:53-56 | A colour that does not parse is returned unchanged. |
| ThemeColor.DarkenColorValid | src/stores/theme.ts:58-64 | For a valid colour the result is `#` plus six lower-case digits. It parses back to the darkened channels, and no channel is above the original. |
| ThemeColor.DarkenChannel | src/stores/theme.ts:58 | Definition of `darken` on integers; its properties are DarkenChannelBounds, DarkenChannelFull and DarkenChannelMonotone. |
| ThemeColor.DarkenRgb | src/stores/theme.ts:60-62 | Definition of darkening the three channels one by one; see DarkenRgbBounds and DarkenColorValid. |
| ThemeColor.RgbaTint | src/stores/theme.ts:156-159 | The `--primary-light` value is `rgba(` followed by the decimal channels (ToRadix with radix 10) and ends with `, 0.2)`, so it is never empty. |
| ThemeColor.DarkenChannelBounds | src/stores/theme.ts:58 | `max(0, floor(c·(1 − p/100)))` lies in [0, c] for p in [0, 100], and is c at p = 0. |
| ThemeColor.DarkenChannelFull | src/stores/theme.ts:58 | A percent of 100 or more gives 0. |
| ThemeColor.DarkenChannelMonotone | src/stores/theme.ts:58 | A larger percent never gives a larger channel. |
| ThemeColor.DarkenColorZero | src/stores/theme.ts:53-64 | Darkening by 0 percent gives the input in lower case, with a `#`. |
| ThemeColor.DarkenColorFull | src/stores/theme.ts:53-64 | Darkening a valid colour by 100 percent gives `#000000`. |
| ThemeColor.DarkenColorMonotone | src/stores/theme.ts:53-64 | Channel by channel, darkening by more never gives a lighter colour. |
| ThemeColor.CoralChannels | src/stores/theme.ts:16 | The default coral `#FF7E6A` parses to (255, 126, 106). |
| ThemeColor.CoralDarkDigits | src/stores/theme.ts:58-64 | The coral darkened by 15 and by 30 percent has channels (216, 107, 90) and (178, 88, 74), written `#d86b5a` and `#b2584a`. |
| ThemeColor.DarkenDefaultCoral15 | src/stores/theme.ts:161-164 | The default `--primary-dark` is `#d86b5a`. |
| ThemeColor.DarkenDefaultCoral30 | src/stores/theme.ts:166-169 | The default `--primary-darker` is `#b2584a`. |
| ThemeStore.Save | src/stores/theme.ts:68-70 | Definition of what `saveSettings` writes under the key; see LoadSaved. |
| ThemeStore.LoadSettings | src/stores/theme.ts:23-32 | Definition of `getSavedSettings`; see LoadSaved and LoadFallsBack. |
| ThemeStore.LoadSaved | src/stores/theme.ts:23-32 | Settings that were saved load back unchanged. |
| ThemeStore.LoadFallsBack | src/stores/theme.ts:14-18 | A missing or unreadable stored value loads as the defaults (`light`, `#FF7E6A`, `var(--radius-md)`). |
| ThemeStore.CssNameInjective | src/stores/theme.ts:151-194 | The five custom property names are pairwise distinct. |
| ThemeStore.ResolveTheme | src/stores/theme.ts:73-78 | `currentTheme` is never `system`. Any other mode stands for itself. `system` resolves to `dark` exactly when the system is dark, and to `light` otherwise. |
| ThemeStore.ResolvesDark | src/stores/theme.ts:81-83 | Definition of `isDark` in terms of the mode and the system preference; see ResolvesDarkExactly. |
| ThemeStore.ResolvesDarkExactly | src/stores/theme.ts:81-83 | `isDark` holds exactly for mode `dark`, or for `system` while the system is dark. It never holds for `light` or `custom`. |
| ThemeStore.SetProperty | src/stores/theme.ts:151-194 | `style.setProperty(name, value)`: the property is present afterwards exactly when the value is non-empty, and then holds the value. Every other property is unchanged. |
| ThemeStore.SetThenClear | src/stores/theme.ts:151-194 | Setting a property and then setting it to the empty value leaves it absent, with the rest of the style as before. |
| ThemeStore.PrimaryColorTokens | src/stores/theme.ts:151-170 | `--primary` is always the colour. For a colour that does not parse, nothing else is written. For a valid colour, `--primary-light/-dark/-darker` are the rgba tint and the colour darkened by 15 and by 30 percent. |
| ThemeStore.PrimaryTokensOrdered | src/stores/theme.ts:161-169 | Both darker tokens are lower-case `#rrggbb`. Channel by channel: darker ≤ dark ≤ the colour. |
| ThemeStore.ValidColorTokensInOrder | src/stores/theme.ts:151-169 | For a valid colour, the four `setProperty` calls in the source's order add exactly PrimaryColorTokens to the style. None of the four values is empty, so none of the calls removes a property. |
| ThemeStore.InvalidColorTokensInOrder | src/stores/theme.ts:151-154 | For a colour that does not parse, the single `setProperty` adds exactly PrimaryColorTokens, or removes `--primary` when the colour is empty. |
| ThemeStore.ReappliesColor | src/stores/theme.ts:205 | Definition of the start-up test: the loaded colour is set, non-empty and not the default; see StartupColorTokens and DefaultsReapplyNothing. |
| ThemeStore.ReappliesRadius | src/stores/theme.ts:209 | Definition of the start-up test for the radius; see StartupRadiusTokens and DefaultsReapplyNothing. |
| ThemeStore.StartupColorTokens | src/stores/theme.ts:205-207 | Start-up writes `--primary` exactly when the loaded colour is set, non-empty and not the default. It then writes the loaded colour, and never writes `--radius-md`. |
| ThemeStore.StartupRadiusTokens | src/stores/theme.ts:209-211 | Start-up writes `--radius-md` (and only that) exactly when the loaded radius is set, non-empty and not the default. |
| ThemeStore.DefaultsReapplyNothing | src/stores/theme.ts:14-18 | Starting from the defaults writes no custom property. |
| ThemeStore.Store.CurrentTheme | src/stores/theme.ts:73-78 | The effective theme is never `system`. It is `dark` exactly for mode `dark`, or for `system` with a dark system. |
| ThemeStore.Store.IsDark | src/stores/theme.ts:81-83 | Definition of `isDark` on the store's fields; see CurrentTheme and ResolvesDarkExactly. |
| ThemeStore.Store.constructor | src/stores/theme.ts:200-211 | The store starts with the loaded settings and the system preference. The dark class follows `isDark`. The style is the initial style plus the start-up tokens. Storage is rewritten only when something was re-applied. |
| ThemeStore.Store.ReapplyColor | src/stores/theme.ts:205-207 | Settings are unchanged. The style gains the start-up colour tokens. Storage is saved only if the colour was re-applied. |
| ThemeStore.Store.ReapplyRadius | src/stores/theme.ts:209-211 | Settings are unchanged. The style gains the start-up radius token. Storage is saved only if the radius was re-applied. |
| ThemeStore.Store.SaveSettings | src/stores/theme.ts:68-70 | Storage holds the current settings, which load back unchanged. |
| ThemeStore.Store.ApplyTheme | src/stores/theme.ts:86-95 | Afterwards the `theme-dark` class is present exactly when `isDark`. |
| ThemeStore.Store.DetectSystemTheme | src/stores/theme.ts:115-118 | The system preference becomes the media query's answer. |
| ThemeStore.Store.OnSystemChange | src/stores/theme.ts:120-123 | The system preference becomes the event's value and the dark class follows `isDark` again. Under mode `system` the class equals the new value. Under any other mode a class that already agreed with `isDark` stays as it was. |
| ThemeStore.Store.SetTheme | src/stores/theme.ts:140-144 | Only the mode changes, the settings are saved, and the dark class is set exactly for `dark`, or for `system` with a dark system. |
| ThemeStore.Store.SetPrimaryColor | src/stores/theme.ts:147-187 | Only the colour setting changes. For a non-empty colour the style gains PrimaryColorTokens; for the empty colour `--primary` is removed. The settings are saved, and the dark class is untouched. |
| ThemeStore.Store.WritePrimaryProperties | src/stores/theme.ts:150-171 | The H5 block adds exactly PrimaryColorTokens to the style, or removes `--primary` for the empty colour. |
| ThemeStore.Store.SetBorderRadius | src/stores/theme.ts:190-198 | Only the radius setting changes. `--radius-md` is set to the radius, or removed when the radius is empty. The settings are saved. |
| IconPath.HandlePath | src/utils/handlePath.ts:1-14 | Empty gives empty. A link or page path with an image suffix is kept. Another path with an image suffix goes under `/static/icons/`. Anything else without an image suffix goes under `/static/icons/` with `.svg` added. |
| IconPath.HandlePathShape | src/utils/handlePath.ts:5-13 | Every non-empty result ends in `.svg` or `.png` and contains the input. |
| IconPath.HandlePathLocation | src/utils/handlePath.ts:2-13 | Every result is the input or starts with `/static/icons/`. It is the input exactly for the empty input or a link/page path with an image suffix. |
| IconPath.LinkIsPrefixed | src/utils/handlePath.ts:8 | A full `https://` link without an image suffix comes back under `/static/icons/`, so it no longer starts with `http`. |
| IconPath.HandlePathIntended | src/utils/handlePath.ts:4-8 | Links and page paths are kept or only get `.svg`. Everything else behaves as in the source. |
| IconPath.HandlePathIntendedKeepsLinks | src/utils/handlePath.ts:4-8 | Under the corrected rule, a link or page path remains a prefix of the result, and the result has an image suffix. |
| IconPath.HandlePathIntendedShape | src/utils/handlePath.ts:4-13 | The corrected rule keeps the other guarantee: an image suffix, and the input contained in the result. |
| ComponentRegistry.LastSegment | src/index.ts:19-20 | `split('/').pop()` is the longest suffix of the path without a `/`. |
| ComponentRegistry.LastSegmentAfterSlash | src/index.ts:19-20 | The text after the last `/` is what comes back. |
| ComponentRegistry.StripVue | src/index.ts:21 | One trailing `.vue` is removed, and nothing otherwise. |
| ComponentRegistry.ToUpper | src/index.ts:22 | `toUpperCase` of a word character: a lower-case letter becomes its own capital. Any other character is unchanged, so the result is a word character that is not a lower-case letter. |
| ComponentRegistry.Camelize | src/index.ts:22 | Never longer than its input. Adds no `/`. Identity on a text without `-`. The first character is the upper-cased word character after a leading `-`, or unchanged. |
| ComponentRegistry.CamelizeLeavesNoDashBeforeLower | src/index.ts:22 | After the rewrite, no `-` is left in front of a lower-case letter. |
| ComponentRegistry.CamelizeConcat | src/index.ts:22 | A prefix without `-` passes through the rewrite unchanged. |
| ComponentRegistry.CamelizeLeadingHyphen | src/index.ts:22 | A leading `-x` followed by a text without `-` becomes the upper-cased `x` followed by that text. |
| ComponentRegistry.CamelizeOneHyphen | src/index.ts:22 | A single `-x` between two texts without `-` becomes the upper-cased `x`. |
| ComponentRegistry.ComponentName | src/index.ts:18-22 | A derived name never contains `/` and is no longer than the file name. |
| ComponentRegistry.CoralButtonName | src/index.ts:17 | `./components/Coral-Button.vue` gives `CoralButton`. |
| ComponentRegistry.NameAll | src/index.ts:16-22 | Each entry paired with the name derived from its path, in order and one for one. |
| ComponentRegistry.AddModule | src/index.ts:24-27 | Definition of one `forEach` step: the default export is stored under a non-empty derived name. See TableKeys and TableLastWins. |
| ComponentRegistry.Table | src/index.ts:16-28 | Definition of the table the in-order `forEach` leaves; see TableKeys, TableLastWins and BuildComponents. |
| ComponentRegistry.BuildComponents | src/index.ts:13-28 | The `forEach` leaves the table built from the entries in order. |
| ComponentRegistry.TableKeys | src/index.ts:24-27 | A name is in the table exactly when some entry has a default export and derives that non-empty name. |
| ComponentRegistry.TableLastWins | src/index.ts:26 | For a name derived more than once, the table holds the component of the last entry. |
| ComponentRegistry.TableNamesWellFormed | src/index.ts:18-26 | Every table name is non-empty and contains no `/`. |
| ComponentRegistry.GetComponent | src/index.ts:44 | The corrected lookup finds a component exactly for a table name, and then it is that entry's component. |
| ComponentRegistry.GetComponentFromModules | src/index.ts:16-28 | On the built table, the lookup succeeds exactly for registered names, with the last entry's component. |
| ComponentRegistry.GetComponentAsWritten | src/index.ts:44 | The property read on `{}` returns the own entry for a table name. For a name that is not in the table but belongs to Object.prototype, it returns an inherited member. It is `undefined` only for other names. |
| ComponentRegistry.GetComponentReturnsPrototypeMember | src/index.ts:13-44 | With no modules, `getComponent('toString')` as written is not `undefined`, while the corrected lookup gives none. |
| ComponentRegistry.App.Component | src/index.ts:35 | `app.component(name, c)` registers or replaces one name. |
| ComponentRegistry.Install | src/index.ts:31-37 | After `install`, the app's registry is its old content overridden by the whole table. |

## Left out

- Storage (`uni.getStorageSync`/`setStorageSync`), `document`, `window.matchMedia` and `console.error` are platform I/O. The stored value is a parameter of the constructor. The querying of the media query is a parameter (`systemPrefersDark`, `matches`). The document is the `darkClass` and `style` fields.
- The APP-PLUS and MP branches (`getCurrentPages`, `uni.getSystemInfo`, `uni.setNavigationBarColor`) are conditionally compiled for other platforms and are not modelled. Only the H5 branch is.
- JSON serialisation is abstract. `Save` wraps the settings, and `LoadSettings` returns them. Malformed text and a failing read are the single `Unreadable` value. Stored JSON of the wrong shape (for example, without `mode`) is not modelled.
- ThemeColor.DarkenChannel: the channel is computed with exact integers, `c·(100 − p)/100` rounded down. The source computes in IEEE doubles, `Math.floor(c * (1 - p / 100))`. For p = 15 the two agree on every byte. For p = 30 the double product falls just below an integer for c = 90, 170 and 180, so the source gives one less (62, 118, 125 where the model gives 63, 119, 126). Floating point is not modelled.
- ThemeColor.DarkenColor: requires a percent in [0, 100], and the source accepts any number. The store only passes 15 and 30. Above 100, every channel is 0 in both the source and the model (DarkenChannelFull). Below 0, a channel can exceed 255, `toString(16)` then writes three digits, and the two-digit encoder does not cover that case.
- ThemeStore.Store.WritePrimaryProperties, ThemeStore.Store.SetBorderRadius: `setProperty` ignores a value that the CSS parser does not accept for a custom property, such as one with an unmatched `)` or a top-level `;`, and the old value stays. This is not modelled: every non-empty value is written. The removal of a property by an empty value is modelled (SetProperty).
- ThemeStore.Store.SaveSettings: always succeeds. `uni.setStorageSync` (src/stores/theme.ts:69) is not inside a `try`, so a failing write throws out of `setTheme`, `setPrimaryColor`, `setBorderRadius` and start-up after their earlier updates have been made. The model does not capture that exception.
- Vue reactivity (`ref`, `computed`) is replaced by direct field reads. The aliasing of `settings.value` with the shared `defaultSettings` object is not modelled. In the source, a setter called on defaulted settings mutates that shared object, and later comparisons against the defaults then see the mutated values.
- DetectSystemTheme: the registration of the `change` listener is not modelled. Its effect is the separate method OnSystemChange.
- `import.meta.glob` is replaced by the module list passed to BuildComponents.
- `Object.entries` order is the list order for the modules. For `install`, the order does not matter, because table names are distinct.
- Install: the `if (component)` guard is not modelled. Every entry in the table has a default export, so the guard is always true.
- `components['__proto__'] = …` (a module named `__proto__.vue`) would set the object's prototype rather than add an entry. The model treats it as an ordinary name.

## Findings

| source | as written | input that shows it | evidently intended | confidence | as-written member | corrected member |
|---|---|---|---|---|---|---|
| src/utils/handlePath.ts:8 | A link or `/pages` path without an image suffix becomes `/static/icons/<input>.svg` | `https://cdn.example.com/logo` gives `/static/icons/https://cdn.example.com/logo.svg` | The comment on line 4 says links and page paths are returned as they are or only get the suffix: `<input>.svg` | medium, not executed | IconPath.LinkIsPrefixed | IconPath.HandlePathIntended |
| src/index.ts:44 | `components[name]` on an object made with `{}` also finds Object.prototype members | `getComponent('toString')` with no such component gives the inherited function instead of `undefined` | Only registered components are found (an own-property lookup) | high, not executed | ComponentRegistry.GetComponentReturnsPrototypeMember | ComponentRegistry.GetComponent |
