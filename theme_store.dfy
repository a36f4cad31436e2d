/**
 * The theme store of src/stores/theme.ts: settings loaded from storage or
 * defaulted, the effective theme resolved from the mode and the system's
 * dark preference, and the setters that update the settings, the H5
 * document (its `theme-dark` class and its CSS custom properties) and the
 * stored copy.
 */
module ThemeStore {
  import opened Options
  import opened ThemeColor

  datatype ThemeMode = Light | Dark | System | Custom

  datatype ThemeSettings = ThemeSettings(
    mode: ThemeMode,
    primaryColor: Option<string>,
    borderRadius: Option<string>)

  const DefaultPrimaryColor: string := "#FF7E6A"
  const DefaultBorderRadius: string := "var(--radius-md)"
  const DefaultSettings: ThemeSettings :=
    ThemeSettings(Light, Some(DefaultPrimaryColor), Some(DefaultBorderRadius))

  /** The CSS custom properties the store writes on the document root. */
  datatype CssVar = PrimaryKey | PrimaryLightKey | PrimaryDarkKey | PrimaryDarkerKey | RadiusKey

  /** The property name passed to `style.setProperty`. */
  function CssName(v: CssVar): string {
    match v
    case PrimaryKey => "--primary"
    case PrimaryLightKey => "--primary-light"
    case PrimaryDarkKey => "--primary-dark"
    case PrimaryDarkerKey => "--primary-darker"
    case RadiusKey => "--radius-md"
  }

  /** Distinct properties have distinct names, so a map keyed by CssVar is a map keyed by name. */
  lemma CssNameInjective(v: CssVar, w: CssVar)
    requires v != w
    ensures CssName(v) != CssName(w)
  {
    assert |CssName(PrimaryKey)| == 9 && |CssName(PrimaryLightKey)| == 15;
    assert |CssName(PrimaryDarkKey)| == 14 && |CssName(PrimaryDarkerKey)| == 16 && |CssName(RadiusKey)| == 11;
  }

  /**
   * What the `themeSettings` storage key holds when it is not empty: the
   * serialised settings, or text that cannot be read back (a failing read
   * or malformed JSON). The serialisation itself is abstract.
   */
  datatype StoredSettings = Serialized(settings: ThemeSettings) | Unreadable

  /** `saveSettings`: what is written under the key. */
  function Save(s: ThemeSettings): StoredSettings {
    Serialized(s)
  }

  /** `getSavedSettings`: the stored settings, or the defaults when there are none or they cannot be read. */
  function LoadSettings(stored: Option<StoredSettings>): ThemeSettings {
    match stored
    case Some(Serialized(s)) => s
    case _ => DefaultSettings
  }

  /** Settings that were saved load back unchanged. */
  lemma LoadSaved(s: ThemeSettings)
    ensures LoadSettings(Some(Save(s))) == s
  {
  }

  /** An empty key and an unreadable value both load as the defaults. */
  lemma LoadFallsBack(stored: Option<StoredSettings>)
    requires stored.None? || stored.value.Unreadable?
    ensures LoadSettings(stored) == DefaultSettings
    ensures LoadSettings(stored) == ThemeSettings(Light, Some("#FF7E6A"), Some("var(--radius-md)"))
  {
  }

  /** `currentTheme`: `system` follows the system preference; every other mode stands for itself. */
  function ResolveTheme(mode: ThemeMode, systemIsDark: bool): (t: ThemeMode)
    ensures t != System
    ensures mode != System ==> t == mode
    ensures mode == System ==> t in {Light, Dark} && (t == Dark <==> systemIsDark)
  {
    if mode == System then (if systemIsDark then Dark else Light) else mode
  }

  /** `isDark`. */
  predicate ResolvesDark(mode: ThemeMode, systemIsDark: bool) {
    ResolveTheme(mode, systemIsDark) == Dark
  }

  /** The effective theme is dark exactly for `dark`, and for `system` while the system is dark. */
  lemma ResolvesDarkExactly(mode: ThemeMode, systemIsDark: bool)
    ensures ResolvesDark(mode, systemIsDark) <==> mode == Dark || (mode == System && systemIsDark)
    ensures mode in {Light, Custom} ==> !ResolvesDark(mode, systemIsDark)
  {
  }

  /**
   * `style.setProperty(name, value)` on the document root: an empty value
   * removes the inline property, any other value sets it; no other
   * property changes.
   */
  function SetProperty(style: map<CssVar, string>, k: CssVar, v: string): (s: map<CssVar, string>)
    ensures k in s <==> v != ""
    ensures k in s ==> s[k] == v
    ensures forall j :: j != k ==> (j in s <==> j in style)
    ensures forall j :: j != k && j in s ==> s[j] == style[j]
  {
    if v == "" then style - {k} else style[k := v]
  }

  /** Setting a property and then setting it to the empty value leaves it removed, whatever it was before. */
  lemma SetThenClear(style: map<CssVar, string>, k: CssVar, v: string)
    ensures SetProperty(SetProperty(style, k, v), k, "") == style - {k}
    ensures k !in SetProperty(SetProperty(style, k, v), k, "")
  {
    var t := SetProperty(SetProperty(style, k, v), k, "");
    assert forall j :: j in t <==> j in style - {k};
  }

  /** The `--primary*` properties `setPrimaryColor` writes for `color` on H5 (the values of its `setProperty` calls). */
  function PrimaryColorTokens(color: string): (m: map<CssVar, string>)
    ensures PrimaryKey in m && m[PrimaryKey] == color
    ensures !IsHexColor(color) ==> m.Keys == {PrimaryKey}
    ensures IsHexColor(color) ==>
      && m.Keys == {PrimaryKey, PrimaryLightKey, PrimaryDarkKey, PrimaryDarkerKey}
      && m[PrimaryLightKey] == RgbaTint(HexToRgb(color).value)
      && m[PrimaryDarkKey] == DarkenColor(color, 15)
      && m[PrimaryDarkerKey] == DarkenColor(color, 30)
  {
    match HexToRgb(color)
    case None => map[PrimaryKey := color]
    case Some(c) =>
      map[PrimaryKey := color,
          PrimaryLightKey := RgbaTint(c),
          PrimaryDarkKey := DarkenColor(color, 15),
          PrimaryDarkerKey := DarkenColor(color, 30)]
  }

  /**
   * For a valid colour the two darker tokens are lower-case `#rrggbb`
   * colours, and channel by channel the darker one is no lighter than the
   * dark one, which is no lighter than the colour itself.
   */
  lemma PrimaryTokensOrdered(color: string)
    requires IsHexColor(color)
    ensures var m := PrimaryColorTokens(color);
            && IsLowerHexColor(m[PrimaryDarkKey]) && IsLowerHexColor(m[PrimaryDarkerKey])
            && HexToRgb(m[PrimaryDarkKey]).Some? && HexToRgb(m[PrimaryDarkerKey]).Some?
            && var c := HexToRgb(color).value;
               var d := HexToRgb(m[PrimaryDarkKey]).value;
               var e := HexToRgb(m[PrimaryDarkerKey]).value;
               e.r <= d.r <= c.r && e.g <= d.g <= c.g && e.b <= d.b <= c.b
  {
    DarkenColorValid(color, 15);
    DarkenColorValid(color, 30);
    DarkenColorMonotone(color, 15, 30);
  }

  /**
   * Writing the `--primary*` properties one by one, as `setPrimaryColor`
   * does, adds PrimaryColorTokens: for a valid colour none of the four
   * values is empty, so none of the writes is a removal.
   */
  lemma ValidColorTokensInOrder(style: map<CssVar, string>, color: string, c: Rgb)
    requires HexToRgb(color) == Some(c)
    ensures SetProperty(SetProperty(SetProperty(SetProperty(style, PrimaryKey, color),
              PrimaryLightKey, RgbaTint(c)), PrimaryDarkKey, DarkenColor(color, 15)),
              PrimaryDarkerKey, DarkenColor(color, 30)) == style + PrimaryColorTokens(color)
  {
    var light, dark, darker := RgbaTint(c), DarkenColor(color, 15), DarkenColor(color, 30);
    DarkenColorValid(color, 15);
    DarkenColorValid(color, 30);
    assert color != "" && light != "" && dark != "" && darker != "";
    var s1 := SetProperty(style, PrimaryKey, color);
    assert s1 == style[PrimaryKey := color];
    var s2 := SetProperty(s1, PrimaryLightKey, light);
    assert s2 == s1[PrimaryLightKey := light];
    var s3 := SetProperty(s2, PrimaryDarkKey, dark);
    assert s3 == s2[PrimaryDarkKey := dark];
    var s4 := SetProperty(s3, PrimaryDarkerKey, darker);
    assert s4 == s3[PrimaryDarkerKey := darker];
    assert PrimaryColorTokens(color) ==
      map[PrimaryKey := color, PrimaryLightKey := light, PrimaryDarkKey := dark, PrimaryDarkerKey := darker];
    FourUpdates(style, color, light, dark, darker);
  }

  lemma FourUpdates(style: map<CssVar, string>, primary: string, light: string, dark: string, darker: string)
    ensures style[PrimaryKey := primary][PrimaryLightKey := light][PrimaryDarkKey := dark][PrimaryDarkerKey := darker]
            == style + map[PrimaryKey := primary, PrimaryLightKey := light, PrimaryDarkKey := dark, PrimaryDarkerKey := darker]
  {
  }

  /** For a colour that does not parse, only `--primary` is written, or removed when the colour is empty. */
  lemma InvalidColorTokensInOrder(style: map<CssVar, string>, color: string)
    requires HexToRgb(color).None?
    ensures color != "" ==> SetProperty(style, PrimaryKey, color) == style + PrimaryColorTokens(color)
    ensures color == "" ==> SetProperty(style, PrimaryKey, color) == style - {PrimaryKey}
  {
  }

  /** The source re-applies a loaded colour at start-up only when it is set and differs from the default. */
  predicate ReappliesColor(s: ThemeSettings) {
    s.primaryColor.Some? && s.primaryColor.value != "" && s.primaryColor.value != DefaultPrimaryColor
  }

  /** Likewise for the border radius. */
  predicate ReappliesRadius(s: ThemeSettings) {
    s.borderRadius.Some? && s.borderRadius.value != "" && s.borderRadius.value != DefaultBorderRadius
  }

  /** The `--primary*` properties start-up writes for loaded settings `s`. */
  function StartupColorTokens(s: ThemeSettings): (m: map<CssVar, string>)
    ensures ReappliesColor(s) <==> PrimaryKey in m
    ensures ReappliesColor(s) ==> m[PrimaryKey] == s.primaryColor.value
    ensures RadiusKey !in m
  {
    if ReappliesColor(s) then PrimaryColorTokens(s.primaryColor.value) else map[]
  }

  /** The `--radius-md` property start-up writes for loaded settings `s`. */
  function StartupRadiusTokens(s: ThemeSettings): (m: map<CssVar, string>)
    ensures ReappliesRadius(s) <==> RadiusKey in m
    ensures ReappliesRadius(s) ==> m == map[RadiusKey := s.borderRadius.value]
    ensures !ReappliesRadius(s) ==> m == map[]
  {
    if ReappliesRadius(s) then map[RadiusKey := s.borderRadius.value] else map[]
  }

  /** Starting from the defaults (no stored value, or one that cannot be read) re-applies nothing. */
  lemma DefaultsReapplyNothing()
    ensures !ReappliesColor(DefaultSettings) && !ReappliesRadius(DefaultSettings)
    ensures StartupColorTokens(DefaultSettings) == map[] && StartupRadiusTokens(DefaultSettings) == map[]
  {
  }

  /**
   * One store: its settings, the system preference, the stored copy under
   * `themeSettings`, and the H5 document root (whether it carries the
   * `theme-dark` class, and its inline custom properties).
   */
  class Store {
    var settings: ThemeSettings
    var systemIsDark: bool
    var storage: Option<StoredSettings>
    var darkClass: bool
    var style: map<CssVar, string>

    /** `currentTheme`. */
    function CurrentTheme(): (t: ThemeMode)
      reads this
      ensures t != System
      ensures t == Dark <==> settings.mode == Dark || (settings.mode == System && systemIsDark)
    {
      ResolveTheme(settings.mode, systemIsDark)
    }

    /** `isDark`. */
    predicate IsDark()
      reads this
    {
      CurrentTheme() == Dark
    }

    /** The document's dark class agrees with the effective theme. */
    predicate Valid()
      reads this
    {
      darkClass == IsDark()
    }

    /**
     * `useThemeStore()`: load the settings, read the system preference,
     * apply the theme, and re-apply a colour and a radius that differ from
     * the defaults (lines 201-211).
     */
    constructor (saved: Option<StoredSettings>, systemPrefersDark: bool, initialStyle: map<CssVar, string>)
      ensures Valid()
      ensures settings == LoadSettings(saved)
      ensures systemIsDark == systemPrefersDark
      ensures darkClass <==> settings.mode == Dark || (settings.mode == System && systemPrefersDark)
      ensures style == initialStyle + StartupColorTokens(settings) + StartupRadiusTokens(settings)
      ensures storage == if ReappliesColor(settings) || ReappliesRadius(settings) then Some(Save(settings)) else saved
    {
      settings := LoadSettings(saved);
      systemIsDark := false;
      storage := saved;
      darkClass := false;
      style := initialStyle;
      new;
      DetectSystemTheme(systemPrefersDark);
      ApplyTheme();
      ReapplyColor();
      ReapplyRadius();
      ResolvesDarkExactly(settings.mode, systemIsDark);
    }

    /** Start-up, lines 205-207: re-apply a loaded colour that is set and not the default. */
    method ReapplyColor()
      modifies this`settings, this`style, this`storage
      ensures settings == old(settings)
      ensures style == old(style) + StartupColorTokens(settings)
      ensures storage == if ReappliesColor(settings) then Some(Save(settings)) else old(storage)
      ensures Valid() == old(Valid())
    {
      if ReappliesColor(settings) {
        SetPrimaryColor(settings.primaryColor.value);
      }
    }

    /** Start-up, lines 209-211: re-apply a loaded radius that is set and not the default. */
    method ReapplyRadius()
      modifies this`settings, this`style, this`storage
      ensures settings == old(settings)
      ensures style == old(style) + StartupRadiusTokens(settings)
      ensures storage == if ReappliesRadius(settings) then Some(Save(settings)) else old(storage)
      ensures Valid() == old(Valid())
    {
      if ReappliesRadius(settings) {
        SetBorderRadius(settings.borderRadius.value);
        assert style == old(style)[RadiusKey := settings.borderRadius.value];
      }
    }

    /** `saveSettings`. */
    method SaveSettings()
      modifies this`storage
      ensures storage == Some(Save(settings))
      ensures LoadSettings(storage) == settings
    {
      storage := Some(Save(settings));
    }

    /** `applyTheme`, H5 branch: the `theme-dark` class follows `isDark`. */
    method ApplyTheme()
      modifies this`darkClass
      ensures Valid()
    {
      darkClass := IsDark();
    }

    /** `detectSystemTheme`, H5 branch: seed the preference from the media query. */
    method DetectSystemTheme(matches: bool)
      modifies this`systemIsDark
      ensures systemIsDark == matches
    {
      systemIsDark := matches;
    }

    /** The media query's change listener: record the new preference and re-apply. */
    method OnSystemChange(matches: bool)
      modifies this`systemIsDark, this`darkClass
      ensures systemIsDark == matches
      ensures Valid()
      ensures settings.mode == System ==> (darkClass <==> matches)
      ensures old(Valid()) && settings.mode != System ==> darkClass == old(darkClass)
    {
      DetectSystemTheme(matches);
      ApplyTheme();
    }

    /** `setTheme`. */
    method SetTheme(mode: ThemeMode)
      modifies this`settings, this`storage, this`darkClass
      ensures settings == old(settings).(mode := mode)
      ensures storage == Some(Save(settings))
      ensures Valid()
      ensures darkClass <==> mode == Dark || (mode == System && systemIsDark)
    {
      settings := settings.(mode := mode);
      SaveSettings();
      ApplyTheme();
      ResolvesDarkExactly(mode, systemIsDark);
    }

    /** `setPrimaryColor`, H5 branch. */
    method SetPrimaryColor(color: string)
      modifies this`settings, this`style, this`storage
      ensures settings == old(settings).(primaryColor := Some(color))
      ensures color != "" ==> style == old(style) + PrimaryColorTokens(color)
      ensures color == "" ==> style == old(style) - {PrimaryKey}
      ensures storage == Some(Save(settings))
      ensures Valid() == old(Valid())
    {
      settings := settings.(primaryColor := Some(color));
      WritePrimaryProperties(color);
      SaveSettings();
    }

    /** The `style.setProperty` calls of `setPrimaryColor`, in the source's order. */
    method WritePrimaryProperties(color: string)
      modifies this`style
      ensures color != "" ==> style == old(style) + PrimaryColorTokens(color)
      ensures color == "" ==> style == old(style) - {PrimaryKey}
    {
      style := SetProperty(style, PrimaryKey, color);
      var rgb := HexToRgb(color);
      if rgb.Some? {
        var c := rgb.value;
        style := SetProperty(style, PrimaryLightKey, RgbaTint(c));
        style := SetProperty(style, PrimaryDarkKey, DarkenColor(color, 15));
        style := SetProperty(style, PrimaryDarkerKey, DarkenColor(color, 30));
        ValidColorTokensInOrder(old(style), color, c);
      } else {
        InvalidColorTokensInOrder(old(style), color);
      }
    }

    /** `setBorderRadius`, H5 branch. */
    method SetBorderRadius(radius: string)
      modifies this`settings, this`style, this`storage
      ensures settings == old(settings).(borderRadius := Some(radius))
      ensures style == SetProperty(old(style), RadiusKey, radius)
      ensures storage == Some(Save(settings))
      ensures Valid() == old(Valid())
    {
      settings := settings.(borderRadius := Some(radius));
      style := SetProperty(style, RadiusKey, radius);
      SaveSettings();
    }
  }
}
