/**
 * `getThemeStyles`: the projection of the document's theme settings onto the
 * two CSS custom properties the pages are styled with.
 */
module Theme {
  import opened Json
  import opened UseDashboard

  const PrimaryToken := "--color-primary"
  const AccentToken := "--color-accent"

  /** `doc.themeSettings` is there and truthy. */
  predicate HasTheme(doc: Value) {
    Truthy(doc) && Child(doc, "themeSettings").Found? && Truthy(Child(doc, "themeSettings").value)
  }

  /** `theme[key]`, with `undefined` as None. */
  function Token(theme: Value, key: string): Option<Value> {
    match Child(theme, key)
    case Found(v) => Some(v)
    case _ => None
  }

  /**
   * `getThemeStyles(siteData)`: no entries for a missing document or a
   * missing theme; otherwise exactly the two tokens, each holding the colour
   * read at `themeSettings.primary` / `themeSettings.accent` (None where that
   * read is `undefined`).
   */
  function GetThemeStyles(siteData: Option<Value>): (r: map<string, Option<Value>>)
    ensures siteData.None? || !HasTheme(siteData.value) ==> r == map[]
    ensures siteData.Some? && HasTheme(siteData.value) ==>
      && r.Keys == {PrimaryToken, AccentToken}
      && (forall v :: r[PrimaryToken] == Some(v) <==> Get(siteData.value, ["themeSettings", "primary"]) == Found(v))
      && (forall v :: r[AccentToken] == Some(v) <==> Get(siteData.value, ["themeSettings", "accent"]) == Found(v))
  {
    if siteData.None? || !HasTheme(siteData.value) then map[]
    else
      var theme := Child(siteData.value, "themeSettings").value;
      map[PrimaryToken := Token(theme, "primary"), AccentToken := Token(theme, "accent")]
  }

  /** After `applyTheme(p, a)` the two tokens are p and a. */
  lemma StylesAfterApplyTheme(doc: Value, primary: string, accent: string)
    requires ThemeWritable(doc)
    ensures GetThemeStyles(Some(ThemeApplied(doc, primary, accent))) ==
            map[PrimaryToken := Some(Str(primary)), AccentToken := Some(Str(accent))]
  {
    ThemeAppliedFields(doc, primary, accent);
  }
}
