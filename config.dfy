/**
 * The two environment variables of the build: `SI_FONT_SLUGS_FILTER`, a
 * comma-separated list of slugs to include, and `SI_FONT_PRESERVE_UNICODES`,
 * which keeps the slots of excluded icons reserved unless it is `false`.
 */
module BuildConfig {
  import opened Wrappers
  import opened Text

  datatype Config = Config(filter: set<string>, preserve: bool)

  /**
   * `new Set(v.split(',').filter(Boolean))` with `v` defaulting to '': the
   * non-empty pieces between commas.
   */
  function ParseFilter(v: Option<string>): (r: set<string>)
    ensures forall s :: s in r ==> s != "" && ',' !in s
    ensures v == None || v == Some("") ==> r == {}
  {
    var pieces := Split(v.GetOr(""), ',');
    assert v == None || v == Some("") ==> pieces == [""] by {
      if v == None || v == Some("") { SplitWithoutSeparator("", ','); }
    }
    set k | 0 <= k < |pieces| && pieces[k] != "" :: pieces[k]
  }

  /** `SI_FONT_PRESERVE_UNICODES !== 'false'`. */
  function ParsePreserve(v: Option<string>): (r: bool)
    ensures r <==> v != Some("false")
  {
    v != Some("false")
  }

  /** Both variables read together: an unset or empty filter includes every icon. */
  function ParseConfig(slugsFilter: Option<string>, preserveUnicodes: Option<string>): (r: Config)
    ensures slugsFilter == None || slugsFilter == Some("") ==> r.filter == {}
    ensures forall s :: s in r.filter ==> s != "" && ',' !in s
    ensures r.preserve <==> preserveUnicodes != Some("false")
  {
    Config(ParseFilter(slugsFilter), ParsePreserve(preserveUnicodes))
  }

  /**
   * Listing slugs separated by commas selects exactly those slugs; empty
   * entries (a doubled or trailing comma) select nothing.
   */
  lemma FilterOfList(slugs: seq<string>)
    requires |slugs| >= 1
    requires forall k :: 0 <= k < |slugs| ==> ',' !in slugs[k]
    ensures ParseFilter(Some(Join(slugs, ','))) == set k | 0 <= k < |slugs| && slugs[k] != "" :: slugs[k]
  {
    SplitJoin(slugs, ',');
  }

  /** Only the exact string `false` turns preservation off. */
  lemma PreserveUnlessFalse()
    ensures ParsePreserve(None)
    ensures ParsePreserve(Some("")) && ParsePreserve(Some("False")) && ParsePreserve(Some("0"))
    ensures !ParsePreserve(Some("false"))
  {
  }
}
