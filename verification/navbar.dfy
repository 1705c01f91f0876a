/**
 * The site's navigation bar: which language the current path is in, the links it shows, and the
 * link of its language switch. English pages live under `/en`; every other path counts as Chinese.
 */
module Navbar {
  import opened Strings

  datatype Locale = En | Zh

  /** The locale's path segment. */
  function LocaleSegment(l: Locale): string {
    match l
    case En => "en"
    case Zh => "zh"
  }

  /** A path is English exactly when it starts with `/en` (so `/enquiry` counts too). */
  predicate IsEnglish(path: string) {
    StartsWith(path, "/en")
  }

  /** The locale of the current path. */
  function CurrentLocale(path: string): (l: Locale)
    ensures l == En <==> IsEnglish(path)
  {
    if IsEnglish(path) then En else Zh
  }

  /** The sections linked from the bar after the home link. */
  const Sections: seq<string> := ["galleries", "blog", "about", "contact"]

  /** The bar's links: home (`/en` or `/`), then `/<locale>/<section>` for each section. */
  function NavHrefs(path: string): (r: seq<string>)
    ensures |r| == 1 + |Sections|
    ensures r[0] == (if IsEnglish(path) then "/en" else "/")
    ensures forall i | 0 <= i < |Sections| ::
      r[i + 1] == "/" + LocaleSegment(CurrentLocale(path)) + "/" + Sections[i]
  {
    var prefix := "/" + LocaleSegment(CurrentLocale(path)) + "/";
    [if IsEnglish(path) then "/en" else "/"]
      + seq(|Sections|, i requires 0 <= i < |Sections| => prefix + Sections[i])
  }

  /** Every link of the bar stays in the language of the current page. */
  lemma NavHrefsKeepLanguage(path: string)
    ensures forall i | 0 <= i < |NavHrefs(path)| :: IsEnglish(NavHrefs(path)[i]) <==> IsEnglish(path)
  {
    var r := NavHrefs(path);
    forall i | 0 <= i < |r| ensures IsEnglish(r[i]) <==> IsEnglish(path) {
      if i > 0 {
        var seg := LocaleSegment(CurrentLocale(path));
        assert r[i] == "/" + seg + "/" + Sections[i - 1];
        assert r[i][..3] == "/" + seg;
        if !IsEnglish(path) {
          assert r[i][1] == 'z';
        }
      }
    }
  }

  /**
   * The language switch: `/` goes to `/en`; an English path loses its first `/en` (becoming `/`
   * if nothing is left); a path starting with `/zh` has it replaced by `/en`; anything else goes
   * to `/en`.
   */
  function LanguageSwitchUrl(path: string): (r: string)
    ensures path == "/" ==> r == "/en"
    ensures path != "/" && IsEnglish(path) ==> r == (if |path| == 3 then "/" else path[3..])
    ensures !IsEnglish(path) && StartsWith(path, "/zh") ==> r == "/en" + path[3..]
    ensures path != "/" && !IsEnglish(path) && !StartsWith(path, "/zh") ==> r == "/en"
  {
    if path == "/" then "/en"
    else if IsEnglish(path) then
      var rest := ReplaceFirst(path, "/en", "");
      if rest == "" then "/" else rest
    else if StartsWith(path, "/zh") then ReplaceFirst(path, "/zh", "/en")
    else "/en"
  }

  /** Switching from a Chinese page always lands on an English one. */
  lemma SwitchFromChineseIsEnglish(path: string)
    requires !IsEnglish(path)
    ensures IsEnglish(LanguageSwitchUrl(path))
  {
    var r := LanguageSwitchUrl(path);
    if StartsWith(path, "/zh") && path != "/" {
      assert r[..3] == "/en";
    }
  }

  /**
   * Switching from an English page `/en/...` lands on the same page without the locale prefix,
   * which is not English unless the rest itself starts with `/en`.
   */
  lemma SwitchFromEnglish(rest: string)
    requires rest == "" || rest[0] == '/'
    ensures LanguageSwitchUrl("/en" + rest) == (if rest == "" then "/" else rest)
    ensures !StartsWith(rest, "/en") ==> !IsEnglish(LanguageSwitchUrl("/en" + rest))
  {
    assert ("/en" + rest)[3..] == rest;
  }

  /**
   * Switching twice from `/zh/...` returns to the same page without the `/zh` prefix (the
   * Chinese locale is the default, so the page is the same).
   */
  lemma SwitchTwiceFromChinese(rest: string)
    requires rest == "" || rest[0] == '/'
    ensures LanguageSwitchUrl(LanguageSwitchUrl("/zh" + rest)) == (if rest == "" then "/" else rest)
  {
    assert ("/zh" + rest)[3..] == rest;
    assert ("/zh" + rest)[..3] == "/zh";
    SwitchFromEnglish(rest);
  }

  /** Any other Chinese page (one without the `/zh` prefix, other than `/`) switches to the English home page. */
  lemma SwitchFromUnprefixedChinese(path: string)
    requires path != "/" && !StartsWith(path, "/en") && !StartsWith(path, "/zh")
    ensures LanguageSwitchUrl(path) == "/en"
  {
  }

  /**
   * A path that merely starts with the letters `/en`, such as `/enquiry`, counts as English and
   * loses those letters, leaving a path without its leading slash.
   */
  lemma SwitchStripsBareEnPrefix(rest: string)
    requires rest != "" && rest[0] != '/'
    ensures IsEnglish("/en" + rest)
    ensures LanguageSwitchUrl("/en" + rest) == rest && !StartsWith(LanguageSwitchUrl("/en" + rest), "/")
  {
    assert ("/en" + rest)[..3] == "/en";
    assert ("/en" + rest)[3..] == rest;
  }
}
