/** The icon path normaliser of src/utils/handlePath.ts. */
module IconPath {

  const IconDir: string := "/static/icons/"

  predicate StartsWith(s: string, prefix: string) {
    |prefix| <= |s| && s[..|prefix|] == prefix
  }

  predicate EndsWith(s: string, suffix: string) {
    |suffix| <= |s| && s[|s| - |suffix|..] == suffix
  }

  /** `needle` occurs in `hay` at offset `i`. */
  predicate OccursAt(needle: string, hay: string, i: int) {
    0 <= i <= |hay| - |needle| && hay[i..i + |needle|] == needle
  }

  predicate IsSubstring(needle: string, hay: string) {
    exists i | 0 <= i <= |hay| - |needle| :: OccursAt(needle, hay, i)
  }

  /** An image file name the source leaves without a new suffix. */
  predicate HasImageSuffix(s: string) {
    EndsWith(s, ".svg") || EndsWith(s, ".png")
  }

  /** A full link or an application page path. */
  predicate IsLinkOrPage(s: string) {
    StartsWith(s, "http") || StartsWith(s, "/pages")
  }

  /** `handlePath(input)`, as written. */
  function HandlePath(input: string): (r: string)
    ensures input == "" ==> r == ""
    ensures input != "" && IsLinkOrPage(input) && HasImageSuffix(input) ==> r == input
    ensures !IsLinkOrPage(input) && HasImageSuffix(input) ==> r == IconDir + input
    ensures input != "" && !HasImageSuffix(input) ==> r == IconDir + input + ".svg"
  {
    if input == "" then ""
    else if IsLinkOrPage(input) then
      if HasImageSuffix(input) then input else IconDir + input + ".svg"
    else if HasImageSuffix(input) then IconDir + input
    else IconDir + input + ".svg"
  }

  lemma SuffixOfConcat(a: string, b: string)
    ensures EndsWith(a + b, b)
  {
    assert (a + b)[|a + b| - |b|..] == b;
  }

  lemma PrefixOfConcat(a: string, b: string)
    ensures StartsWith(a + b, a)
  {
    assert (a + b)[..|a|] == a;
  }

  lemma EndsWithExtend(s: string, a: string, b: string)
    requires EndsWith(s, b)
    ensures EndsWith(a + s, b)
  {
    assert (a + s)[|a + s| - |b|..] == s[|s| - |b|..];
  }

  lemma InfixOfConcat(a: string, b: string, c: string)
    ensures IsSubstring(b, a + b + c)
  {
    assert (a + b + c)[|a|..|a| + |b|] == b;
    assert OccursAt(b, a + b + c, |a|);
  }

  /** Every non-empty result names an `.svg` or `.png` file and contains the input. */
  lemma HandlePathShape(input: string)
    requires input != ""
    ensures HasImageSuffix(HandlePath(input))
    ensures IsSubstring(input, HandlePath(input))
  {
    var r := HandlePath(input);
    if HasImageSuffix(input) {
      if !IsLinkOrPage(input) {
        InfixOfConcat(IconDir, input, "");
        assert IconDir + input + "" == r;
        if EndsWith(input, ".svg") {
          EndsWithExtend(input, IconDir, ".svg");
        } else {
          EndsWithExtend(input, IconDir, ".png");
        }
      } else {
        InfixOfConcat("", input, "");
        assert "" + input + "" == r;
      }
    } else {
      SuffixOfConcat(IconDir + input, ".svg");
      InfixOfConcat(IconDir, input, ".svg");
    }
  }

  /** Every result is the input itself or lies under the icon directory. */
  lemma HandlePathLocation(input: string)
    ensures HandlePath(input) == input || StartsWith(HandlePath(input), IconDir)
    ensures HandlePath(input) == input <==> input == "" || (IsLinkOrPage(input) && HasImageSuffix(input))
  {
    var r := HandlePath(input);
    if r != input {
      if HasImageSuffix(input) && !IsLinkOrPage(input) {
        PrefixOfConcat(IconDir, input);
      } else {
        PrefixOfConcat(IconDir, input + ".svg");
        assert IconDir + input + ".svg" == IconDir + (input + ".svg");
      }
    }
  }

  const ExampleLink: string := "https://cdn.example.com/logo"

  /** A full link without an image suffix is moved under the icon directory, so it is no longer a link. */
  lemma LinkIsPrefixed()
    ensures HandlePath(ExampleLink) == IconDir + ExampleLink + ".svg"
    ensures !StartsWith(HandlePath(ExampleLink), "http")
  {
    assert ExampleLink[..4] == "http";
    assert ExampleLink[|ExampleLink| - 4..] == "logo";
    var r := HandlePath(ExampleLink);
    assert r[0] == '/';
  }

  /**
   * `handlePath` as its own comment describes it: a full link or a page
   * path is returned as it is, or only gets the suffix.
   */
  function HandlePathIntended(input: string): (r: string)
    ensures input == "" ==> r == ""
    ensures IsLinkOrPage(input) && HasImageSuffix(input) ==> r == input
    ensures IsLinkOrPage(input) && !HasImageSuffix(input) ==> r == input + ".svg"
    ensures !IsLinkOrPage(input) ==> r == HandlePath(input)
  {
    if input == "" then ""
    else if IsLinkOrPage(input) then
      if HasImageSuffix(input) then input else input + ".svg"
    else HandlePath(input)
  }

  /** The corrected normaliser keeps links and page paths where they point. */
  lemma HandlePathIntendedKeepsLinks(input: string)
    requires input != "" && IsLinkOrPage(input)
    ensures StartsWith(HandlePathIntended(input), input)
    ensures HasImageSuffix(HandlePathIntended(input))
  {
    if HasImageSuffix(input) {
      assert HandlePathIntended(input)[..|input|] == input;
    } else {
      PrefixOfConcat(input, ".svg");
      SuffixOfConcat(input, ".svg");
    }
  }

  /** Like the source, the corrected normaliser ends every non-empty result in an image suffix and keeps the input in it. */
  lemma HandlePathIntendedShape(input: string)
    requires input != ""
    ensures HasImageSuffix(HandlePathIntended(input))
    ensures IsSubstring(input, HandlePathIntended(input))
  {
    if IsLinkOrPage(input) {
      HandlePathIntendedKeepsLinks(input);
      var r := HandlePathIntended(input);
      assert r[..|input|] == input;
      assert OccursAt(input, r, 0);
    } else {
      HandlePathShape(input);
    }
  }
}
