/**
 * The parts of `pathlib.PurePath` the history folders use on a bare file
 * name: `suffix`, `stem` and `with_suffix`, which look at the last dot of
 * the name and ignore a leading dot and a trailing one.
 */
module Paths {
  import opened PyText

  /** `name.rfind('.')`: the position of the last dot, or -1. */
  function LastDot(name: string): (i: int)
    ensures -1 <= i < |name|
    ensures i >= 0 ==> name[i] == '.'
    ensures forall j :: i < j < |name| ==> name[j] != '.'
    decreases |name|
  {
    if name == [] then -1
    else if name[|name| - 1] == '.' then |name| - 1
    else LastDot(name[..|name| - 1])
  }

  /** The dot starts a suffix only when it is neither the first nor the last character. */
  predicate HasSuffix(name: string) {
    0 < LastDot(name) < |name| - 1
  }

  /** `PurePath(name).suffix`. */
  function Suffix(name: string): (s: string)
    ensures s == [] || IsSuffixText(s)
    ensures EndsWith(name, s)
  {
    if HasSuffix(name) then name[LastDot(name)..] else ""
  }

  /** `PurePath(name).stem`. */
  function Stem(name: string): string {
    if HasSuffix(name) then name[..LastDot(name)] else name
  }

  /** What a suffix looks like: a dot, at least one more character, no further dot. */
  predicate IsSuffixText(s: string) {
    |s| >= 2 && s[0] == '.' && forall j :: 1 <= j < |s| ==> s[j] != '.'
  }

  /** `PurePath(name).with_suffix(suffix)`. */
  function WithSuffix(name: string, suffix: string): string {
    Stem(name) + suffix
  }

  /** The metadata companion of an image: same stem, `.json`. */
  function JsonOf(name: string): string {
    WithSuffix(name, ".json")
  }

  /** The text companion of an ASCII image: same stem, `.txt`. */
  function TextOf(name: string): string {
    WithSuffix(name, ".txt")
  }

  /** What the `*.jpg` and `*.png` globs of the history folders match. */
  predicate IsImageName(name: string) {
    EndsWith(name, ".jpg") || EndsWith(name, ".png")
  }

  /** The stem and the suffix put back together give the name. */
  lemma StemSuffix(name: string)
    ensures Stem(name) + Suffix(name) == name
  {
    if HasSuffix(name) {
      assert name == name[..LastDot(name)] + name[LastDot(name)..];
    }
  }

  /** `x + ext` with a dot-free non-empty `x` and a suffix (or nothing) `ext` has stem `x` and suffix `ext`. */
  lemma StemOfJoined(x: string, ext: string)
    requires x != [] && '.' !in x
    requires ext == [] || IsSuffixText(ext)
    ensures Stem(x + ext) == x && Suffix(x + ext) == ext
  {
    var name := x + ext;
    if ext == [] {
      assert name == x;
      assert forall j :: 0 <= j < |name| ==> name[j] in x;
    } else {
      assert name[|x|] == '.';
      assert forall j :: 0 <= j < |x| ==> name[j] in x;
      assert forall j :: |x| < j < |name| ==> name[j] == ext[j - |x|];
      assert LastDot(name) == |x|;
      assert name[..|x|] == x;
      assert name[|x|..] == ext;
    }
  }

  /** The companions of a name end in `.json` and `.txt`, so a glob for images never sees them. */
  lemma CompanionsNotImages(name: string)
    ensures !IsImageName(JsonOf(name)) && !IsImageName(TextOf(name))
    ensures EndsWith(JsonOf(name), ".json") && EndsWith(TextOf(name), ".txt")
  {
    var j := JsonOf(name);
    var t := TextOf(name);
    assert j[|j| - 4..] == "json";
    assert j[|j| - 5..] == ".json";
    assert t[|t| - 4..] == ".txt";
  }

  /** An image name is neither companion of any name. */
  lemma ImageNotCompanion(image: string, name: string)
    requires IsImageName(image)
    ensures image != JsonOf(name) && image != TextOf(name)
  {
    CompanionsNotImages(name);
  }

  /** The two companions of a name are different files. */
  lemma CompanionsDiffer(name: string)
    ensures JsonOf(name) != TextOf(name)
  {
    CompanionsNotImages(name);
    var j := JsonOf(name);
    var t := TextOf(name);
    assert j[|j| - 1] == 'n' && t[|t| - 1] == 't';
  }
}
