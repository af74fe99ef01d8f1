/**
 * `ASCIIProcessor.generate_ascii_art`: every pixel of the resized grayscale
 * image becomes one character of a ten-character ramp, picked by mapping the
 * pixel value linearly onto the ramp's indices and truncating. Rows become
 * lines; the lines are joined with newlines for the text file, which is
 * written next to the PNG under the same name with `.png` replaced by `.txt`.
 */
module AsciiArt {
  import opened PyText
  import Halftone

  /** The character ramp, as listed from light to dark in the source. */
  const Ramp: string := " .:-=+*#%@"

  /** `ascii_chars`, reversed when `invert` is set. */
  function RampFor(invert: bool): (chars: string)
    ensures |chars| == |Ramp|
    ensures forall c :: c in chars <==> c in Ramp
  {
    if invert then
      var r := Reversed(Ramp);
      assert forall i :: 0 <= i < |Ramp| ==> r[|Ramp| - 1 - i] == Ramp[i];
      r
    else Ramp
  }

  /** `int(map_value(pixel, 0, 255, 0, n - 1))`. */
  function CharIndex(pixel: int, n: int): int {
    Halftone.Trunc(Halftone.MapValue(pixel as real, 0.0, 255.0, 0.0, (n - 1) as real))
  }

  /** For an 8-bit pixel the index always lies inside a non-empty ramp of length `n`. */
  lemma CharIndexRange(pixel: int, n: int)
    requires 0 <= pixel <= 255 && n >= 1
    ensures 0 <= CharIndex(pixel, n) <= n - 1
  {
    var v := Halftone.MapValue(pixel as real, 0.0, 255.0, 0.0, (n - 1) as real);
    Halftone.MapValueBetween(pixel as real, 0.0, 255.0, 0.0, (n - 1) as real);
    assert 0.0 <= v <= (n - 1) as real;
  }

  /** Black takes the first character of the ramp and white the last. */
  lemma CharIndexEnds(n: int)
    ensures CharIndex(0, n) == 0
    ensures CharIndex(255, n) == n - 1
  {
  }

  /** A brighter pixel never takes an earlier character. */
  lemma CharIndexMonotone(p: int, q: int, n: int)
    requires p <= q && n >= 1
    ensures CharIndex(p, n) <= CharIndex(q, n)
  {
    Halftone.MapValueMonotone(p as real, q as real, 0.0, 255.0, 0.0, (n - 1) as real);
    Halftone.TruncMonotone(
      Halftone.MapValue(p as real, 0.0, 255.0, 0.0, (n - 1) as real),
      Halftone.MapValue(q as real, 0.0, 255.0, 0.0, (n - 1) as real));
  }

  /** The character drawn for one pixel: `ascii_chars[char_index]`. */
  function CharFor(pixel: int, invert: bool): (c: char)
    requires 0 <= pixel <= 255
    ensures c in Ramp
  {
    var chars := RampFor(invert);
    CharIndexRange(pixel, |chars|);
    chars[CharIndex(pixel, |chars|)]
  }

  /** With `invert` the same index is read from the other end of the ramp. */
  lemma CharForInvert(pixel: int)
    requires 0 <= pixel <= 255
    ensures CharFor(pixel, true) == Ramp[|Ramp| - 1 - CharIndex(pixel, |Ramp|)]
    ensures CharFor(pixel, false) == Ramp[CharIndex(pixel, |Ramp|)]
  {
    CharIndexRange(pixel, |Ramp|);
  }

  /** Black is a space and white an `@`; `invert` swaps the two. */
  lemma CharForEnds()
    ensures CharFor(0, false) == ' ' && CharFor(255, false) == '@'
    ensures CharFor(0, true) == '@' && CharFor(255, true) == ' '
  {
    CharIndexEnds(|Ramp|);
    CharForInvert(0);
    CharForInvert(255);
  }

  /**
   * The nested loop over the pixel rows: one line per row, one character per
   * pixel, each the pixel's ramp character.
   */
  method AsciiLines(img: Halftone.Image, invert: bool) returns (lines: seq<string>)
    ensures |lines| == img.height
    ensures forall y :: 0 <= y < img.height ==> |lines[y]| == img.width
    ensures forall y, x :: 0 <= y < img.height && 0 <= x < img.width ==>
              lines[y][x] == CharFor(img.pixels[y][x], invert)
  {
    var chars := RampFor(invert);
    lines := [];
    for y := 0 to img.height
      invariant |lines| == y
      invariant forall j :: 0 <= j < y ==> |lines[j]| == img.width
      invariant forall j, x :: 0 <= j < y && 0 <= x < img.width ==>
                  lines[j][x] == CharFor(img.pixels[j][x], invert)
    {
      var row := img.pixels[y];
      var line := "";
      for x := 0 to img.width
        invariant |line| == x
        invariant forall i :: 0 <= i < x ==> line[i] == CharFor(row[i], invert)
      {
        CharIndexRange(row[x], |chars|);
        var charIndex := CharIndex(row[x], |chars|);
        line := line + [chars[charIndex]];
      }
      lines := lines + [line];
    }
  }

  /** Ramp characters only: no line holds a newline. */
  predicate RampLines(lines: seq<string>) {
    forall l :: l in lines ==> forall c :: c in l ==> c in Ramp
  }

  /** The text file `'\n'.join(ascii_lines)` splits back into the same lines. */
  lemma TextSplitsBack(lines: seq<string>)
    requires |lines| >= 1 && RampLines(lines)
    ensures SplitOn(Join("\n", lines), '\n') == lines
  {
    NewlineNotInRamp();
    forall w | w in lines ensures '\n' !in w {
      forall c | c in w ensures c != '\n' {
        assert c in Ramp;
      }
    }
    assert "\n" == ['\n'];
    SplitOnJoin(lines, '\n');
  }

  lemma NewlineNotInRamp()
    ensures '\n' !in Ramp
  {
    assert forall i :: 0 <= i < |Ramp| ==> Ramp[i] >= ' ';
  }

  /** `output_path.replace('.png', '.txt')`. */
  function TextPath(outputPath: string): string {
    ReplaceAll(outputPath, ".png", ".txt")
  }

  /** A path whose only `.png` is its suffix keeps its stem: `preview.png` gives `preview.txt`. */
  lemma TextPathOfPng(stem: string)
    requires !Contains(stem + ".pn", ".png")
    ensures TextPath(stem + ".png") == stem + ".txt"
  {
    assert ".png"[..3] == ".pn";
    ReplaceSuffix(stem, ".png", ".txt");
  }

  /** A path without `.png` is unchanged, so the text would overwrite the image file. */
  lemma TextPathWithoutPng(outputPath: string)
    requires !Contains(outputPath, ".png")
    ensures TextPath(outputPath) == outputPath
  {
    ReplaceAbsent(outputPath, ".png", ".txt");
  }

  /** The image size of `_render_ascii_to_image` from the font's cell size (the font is not modelled). */
  function RenderSize(lines: seq<string>, cellWidth: int, cellHeight: int): (size: (int, int))
    ensures lines == [] ==> size == (cellWidth + 20, 20)
  {
    (MaxLength(lines) * cellWidth + 20, |lines| * cellHeight + 20)
  }

  /** `max(len(line) for line in ascii_lines) if ascii_lines else 1`. */
  function MaxLength(lines: seq<string>): (m: nat)
    ensures lines == [] ==> m == 1
    ensures lines != [] ==> (forall l :: l in lines ==> |l| <= m) && exists l :: l in lines && |l| == m
  {
    if lines == [] then 1
    else if |lines| == 1 then |lines[0]|
    else
      var rest := MaxLength(lines[1..]);
      assert forall l :: l in lines ==> l == lines[0] || l in lines[1..];
      if |lines[0]| >= rest then |lines[0]| else rest
  }

  /** For the lines of one image the canvas is `width` cells wide and `height` cells high. */
  lemma RenderSizeOfImage(lines: seq<string>, width: nat, cellWidth: int, cellHeight: int)
    requires |lines| >= 1 && forall l :: l in lines ==> |l| == width
    ensures RenderSize(lines, cellWidth, cellHeight) == (width * cellWidth + 20, |lines| * cellHeight + 20)
  {
  }

  // ---------------------------------------------------------------------------
  // the ASCII grid

  /** The `ZeroDivisionError` text of `original_height / original_width` for a photo of width 0. */
  const ZeroWidthError: string := "division by zero"

  /** The `ValueError` text Pillow's `resize` raises for a side below 1. */
  const ResizeError: string := "height and width must be > 0"

  /** `int(char_width * aspect_ratio * 0.5)` with `aspect_ratio = original_height / original_width`. */
  function CharHeight(charWidth: int, width: nat, height: nat): int
    requires width >= 1
  {
    Halftone.Trunc(charWidth as real * (height as real / width as real) * 0.5)
  }

  /** The grid has at least one row exactly when `char_width * height` reaches twice the photo's width. */
  lemma CharHeightPositive(charWidth: int, width: nat, height: nat)
    requires width >= 1
    ensures CharHeight(charWidth, width, height) >= 1 <==> charWidth * height >= 2 * width
  {
    var v := charWidth as real * (height as real / width as real) * 0.5;
    assert v * (2 * width) as real == (charWidth * height) as real;
    if charWidth * height >= 2 * width {
      assert v >= 1.0;
    } else {
      assert v < 1.0;
    }
  }

  /** A 1280 by 720 photo gets 22 rows at the default 80 columns, and none at one column. */
  lemma CharHeightExamples()
    ensures CharHeight(80, 1280, 720) == 22
    ensures CharHeight(1, 1280, 720) == 0
  {
    CharHeightPositive(1, 1280, 720);
    assert 80.0 * (720.0 / 1280.0) * 0.5 == 22.5;
  }

  /** `gray_img.resize((char_width, char_height))` is accepted: the photo has a width and both sides are at least 1. */
  predicate Resizable(photo: Halftone.Image, charWidth: int) {
    photo.width >= 1 && charWidth >= 1 && CharHeight(charWidth, photo.width, photo.height) >= 1
  }

  /** `resized` is the photo resampled to the grid, whenever the resize is accepted (the resampling itself is not modelled). */
  predicate ResizedFrom(photo: Halftone.Image, charWidth: int, resized: Halftone.Image) {
    Resizable(photo, charWidth) ==>
      resized.width == charWidth && resized.height == CharHeight(charWidth, photo.width, photo.height)
  }

  /** The report of `generate_ascii_art`, or the error its `except` reports; paths and timestamp are left out. */
  datatype AsciiResult =
    | AsciiRendered(charWidth: nat, charHeight: nat, invert: bool, fontSize: int,
                    lines: seq<string>, text: string, textPath: string)
    | AsciiFailed(error: string)

  /**
   * What `generate_ascii_art` reports for `photo`: the division by zero for a
   * photo without width, Pillow's error for a grid side below 1, and
   * otherwise one line per grid row holding the ramp character of each
   * resampled pixel, the text that splits back into those lines, and the text
   * path next to the image.
   */
  predicate Generated(res: AsciiResult, photo: Halftone.Image, resized: Halftone.Image, outputPath: string,
                      charWidth: int, invert: bool, fontSize: int)
    requires ResizedFrom(photo, charWidth, resized)
  {
    if photo.width == 0 then res == AsciiFailed(ZeroWidthError)
    else if !Resizable(photo, charWidth) then res == AsciiFailed(ResizeError)
    else
      && res.AsciiRendered?
      && res.charWidth == charWidth && res.charHeight == CharHeight(charWidth, photo.width, photo.height)
      && res.invert == invert && res.fontSize == fontSize
      && |res.lines| == resized.height
      && (forall y :: 0 <= y < resized.height ==> |res.lines[y]| == resized.width)
      && (forall y, x :: 0 <= y < resized.height && 0 <= x < resized.width ==>
            res.lines[y][x] == CharFor(resized.pixels[y][x], invert))
      && SplitOn(res.text, '\n') == res.lines
      && res.textPath == TextPath(outputPath)
  }

  /**
   * `generate_ascii_art`: the grid size from the photo's aspect ratio, the
   * resize (its resampled pixels are `resized`), one ramp character per
   * pixel, and the text for the `.txt` file.
   */
  method GenerateAsciiArt(photo: Halftone.Image, resized: Halftone.Image, outputPath: string, charWidth: int,
                          invert: bool, fontSize: int)
    returns (res: AsciiResult)
    requires ResizedFrom(photo, charWidth, resized)
    ensures res.AsciiRendered? <==> Resizable(photo, charWidth)
    ensures Generated(res, photo, resized, outputPath, charWidth, invert, fontSize)
  {
    if photo.width == 0 {
      return AsciiFailed(ZeroWidthError);
    }
    var charHeight := CharHeight(charWidth, photo.width, photo.height);
    if charWidth < 1 || charHeight < 1 {
      return AsciiFailed(ResizeError);
    }
    var lines := AsciiLines(resized, invert);
    forall l | l in lines ensures forall c :: c in l ==> c in Ramp {
      var y :| 0 <= y < |lines| && lines[y] == l;
      forall c | c in l ensures c in Ramp {
        var x :| 0 <= x < |l| && l[x] == c;
        assert c == CharFor(resized.pixels[y][x], invert);
      }
    }
    var text := Join("\n", lines);
    TextSplitsBack(lines);
    res := AsciiRendered(charWidth, charHeight, invert, fontSize, lines, text, TextPath(outputPath));
  }
}
