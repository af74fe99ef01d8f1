/**
 * The request handling of the HTTP backend that is more than plumbing: how
 * `/convert` fills in missing or falsy parameters and picks a generator, and
 * how `/history/{filename}` finds a history file and names its media type.
 * Optional request fields are `Option`s; Python's `x or d` treats `None`, `0`,
 * `0.0` and `False` alike, which `IntOr`, `RealOr` and `Truthy` spell out.
 */
module App {
  import opened Wrappers
  import opened PyText
  import Halftone
  import AsciiArt
  import Retention
  import History

  // ---------------------------------------------------------------------------
  // Python truthiness

  /** `o or d` for an optional integer. */
  function IntOr(o: Option<int>, d: int): int {
    if o.Some? && o.value != 0 then o.value else d
  }

  /** `o or d` for an optional float. */
  function RealOr(o: Option<real>, d: real): real {
    if o.Some? && o.value != 0.0 then o.value else d
  }

  /** `bool(o)` for an optional flag. */
  predicate Truthy(o: Option<bool>) {
    o == Some(true)
  }

  // ---------------------------------------------------------------------------
  // /convert

  /** The body of a `/convert` request; a field is None when sent as `null`. */
  datatype ConvertRequest = ConvertRequest(
    mode: string,
    dotSize: Option<int>, dotSpacing: Option<int>, dotResolution: Option<int>,
    screenAngle: Option<real>, threshold: Option<int>, invert: Option<bool>,
    traditional: Option<bool>, angle: Option<real>,
    charWidth: Option<int>, fontSize: Option<int>)

  /** The request with every optional field at its declared default. */
  function DefaultRequest(mode: string): ConvertRequest {
    ConvertRequest(mode, Some(8), Some(5), Some(5), Some(0.0), Some(127), Some(false), Some(true), Some(0.0),
                   Some(80), Some(8))
  }

  /** `request.dot_resolution or request.dot_spacing or 5`: never zero, and one of the three. */
  function ResolveResolution(req: ConvertRequest): (r: int)
    ensures r != 0
    ensures r == 5 || req.dotResolution == Some(r) || req.dotSpacing == Some(r)
  {
    IntOr(req.dotResolution, IntOr(req.dotSpacing, 5))
  }

  /** The first non-zero value wins: the new name before the legacy one, 5 when both are missing or zero. */
  lemma ResolutionPreference(req: ConvertRequest)
    ensures req.dotResolution.Some? && req.dotResolution.value != 0 ==>
              ResolveResolution(req) == req.dotResolution.value
    ensures IntOr(req.dotResolution, 0) == 0 && req.dotSpacing.Some? && req.dotSpacing.value != 0 ==>
              ResolveResolution(req) == req.dotSpacing.value
    ensures IntOr(req.dotResolution, 0) == 0 && IntOr(req.dotSpacing, 0) == 0 ==> ResolveResolution(req) == 5
  {
  }

  /**
   * `request.screen_angle if request.screen_angle is not None else (request.angle or 0.0)`;
   * `angle or 0.0` is the same as taking 0.0 for a missing angle.
   */
  function ResolveAngle(req: ConvertRequest): (a: real)
    ensures req.screenAngle.Some? ==> a == req.screenAngle.value
    ensures req.screenAngle.None? ==> a == req.angle.GetOr(0.0)
  {
    if req.screenAngle.Some? then req.screenAngle.value else RealOr(req.angle, 0.0)
  }

  /** What `/convert` does with a request. */
  datatype ConvertPlan =
    | NoPhoto                      // 404: nothing captured yet
    | InvalidMode                  // 400: neither "halftone" nor "ascii"
    | HalftonePlan(traditional: bool, dotSize: int, dotResolution: int, screenAngle: real,
                   threshold: int, invert: bool)
    | AsciiPlan(charWidth: int, invert: bool, fontSize: int)

  /** The checks and defaults of `convert_image`, in its order: the photo first, then the mode. */
  function PlanConvert(photoExists: bool, req: ConvertRequest): (p: ConvertPlan)
    ensures p == NoPhoto <==> !photoExists
    ensures p == InvalidMode <==> photoExists && req.mode != "halftone" && req.mode != "ascii"
    ensures p.HalftonePlan? <==> photoExists && req.mode == "halftone"
    ensures p.AsciiPlan? <==> photoExists && req.mode == "ascii"
    ensures p.HalftonePlan? ==>
              && p.traditional == Truthy(req.traditional)
              && p.dotSize != 0 && p.dotResolution != 0 && p.threshold != 0
              && p.dotResolution == ResolveResolution(req) && p.screenAngle == ResolveAngle(req)
              && p.invert == Truthy(req.invert)
    ensures p.AsciiPlan? ==> p.charWidth != 0 && p.fontSize != 0 && p.invert == Truthy(req.invert)
  {
    if !photoExists then NoPhoto
    else if req.mode == "halftone" then
      HalftonePlan(Truthy(req.traditional), IntOr(req.dotSize, 8), ResolveResolution(req), ResolveAngle(req),
                   IntOr(req.threshold, 127), Truthy(req.invert))
    else if req.mode == "ascii" then
      AsciiPlan(IntOr(req.charWidth, 80), Truthy(req.invert), IntOr(req.fontSize, 8))
    else InvalidMode
  }

  /** `request.dot_size or 8`: a non-zero dot size is used as sent, a missing or zero one becomes 8. */
  lemma DotSizeDefault(req: ConvertRequest)
    requires req.mode == "halftone"
    ensures req.dotSize.Some? && req.dotSize.value != 0 ==> PlanConvert(true, req).dotSize == req.dotSize.value
    ensures req.dotSize == None || req.dotSize == Some(0) ==> PlanConvert(true, req).dotSize == 8
  {
  }

  /** `request.threshold or 127`: a non-zero threshold is used as sent, a missing or zero one becomes 127. */
  lemma ThresholdDefault(req: ConvertRequest)
    requires req.mode == "halftone"
    ensures req.threshold.Some? && req.threshold.value != 0 ==> PlanConvert(true, req).threshold == req.threshold.value
    ensures req.threshold == None || req.threshold == Some(0) ==> PlanConvert(true, req).threshold == 127
  {
  }

  /** `request.char_width or 80`: a non-zero width, negative ones included, is used as sent; a missing or zero one becomes 80. */
  lemma CharWidthDefault(req: ConvertRequest)
    requires req.mode == "ascii"
    ensures req.charWidth.Some? && req.charWidth.value != 0 ==> PlanConvert(true, req).charWidth == req.charWidth.value
    ensures req.charWidth == None || req.charWidth == Some(0) ==> PlanConvert(true, req).charWidth == 80
  {
  }

  /** `request.font_size or 8`: a non-zero font size is used as sent, a missing or zero one becomes 8. */
  lemma FontSizeDefault(req: ConvertRequest)
    requires req.mode == "ascii"
    ensures req.fontSize.Some? && req.fontSize.value != 0 ==> PlanConvert(true, req).fontSize == req.fontSize.value
    ensures req.fontSize == None || req.fontSize == Some(0) ==> PlanConvert(true, req).fontSize == 8
  {
  }

  /** A request that leaves everything at its default runs the traditional screen, or 80 ASCII columns. */
  lemma DefaultPlans()
    ensures PlanConvert(true, DefaultRequest("halftone")) == HalftonePlan(true, 8, 5, 0.0, 127, false)
    ensures PlanConvert(true, DefaultRequest("ascii")) == AsciiPlan(80, false, 8)
  {
  }

  /** Zeros count as missing: they fall back to the same defaults as `null`. */
  lemma ZerosFallBack(req: ConvertRequest)
    requires req.mode == "halftone"
    requires req.dotSize == Some(0) && req.dotResolution == Some(0) && req.dotSpacing == Some(0)
    requires req.threshold == Some(0) && req.invert == Some(false) && req.traditional == Some(false)
    ensures PlanConvert(true, req) == HalftonePlan(false, 8, 5, ResolveAngle(req), 127, false)
  {
  }

  /** While `screen_angle` is given, which it is by default, the legacy `angle` changes nothing. */
  lemma LegacyAngleShadowed(req: ConvertRequest, angle: Option<real>)
    requires req.screenAngle.Some?
    ensures PlanConvert(true, req.(angle := angle)) == PlanConvert(true, req)
  {
  }

  /** Only an explicit `null` screen angle lets the legacy `angle` through. */
  lemma LegacyAngleUsed(req: ConvertRequest, angle: real)
    requires req.mode == "halftone" && req.screenAngle.None? && req.angle == Some(angle)
    ensures PlanConvert(true, req).screenAngle == angle
  {
  }

  /** The response of `/convert`. */
  datatype ConvertOutcome =
    | Refused(status: int, error: string)
    | HalftoneDone(halftone: Halftone.HalftoneResult)
    | AsciiDone(ascii: AsciiArt.AsciiResult)

  const PreviewPath: string := "./static/preview.png"

  /** The screen a halftone plan draws with. */
  function PlanScreen(p: ConvertPlan, trig: Halftone.Trig): Halftone.Screen
    requires p.HalftonePlan?
  {
    Halftone.Screen(Halftone.Radians(p.screenAngle), trig, p.dotSize, p.dotResolution, p.invert,
                    if p.traditional then Halftone.Traditional else Halftone.Basic)
  }

  /**
   * `convert_image` up to saving into the history: `photo` is the captured
   * photo when it exists, `resized` its resampling to the plan's ASCII grid.
   * The halftone resolution is never zero, so a halftone generator never
   * fails; the ASCII generator fails, and the answer is 500, when the grid
   * has a side below 1.
   */
  method ConvertImage(photo: Option<Halftone.Image>, resized: Halftone.Image, trig: Halftone.Trig,
                      req: ConvertRequest)
    returns (out: ConvertOutcome)
    requires var p := PlanConvert(photo.Some?, req);
             p.AsciiPlan? ==> AsciiArt.ResizedFrom(photo.value, p.charWidth, resized)
    ensures var p := PlanConvert(photo.Some?, req);
            && (p == NoPhoto ==> out == Refused(404, "No photo to convert"))
            && (p == InvalidMode ==> out == Refused(400, "Invalid mode"))
            && (p.HalftonePlan? ==>
                  out == HalftoneDone(Halftone.Rendered(
                           if p.traditional then "traditional_halftone" else "halftone",
                           p.dotSize, p.dotResolution, p.screenAngle, p.invert,
                           if p.traditional then None else Some(p.threshold),
                           photo.value.width, photo.value.height,
                           Halftone.ScreenDots(photo.value, PlanScreen(p, trig)))))
            && (p.AsciiPlan? ==>
                  && !out.HalftoneDone?
                  && (out.AsciiDone? <==> AsciiArt.Resizable(photo.value, p.charWidth))
                  && (out.AsciiDone? ==>
                        AsciiArt.Generated(out.ascii, photo.value, resized, PreviewPath, p.charWidth, p.invert,
                                           p.fontSize))
                  && (out.Refused? ==>
                        out.status == 500 &&
                        AsciiArt.Generated(AsciiArt.AsciiFailed(out.error), photo.value, resized, PreviewPath,
                                           p.charWidth, p.invert, p.fontSize)))
    ensures out.Refused? && out.status == 500 ==> req.mode == "ascii"
  {
    var p := PlanConvert(photo.Some?, req);
    if photo.None? {
      return Refused(404, "No photo to convert");
    }
    var result: Halftone.HalftoneResult;
    if req.mode == "halftone" {
      if p.traditional {
        result := Halftone.GenerateTraditionalHalftone(photo.value, trig, p.dotSize, Some(p.dotResolution),
                                                       p.screenAngle, p.invert);
      } else {
        result := Halftone.GenerateHalftone(photo.value, trig, p.dotSize, p.dotResolution, p.screenAngle,
                                            p.threshold, p.invert, None, None);
      }
    } else if req.mode == "ascii" {
      var ascii := AsciiArt.GenerateAsciiArt(photo.value, resized, PreviewPath, p.charWidth, p.invert, p.fontSize);
      match ascii {
        case AsciiRendered(_, _, _, _, _, _, _) => return AsciiDone(ascii);
        case AsciiFailed(error) => return Refused(500, error);
      }
    } else {
      return Refused(400, "Invalid mode");
    }
    match result {
      case Rendered(_, _, _, _, _, _, _, _, _) => out := HalftoneDone(result);
      case Failed(_, error) => out := Refused(500, error);
    }
  }

  // ---------------------------------------------------------------------------
  // /history/{filename}

  /** The media type `get_history_file` sends, from the file name alone. */
  function MediaType(filename: string): string {
    var lower := Lower(filename);
    if EndsWith(lower, ".png") || EndsWith(lower, ".jpg") || EndsWith(lower, ".jpeg") then ImageType(filename)
    else if EndsWith(lower, ".txt") then "text/plain"
    else "application/octet-stream"
  }

  /** `f"image/{filename.split('.')[-1].lower()}"`, with `image/jpg` corrected to `image/jpeg`. */
  function ImageType(filename: string): string {
    var m := "image/" + Lower(LastPart(filename));
    if m == "image/jpg" then "image/jpeg" else m
  }

  /** `filename.split('.')[-1]`. */
  function LastPart(filename: string): string {
    var parts := SplitOn(filename, '.');
    parts[|parts| - 1]
  }

  /** A name whose lower-cased form ends in `.ext` has `ext` as its lower-cased last dot-separated part. */
  lemma LastPartLower(f: string, ext: string)
    requires '.' !in ext && EndsWith(Lower(f), "." + ext)
    ensures Lower(LastPart(f)) == ext
  {
    var l := Lower(f);
    var i := |f| - |ext|;
    var tail := l[i - 1..];
    assert tail == "." + ext;
    assert f[i - 1] == '.' by {
      assert l[i - 1] == tail[0];
    }
    assert '.' !in f[i..] by {
      forall j | i <= j < |f| ensures f[j] != '.' {
        assert l[j] == tail[j - i + 1] == ext[j - i];
      }
    }
    SplitOnLast(f, '.', i);
    assert LastPart(f) == f[i..];
    var t := Lower(f[i..]);
    assert t == ext by {
      assert forall k :: 0 <= k < |t| ==> t[k] == tail[k + 1];
    }
  }

  /** The next-to-last character of a name with a given ending. */
  lemma NextToLast(l: string, suffix: string)
    requires |suffix| >= 2
    ensures EndsWith(l, suffix) ==> l[|l| - 2] == suffix[|suffix| - 2]
  {
    if EndsWith(l, suffix) {
      assert l[|l| - |suffix|..][|suffix| - 2] == suffix[|suffix| - 2];
    }
  }

  /** The image type named by a lower-cased last part. */
  lemma ImageTypeOf(filename: string, ext: string)
    requires Lower(LastPart(filename)) == ext
    ensures ext == "png" ==> ImageType(filename) == "image/png"
    ensures ext == "jpg" || ext == "jpeg" ==> ImageType(filename) == "image/jpeg"
  {
    var m := "image/" + ext;
    if ext == "png" {
      assert m == "image/png";
      assert m[6] != "image/jpg"[6];
    } else if ext == "jpg" {
      assert m == "image/jpg";
    } else if ext == "jpeg" {
      assert m == "image/jpeg";
      assert |m| == 10;
    }
  }

  /** Any capitalisation of `.png` gives `image/png`. */
  lemma MediaTypePng(filename: string)
    requires EndsWith(Lower(filename), ".png")
    ensures MediaType(filename) == "image/png"
  {
    assert ImageType(filename) == "image/png" by {
      assert "." + "png" == ".png";
      LastPartLower(filename, "png");
      ImageTypeOf(filename, "png");
    }
  }

  /** Any capitalisation of `.jpg` or `.jpeg` gives `image/jpeg`. */
  lemma MediaTypeJpeg(filename: string, ending: string)
    requires ending == ".jpg" || ending == ".jpeg"
    requires EndsWith(Lower(filename), ending)
    ensures MediaType(filename) == "image/jpeg"
  {
    if ending == ".jpg" {
      assert ImageType(filename) == "image/jpeg" by {
        assert "." + "jpg" == ".jpg";
        LastPartLower(filename, "jpg");
        ImageTypeOf(filename, "jpg");
      }
    } else {
      assert ImageType(filename) == "image/jpeg" by {
        assert "." + "jpeg" == ".jpeg";
        LastPartLower(filename, "jpeg");
        ImageTypeOf(filename, "jpeg");
      }
    }
  }

  /** The four media types are different strings. */
  lemma MediaTypesDiffer()
    ensures "image/png" != "image/jpeg" && "image/png" != "text/plain"
    ensures "image/png" != "application/octet-stream" && "image/jpeg" != "text/plain"
    ensures "image/jpeg" != "application/octet-stream" && "text/plain" != "application/octet-stream"
  {
    assert "image/png"[6] != "image/jpeg"[6];
    assert "image/png"[0] != "text/plain"[0];
    assert |"image/jpeg"| == |"text/plain"| && "image/jpeg"[0] != "text/plain"[0];
  }

  /** A name has at most one of the four endings. */
  predicate EndingsExclusive(l: string) {
    && (EndsWith(l, ".png") ==> !EndsWith(l, ".jpg") && !EndsWith(l, ".jpeg") && !EndsWith(l, ".txt"))
    && (EndsWith(l, ".jpg") ==> !EndsWith(l, ".jpeg") && !EndsWith(l, ".txt"))
    && (EndsWith(l, ".jpeg") ==> !EndsWith(l, ".txt"))
  }

  lemma EndingsAreExclusive(l: string)
    ensures EndingsExclusive(l)
  {
    NextToLast(l, ".png");
    NextToLast(l, ".jpg");
    NextToLast(l, ".jpeg");
    NextToLast(l, ".txt");
    assert ".png"[2] == 'n' && ".jpg"[2] == 'p' && ".jpeg"[3] == 'e' && ".txt"[2] == 'x';
  }

  /** A name without an image ending is `text/plain` when it ends in `.txt`, and a byte stream otherwise. */
  lemma MediaTypeNotImage(filename: string)
    requires !EndsWith(Lower(filename), ".png") && !EndsWith(Lower(filename), ".jpg")
    requires !EndsWith(Lower(filename), ".jpeg")
    ensures MediaType(filename) == if EndsWith(Lower(filename), ".txt") then "text/plain" else "application/octet-stream"
  {
  }

  /**
   * The four media types and exactly the names that get each, ignoring case:
   * `.png`, `.jpg` or `.jpeg` (both `image/jpeg`), `.txt`, and the rest.
   */
  lemma MediaTypeCases(filename: string)
    ensures MediaType(filename) == "image/png" <==> EndsWith(Lower(filename), ".png")
    ensures MediaType(filename) == "image/jpeg" <==>
              EndsWith(Lower(filename), ".jpg") || EndsWith(Lower(filename), ".jpeg")
    ensures MediaType(filename) == "text/plain" <==> EndsWith(Lower(filename), ".txt")
    ensures MediaType(filename) == "application/octet-stream" <==>
              !EndsWith(Lower(filename), ".png") && !EndsWith(Lower(filename), ".jpg")
              && !EndsWith(Lower(filename), ".jpeg") && !EndsWith(Lower(filename), ".txt")
  {
    var l := Lower(filename);
    MediaTypesDiffer();
    EndingsAreExclusive(l);
    if EndsWith(l, ".png") {
      MediaTypePng(filename);
    } else if EndsWith(l, ".jpg") {
      MediaTypeJpeg(filename, ".jpg");
    } else if EndsWith(l, ".jpeg") {
      MediaTypeJpeg(filename, ".jpeg");
    } else {
      MediaTypeNotImage(filename);
    }
  }

  /** The response of `/history/{filename}`: the file and its media type, or 404. */
  datatype FileResponse =
    | SendFile(file: History.HistoryFile, mediaType: string)
    | FileNotFound

  /** `get_history_file`: the first of captures and processed that has an entry of that name. */
  function HistoryFileResponse(captures: Retention.Dir, processed: Retention.Dir, filename: string): (r: FileResponse)
    ensures r.FileNotFound? <==> filename !in captures && filename !in processed
    ensures r.SendFile? ==> r.file.name == filename && r.mediaType == MediaType(filename)
    ensures r.SendFile? ==>
              (r.file.category == History.Captures <==> filename in captures)
    ensures r.SendFile? && r.file.category == History.Processed ==> filename in processed
  {
    if filename in captures then SendFile(History.HistoryFile(History.Captures, filename), MediaType(filename))
    else if filename in processed then SendFile(History.HistoryFile(History.Processed, filename), MediaType(filename))
    else FileNotFound
  }
}
