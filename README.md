# Halftone camera backend — a verified model

This project models the deterministic core of a camera backend written in
Python. The backend takes a photo, turns it into a halftone dot screen or ASCII
art, keeps a history of captures and processed images on disk, and sends
files to a CUPS printer through `lp`.

The model covers:

- **Halftone screen** (`Halftone`, with `RangeWalk`).
  - The canvas corners are rotated about the centre, and the grid bounds are taken with `int()` truncation.
  - The grid is walked in the order of the nested `range()` loops.
  - Each grid point is back-rotated and the grayscale pixel under it is sampled.
  - The pixel is mapped to a radius with `map_value`.
  - A dot `(x, y, r)` is emitted when `r > 0.5` and the variant accepts the centre. The basic variant accepts only centres on the canvas. The traditional variant accepts a margin of `dot_size`.
  - `cos` and `sin` are parameters (`Trig`), and the geometry is over `real`.
  - The output is the ordered list of dots, not pixels.
  - The loops are methods proved equal to the recursive specification `ScreenDots`.
- **ASCII art** (`AsciiArt`).
  - The grid size: `char_height` from the photo's aspect ratio, and the errors for a photo without width or a grid side below 1.
  - The 10-character ramp, reversed when inverting.
  - The per-pixel character index.
  - The lines built by the nested loops.
  - The `.txt` path and its `'\n'.join` contents.
- **Printer** (`Printer`).
  - How `lpstat -p` output is parsed for the default printer and the printer list.
  - Job-id extraction from `lp` output.
  - The two `lp` argument lists, each proved to read back as the intended job.
  - The printer-choice guard, and the error and timeout outcomes.
  - `PrinterManager` is a class whose `defaultPrinter` field the detection updates.
- **History** (`Paths`, `Retention`, `History`).
  - The two history folders are `map<string, Entry>` fields of `HistoryManager`.
  - The model covers capture and processed file naming and `pathlib` suffix handling.
  - It covers the retention rule: prune the oldest `*.jpg`/`*.png` beyond `max_files`, with their `.json`/`.txt` companions.
  - It covers the listing, filtered by category and sorted newest first, the metadata lookup, per-file deletion, and clearing.
  - Glob and `iterdir` order is a nondeterministic choice (`:|`), so the proofs hold for every order the file system may return.
- **API** (`App`).
  - The truthiness-based defaults of `/convert`, and the choice between the two halftone algorithms.
  - The 404/400 refusals in source order, and the 500 answer when ASCII generation fails.
  - The media type chosen by `/history/{filename}`, and the captures-first search.

`PyText` models the Python string operations the source relies on:

- `str.split()` and `str.split(c)`;
- `strip`, `' '.join`, `lower`, `startswith`, `endswith`, `in`, `replace`;
- `str(int)`;
- string ordering.

`Sorting` models `list.sort` as an insertion sort, proved to be a stable permutation.

## Model

| member | source | states |
|---|---|---|
| Halftone.MapValue | backend/halftone.py:20-22 | `min_a` maps to `min_b` and `max_a` maps to `max_b` |
| Halftone.MapValueBetween | backend/halftone.py:20-22 | a value inside `[min_a, max_a]` maps between `min_b` and `max_b`, for either orientation of the target range |
| Halftone.MapValueMonotone | backend/halftone.py:451-453 | a larger value maps further towards `max_b`: order-preserving for an increasing target, order-reversing for a decreasing one |
| Halftone.Radians | backend/halftone.py:86 | `math.radians`: degrees times π/180, with π as the literal `math.pi` prints; a definition used by the screens |
| Halftone.RotateAbout | backend/halftone.py:25-38 | the rotation centre is a fixed point |
| Halftone.RotateIdentity | backend/halftone.py:32-36 | with cos = 1 and sin = 0 every point stays where it is |
| Halftone.RotateInverse | backend/halftone.py:104-106 | rotating by `a` and then by `-a` returns the original point, given cos² + sin² = 1 and even cos / odd sin |
| Halftone.RotateCorners | backend/halftone.py:219-226 | the append loop yields exactly the four corners rotated about the centre, in the order (0,0), (W,0), (W,H), (0,H) |
| Halftone.Trunc | backend/halftone.py:95-98 | `int()` truncates toward zero: within one unit of the value, below it for non-negatives and above it for negatives |
| Halftone.TruncMonotone | backend/halftone.py:95-98 | truncation preserves order |
| Halftone.Min4 | backend/halftone.py:95 | the result is one of the four values and at most each of them |
| Halftone.Max4 | backend/halftone.py:96 | the result is one of the four values and at least each of them |
| Halftone.BoundsOf | backend/halftone.py:95-98 | the truncated bounds satisfy `min_x <= max_x` and `min_y <= max_y` |
| Halftone.ScreenBoundsAtZero | backend/halftone.py:89-98 | at angle 0 the grid bounds are exactly `(0, 0, W, H)` |
| Halftone.PixelIndex | backend/halftone.py:114-115 | the clamped index always lies in `[0, size-1]`, and equals the floor of the coordinate on the canvas |
| Halftone.Radius | backend/halftone.py:118-125 | the pixel-to-radius map, `dot_size/2` down to 0 or inverted; its range, ends and monotonicity are the `Radius*` lemmas |
| Halftone.Dot.BBox | backend/halftone.py:136-139 | the box is centred on the grid point, with width and height `2r` |
| Halftone.CellDot | backend/halftone.py:104-139 | a cell's dot, if any, is centred at the grid point `(x, y)`, not at the sample point |
| Halftone.SampleCell | backend/halftone.py:104-139 | the inner-loop body yields exactly the cell's specified dot |
| Halftone.RenderRow | backend/halftone.py:102-144 | the inner `range(min_x, max_x, step)` loop collects exactly the specified row of dots |
| Halftone.RenderScreen | backend/halftone.py:101-144 | the whole nested loop collects exactly `ScreenDots`, in order |
| Halftone.ScreenDots | backend/halftone.py:101-144 | the specification of the nested loops: the cells of `range(min_y, max_y, step)` × `range(min_x, max_x, step)` in order; `ScreenDotsSound`/`ScreenDotsComplete` characterise it |
| Halftone.GenerateHalftone | backend/halftone.py:40-176 | legacy `dot_spacing`/`angle` override `dot_resolution`/`screen_angle`; a zero step fails with the `range()` error; otherwise the result is the basic-variant screen with the resolved parameters and the threshold echoed |
| Halftone.GenerateTraditionalHalftone | backend/halftone.py:178-302 | `dot_resolution=None` defaults to `dot_size`; a zero step fails; otherwise the result is the traditional-variant screen |
| Halftone.RadiusRange | backend/halftone.py:118-125 | for a pixel in `[0,255]` the radius lies in `[0, dot_size/2]` |
| Halftone.RadiusEnds | backend/halftone.py:118-125 | non-inverted: 0 gives `dot_size/2` and 255 gives 0; inverted: the ends are swapped |
| Halftone.RadiusInvertSum | backend/halftone.py:251-256 | inverted and non-inverted radii of the same pixel sum to `dot_size/2` |
| Halftone.RadiusMonotone | backend/halftone.py:251-256 | darker pixels give larger dots, unless inverted, when brighter pixels do |
| Halftone.CellDotRadius | backend/halftone.py:127-128 | an emitted dot has radius in `(0.5, dot_size/2]` |
| Halftone.ScreenDotsSound | backend/halftone.py:127-139 | every emitted dot is its cell's dot, has `r > 0.5`, and is accepted by the variant |
| Halftone.ScreenDotsInArea | backend/halftone.py:263-265 | basic centres lie in `[0,W)×[0,H)`; traditional centres lie within the `dot_size` margin |
| Halftone.ScreenDotsRadius | backend/halftone.py:251-259 | every emitted radius lies in `(0.5, dot_size/2]` |
| Halftone.ScreenDotsOnGrid | backend/halftone.py:101-102 | with a positive step the centres are `min + k·step` below the max bound, in row-then-column order, with no repeats |
| Halftone.ScreenDotsComplete | backend/halftone.py:234-274 | every grid point whose cell yields a dot contributes that dot |
| Halftone.ScreenDotsNegativeStep | backend/halftone.py:234-235 | a negative step draws nothing (`range` is empty since `min <= max`) |
| Halftone.ZeroAngleCell | backend/halftone.py:104-134 | at angle 0 a cell samples its own pixel and outside the canvas yields nothing |
| Halftone.RotatedCorners | backend/halftone.py:89-93 | exactly four points, the canvas corners rotated about the centre; `RotateCorners` proves the append loop at lines 219-226 builds the same list |
| Halftone.SamplePoint | backend/halftone.py:104-106 | the grid point rotated by `-angle` about the canvas centre (also lines 237-239); `RotateInverse` and `ZeroAngleCell` characterise it |
| Halftone.Accepts | backend/halftone.py:133-134 | the basic variant keeps centres on the canvas, the traditional one (lines 264-265) those within the `dot_size` margin; `ScreenDotsInArea` gives it for every drawn dot |
| Halftone.BlackImageFullGrid | backend/halftone.py:101-139 | an all-black image at angle 0 gets a full-size dot on exactly the canvas grid points |
| Halftone.BlankImageEmpty | backend/halftone.py:118-128 | an all-white image (all-black when inverted) draws no dot |
| RangeWalk.WalkSound | backend/halftone.py:102 | everything a `range(v, stop, step)` loop yields comes from a grid point below `stop` |
| RangeWalk.WalkComplete | backend/halftone.py:102 | every grid point below `stop` is visited |
| RangeWalk.WalkOrdered | backend/halftone.py:102 | with a positive step the points are visited in increasing order |
| RangeWalk.WalkNegativeStep | backend/halftone.py:102 | a negative step from below `stop` visits nothing |
| RangeWalk.Walk2Sound | backend/halftone.py:101-102 | the nested loops yield only from grid points inside both ranges |
| RangeWalk.Walk | backend/halftone.py:102 | what a `range(v, stop, step)` loop body yields, in order; `WalkSound`, `WalkComplete` and `WalkOrdered` characterise it |
| RangeWalk.Walk2 | backend/halftone.py:101-102 | what the nested `y`/`x` range loops yield, row by row; `Walk2Sound`, `Walk2Complete` and `Walk2Ordered` characterise it |
| RangeWalk.Walk2Complete | backend/halftone.py:101-102 | the nested loops visit every grid point inside both ranges |
| RangeWalk.Walk2Ordered | backend/halftone.py:101-102 | the nested loops visit rows in order and columns in order within a row |
| RangeWalk.Walk2NegativeStep | backend/halftone.py:101 | a negative step yields nothing |
| RangeWalk.WalkNothing | backend/halftone.py:102 | a body that never yields gives an empty walk |
| RangeWalk.Walk2Nothing | backend/halftone.py:101-102 | a body that never yields gives an empty nested walk |
| AsciiArt.RampFor | backend/halftone.py:345-347 | the ramp for either setting has 10 characters, all from the `" .:-=+*#%@"` ramp of line 309, reversed when `invert` is set |
| AsciiArt.CharIndex | backend/halftone.py:354 | `int(map_value(pixel, 0, 255, 0, len(chars) - 1))`; its range, ends and monotonicity are the `CharIndex*` lemmas |
| AsciiArt.CharIndexRange | backend/halftone.py:354 | for a pixel in `[0,255]` the index lies in `[0, len(ramp)-1]` |
| AsciiArt.CharIndexEnds | backend/halftone.py:354 | pixel 0 gives index 0 and pixel 255 gives the last index |
| AsciiArt.CharIndexMonotone | backend/halftone.py:354 | brighter pixels never get a smaller index |
| AsciiArt.CharFor | backend/halftone.py:354-355 | every character comes from the ramp |
| AsciiArt.CharForInvert | backend/halftone.py:345-355 | inverting reads the ramp from the other end at the same index |
| AsciiArt.CharForEnds | backend/halftone.py:345-355 | black is `' '` and white is `'@'`, swapped when inverting |
| AsciiArt.AsciiLines | backend/halftone.py:349-356 | one line per row and one character per pixel, each the pixel's ramp character |
| AsciiArt.TextSplitsBack | backend/halftone.py:363-365 | the text file `'\n'.join(lines)` splits back into exactly the lines |
| AsciiArt.TextPath | backend/halftone.py:363 | `output_path.replace('.png', '.txt')`; `TextPathOfPng` and `TextPathWithoutPng` state its two cases |
| AsciiArt.TextPathOfPng | backend/halftone.py:363 | `stem.png` with no other `.png` gives `stem.txt` |
| AsciiArt.TextPathWithoutPng | backend/halftone.py:363 | a path without `.png` is unchanged |
| AsciiArt.RenderSize | backend/halftone.py:419-436 | no lines give width `char_width + 20` and height 20 (`max_line_length` defaults to 1) |
| AsciiArt.MaxLength | backend/halftone.py:419 | the longest line length, or 1 when there are no lines |
| AsciiArt.RenderSizeOfImage | backend/halftone.py:419-436 | equal-length lines give a `width·cw + 20` by `rows·ch + 20` image |
| AsciiArt.CharHeight | backend/halftone.py:336-338 | `int(char_width * (height / width) * 0.5)`, truncated toward zero; `CharHeightPositive` says when it is at least 1 |
| AsciiArt.CharHeightPositive | backend/halftone.py:336-341 | the grid has a row iff `char_width * height >= 2 * width`, so a narrow or negative width leaves no row for the resize |
| AsciiArt.CharHeightExamples | backend/halftone.py:336-338 | a 1280×720 photo gets 22 rows at 80 columns and 0 rows at one column |
| AsciiArt.Resizable | backend/halftone.py:336-341 | the resize is accepted: non-zero photo width, and both grid sides at least 1 |
| AsciiArt.Generated | backend/halftone.py:327-391 | the specification of `generate_ascii_art`: the two error results and, on success, the exact grid, lines, text and text path |
| AsciiArt.ResizedFrom | backend/halftone.py:336-341 | the resampled image has the `char_width × char_height` grid size whenever the resize is accepted; it is what `GenerateAsciiArt` requires of its resized input |
| AsciiArt.GenerateAsciiArt | backend/halftone.py:311-392 | renders iff the photo has a width and the grid is at least 1×1; then the grid is `char_width` × `CharHeight`, every line maps its row pixel by pixel, the text splits back into the lines and the text path replaces `.png`; otherwise the division-by-zero or resize error |
| Printer.OutputLines | backend/printer.py:24 | at least one line, none containing a newline |
| Printer.DetectedDefault | backend/printer.py:23-30 | a default is detected only from a successful run whose first line contains "printer" and has two tokens; it is token 1 |
| Printer.EntryOf | backend/printer.py:48-57 | a line yields an entry iff it starts with "printer" and has ≥ 2 tokens; the name is token 1; "Unknown" for exactly 2 tokens, otherwise the status splits back into tokens 2..; `is_default` iff the name is the default |
| Printer.Entries | backend/printer.py:46-57 | the entries of the qualifying lines in order; `EntriesExact` characterises it |
| Printer.EntriesExact | backend/printer.py:46-57 | every entry comes from some line, every qualifying line contributes its entry, and there are no more entries than lines |
| Printer.DetectedDefaultListed | backend/printer.py:24-57 | when the first line is a printer line, the detected default is the first listed printer and it is flagged default |
| Printer.JobIdSpec | backend/printer.py:120-127 | a job id is the token two after the first `id` with two tokens after it; None iff no such `id` exists |
| Printer.JobId | backend/printer.py:120-127 | the recursive job-id search over the tokens; `JobIdSpec` characterises it |
| Printer.JobIdFirstIdToken | backend/printer.py:124-127 | the job id is decided at the first `id` token: the token two after it, or None when fewer than two tokens follow |
| Printer.ExtractJobId | backend/printer.py:120-127 | the loop with early `break` computes exactly `JobId` |
| Printer.ImageCommand | backend/printer.py:106-113 | ten arguments starting with `lp` and ending with the file |
| Printer.TextCommand | backend/printer.py:193-201 | twelve arguments starting with `lp` and ending with the file |
| Printer.ImageCommandReadsBack | backend/printer.py:106-113 | read as `lp` reads its options, the image command names the printer, the copy count, `media=<size>` and `fit-to-page`, and the one file |
| Printer.TextCommandReadsBack | backend/printer.py:193-201 | the text command reads back as printer, copies, `cpi=12`, `lpi=8`, `font-size=<n>`, and the one file |
| Printer.ChoosePrinter | backend/printer.py:96-102 | an explicit truthy name wins, then a truthy default; None iff both are falsy |
| Printer.FailureError | backend/printer.py:140 | empty stderr gives "Unknown print error", otherwise the stripped stderr |
| Printer.FailureErrorOfBlankStderr | backend/printer.py:140 | a whitespace-only stderr yields an empty error text, not the fallback |
| Printer.LpOutcome | backend/printer.py:116-160 | submitted iff `lp` exits 0, with the extracted job id; nonzero gives the failure error; timeout and exception give their fixed errors |
| Printer.PrinterManager.constructor | backend/printer.py:14-16 | the default printer is what detection finds |
| Printer.PrinterManager.DetectPrinters | backend/printer.py:18-36 | the default is replaced only when detection finds one |
| Printer.PrinterManager.GetAvailablePrinters | backend/printer.py:38-73 | the loop lists exactly `Entries` of the output lines (none on a nonzero exit); an exception gives the failure result |
| Printer.PrinterManager.Submit | backend/printer.py:89-160 | a missing file fails first; no printer fails before any command is built; otherwise the outcome of running the command for the chosen printer |
| Printer.PrinterManager.PrintImage | backend/printer.py:75-160 | `Submit` with the image command |
| Printer.PrinterManager.PrintTextFile | backend/printer.py:162-247 | `Submit` with the text command |
| PyText.Words | backend/printer.py:49 | every word is a whitespace-free non-empty token |
| PyText.WordsOfJoin | backend/printer.py:52 | tokens joined with single spaces split back into the tokens |
| PyText.Strip | backend/printer.py:140 | the result neither starts nor ends with whitespace |
| PyText.LStrip | backend/printer.py:140 | removes exactly the leading whitespace: the result is a suffix not starting with whitespace, and everything cut is whitespace |
| PyText.RStrip | backend/printer.py:140 | removes exactly the trailing whitespace: the result is a prefix not ending with whitespace, and everything cut is whitespace |
| PyText.StripIdempotent | backend/printer.py:140 | stripping twice is stripping once |
| PyText.SplitOn | backend/printer.py:24 | at least one part, none containing the separator |
| PyText.JoinSplitOn | backend/printer.py:24 | joining the parts of a split with the separator gives back the string |
| PyText.SplitOnJoin | backend/halftone.py:365 | splitting a join of separator-free parts gives back the parts |
| PyText.IntToString | backend/printer.py:109 | a digit string with a leading `-` exactly for negatives |
| PyText.ParseIntToString | backend/printer.py:109 | `str(copies)` parses back to `copies` |
| PyText.StrLe | backend/history.py:161 | lexicographic order on code points, as Python compares strings; `StrLeTotal` and `StrLeTrans` make it a total preorder |
| PyText.StrLeTotal | backend/history.py:161 | string ordering is total |
| PyText.StrLeTrans | backend/history.py:161 | string ordering is transitive |
| PyText.Lower | backend/app.py:369 | same length, each character lower-cased |
| PyText.ReplaceAll | backend/halftone.py:363 | `str.replace`, left to right without overlaps; `ReplaceAbsent` and `ReplaceSuffix` state its cases |
| PyText.ReplaceAbsent | backend/halftone.py:363 | replacing an absent pattern changes nothing |
| PyText.ReplaceSuffix | backend/halftone.py:363 | a pattern occurring only at the end is replaced once there |
| Sorting.SortBy | backend/history.py:161 | the sort is a permutation of its input (stability is `SortByStable`) |
| Sorting.SortBySorted | backend/history.py:307 | for a total preorder the sort's output is sorted |
| Sorting.LevelWith | backend/history.py:161 | the elements ranked level with a key element, in list order |
| Sorting.SortByStable | backend/history.py:161 | `list.sort` is stable: elements with equal keys come out in their listed order |
| Paths.LastDot | backend/history.py:37 | the last dot's position, with no dot after it |
| Paths.Suffix | backend/history.py:68 | `Path.suffix` is empty or a dot followed by dot-free text, and ends the name |
| Paths.Stem | backend/history.py:37 | `Path.stem`: the name up to its suffix; `StemSuffix` proves stem and suffix put together give the name back |
| Paths.WithSuffix | backend/history.py:37 | `Path.with_suffix`: the stem followed by the new suffix; `StemOfJoined` proves the stem is kept |
| Paths.JsonOf | backend/history.py:37 | the metadata companion, same stem with `.json`; `CompanionsNotImages` and `CompanionsDiffer` prove it is never an image and never the text companion |
| Paths.TextOf | backend/history.py:85 | the text companion, same stem with `.txt`; `CompanionsNotImages` and `CompanionsDiffer` characterise it |
| Paths.IsImageName | backend/history.py:306 | what the `*.jpg` and `*.png` globs match; `ImageNotCompanion` proves no companion is an image |
| Paths.StemSuffix | backend/history.py:68 | stem and suffix put back together give the name |
| Paths.StemOfJoined | backend/history.py:69 | a dot-free stem joined with a suffix has that stem and suffix |
| Paths.CompanionsNotImages | backend/history.py:317-324 | `.json` and `.txt` companions are never `*.jpg`/`*.png` images |
| Paths.ImageNotCompanion | backend/history.py:313-324 | an image is neither companion of any name |
| Paths.CompanionsDiffer | backend/history.py:317-324 | the two companions of a name are different files |
| Retention.Glob | backend/history.py:306 | a glob lists each matching name once, and only those |
| Retention.OlderOrSameOrders | backend/history.py:307 | the mtime sort key is a total preorder |
| Retention.PruneCount | backend/history.py:310 | the `while len(files) > max_files` loop removes `n - max_files` when over the limit, none within it, all for a negative limit |
| Retention.RemoveImage | backend/history.py:313-324 | one round only removes: what stays is unchanged, and only the image and its `.json`/`.txt` can go |
| Retention.RemoveAll | backend/history.py:310-324 | the rounds only remove, and only names among the listed images and their companions |
| Retention.Images | backend/history.py:306 | the names the two globs list; `CleanedWithinLimit` counts them after cleanup |
| Retention.OlderOrSame | backend/history.py:307 | the cleanup sort key, older modification time first; `OlderOrSameOrders` proves it a total preorder |
| Retention.Family | backend/history.py:313-324 | the listed images with their `.json` and `.txt` companions; `FamilyImages` and `RemoveAllRegular` characterise it |
| Retention.Pruned | backend/history.py:310-324 | the loop over the sorted list only removes, and only the listed images and their companions |
| Retention.Cleaned | backend/history.py:306-324 | cleanup only removes entries and leaves the rest unchanged; `CleanedFolder` gives exactly what it removes |
| Retention.RemoveImageRegular | backend/history.py:313-324 | in a folder of regular files an image's removal takes exactly it and its two companions |
| Retention.RemoveAllRegular | backend/history.py:310-324 | successive removals take exactly the images and their companions |
| Retention.CleanedFolder | backend/history.py:306-324 | in a folder of regular files, cleanup removes exactly the oldest images' families; the remaining images are the newest ones; within the limit nothing changes |
| Retention.CleanedWithinLimit | backend/history.py:306-311 | in a folder of regular files, after cleanup the folder holds `min(n, max_files)` images (none for a negative limit) |
| Retention.CleanedOldestFirst | backend/history.py:307-311 | in a folder of regular files, every pruned image is at most as new as every kept image |
| History.ItemFor | backend/history.py:127-158 | the list element carries the file's name and folder; only processed images carry a mode |
| History.NewerOrSameOrders | backend/history.py:161 | the newest-first key is a total preorder |
| History.FileMetadata | backend/history.py:180-214 | not found iff neither folder has both the file and its `.json`; a found result comes from captures whenever captures has both, and carries that folder's parsed metadata |
| History.MetaRead | backend/history.py:188-199 | reading the `.json` of a located file: its parsed metadata, or the failure result when it is not a readable JSON file |
| History.InFolderMembers | backend/history.py:229 | the reported paths are exactly the deleted names in that folder |
| History.DeleteNamesRegular | backend/history.py:222-237 | for regular files, each existing candidate is unlinked and reported, nothing else is, and nothing raises |
| History.DeleteRegularFolders | backend/history.py:216-251 | deletion empties both folders of the image and its companions, and the metadata lookup afterwards finds nothing |
| History.DeleteRegularReport | backend/history.py:239-251 | success iff some candidate existed in either folder, and the report lists exactly those files |
| History.DeleteEffect | backend/history.py:216-260 | captures first, then processed; an unlink error stops with what was already removed gone; otherwise the report of both folders |
| History.DirsOnly | backend/history.py:270-273 | no regular file remains, and exactly the sub-directories are kept |
| History.ClearAllFiles | backend/history.py:265-287 | for regular files the folder ends empty and the count is its size |
| History.CaptureName | backend/history.py:29-30 | `capture_<stamp>.jpg`; `CaptureNameParts` gives its suffix and metadata name |
| History.ProcessedName | backend/history.py:64-69 | `<mode>_<stamp><source suffix>`; `ProcessedNameParts` gives its suffix and metadata name |
| History.ModeOf | backend/history.py:65 | `metadata.get("mode", "processed")` |
| History.MetadataEntry | backend/history.py:36-40 | the regular `.json` file holding the metadata, written at the save time |
| History.Copy | backend/history.py:34 | `shutil.copy2` of a regular file (also lines 73 and 86): the name now holds the source, unless a sub-directory is in the way; `StageCaptureRegular` gives its effect |
| History.MetadataFor | backend/history.py:117-125 | the companion JSON, or `{}` when it is missing or unreadable (also lines 140-148); `SavedCaptureReadsBack` proves a saved capture lists its metadata |
| History.Listed | backend/history.py:108-158 | which items the listing of a category holds; `GetHistoryList` ensures its files are exactly these |
| History.ListedCount | backend/history.py:166 | the number of listed captures and processed images; `GetHistoryList` ensures `total_count` equals it |
| History.DeleteNames | backend/history.py:222-237 | the per-folder delete loop; `DeleteNamesRegular` proves that on regular files it unlinks and reports exactly the existing candidates |
| History.StageCapture | backend/history.py:29-40 | the copy and the metadata write of `save_capture`, failing on a missing source or a directory in the way; `StageCaptureRegular` gives its effect on regular folders |
| History.StageProcessed | backend/history.py:64-87 | as `StageCapture` with the processed name, plus the optional `.txt` copy when the metadata names an existing text file |
| History.CaptureNameParts | backend/history.py:29-37 | a capture name is a `.jpg` image whose metadata file is `capture_<stamp>.json` |
| History.ProcessedNameParts | backend/history.py:64-76 | a processed name `mode_stamp + ext` keeps the source suffix, and its metadata file is `mode_stamp.json` |
| History.StageCaptureRegular | backend/history.py:29-40 | a regular save adds exactly the image and its metadata, and the folder gains exactly that image |
| History.SavedCaptureReadsBack | backend/history.py:26-51 | a capture saved within the limit is listed, and its metadata reads back from the listing and from `get_file_metadata` |
| History.NewestImageKept | backend/history.py:307-311 | the strictly newest image survives cleanup when `max_files >= 1` |
| History.HistoryManager.constructor | backend/history.py:15-18 | the manager starts with the given folders and limit |
| History.HistoryManager.CleanupOldFiles | backend/history.py:298-332 | the folder becomes `Cleaned` for some listing of its images; the other folder is untouched |
| History.HistoryManager.SaveCapture | backend/history.py:26-59 | after successful writes the result names the image and its `.json` and cleanup runs; a failed write gives `SaveFailed` with the partial writes and no cleanup |
| History.HistoryManager.SaveProcessed | backend/history.py:61-106 | as for captures, with the `mode_stamp + suffix` name and the optional `.txt` copy |
| History.HistoryManager.GetHistoryList | backend/history.py:108-178 | the list holds exactly the category's `*.jpg` captures and `*.png` processed images, `total_count` is its length, and it is sorted newest first |
| History.HistoryManager.GetFileMetadata | backend/history.py:180-214 | not found iff no folder holds both the file and its `.json` |
| History.HistoryManager.DeleteFile | backend/history.py:216-260 | the folders and the report are those of `DeleteEffect` |
| History.HistoryManager.ClearHistory | backend/history.py:262-296 | the selected folders lose every regular file, sub-directories stay, and the count is the number of regular files removed |
| History.ImageGlobs | backend/history.py:306 | the two globs together list each image once |
| History.UnlinkImage | backend/history.py:311-329 | one round of the loop is `RemoveImage` |
| History.PruneFolder | backend/history.py:300-324 | the glob, sort and pop loop leave the folder `Cleaned` for the listing obtained |
| History.ListImages | backend/history.py:116-134 | one element per name with the extension, exactly those, as the listing describes them |
| History.DeleteCandidates | backend/history.py:222-237 | the three existence checks and unlinks compute `DeleteNames` |
| History.ClearFolder | backend/history.py:270-273 | the `iterdir` loop leaves only sub-directories and counts the regular files |
| App.IntOr | backend/app.py:155-187 | `o or d` for an optional integer: `None` and 0 give the default |
| App.RealOr | backend/app.py:156 | `o or d` for an optional float: `None` and 0.0 give the default; `ResolveAngle` and `LegacyAngleUsed` characterise it |
| App.Truthy | backend/app.py:159-186 | `bool(o)` for an optional flag: only `True` is truthy |
| App.ResolveResolution | backend/app.py:155 | the resolution is never zero: 5 or one of the two request fields |
| App.ResolutionPreference | backend/app.py:155 | a truthy `dot_resolution` wins, then a truthy `dot_spacing`, then 5 |
| App.ResolveAngle | backend/app.py:156 | an explicit `screen_angle` wins; only when it is null does `angle or 0.0` apply |
| App.PlanConvert | backend/app.py:145-198 | missing photo gives 404 before the mode is checked; an unknown mode gives 400; a halftone plan uses the `traditional` flag and the resolved, non-zero size, resolution and threshold; an ASCII plan uses non-zero width and font size |
| App.DefaultPlans | backend/app.py:52-69 | the declared defaults give traditional halftone (8, 5, 0°, 127) and ASCII (80, 8) |
| App.ZerosFallBack | backend/app.py:155-179 | zero values fall back to 8, 5 and 127 |
| App.DotSizeDefault | backend/app.py:164-174 | a truthy `dot_size` is used as sent; `None` or 0 gives 8 |
| App.ThresholdDefault | backend/app.py:177 | a truthy `threshold` is used as sent; `None` or 0 gives 127 |
| App.CharWidthDefault | backend/app.py:185 | a truthy `char_width`, negative ones included, is used as sent; `None` or 0 gives 80 |
| App.FontSizeDefault | backend/app.py:187 | a truthy `font_size` is used as sent; `None` or 0 gives 8 |
| App.LegacyAngleShadowed | backend/app.py:156 | with `screen_angle` present, `angle` has no effect |
| App.LegacyAngleUsed | backend/app.py:156 | with `screen_angle` null, a given `angle` is used |
| App.ConvertImage | backend/app.py:141-213 | refusals with 404/400; otherwise the exact halftone result of the planned variant (never a 500), or for ASCII the `Generated` result on the planned width, with 500 exactly when the grid is empty or the photo has no width |
| App.MediaType | backend/app.py:368-376 | the media type from the lower-cased ending; `MediaTypeCases` characterises it |
| App.ImageType | backend/app.py:370-372 | `image/<last part, lower-cased>`, with `image/jpg` corrected to `image/jpeg`; `ImageTypeOf` gives its values |
| App.LastPart | backend/app.py:370 | `filename.split('.')[-1]`; `LastPartLower` proves a name ending in `.ext` has `ext` as its lower-cased last part |
| App.LastPartLower | backend/app.py:370 | a name ending in `.ext` (any case) has `ext` as its lower-cased last part |
| App.ImageTypeOf | backend/app.py:370-372 | last part `png` gives `image/png`; `jpg` and `jpeg` both give `image/jpeg` |
| App.MediaTypePng | backend/app.py:369-372 | `.png` in any case gives `image/png` |
| App.MediaTypeJpeg | backend/app.py:369-372 | `.jpg` or `.jpeg` in any case gives `image/jpeg` |
| App.MediaTypeNotImage | backend/app.py:373-376 | a non-image name gives `text/plain` for `.txt`, otherwise `application/octet-stream` |
| App.MediaTypeCases | backend/app.py:368-376 | each media type is chosen iff its ending is present (case-insensitive) |
| App.HistoryFileResponse | backend/app.py:360-388 | not found iff neither folder has the name; the captures folder is searched first; the media type is `MediaType(filename)` |

## Left out

- Image I/O with PIL is not modelled: loading, RGB→L conversion, `draw.ellipse` and PNG saving. The image is a grid of 8-bit values, and the result is the dot list.
- Floating point is not modelled. `math.cos`/`math.sin` are the `Trig` parameter, and `math.radians` uses a fixed decimal π; all arithmetic is exact `real`.
- Halftone.CellDot: the source clamps `int(x)` into the image. The model samples `floor(x)` for points on the canvas; `PixelIndex` proves the two agree there.
- The LANCZOS resampling of the ASCII resize is not modelled. `GenerateAsciiArt` and `ConvertImage` take the resampled pixels as a parameter, of the grid size whenever the resize is accepted.
- AsciiArt.CharHeight: computed in exact arithmetic; the float product of the source can come out one lower where the exact product is a whole number.
- Font discovery and text drawing in `_render_ascii_to_image` are not modelled. The character cell size is a parameter of `RenderSize`.
- PyText.Lower: only ASCII letters are lower-cased; Python's full Unicode case mapping is not modelled.
- Subprocess execution is not modelled. Each `lpstat`/`lp` run is a `RunResult` (completed with return code and output, timed out, or raised) passed in by the caller.
- `get_print_job_status` and `cancel_print_job` are not modelled. Each is one subprocess call whose result is returned as is, with no logic beyond that.
- `datetime.now()` is not modelled. The timestamp text and the write time are parameters of the save methods.
- `json.dump` and `json.load` are not modelled. A metadata file holds a `Metadata` value, or None when it cannot be parsed, and only the `timestamp` and `mode` keys are kept.
- History.MetadataEntry: the size of a written `.json` file is recorded as 0.
- History.SaveProcessed: does not record the `history_text_path` key that the source adds to the metadata after the file is written.
- The copy of a file onto an existing sub-directory leaves the folder map unchanged, since the file lands inside that directory, which the model does not track.
- File names containing `/` are not modelled; every name is one entry inside its folder.
- History.HistoryManager.GetHistoryList: does not state how images with equal timestamps are ordered. The sort keeps them in glob order (`Sorting.SortByStable`), but the glob order is the file system's; the contract gives the members, the count and the newest-first order.
- Only the `status`, `error` and result data of responses are modelled. The human-readable `message` strings and the logging are not.
- FastAPI routing, CORS, static mounting, exception handlers and startup are not modelled. The routes for capture, preview, print, status, printers, history listing and history deletion (`DELETE /history/{filename}`, `DELETE /history`), and the history save after a successful conversion, delegate to the modelled managers and are left out.
- The ASCII `.txt` copy to `./static/ascii.txt` after conversion is not modelled.
- `backend/camera.py` is not part of this model, nor are the test and example scripts, which drive a live server.
