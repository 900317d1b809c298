# pycture: colour replacement, background removal and watermark placement

This project models in Dafny the three pieces of `pycture.py` that hold
decisions of their own:

- `replace_color` scans every (x, y) of an image. Each pixel exactly equal to
  the old colour becomes the new colour. Every other pixel is left alone.
- `remove_bg` takes the colour of pixel (0, 0) as the background. It replaces
  that colour everywhere with transparent black.
- `getCoordinates` turns a position keyword, plus the sizes of the base image
  and the logo, into the offset where `watermark` pastes the logo.

Files and modules:

- `colors.dfy` (`Colors`): an RGBA `Color` with four channels in 0..255, and
  `Transparent` = (0, 0, 0, 0).
- `raster.dfy` (`Raster`): `Image<T>`, a width x height raster stored column by
  column, so the pixel at (x, y) is `columns[x][y]`. `Valid()` says the image is
  rectangular. The module also has occurrence and counting helpers, and the
  `Result` type for a failed pixel read.
- `replace.dfy` (`Replace`): `replace_color` in two forms. One is a pure
  function over `Image<T>` that recurses column by column. The other is an
  in-place method over `array2<T>` whose loop runs x outer, y inner, as the
  source's does. Both work for any pixel type with equality, because
  `replace_color` only ever compares pixels.
- `background.dfy` (`Background`): `remove_bg` on RGBA images.
- `placement.dfy` (`Placement`): `getCoordinates` written as the source's
  literal if/elif chain. Next to it is an independent reference: a `Position`
  datatype, a table-driven keyword parser, and per-axis alignment (`Column`,
  `Row`, `Offset`, `Place`). A lemma proves the two agree on every input.

Assumptions:

- Images are rectangular. Every operation requires `Valid()`.
- `remove_bg` passes the scalar `(0)` as the new colour. It is modelled as
  `Transparent`, i.e. (0, 0, 0, 0). Pillow reads an integer ink on a
  multi-band image as packed ABGR, and 0 unpacks to all-zero channels.
- `remove_bg` is always called on an image converted to RGBA, so its pixels
  are modelled as `Color`.
- Calling `remove_bg` on an image with no pixels makes reading (0, 0) raise an
  index error. This is modelled as `Err(IndexOutOfRange)`.
- The keyword is `Option<string>`. `None` stands for Python's `None`. It is
  never lower-cased and falls through to the last branch.
- Centring uses the code's formula, `w // 2 - lw // 2`, not the floor of half
  the gap, `(w - lw) // 2`. The two differ by one exactly when `w` is even and
  `lw` is odd. `Placement.CenteringVersusHalfGap` states this.
- The sizes are natural numbers. Python's `//` and Dafny's `/` therefore agree.

## Model

| member | source | states |
|---|---|---|
| `Replace.ReplaceColor` | pycture.py:36-44 | the result has the input's width and height; each pixel equal to the old colour becomes the new colour, and every other pixel keeps its value; if the two colours differ, the old colour no longer occurs |
| `Replace.ReplaceColorInPlace` | pycture.py:36-44 | the x-outer, y-inner scan that writes the raster in place leaves every cell recoloured exactly as above, and touches nothing else |
| `Replace.ReplaceAbsentIsIdentity` | pycture.py:39-42 | if the old colour occurs nowhere, the image comes back unchanged |
| `Replace.ReplaceSameColorIsIdentity` | pycture.py:39-42 | replacing a colour by itself leaves the image unchanged |
| `Replace.ReplaceIdempotent` | pycture.py:39-42 | a second replacement with the same colours changes nothing |
| `Replace.ReplaceRoundTrip` | pycture.py:39-42 | if the new colour was absent beforehand, replacing new by old afterwards restores the original image exactly |
| `Replace.ReplaceCount` | pycture.py:39-42 | when the colours differ, the new colour ends up with its old count plus the old colour's count, and the old colour's count drops to zero |
| `Background.RemoveBackground` | pycture.py:30-33 | an image with no pixels fails with an index error; otherwise the size is kept, every pixel equal to the original (0, 0) colour, including (0, 0) itself, becomes transparent, and every other pixel is untouched |
| `Background.RemoveBackgroundIdempotent` | pycture.py:30-33 | removing the background of an image whose background was already removed changes nothing |
| `Background.UniformImageVanishes` | pycture.py:30-33 | an image of a single colour becomes entirely transparent |
| `Placement.Place` | pycture.py:62-87 | on each axis, the logo's start edge or end edge is flush with the base's, or the logo is centred with margins that differ by at most one pixel; a logo that fits lies entirely inside the base |
| `Placement.CenteringVersusHalfGap` | pycture.py:74-75 | the centring offset `w // 2 - lw // 2` equals `(w - lw) // 2`, plus one exactly when `w` is even and `lw` is odd |
| `Placement.GetCoordinatesResolves` | pycture.py:55-87 | the literal keyword chain equals alignment by the parsed position, for every keyword (including none) and every pair of sizes |
| `Placement.ParseNamed` | pycture.py:56-84 | a keyword selects a named position if and only if its lower-cased form is that position's long keyword or its alias |
| `Placement.ParseDefault` | pycture.py:56-87 | the fallback is chosen if and only if there is no keyword or the lower-cased keyword is none of the sixteen spellings |
| `Placement.AliasMatchesKeyword` | pycture.py:62-84 | a long keyword and its alias, in any letter case, give the same offset |
| `Placement.GetCoordinatesIgnoresCase` | pycture.py:56-57 | keywords that differ only in letter case give the same offset |
| `Placement.GetCoordinatesFallback` | pycture.py:86-87 | no keyword, or an unrecognised one, pastes at (width - logo width, height - logo height) |
| `Placement.GetCoordinatesInBounds` | pycture.py:62-87 | when the logo fits, every keyword gives 0 <= x <= width - logo width and 0 <= y <= height - logo height |
| `Placement.KeywordCaseExample` | pycture.py:56-63 | "TOP-LEFT", "top-left" and "tl" all parse to the top-left position |
| `Placement.FallbackExample` | pycture.py:86-87 | a 10 x 10 logo on a 100 x 50 base, with "bottom-right-typo" or with no keyword, is pasted at (90, 40) |
| `Placement.CenterExample` | pycture.py:74-75 | "center" with a 20 x 20 logo on a 100 x 100 base gives (40, 40) |
| `Placement.WatermarkExample` | pycture.py:47-48 | a 50 x 50 logo on a 200 x 200 base with keyword "bottom-right" is placed at (150, 150) |

## Left out

- `resize`, `crop` and `overlay` (pycture.py:10-27) only call Pillow's `resize`, `crop`, `new` and `paste`. They contain no logic of their own.
- `watermark`'s compositing (pycture.py:50) is a call to Pillow's `paste` with an alpha mask. Its clipping behaviour lives in the library. Only the offset it is given, `GetCoordinates`, is modelled.
- `getArgs` (argparse) and `pbar` (tqdm and `sleep`) are command-line and display plumbing.
- The `__main__` block is file-system I/O: the output directory, globbing, `Image.open`, `convert`, `save` and extension renaming. That includes its replace-colour branch, which reads the overlay arguments instead of the replace-colour arguments (pycture.py:169-170).
- A majority-colour background heuristic: `remove_bg` here uses only the (0, 0) pixel.
- Images in modes other than RGBA: `replace_color` is modelled for any pixel type with equality. A write of a colour whose arity does not match the image's mode is Pillow's concern and is not modelled.
- Unicode lower-casing. `Lower` folds ASCII letters only, while Python's `str.lower` folds all of Unicode. The only non-ASCII characters whose lower case contains an ASCII letter are U+212A (to `k`) and U+0130 (to `i` followed by U+0307). Neither can complete one of the sixteen keyword spellings, so the keyword chosen is the same.
- Pillow's negative-index reads in `getpixel`: the only read modelled is at (0, 0).
