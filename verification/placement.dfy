/** Watermark placement: a position keyword plus the sizes of the base image
    and of the logo give the offset at which the logo is pasted. */
module Placement {
  import Raster

  datatype Option<T> = None | Some(value: T)

  /** The nine placements. The source names eight of them; every other keyword,
      and no keyword at all, means the bottom-right corner (Default). */
  datatype Position = TopLeft | Top | TopRight | CenterLeft | Center | CenterRight | BottomLeft | Bottom | Default

  /** Where the logo sits along one axis. */
  datatype Align = Start | Middle | End

  function Column(p: Position): Align
  {
    match p
    case TopLeft | CenterLeft | BottomLeft => Start
    case Top | Center | Bottom => Middle
    case TopRight | CenterRight | Default => End
  }

  function Row(p: Position): Align
  {
    match p
    case TopLeft | Top | TopRight => Start
    case CenterLeft | Center | CenterRight => Middle
    case BottomLeft | Bottom | Default => End
  }

  /** Offset along one axis of a logo of size logoSize inside a base of size size.
      Centring halves each size separately, as the source does. */
  function Offset(a: Align, size: nat, logoSize: nat): int
  {
    match a
    case Start => 0
    case Middle => size / 2 - logoSize / 2
    case End => size - logoSize
  }

  /** The paste offset of a logo at position p. Each axis is aligned on its own:
      start edges flush, end edges flush, or centred to within one pixel; a logo
      that fits is placed entirely inside the base. */
  function Place(p: Position, width: nat, height: nat, logoWidth: nat, logoHeight: nat): (xy: (int, int))
    ensures Column(p) == Start ==> xy.0 == 0
    ensures Column(p) == End ==> xy.0 + logoWidth == width
    ensures Column(p) == Middle ==> -1 <= xy.0 - (width - (xy.0 + logoWidth)) <= 1
    ensures Row(p) == Start ==> xy.1 == 0
    ensures Row(p) == End ==> xy.1 + logoHeight == height
    ensures Row(p) == Middle ==> -1 <= xy.1 - (height - (xy.1 + logoHeight)) <= 1
    ensures logoWidth <= width ==> 0 <= xy.0 <= width - logoWidth
    ensures logoHeight <= height ==> 0 <= xy.1 <= height - logoHeight
  {
    (Offset(Column(p), width, logoWidth), Offset(Row(p), height, logoHeight))
  }

  /** The source's centring, w // 2 - lw // 2, exceeds the floor of half the gap,
      (w - lw) // 2, by one exactly when w is even and lw is odd. */
  lemma CenteringVersusHalfGap(size: nat, logoSize: nat)
    ensures Offset(Middle, size, logoSize)
            == (size - logoSize) / 2 + (if size % 2 == 0 && logoSize % 2 == 1 then 1 else 0)
  {
  }

  /** ASCII lower-casing of one character. */
  function LowerChar(c: char): char
  {
    if 'A' <= c <= 'Z' then (c as int - 'A' as int + 'a' as int) as char else c
  }

  function Lower(s: string): string
  {
    seq(|s|, i requires 0 <= i < |s| => LowerChar(s[i]))
  }

  /** s and t spell the same word up to the case of their letters. */
  predicate SameIgnoringCase(s: string, t: string)
  {
    |s| == |t| && forall i :: 0 <= i < |s| ==> LowerChar(s[i]) == LowerChar(t[i])
  }

  /** The long keyword and the short alias of each named position. */
  function Spellings(p: Position): set<string>
  {
    match p
    case TopLeft => {"top-left", "tl"}
    case Top => {"top", "t"}
    case TopRight => {"top-right", "tr"}
    case CenterLeft => {"center-left", "cl"}
    case Center => {"center", "c"}
    case CenterRight => {"center-right", "cr"}
    case BottomLeft => {"bottom-left", "bl"}
    case Bottom => {"bottom", "b"}
    case Default => {}
  }

  /** The named positions in the order the source tests them. */
  const Named: seq<Position> := [TopLeft, Top, TopRight, CenterLeft, Center, CenterRight, BottomLeft, Bottom]

  /** The first named position, from index i on, that has key as a spelling. */
  function Lookup(key: string, i: nat): Position
    requires i <= |Named|
    decreases |Named| - i
  {
    if i == |Named| then Default
    else if key in Spellings(Named[i]) then Named[i]
    else Lookup(key, i + 1)
  }

  /** The keyword a caller passes, read case-insensitively. */
  function ParsePosition(position: Option<string>): Position
  {
    match position
    case None => Default
    case Some(s) => Lookup(Lower(s), 0)
  }

  /** getCoordinates as written: lower-case the keyword if there is one, then
      test the keywords and aliases in turn; anything else is bottom-right. */
  function GetCoordinates<T, U>(position: Option<string>, img: Raster.Image<T>, logo: Raster.Image<U>): (int, int)
  {
    var key := if position.Some? then Some(Lower(position.value)) else None;
    var width, height := img.width, img.height;
    var logoWidth, logoHeight := logo.width, logo.height;
    if key == Some("top-left") || key == Some("tl") then
      (0, 0)
    else if key == Some("top") || key == Some("t") then
      (width / 2 - logoWidth / 2, 0)
    else if key == Some("top-right") || key == Some("tr") then
      (width - logoWidth, 0)
    else if key == Some("center-left") || key == Some("cl") then
      (0, height / 2 - logoHeight / 2)
    else if key == Some("center") || key == Some("c") then
      (width / 2 - logoWidth / 2, height / 2 - logoHeight / 2)
    else if key == Some("center-right") || key == Some("cr") then
      (width - logoWidth, height / 2 - logoHeight / 2)
    else if key == Some("bottom-left") || key == Some("bl") then
      (0, height - logoHeight)
    else if key == Some("bottom") || key == Some("b") then
      (width / 2 - logoWidth / 2, height - logoHeight)
    else
      (width - logoWidth, height - logoHeight)
  }

  /** The literal if/elif chain and the table lookup agree on every input. */
  lemma GetCoordinatesResolves<T, U>(position: Option<string>, img: Raster.Image<T>, logo: Raster.Image<U>)
    ensures GetCoordinates(position, img, logo)
            == Place(ParsePosition(position), img.width, img.height, logo.width, logo.height)
  {
  }

  /** No two positions share a spelling, so the order in which the keywords
      are tested does not change which position a keyword selects. */
  lemma SpellingsDisjoint()
    ensures forall p, q :: p != q ==> Spellings(p) !! Spellings(q)
  {
  }

  /** Lower-casing a string without capital letters leaves it unchanged. */
  lemma LowerKeepsLowerCase(s: string)
    requires forall i :: 0 <= i < |s| ==> !('A' <= s[i] <= 'Z')
    ensures Lower(s) == s
  {
  }

  /** A keyword selects a named position exactly when, lower-cased, it is that
      position's long keyword or its alias. */
  lemma ParseNamed(s: string, p: Position)
    requires p != Default
    ensures ParsePosition(Some(s)) == p <==> Lower(s) in Spellings(p)
  {
  }

  /** The fallback is taken exactly for no keyword or a keyword that is no
      position's spelling in any case. */
  lemma ParseDefault(position: Option<string>)
    ensures ParsePosition(position) == Default
            <==> position.None? || forall p :: Lower(position.value) !in Spellings(p)
  {
  }

  /** A keyword's long form and its alias, in any case, resolve to the same offset. */
  lemma AliasMatchesKeyword<T, U>(p: Position, s: string, t: string, img: Raster.Image<T>, logo: Raster.Image<U>)
    requires p != Default
    requires Lower(s) in Spellings(p) && Lower(t) in Spellings(p)
    ensures GetCoordinates(Some(s), img, logo) == GetCoordinates(Some(t), img, logo)
  {
  }

  /** Keywords that differ only in letter case resolve to the same offset. */
  lemma GetCoordinatesIgnoresCase<T, U>(s: string, t: string, img: Raster.Image<T>, logo: Raster.Image<U>)
    requires SameIgnoringCase(s, t)
    ensures GetCoordinates(Some(s), img, logo) == GetCoordinates(Some(t), img, logo)
  {
    assert Lower(s) == Lower(t);
  }

  /** Anything but a position's spelling, and no keyword at all, pastes the
      logo's bottom-right corner onto the base's bottom-right corner. */
  lemma GetCoordinatesFallback<T, U>(position: Option<string>, img: Raster.Image<T>, logo: Raster.Image<U>)
    requires position.None? || forall p :: Lower(position.value) !in Spellings(p)
    ensures GetCoordinates(position, img, logo) == (img.width - logo.width, img.height - logo.height)
  {
    ParseDefault(position);
    GetCoordinatesResolves(position, img, logo);
  }

  /** A logo that fits the base is pasted entirely inside it, whatever the keyword. */
  lemma GetCoordinatesInBounds<T, U>(position: Option<string>, img: Raster.Image<T>, logo: Raster.Image<U>)
    requires logo.width <= img.width && logo.height <= img.height
    ensures 0 <= GetCoordinates(position, img, logo).0 <= img.width - logo.width
    ensures 0 <= GetCoordinates(position, img, logo).1 <= img.height - logo.height
  {
  }

  lemma KeywordCaseExample()
    ensures ParsePosition(Some("TOP-LEFT")) == TopLeft
    ensures ParsePosition(Some("top-left")) == TopLeft
    ensures ParsePosition(Some("tl")) == TopLeft
  {
    ParseNamed("TOP-LEFT", TopLeft);
    ParseNamed("top-left", TopLeft);
    ParseNamed("tl", TopLeft);
    assert Lower("TOP-LEFT") == "top-left";
    LowerKeepsLowerCase("top-left");
    LowerKeepsLowerCase("tl");
  }

  lemma FallbackExample<T, U>(img: Raster.Image<T>, logo: Raster.Image<U>)
    requires img.width == 100 && img.height == 50 && logo.width == 10 && logo.height == 10
    ensures GetCoordinates(Some("bottom-right-typo"), img, logo) == (90, 40)
    ensures GetCoordinates(None, img, logo) == (90, 40)
  {
  }

  lemma CenterExample<T, U>(img: Raster.Image<T>, logo: Raster.Image<U>)
    requires img.width == 100 && img.height == 100 && logo.width == 20 && logo.height == 20
    ensures GetCoordinates(Some("center"), img, logo) == (40, 40)
  {
    LowerKeepsLowerCase("center");
  }

  /** A 50 x 50 logo on a 200 x 200 base, keyword "bottom-right" (which is not
      one of the sixteen spellings, so it takes the fallback). */
  lemma WatermarkExample<T, U>(img: Raster.Image<T>, logo: Raster.Image<U>)
    requires img.width == 200 && img.height == 200 && logo.width == 50 && logo.height == 50
    ensures GetCoordinates(Some("bottom-right"), img, logo) == (150, 150)
  {
    LowerKeepsLowerCase("bottom-right");
  }
}
