/** Colour replacement: every pixel exactly equal to one colour is overwritten
    with another, every other pixel is left alone. */
module Replace {
  import opened Raster

  /** The new value of one pixel. */
  function Recolor<T(==)>(c: T, oldColor: T, newColor: T): T
  {
    if c == oldColor then newColor else c
  }

  /** One column of the scan, top to bottom. */
  function ReplaceInColumn<T(==)>(col: seq<T>, oldColor: T, newColor: T): (r: seq<T>)
    ensures |r| == |col|
    ensures forall y :: 0 <= y < |col| ==> r[y] == (if col[y] == oldColor then newColor else col[y])
  {
    if col == [] then []
    else [Recolor(col[0], oldColor, newColor)] + ReplaceInColumn(col[1..], oldColor, newColor)
  }

  /** All columns of the scan, left to right. */
  function ReplaceInColumns<T(==)>(cols: seq<seq<T>>, oldColor: T, newColor: T): (r: seq<seq<T>>)
    ensures |r| == |cols|
    ensures forall x :: 0 <= x < |cols| ==> r[x] == ReplaceInColumn(cols[x], oldColor, newColor)
  {
    if cols == [] then []
    else [ReplaceInColumn(cols[0], oldColor, newColor)] + ReplaceInColumns(cols[1..], oldColor, newColor)
  }

  /** The image after replace_color(img, oldColor, newColor): same size, each
      pixel equal to oldColor becomes newColor, every other pixel is kept. */
  function ReplaceColor<T(==)>(img: Image<T>, oldColor: T, newColor: T): (r: Image<T>)
    requires img.Valid()
    ensures r.Valid()
    ensures r.width == img.width && r.height == img.height
    ensures forall x, y :: 0 <= x < r.width && 0 <= y < r.height ==>
              r.At(x, y) == (if img.At(x, y) == oldColor then newColor else img.At(x, y))
    ensures oldColor != newColor ==> !Occurs(r, oldColor)
  {
    Image(img.width, img.height, ReplaceInColumns(img.columns, oldColor, newColor))
  }

  /** The source's own loop: x outer, y inner, writing the raster in place. */
  method ReplaceColorInPlace<T(==)>(a: array2<T>, oldColor: T, newColor: T)
    modifies a
    ensures forall x, y :: 0 <= x < a.Length0 && 0 <= y < a.Length1 ==>
              a[x, y] == (if old(a[x, y]) == oldColor then newColor else old(a[x, y]))
  {
    var x := 0;
    while x < a.Length0
      invariant 0 <= x <= a.Length0
      invariant forall i, j :: 0 <= i < x && 0 <= j < a.Length1 ==>
                  a[i, j] == (if old(a[i, j]) == oldColor then newColor else old(a[i, j]))
      invariant forall i, j :: x <= i < a.Length0 && 0 <= j < a.Length1 ==> a[i, j] == old(a[i, j])
    {
      var y := 0;
      while y < a.Length1
        invariant 0 <= y <= a.Length1
        invariant forall i, j :: 0 <= i < x && 0 <= j < a.Length1 ==>
                    a[i, j] == (if old(a[i, j]) == oldColor then newColor else old(a[i, j]))
        invariant forall j :: 0 <= j < y ==>
                    a[x, j] == (if old(a[x, j]) == oldColor then newColor else old(a[x, j]))
        invariant forall i, j :: x <= i < a.Length0 && 0 <= j < a.Length1 && (i > x || j >= y) ==>
                    a[i, j] == old(a[i, j])
      {
        if a[x, y] == oldColor {
          a[x, y] := newColor;
        }
        y := y + 1;
      }
      x := x + 1;
    }
  }

  /** Replacing a colour that occurs nowhere changes nothing. */
  lemma ReplaceAbsentIsIdentity<T>(img: Image<T>, oldColor: T, newColor: T)
    requires img.Valid()
    requires !Occurs(img, oldColor)
    ensures ReplaceColor(img, oldColor, newColor) == img
  {
    var r := ReplaceColor(img, oldColor, newColor);
    forall x, y | 0 <= x < img.width && 0 <= y < img.height
      ensures r.At(x, y) == img.At(x, y)
    {
      assert img.At(x, y) != oldColor;
    }
    ImageExtensionality(r, img);
  }

  /** Replacing a colour by itself changes nothing. */
  lemma ReplaceSameColorIsIdentity<T>(img: Image<T>, c: T)
    requires img.Valid()
    ensures ReplaceColor(img, c, c) == img
  {
    ImageExtensionality(ReplaceColor(img, c, c), img);
  }

  /** A second identical replacement has nothing left to do. */
  lemma ReplaceIdempotent<T>(img: Image<T>, oldColor: T, newColor: T)
    requires img.Valid()
    ensures ReplaceColor(ReplaceColor(img, oldColor, newColor), oldColor, newColor)
            == ReplaceColor(img, oldColor, newColor)
  {
    var once := ReplaceColor(img, oldColor, newColor);
    ImageExtensionality(ReplaceColor(once, oldColor, newColor), once);
  }

  /** Swapping back restores the image when the new colour was absent before. */
  lemma ReplaceRoundTrip<T>(img: Image<T>, oldColor: T, newColor: T)
    requires img.Valid()
    requires !Occurs(img, newColor)
    ensures ReplaceColor(ReplaceColor(img, oldColor, newColor), newColor, oldColor) == img
  {
    var back := ReplaceColor(ReplaceColor(img, oldColor, newColor), newColor, oldColor);
    forall x, y | 0 <= x < img.width && 0 <= y < img.height
      ensures back.At(x, y) == img.At(x, y)
    {
      assert img.At(x, y) != newColor;
    }
    ImageExtensionality(back, img);
  }

  lemma {:induction false} ReplaceInColumnCount<T>(col: seq<T>, oldColor: T, newColor: T)
    requires oldColor != newColor
    ensures CountInColumn(ReplaceInColumn(col, oldColor, newColor), newColor)
            == CountInColumn(col, newColor) + CountInColumn(col, oldColor)
    ensures CountInColumn(ReplaceInColumn(col, oldColor, newColor), oldColor) == 0
  {
    if col != [] {
      var r := ReplaceInColumn(col, oldColor, newColor);
      assert r[1..] == ReplaceInColumn(col[1..], oldColor, newColor);
      ReplaceInColumnCount(col[1..], oldColor, newColor);
    }
  }

  lemma {:induction false} ReplaceInColumnsCount<T>(cols: seq<seq<T>>, oldColor: T, newColor: T)
    requires oldColor != newColor
    ensures CountInColumns(ReplaceInColumns(cols, oldColor, newColor), newColor)
            == CountInColumns(cols, newColor) + CountInColumns(cols, oldColor)
    ensures CountInColumns(ReplaceInColumns(cols, oldColor, newColor), oldColor) == 0
  {
    if cols != [] {
      var r := ReplaceInColumns(cols, oldColor, newColor);
      assert r[1..] == ReplaceInColumns(cols[1..], oldColor, newColor);
      ReplaceInColumnCount(cols[0], oldColor, newColor);
      ReplaceInColumnsCount(cols[1..], oldColor, newColor);
    }
  }

  /** Every pixel of the old colour is recoloured: the new colour gains exactly
      as many pixels as the old colour had, and the old colour is gone. */
  lemma ReplaceCount<T>(img: Image<T>, oldColor: T, newColor: T)
    requires img.Valid()
    requires oldColor != newColor
    ensures Count(ReplaceColor(img, oldColor, newColor), newColor) == Count(img, newColor) + Count(img, oldColor)
    ensures Count(ReplaceColor(img, oldColor, newColor), oldColor) == 0
  {
    ReplaceInColumnsCount(img.columns, oldColor, newColor);
  }
}
