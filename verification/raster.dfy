/** A decoded raster image, addressed by (x, y) with x the column and y the row. */
module Raster {

  /** The failure an out-of-range pixel read raises. */
  datatype Error = IndexOutOfRange

  datatype Result<T> = Ok(value: T) | Err(error: Error)

  /** A width x height raster stored column by column: the pixel at (x, y) is
      columns[x][y]. Only rectangular values (see Valid) are images. */
  datatype Image<T> = Image(width: nat, height: nat, columns: seq<seq<T>>) {

    predicate Valid() {
      && |columns| == width
      && forall x :: 0 <= x < |columns| ==> |columns[x]| == height
    }

    function At(x: int, y: int): T
      requires Valid()
      requires 0 <= x < width && 0 <= y < height
    {
      columns[x][y]
    }
  }

  /** True iff some pixel of img has colour c. */
  predicate Occurs<T(==)>(img: Image<T>, c: T)
    requires img.Valid()
  {
    exists x, y :: 0 <= x < img.width && 0 <= y < img.height && img.At(x, y) == c
  }

  /** Number of pixels of colour c in one column. */
  function CountInColumn<T(==)>(col: seq<T>, c: T): nat
  {
    if col == [] then 0
    else (if col[0] == c then 1 else 0) + CountInColumn(col[1..], c)
  }

  /** Number of pixels of colour c in a sequence of columns. */
  function CountInColumns<T(==)>(cols: seq<seq<T>>, c: T): nat
  {
    if cols == [] then 0
    else CountInColumn(cols[0], c) + CountInColumns(cols[1..], c)
  }

  /** Number of pixels of colour c in img. */
  function Count<T(==)>(img: Image<T>, c: T): nat
  {
    CountInColumns(img.columns, c)
  }

  /** Two images with the same size and the same pixel everywhere are equal. */
  lemma ImageExtensionality<T>(a: Image<T>, b: Image<T>)
    requires a.Valid() && b.Valid()
    requires a.width == b.width && a.height == b.height
    requires forall x, y :: 0 <= x < a.width && 0 <= y < a.height ==> a.At(x, y) == b.At(x, y)
    ensures a == b
  {
    forall x | 0 <= x < a.width
      ensures a.columns[x] == b.columns[x]
    {
      forall y | 0 <= y < a.height
        ensures a.columns[x][y] == b.columns[x][y]
      {
        assert a.At(x, y) == b.At(x, y);
      }
    }
  }
}
