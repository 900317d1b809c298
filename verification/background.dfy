/** Background removal, naive strategy: the background colour is the colour of
    the pixel at (0, 0), and every pixel of that colour becomes transparent. */
module Background {
  import opened Colors
  import opened Raster
  import Replace

  /** remove_bg on an RGBA image. Reading (0, 0) of an image with no pixels
      fails with an index error. */
  function RemoveBackground(img: Image<Color>): (r: Result<Image<Color>>)
    requires img.Valid()
    ensures r.Err? <==> img.width == 0 || img.height == 0
    ensures r.Ok? ==> r.value.Valid() && r.value.width == img.width && r.value.height == img.height
    ensures r.Ok? ==> r.value.At(0, 0) == Transparent
    ensures r.Ok? ==> forall x, y :: 0 <= x < img.width && 0 <= y < img.height ==>
              r.value.At(x, y) == (if img.At(x, y) == img.At(0, 0) then Transparent else img.At(x, y))
  {
    if img.width == 0 || img.height == 0 then Err(IndexOutOfRange)
    else Ok(Replace.ReplaceColor(img, img.At(0, 0), Transparent))
  }

  /** Once the background is gone, removing it again changes nothing: the
      corner is now transparent, and transparent replaced by itself is a no-op. */
  lemma RemoveBackgroundIdempotent(img: Image<Color>)
    requires img.Valid()
    requires RemoveBackground(img).Ok?
    ensures RemoveBackground(RemoveBackground(img).value) == RemoveBackground(img)
  {
    var once := RemoveBackground(img).value;
    Replace.ReplaceSameColorIsIdentity(once, Transparent);
  }

  /** An image of one uniform colour becomes entirely transparent. */
  lemma UniformImageVanishes(img: Image<Color>)
    requires img.Valid()
    requires img.width > 0 && img.height > 0
    requires forall x, y :: 0 <= x < img.width && 0 <= y < img.height ==> img.At(x, y) == img.At(0, 0)
    ensures RemoveBackground(img).Ok?
    ensures forall x, y :: 0 <= x < img.width && 0 <= y < img.height ==>
              RemoveBackground(img).value.At(x, y) == Transparent
  {
  }
}
