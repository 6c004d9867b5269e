/** The image value and the enumeration of the places an image can come from (Image.java). */
module Images {
  import opened Optional

  /** A decoded image. Its pixels are opaque to this model; a value of this type is never null. */
  datatype Bitmap = Bitmap(pixels: seq<int>)

  /** Where an image was fetched from. NETWORK means that no cache had it. */
  datatype Source = MEMORY | DISK | NETWORK

  /** A bitmap together with the tier it was fetched from. */
  datatype Image = Image(bitmap: Bitmap, source: Source)

  /** What `assertNotNull` throws. */
  datatype AssertionFailed = AssertionFailed

  /** The constructor `Image(bitmap, source)`: it rejects a null bitmap, then stores both fields. */
  function NewImage(bitmap: Option<Bitmap>, source: Source): (r: Result<Image, AssertionFailed>)
    ensures r.Failure? <==> bitmap.None?
    ensures r.Success? ==> r.value.bitmap == bitmap.value && r.value.source == source
  {
    match bitmap
    case None => Failure(AssertionFailed)
    case Some(b) => Success(Image(b, source))
  }

  /** Reading the two fields back inverts construction: every image is the one built from its own fields. */
  lemma NewImageFromFields(image: Image)
    ensures NewImage(Some(image.bitmap), image.source) == Success(image)
  {
  }
}
