/** The closed sets of target types: office documents and raster or vector
    images, with the name a caller asks for and the file extension written. */
module Formats {
  import opened Wrappers

  datatype DocFormat = Doc | Docx | Xls | Xlsx | Pptx

  /** The accepted document types, in the order the dispatch tests them. */
  const ValidDocTypes: seq<string> := ["doc", "docx", "xls", "xlsx", "pptx"]

  function DocTypeName(f: DocFormat): (t: string)
    ensures t in ValidDocTypes
    ensures forall i :: 0 <= i < |t| ==> 'a' <= t[i] <= 'z'
  {
    match f
    case Doc => "doc"
    case Docx => "docx"
    case Xls => "xls"
    case Xlsx => "xlsx"
    case Pptx => "pptx"
  }

  /** The dispatch on a normalised document type: which one converter, if
      any, handles `t`. */
  function DocFormatOf(t: string): (r: Option<DocFormat>)
    ensures r.Some? <==> t in ValidDocTypes
    ensures r.Some? ==> DocTypeName(r.value) == t
  {
    if t == "doc" then Some(Doc)
    else if t == "docx" then Some(Docx)
    else if t == "xls" then Some(Xls)
    else if t == "xlsx" then Some(Xlsx)
    else if t == "pptx" then Some(Pptx)
    else None
  }

  /** Each document format is reached by exactly one type name. */
  lemma DocDispatchRoundTrip(f: DocFormat, t: string)
    ensures DocFormatOf(DocTypeName(f)) == Some(f)
    ensures DocFormatOf(t) == Some(f) <==> t == DocTypeName(f)
  {
  }

  datatype ImageFormat = Bmp | Emf | Jpg | Png | Gif

  /** The accepted image types, in the order the dispatch tests them. */
  const ValidImgTypes: seq<string> := ["bmp", "emf", "jpg", "png", "gif"]

  function ImgTypeName(f: ImageFormat): (t: string)
    ensures t in ValidImgTypes
  {
    match f
    case Bmp => "bmp"
    case Emf => "emf"
    case Jpg => "jpg"
    case Png => "png"
    case Gif => "gif"
  }

  /** The dispatch on a normalised image type. */
  function ImageFormatOf(t: string): (r: Option<ImageFormat>)
    ensures r.Some? <==> t in ValidImgTypes
    ensures r.Some? ==> ImgTypeName(r.value) == t
  {
    if t == "bmp" then Some(Bmp)
    else if t == "emf" then Some(Emf)
    else if t == "jpg" then Some(Jpg)
    else if t == "png" then Some(Png)
    else if t == "gif" then Some(Gif)
    else None
  }

  lemma ImageDispatchRoundTrip(f: ImageFormat, t: string)
    ensures ImageFormatOf(ImgTypeName(f)) == Some(f)
    ensures ImageFormatOf(t) == Some(f) <==> t == ImgTypeName(f)
  {
  }

  /** The extension of the page files: the type name, except that jpg pages
      are written with the extension "jpeg". */
  function Extension(f: ImageFormat): (ext: string)
    ensures f != Jpg ==> ext == ImgTypeName(f)
    ensures f == Jpg ==> ext == "jpeg"
    ensures '/' !in ext
  {
    if f == Jpg then "jpeg" else ImgTypeName(f)
  }

  /** Distinct image formats never write files with the same extension. */
  lemma ExtensionInjective(f: ImageFormat, g: ImageFormat)
    ensures Extension(f) == Extension(g) ==> f == g
  {
  }
}
