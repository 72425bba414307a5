/** Image support (`insertImage`, `isImageUrl` and the `withImages` plugin in
    app/editor/WithImages.tsx): image elements are void, and pasted or
    dropped data is routed to image insertions or to the default handler.
    The URL checker, the URL parser and the extension list are parameters. */
module Images {
  import opened Wrappers
  import opened Nodes
  import opened Strings

  /** The empty text leaf every image element holds as its only child. */
  const EMPTY_LEAF: Node := Text(Leaf("", map[]))

  /** An image element as the document requires it: `type: "image"`, a url,
      no alignment, and exactly one empty text child. */
  predicate IsWellFormedImage(e: Element)
  {
    e.kind == "image" && e.url.Some? && e.align.None? && e.children == [EMPTY_LEAF]
  }

  /** The element `insertImage(editor, url)` hands to `insertNodes`. */
  function ImageElement(url: string): (image: Element)
    ensures IsWellFormedImage(image)
    ensures image.url == Some(url)
  {
    Element("image", None, Some(url), [EMPTY_LEAF])
  }

  /** `editor.isVoid` after `withImages`: image elements are void, every other
      element is whatever the wrapped editor says. */
  function IsVoid(baseIsVoid: Element -> bool, e: Element): (void: bool)
    ensures e.kind == "image" ==> void
    ensures e.kind != "image" ==> void == baseIsVoid(e)
  {
    if e.kind == "image" then true else baseIsVoid(e)
  }

  /** Every image `insertImage` builds is void and well formed, whatever the
      wrapped editor considers void. */
  lemma InsertedImageIsVoid(baseIsVoid: Element -> bool, url: string)
    ensures IsVoid(baseIsVoid, ImageElement(url))
    ensures IsWellFormedImage(ImageElement(url))
  {
  }

  /** `new URL(url)` throws a `TypeError` on input it cannot parse. */
  datatype UrlError = InvalidUrl

  /** The library collaborators `isImageUrl` consults: the `is-url` check,
      `new URL(url).pathname` (`None` where the constructor throws), and the
      `image-extensions` list. */
  datatype UrlTools = UrlTools(isUrl: string -> bool, pathname: string -> Option<string>, extensions: seq<string>)

  /** `pathname.split(".").pop()`: the text after the last dot. */
  function ExtensionOf(pathname: string): string
  {
    AfterLast(pathname, '.')
  }

  /** `isImageUrl(url)`: false for the empty string and for text `is-url`
      rejects; otherwise the extension of the parsed pathname must be listed.
      When `is-url` accepts text the URL parser rejects, the exception
      escapes. */
  function IsImageUrl(url: string, tools: UrlTools): (r: Result<bool, UrlError>)
    ensures r.Failure? <==> url != "" && tools.isUrl(url) && tools.pathname(url).None?
    ensures r == Success(true) <==>
      && url != ""
      && tools.isUrl(url)
      && tools.pathname(url).Some?
      && ExtensionOf(tools.pathname(url).value) in tools.extensions
  {
    if url == "" then Success(false)
    else if !tools.isUrl(url) then Success(false)
    else
      match tools.pathname(url)
      case None => Failure(InvalidUrl)
      case Some(path) => Success(ExtensionOf(path) in tools.extensions)
  }

  /** The extension is the longest dot-free suffix of the pathname; a
      pathname without a dot is its own extension, so it is accepted only if
      the whole pathname is listed. */
  lemma ExtensionIsTextAfterLastDot(pathname: string)
    ensures var ext := ExtensionOf(pathname);
      && |ext| <= |pathname| && pathname[|pathname| - |ext|..] == ext
      && '.' !in ext
      && (|ext| < |pathname| ==> pathname[|pathname| - |ext| - 1] == '.')
      && ('.' !in pathname ==> ext == pathname)
  {
    AfterLastIsLongestSuffix(pathname, '.');
  }

  /** A pasted or dropped file: only its media type matters here. */
  datatype File = File(mediaType: string, name: string)

  /** `const [mime] = file.type.split("/")`, compared with `"image"`. */
  predicate IsImageFile(f: File)
  {
    BeforeFirst(f.mediaType, '/') == "image"
  }

  /** A file counts as an image exactly when its media type is `image` or
      starts with `image/`. */
  lemma ImageFileIffImageMediaType(f: File)
    ensures IsImageFile(f) <==>
      f.mediaType == "image" || (|f.mediaType| >= 6 && f.mediaType[..6] == "image/")
  {
    var t := f.mediaType;
    BeforeFirstIsLongestPrefix(t, '/');
    var head := BeforeFirst(t, '/');
    if |t| >= 6 && t[..6] == "image/" {
      assert t[5] == '/';
      assert t[..|head|] == t[..6][..|head|];
    }
  }

  /** The files `insertData` starts reading, in list order: the image files. */
  function ImageFiles(files: seq<File>): (images: seq<File>)
    ensures forall f :: multiset(images)[f] == if IsImageFile(f) then multiset(files)[f] else 0
  {
    if |files| == 0 then []
    else
      var rest := ImageFiles(files[1..]);
      assert files == [files[0]] + files[1..];
      if IsImageFile(files[0]) then [files[0]] + rest else rest
  }

  /** The clipboard or drop payload: the `text/plain` data (`""` when there is
      none) and the file list, which may be missing. */
  datatype DataTransfer = DataTransfer(text: string, files: Option<seq<File>>)

  /** The path `editor.insertData(data)` takes after `withImages`. */
  datatype PasteRoute =
    | ReadImageFiles(images: seq<File>)
    | InsertImageUrl(url: string)
    | DefaultInsert

  predicate HasFiles(data: DataTransfer)
  {
    data.files.Some? && |data.files.value| > 0
  }

  /** `editor.insertData(data)` after `withImages`: with a non-empty file list
      it reads every image file and nothing else; otherwise an image URL in
      the text is inserted as an image; otherwise the wrapped editor's
      `insertData` runs. */
  function InsertData(data: DataTransfer, tools: UrlTools): (r: Result<PasteRoute, UrlError>)
    ensures HasFiles(data) ==> r == Success(ReadImageFiles(ImageFiles(data.files.value)))
    ensures !HasFiles(data) ==> (r == Success(InsertImageUrl(data.text)) <==> IsImageUrl(data.text, tools) == Success(true))
    ensures !HasFiles(data) ==> (r == Success(DefaultInsert) <==> IsImageUrl(data.text, tools) == Success(false))
    ensures r.Failure? <==> !HasFiles(data) && IsImageUrl(data.text, tools).Failure?
  {
    if HasFiles(data) then Success(ReadImageFiles(ImageFiles(data.files.value)))
    else
      match IsImageUrl(data.text, tools)
      case Failure(e) => Failure(e)
      case Success(true) => Success(InsertImageUrl(data.text))
      case Success(false) => Success(DefaultInsert)
  }

  /** The image elements a route eventually inserts: one per read file, built
      from the data URL the reader produces, or the one pasted URL. */
  function Insertions(route: PasteRoute, dataUrl: File -> string): seq<Element>
  {
    match route
    case ReadImageFiles(images) => seq(|images|, i requires 0 <= i < |images| => ImageElement(dataUrl(images[i])))
    case InsertImageUrl(url) => [ImageElement(url)]
    case DefaultInsert => []
  }

  /** Routing is exclusive. With files present the text is ignored, there is
      one image insertion per image file and none for any other file, and the
      default handler never runs, even when no file is an image. Without
      files, at most one image is inserted, and only when the text is an
      image URL. */
  lemma PasteRoutingIsExclusive(data: DataTransfer, tools: UrlTools, dataUrl: File -> string, otherText: string)
    ensures HasFiles(data) ==>
      && InsertData(data, tools) == InsertData(DataTransfer(otherText, data.files), tools)
      && InsertData(data, tools) != Success(DefaultInsert)
      && |Insertions(InsertData(data, tools).value, dataUrl)| == |data.files.value| - NonImageCount(data.files.value)
    ensures !HasFiles(data) && InsertData(data, tools).Success? ==>
      |Insertions(InsertData(data, tools).value, dataUrl)| == if IsImageUrl(data.text, tools) == Success(true) then 1 else 0
    ensures InsertData(data, tools).Success? ==>
      forall e :: e in Insertions(InsertData(data, tools).value, dataUrl) ==> IsWellFormedImage(e)
  {
    if HasFiles(data) {
      ImageFilesCount(data.files.value);
    }
  }

  /** How many files in the list are not images. */
  function NonImageCount(files: seq<File>): (n: nat)
    ensures n <= |files|
  {
    if |files| == 0 then 0
    else (if IsImageFile(files[0]) then 0 else 1) + NonImageCount(files[1..])
  }

  lemma {:induction false} ImageFilesCount(files: seq<File>)
    ensures |ImageFiles(files)| == |files| - NonImageCount(files)
  {
    if |files| > 0 {
      ImageFilesCount(files[1..]);
    }
  }

  /** Two pastes of URL text without files: one whose pathname is
      `/photo.jpg`, with `jpg` listed, becomes an image; one whose pathname is
      `/page` goes to the default handler. */
  lemma PhotoUrlIsImagePageUrlIsText(tools: UrlTools)
    requires tools.isUrl("https://example.com/photo.jpg") && tools.pathname("https://example.com/photo.jpg") == Some("/photo.jpg")
    requires tools.isUrl("https://example.com/page") && tools.pathname("https://example.com/page") == Some("/page")
    requires "jpg" in tools.extensions && "/page" !in tools.extensions
    ensures InsertData(DataTransfer("https://example.com/photo.jpg", None), tools) == Success(InsertImageUrl("https://example.com/photo.jpg"))
    ensures InsertData(DataTransfer("https://example.com/page", Some([])), tools) == Success(DefaultInsert)
  {
    ExtensionIsTextAfterLastDot("/photo.jpg");
    var ext := ExtensionOf("/photo.jpg");
    assert "/photo.jpg"[6] == '.';
    assert ext == "jpg";
    ExtensionIsTextAfterLastDot("/page");
  }
}
