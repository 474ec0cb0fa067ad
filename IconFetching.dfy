/**
 * Icons from favicon links: JiconIconFactory.getIcon and the two FaviconsFetcher copies.
 * An icon is the list of images embedded at a URL; a fetcher maps every link to an icon and
 * drops the links whose icon cannot be read, keeping the links' order.
 */
module IconFetching {
  import opened Results
  import opened ImageUtil

  /** jicon's JiconIconImage: format name and dimension. */
  datatype JiconIconImage = JiconIconImage(format: string, dimension: Dimension)

  /** jicon's JiconIcon: the URL and the images embedded in the file there. */
  datatype JiconIcon = JiconIcon(url: Url, images: seq<JiconIconImage>)

  /** jbesticon's JiconIconImage, which also records the embedded index it was read from. */
  datatype IndexedIconImage = IndexedIconImage(imageIndex: int, format: string, dimension: Dimension)

  /** jbesticon's icon as its FaviconsFetcher builds it: the URL and the indexed images. */
  datatype IndexedIcon = IndexedIcon(url: Url, images: seq<IndexedIconImage>)

  /** The mapping lambda of getIcon: format name, getWidth(index), getHeight(index); a missing index throws. */
  function ReadImage(reader: ImageReader, index: int): Option<JiconIconImage>
  {
    if index in reader.sizes then Some(JiconIconImage(reader.formatName, reader.sizes[index])) else None
  }

  /** The mapping lambda of jbesticon's getIconFromUrl, which also stores the index. */
  function ReadIndexedImage(reader: ImageReader, index: int): Option<IndexedIconImage>
  {
    if index in reader.sizes then Some(IndexedIconImage(index, reader.formatName, reader.sizes[index])) else None
  }

  /** JiconIconFactory.getIcon: exceptions of the embedded-image loop propagate unchanged. */
  function GetIcon(io: ImageIo, url: Url): Result<JiconIcon, ImageError>
  {
    var images := ForEachEmbeddedImage(io, url, ReadImage);
    if images.Failure? then Failure(images.error) else Success(JiconIcon(url, images.value))
  }

  /** jicon's getIconFromUrl: both IOException and ImageFormatNotSupportedException become empty. */
  function GetIconFromUrl(io: ImageIo, url: Url): Option<JiconIcon>
  {
    var icon := GetIcon(io, url);
    if icon.Success? then Some(icon.value) else None
  }

  /** jbesticon's getIconFromUrl. */
  function GetIndexedIconFromUrl(io: ImageIo, url: Url): Option<IndexedIcon>
  {
    var images := ForEachEmbeddedImage(io, url, ReadIndexedImage);
    if images.Success? then Some(IndexedIcon(url, images.value)) else None
  }

  /** stream().map(f).filter(Optional::isPresent).map(Optional::get). */
  function FilterMap<A, B>(f: A -> Option<B>, xs: seq<A>): seq<B>
  {
    if xs == [] then []
    else
      var last := f(xs[|xs| - 1]);
      FilterMap(f, xs[..|xs| - 1]) + (if last.Some? then [last.value] else [])
  }

  /** jicon's getIcons: an exception of fetchLinks propagates; otherwise the readable icons, in link order. */
  function GetIcons<E>(io: ImageIo, links: Result<seq<Url>, E>): Result<seq<JiconIcon>, E>
  {
    if links.Failure? then Failure(links.error)
    else Success(FilterMap((url: Url) => GetIconFromUrl(io, url), links.value))
  }

  /** jbesticon's getIcons. */
  function GetIndexedIcons<E>(io: ImageIo, links: Result<seq<Url>, E>): Result<seq<IndexedIcon>, E>
  {
    if links.Failure? then Failure(links.error)
    else Success(FilterMap((url: Url) => GetIndexedIconFromUrl(io, url), links.value))
  }

  // ---------------------------------------------------------------------------------------
  // The filtering stream
  // ---------------------------------------------------------------------------------------

  /** The positions of xs whose element maps to a value, in increasing order. */
  function KeptIndices<A, B>(f: A -> Option<B>, xs: seq<A>): seq<nat>
  {
    if xs == [] then []
    else KeptIndices(f, xs[..|xs| - 1]) + (if f(xs[|xs| - 1]).Some? then [|xs| - 1] else [])
  }

  /**
   * The output is a subsequence of the mapped input: entry k comes from position idx[k],
   * the positions increase strictly, and they are exactly the positions whose element maps
   * to a value.
   */
  lemma {:induction false} FilterMapKeepsOrder<A, B>(f: A -> Option<B>, xs: seq<A>)
    ensures var r := FilterMap(f, xs); var idx := KeptIndices(f, xs);
      && |idx| == |r|
      && (forall k :: 0 <= k < |idx| ==> idx[k] < |xs| && f(xs[idx[k]]) == Some(r[k]))
      && (forall k, l :: 0 <= k < l < |idx| ==> idx[k] < idx[l])
      && (forall i :: 0 <= i < |xs| ==> (f(xs[i]).Some? <==> i in idx))
  {
    if xs != [] {
      var init := xs[..|xs| - 1];
      FilterMapKeepsOrder(f, init);
      assert forall i :: 0 <= i < |init| ==> init[i] == xs[i];
    }
  }

  /** Dropping never adds: the output is no longer than the input. */
  lemma {:induction false} FilterMapLength<A, B>(f: A -> Option<B>, xs: seq<A>)
    ensures |FilterMap(f, xs)| <= |xs|
    ensures |FilterMap(f, xs)| == |xs| <==> forall i :: 0 <= i < |xs| ==> f(xs[i]).Some?
  {
    if xs != [] {
      var init := xs[..|xs| - 1];
      FilterMapLength(f, init);
      assert forall i :: 0 <= i < |init| ==> init[i] == xs[i];
    }
  }

  /** Locality: one input's fate does not affect the others'; the output of a concatenation is the concatenation. */
  lemma {:induction false} FilterMapAppend<A, B>(f: A -> Option<B>, a: seq<A>, b: seq<A>)
    ensures FilterMap(f, a + b) == FilterMap(f, a) + FilterMap(f, b)
    decreases |b|
  {
    if b == [] {
      assert a + b == a;
    } else {
      var b' := b[..|b| - 1];
      assert (a + b)[..|a + b| - 1] == a + b';
      FilterMapAppend(f, a, b');
    }
  }

  lemma FilterMapSingleton<A, B>(f: A -> Option<B>, x: A)
    ensures FilterMap(f, [x]) == if f(x).Some? then [f(x).value] else []
  {
    assert [x][..0] == [];
  }

  // ---------------------------------------------------------------------------------------
  // Icons
  // ---------------------------------------------------------------------------------------

  /** The reader getIcon uses for url, when the stream opens. */
  ghost function ReaderFor(io: ImageIo, url: Url): Option<ImageReader>
  {
    if io.open(url).None? then None else ChooseReader(url, io.open(url).value, io.readersBySuffix)
  }

  /**
   * getIcon fails with IOException when the stream does not open or some index in
   * [minIndex, numImages) has no size, and with ImageFormatNotSupportedException when no
   * reader is found; otherwise the icon carries the input URL and one image per index, in
   * order, each with the reader's format name and that index's dimension.
   */
  lemma GetIconContents(io: ImageIo, url: Url)
    ensures io.open(url).None? ==> GetIcon(io, url) == Failure(IoError)
    ensures io.open(url).Some? && ReaderFor(io, url).None? ==> GetIcon(io, url) == Failure(FormatNotSupported)
    ensures ReaderFor(io, url).Some? ==>
      var reader := ReaderFor(io, url).value;
      && (GetIcon(io, url).Success? <==> forall i :: reader.minIndex <= i < reader.numImages ==> i in reader.sizes)
      && (GetIcon(io, url).Failure? ==> GetIcon(io, url).error == IoError)
      && (GetIcon(io, url).Success? ==>
            var icon := GetIcon(io, url).value;
            && icon.url == url
            && |icon.images| == (if reader.numImages <= reader.minIndex then 0 else reader.numImages - reader.minIndex)
            && forall k :: 0 <= k < |icon.images| ==>
                 icon.images[k] == JiconIconImage(reader.formatName, reader.sizes[reader.minIndex + k]))
  {
    if ReaderFor(io, url).Some? {
      var reader := ReaderFor(io, url).value;
      MapIndicesIff(ReadImage, reader, reader.minIndex, reader.numImages);
      assert forall i :: ReadImage(reader, i).Some? <==> i in reader.sizes;
    }
  }

  /**
   * jbesticon: image k of an icon records index minIndex + k, so the indices are consecutive
   * from the reader's minIndex; the icon carries the URL it was fetched from.
   */
  lemma IndexedIconContents(io: ImageIo, url: Url)
    requires GetIndexedIconFromUrl(io, url).Some?
    ensures ReaderFor(io, url).Some?
    ensures var reader := ReaderFor(io, url).value; var icon := GetIndexedIconFromUrl(io, url).value;
      && icon.url == url
      && |icon.images| == (if reader.numImages <= reader.minIndex then 0 else reader.numImages - reader.minIndex)
      && forall k :: 0 <= k < |icon.images| ==>
           && reader.minIndex + k in reader.sizes
           && icon.images[k] == IndexedIconImage(reader.minIndex + k, reader.formatName, reader.sizes[reader.minIndex + k])
  {
    var reader := ReaderFor(io, url).value;
    MapIndicesIff(ReadIndexedImage, reader, reader.minIndex, reader.numImages);
    assert forall i :: ReadIndexedImage(reader, i).Some? <==> i in reader.sizes;
  }

  /** The two copies read the same images; jbesticon only adds the index. */
  lemma CopiesAgree(io: ImageIo, url: Url)
    ensures GetIconFromUrl(io, url).Some? <==> GetIndexedIconFromUrl(io, url).Some?
    ensures GetIconFromUrl(io, url).Some? ==>
      var a := GetIconFromUrl(io, url).value; var b := GetIndexedIconFromUrl(io, url).value;
      && |a.images| == |b.images|
      && forall k :: 0 <= k < |a.images| ==>
           a.images[k].format == b.images[k].format && a.images[k].dimension == b.images[k].dimension
  {
    GetIconContents(io, url);
    if ReaderFor(io, url).Some? {
      var reader := ReaderFor(io, url).value;
      MapIndicesIff(ReadIndexedImage, reader, reader.minIndex, reader.numImages);
      assert forall i :: ReadIndexedImage(reader, i).Some? <==> i in reader.sizes;
    }
  }

  /**
   * getIcons: a failure of fetchLinks propagates; otherwise every returned icon is the icon
   * of a link, the icons follow the links' order, and a link is represented exactly when
   * its icon can be read.
   */
  lemma GetIconsFromLinks<E>(io: ImageIo, links: Result<seq<Url>, E>)
    ensures links.Failure? ==> GetIcons(io, links) == Failure(links.error)
    ensures links.Success? ==>
      var icons := GetIcons(io, links).value; var idx := KeptIndices((url: Url) => GetIconFromUrl(io, url), links.value);
      && |icons| <= |links.value|
      && |idx| == |icons|
      && (forall k :: 0 <= k < |idx| ==> idx[k] < |links.value| && GetIcon(io, links.value[idx[k]]) == Success(icons[k]))
      && (forall k, l :: 0 <= k < l < |idx| ==> idx[k] < idx[l])
      && (forall i :: 0 <= i < |links.value| ==> (GetIcon(io, links.value[i]).Success? <==> i in idx))
  {
    if links.Success? {
      var f := (url: Url) => GetIconFromUrl(io, url);
      FilterMapKeepsOrder(f, links.value);
      FilterMapLength(f, links.value);
    }
  }

  /** The same for the jbesticon copy. */
  lemma GetIndexedIconsFromLinks<E>(io: ImageIo, links: Result<seq<Url>, E>)
    ensures links.Failure? ==> GetIndexedIcons(io, links) == Failure(links.error)
    ensures links.Success? ==>
      var icons := GetIndexedIcons(io, links).value;
      var idx := KeptIndices((url: Url) => GetIndexedIconFromUrl(io, url), links.value);
      && |icons| <= |links.value|
      && |idx| == |icons|
      && (forall k :: 0 <= k < |idx| ==> idx[k] < |links.value| && GetIndexedIconFromUrl(io, links.value[idx[k]]) == Some(icons[k]))
      && (forall k, l :: 0 <= k < l < |idx| ==> idx[k] < idx[l])
      && (forall i :: 0 <= i < |links.value| ==> (GetIndexedIconFromUrl(io, links.value[i]).Some? <==> i in idx))
  {
    if links.Success? {
      var f := (url: Url) => GetIndexedIconFromUrl(io, url);
      FilterMapKeepsOrder(f, links.value);
      FilterMapLength(f, links.value);
    }
  }

  /** Icons of two batches of links are the icons of their concatenation: no link affects another. */
  lemma GetIconsSplit(io: ImageIo, a: seq<Url>, b: seq<Url>)
    ensures GetIcons<()>(io, Success(a + b)).value == GetIcons<()>(io, Success(a)).value + GetIcons<()>(io, Success(b)).value
  {
    FilterMapAppend((url: Url) => GetIconFromUrl(io, url), a, b);
  }

  // ---------------------------------------------------------------------------------------
  // The .ico fixture: one readable four-image .ico and one unreachable URL
  // ---------------------------------------------------------------------------------------

  function Square(side: int): Dimension
  {
    Dimension(side, side)
  }

  /** A reader for a four-image .ico with 64, 32, 24 and 16 pixel squares at indices 0 to 3. */
  function FourImageIco(format: string): ImageReader
  {
    ImageReader(format, 4, 0, map[0 := Square(64), 1 := Square(32), 2 := Square(24), 3 := Square(16)])
  }

  /**
   * Links [an .ico whose stream is sniffed as the four-image reader, a URL that cannot be
   * opened] give exactly one icon, for the first link, with images 64, 32, 24 and 16 wide
   * and high.
   */
  lemma IcoFixture(io: ImageIo, ico: Url, missing: Url, format: string)
    requires io.open(ico) == Some([FourImageIco(format)])
    requires io.open(missing).None?
    ensures GetIcons<()>(io, Success([ico, missing])) ==
      Success([JiconIcon(ico, [JiconIconImage(format, Square(64)), JiconIconImage(format, Square(32)),
                               JiconIconImage(format, Square(24)), JiconIconImage(format, Square(16))])])
  {
    var reader := FourImageIco(format);
    var f := (url: Url) => GetIconFromUrl(io, url);
    assert ReaderFor(io, ico) == Some(reader);
    GetIconContents(io, ico);
    var icon := GetIcon(io, ico).value;
    assert forall i :: 0 <= i < 4 ==> i in reader.sizes;
    assert GetIcon(io, ico).Success?;
    assert GetIcon(io, missing) == Failure(IoError);
    assert f(ico) == Some(icon);
    assert f(missing) == None;
    assert icon.images == [JiconIconImage(format, Square(64)), JiconIconImage(format, Square(32)),
                           JiconIconImage(format, Square(24)), JiconIconImage(format, Square(16))];
    FilterMapAppend(f, [ico], [missing]);
    FilterMapSingleton(f, ico);
    FilterMapSingleton(f, missing);
    assert [ico] + [missing] == [ico, missing];
    assert FilterMap(f, [ico, missing]) == [icon];
  }
}
