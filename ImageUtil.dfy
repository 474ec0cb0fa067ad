/**
 * ImageUtil: running an operation on every image embedded in a file (an .ico holds several),
 * choosing the image reader, and writing images to files with the .ico special case.
 * ImageIO is an oracle: the readers that recognise a stream, the readers registered for a
 * suffix, and a writer that returns true/false or throws.
 */
module ImageUtil {
  import opened Results
  import opened PathUtil

  type Url = string

  datatype Dimension = Dimension(width: int, height: int)

  /**
   * An ImageReader: its format name, getNumImages(false) (-1 when unknown), getMinIndex, and
   * the width and height at each index; an index without a size is an IOException.
   */
  datatype ImageReader = ImageReader(formatName: string, numImages: int, minIndex: int, sizes: map<int, Dimension>)

  /** IOException, ImageFormatNotSupportedException and IllegalArgumentException. */
  datatype ImageError = IoError | FormatNotSupported | IllegalArgument

  /**
   * The ImageIO world: opening a URL (None is an IOException) yields the readers that
   * recognise its stream, in registry order; `readersBySuffix` is getImageReadersBySuffix.
   */
  datatype ImageIo = ImageIo(open: Url -> Option<seq<ImageReader>>, readersBySuffix: string -> seq<ImageReader>)

  // ---------------------------------------------------------------------------------------
  // Reader choice (getImageReader)
  // ---------------------------------------------------------------------------------------

  /** The reader getImageReader yields: the first sniffed one, else the first by suffix. */
  function ChooseReader(imageUrl: Url, sniffed: seq<ImageReader>, bySuffix: string -> seq<ImageReader>): Option<ImageReader>
  {
    var extension := GetExtension(imageUrl);
    var imageReaders := if sniffed == [] && extension.Some? then bySuffix(extension.value) else sniffed;
    if imageReaders == [] then None else Some(imageReaders[0])
  }

  /** getImageReader, with its reassigned reader iterator. */
  method GetImageReader(imageUrl: Url, sniffed: seq<ImageReader>, bySuffix: string -> seq<ImageReader>)
    returns (r: Option<ImageReader>)
    ensures r == ChooseReader(imageUrl, sniffed, bySuffix)
  {
    var extension := GetExtension(imageUrl);
    var imageReaders := sniffed;
    if imageReaders == [] && extension.Some? {
      imageReaders := bySuffix(extension.value);
    }
    if imageReaders == [] {
      return None;
    }
    return Some(imageReaders[0]);
  }

  /** A sniffed reader always wins, whatever the suffix registry holds. */
  lemma SniffedReaderFirst(imageUrl: Url, sniffed: seq<ImageReader>, bySuffix: string -> seq<ImageReader>)
    requires sniffed != []
    ensures ChooseReader(imageUrl, sniffed, bySuffix) == Some(sniffed[0])
  {
  }

  /**
   * The suffix registry is consulted only when sniffing finds nothing and the URL has an
   * extension: otherwise any two registries give the same choice.
   */
  lemma SuffixLookupOnlyWhenNeeded(imageUrl: Url, sniffed: seq<ImageReader>,
                                   f: string -> seq<ImageReader>, g: string -> seq<ImageReader>)
    requires sniffed != [] || GetExtension(imageUrl).None?
    ensures ChooseReader(imageUrl, sniffed, f) == ChooseReader(imageUrl, sniffed, g)
  {
  }

  /** There is no reader exactly when nothing is sniffed and the suffix gives nothing or there is none. */
  lemma NoReaderIff(imageUrl: Url, sniffed: seq<ImageReader>, bySuffix: string -> seq<ImageReader>)
    ensures ChooseReader(imageUrl, sniffed, bySuffix).None? <==>
      sniffed == [] && (GetExtension(imageUrl).None? || bySuffix(GetExtension(imageUrl).value) == [])
  {
  }

  // ---------------------------------------------------------------------------------------
  // The embedded-image loop (executeOperationForEachEmbeddedImage)
  // ---------------------------------------------------------------------------------------

  /** `operation(reader, i)` for i from lo up to hi - 1; the first IOException aborts. */
  function MapIndices<T>(op: (ImageReader, int) -> Option<T>, reader: ImageReader, lo: int, hi: int): Result<seq<T>, ImageError>
    decreases hi - lo
  {
    if hi <= lo then Success([])
    else
      var init := MapIndices(op, reader, lo, hi - 1);
      var last := op(reader, hi - 1);
      if init.Failure? || last.None? then Failure(IoError) else Success(init.value + [last.value])
  }

  /** What executeOperationForEachEmbeddedImage returns. */
  function ForEachEmbeddedImage<T>(io: ImageIo, imageUrl: Url, op: (ImageReader, int) -> Option<T>): Result<seq<T>, ImageError>
  {
    var stream := io.open(imageUrl);
    if stream.None? then Failure(IoError)
    else
      var reader := ChooseReader(imageUrl, stream.value, io.readersBySuffix);
      if reader.None? then Failure(FormatNotSupported)
      else MapIndices(op, reader.value, reader.value.minIndex, reader.value.numImages)
  }

  lemma {:induction false} MapIndicesPrefixFails<T>(op: (ImageReader, int) -> Option<T>, reader: ImageReader,
                                                    lo: int, mid: int, hi: int)
    requires mid <= hi && MapIndices(op, reader, lo, mid).Failure?
    ensures MapIndices(op, reader, lo, hi).Failure?
    decreases hi - mid
  {
    if mid < hi {
      MapIndicesPrefixFails(op, reader, lo, mid, hi - 1);
    }
  }

  /**
   * executeOperationForEachEmbeddedImage: open the stream, choose a reader (none is
   * ImageFormatNotSupportedException), then collect the operation on each index in order.
   */
  method ExecuteOperationForEachEmbeddedImage<T>(io: ImageIo, imageUrl: Url, operation: (ImageReader, int) -> Option<T>)
    returns (r: Result<seq<T>, ImageError>)
    ensures r == ForEachEmbeddedImage(io, imageUrl, operation)
  {
    var imageStream := io.open(imageUrl);
    if imageStream.None? {
      return Failure(IoError);
    }
    var found := GetImageReader(imageUrl, imageStream.value, io.readersBySuffix);
    if found.None? {
      return Failure(FormatNotSupported);
    }
    var reader := found.value;
    var images: seq<T> := [];
    var imagesNum := reader.numImages;
    var i := reader.minIndex;
    while i < imagesNum
      invariant reader.minIndex <= i
      invariant i == reader.minIndex || i <= imagesNum
      invariant MapIndices(operation, reader, reader.minIndex, i) == Success(images)
      decreases imagesNum - i
    {
      var image := operation(reader, i);
      if image.None? {
        MapIndicesPrefixFails(operation, reader, reader.minIndex, i + 1, imagesNum);
        return Failure(IoError);
      }
      images := images + [image.value];
      i := i + 1;
    }
    return Success(images);
  }

  /**
   * The loop succeeds exactly when the operation succeeds on every index from minIndex to
   * numImages - 1; it then has max(0, numImages - minIndex) entries, entry k being the
   * operation's result on index minIndex + k.
   */
  lemma {:induction false} MapIndicesIff<T>(op: (ImageReader, int) -> Option<T>, reader: ImageReader, lo: int, hi: int)
    ensures MapIndices(op, reader, lo, hi).Success? <==> forall i :: lo <= i < hi ==> op(reader, i).Some?
    ensures MapIndices(op, reader, lo, hi).Success? ==>
      && |MapIndices(op, reader, lo, hi).value| == (if hi <= lo then 0 else hi - lo)
      && forall k :: 0 <= k < |MapIndices(op, reader, lo, hi).value| ==>
           op(reader, lo + k) == Some(MapIndices(op, reader, lo, hi).value[k])
    decreases hi - lo
  {
    if lo < hi {
      MapIndicesIff(op, reader, lo, hi - 1);
    }
  }

  /** Without a reader the call fails with ImageFormatNotSupportedException, whatever the operation. */
  lemma NoReaderFails<T>(io: ImageIo, imageUrl: Url, op: (ImageReader, int) -> Option<T>)
    requires io.open(imageUrl).Some?
    requires ChooseReader(imageUrl, io.open(imageUrl).value, io.readersBySuffix).None?
    ensures ForEachEmbeddedImage(io, imageUrl, op) == Failure(FormatNotSupported)
  {
  }

  /** An IOException of the operation on any index in range propagates: no partial list. */
  lemma OperationErrorPropagates<T>(io: ImageIo, imageUrl: Url, op: (ImageReader, int) -> Option<T>, i: int)
    requires io.open(imageUrl).Some?
    requires var reader := ChooseReader(imageUrl, io.open(imageUrl).value, io.readersBySuffix);
      reader.Some? && reader.value.minIndex <= i < reader.value.numImages && op(reader.value, i).None?
    ensures ForEachEmbeddedImage(io, imageUrl, op) == Failure(IoError)
  {
    var reader := ChooseReader(imageUrl, io.open(imageUrl).value, io.readersBySuffix).value;
    MapIndicesIff(op, reader, reader.minIndex, reader.numImages);
  }

  // ---------------------------------------------------------------------------------------
  // Writing (writeImagesToFiles, writeImageToFile, writeIcoDirectoryEntry)
  // ---------------------------------------------------------------------------------------

  /** One ImageIO.write(image, format, new File(path)) call. */
  datatype WriteCall<I> = WriteCall(image: I, format: string, path: string)

  /** The result of a write (true/false, or an IOException) and the write calls made, in order. */
  datatype WriteOutcome<I> = WriteOutcome(result: Result<bool, ImageError>, calls: seq<WriteCall<I>>)

  datatype BatchOutcome<I> = BatchOutcome(result: Result<(), ImageError>, calls: seq<WriteCall<I>>)

  /** A single ImageIO.write call against the writer oracle (None is an IOException). */
  function Write<I>(writer: WriteCall<I> -> Option<bool>, call: WriteCall<I>): WriteOutcome<I>
  {
    if writer(call).None? then WriteOutcome(Failure(IoError), [call])
    else WriteOutcome(Success(writer(call).value), [call])
  }

  /** writeIcoDirectoryEntry: PNG at the path with extension png, then BMP only if the PNG write returned false. */
  function IcoDirectoryEntry<I>(writer: WriteCall<I> -> Option<bool>, image: I, outputFilePath: string): WriteOutcome<I>
  {
    var png := Write(writer, WriteCall(image, "png", ReplaceExtension(outputFilePath, "png")));
    if png.result != Success(false) then png
    else
      var bmp := Write(writer, WriteCall(image, "bmp", ReplaceExtension(outputFilePath, "bmp")));
      WriteOutcome(bmp.result, png.calls + bmp.calls)
  }

  /** writeImageToFile: "ico" goes to writeIcoDirectoryEntry, any other format is written as given. */
  function ImageToFile<I>(writer: WriteCall<I> -> Option<bool>, image: I, imageFormat: string, outputFilePath: string): WriteOutcome<I>
  {
    if imageFormat == "ico" then IcoDirectoryEntry(writer, image, outputFilePath)
    else Write(writer, WriteCall(image, imageFormat, outputFilePath))
  }

  ghost predicate SameLengths<I>(images: seq<I>, formats: seq<string>, paths: seq<string>)
  {
    |paths| == |formats| && |formats| == |images|
  }

  /** The first n writes of writeImagesToFiles; an IOException stops the loop, a false result does not. */
  function WriteAll<I>(writer: WriteCall<I> -> Option<bool>, images: seq<I>, formats: seq<string>,
                       paths: seq<string>, n: nat): BatchOutcome<I>
    requires SameLengths(images, formats, paths) && n <= |images|
  {
    if n == 0 then BatchOutcome(Success(()), [])
    else
      var before := WriteAll(writer, images, formats, paths, n - 1);
      if before.result.Failure? then before
      else
        var one := ImageToFile(writer, images[n - 1], formats[n - 1], paths[n - 1]);
        BatchOutcome(if one.result.Failure? then Failure(IoError) else Success(()), before.calls + one.calls)
  }

  /** What writeImagesToFiles does: unequal list lengths are an IllegalArgumentException before any write. */
  function WriteImages<I>(writer: WriteCall<I> -> Option<bool>, images: seq<I>, formats: seq<string>,
                          paths: seq<string>): BatchOutcome<I>
  {
    if !(|paths| == |formats| && |formats| == |images|) then BatchOutcome(Failure(IllegalArgument), [])
    else WriteAll(writer, images, formats, paths, |images|)
  }

  /** One ImageIO.write call, recording it. */
  method ImageIoWrite<I>(writer: WriteCall<I> -> Option<bool>, call: WriteCall<I>) returns (o: WriteOutcome<I>)
    ensures o == Write(writer, call)
  {
    var written := writer(call);
    if written.None? {
      return WriteOutcome(Failure(IoError), [call]);
    }
    return WriteOutcome(Success(written.value), [call]);
  }

  /** writeIcoDirectoryEntry, with its `written` flag. */
  method WriteIcoDirectoryEntry<I>(writer: WriteCall<I> -> Option<bool>, image: I, outputFilePath: string)
    returns (o: WriteOutcome<I>)
    ensures o == IcoDirectoryEntry(writer, image, outputFilePath)
  {
    var png := ImageIoWrite(writer, WriteCall(image, "png", ReplaceExtension(outputFilePath, "png")));
    if png.result.Failure? {
      return png;
    }
    var written := png.result.value;
    var calls := png.calls;
    if !written {
      var bmp := ImageIoWrite(writer, WriteCall(image, "bmp", ReplaceExtension(outputFilePath, "bmp")));
      calls := calls + bmp.calls;
      if bmp.result.Failure? {
        return WriteOutcome(Failure(IoError), calls);
      }
      written := bmp.result.value;
    }
    return WriteOutcome(Success(written), calls);
  }

  /** writeImageToFile. */
  method WriteImageToFile<I>(writer: WriteCall<I> -> Option<bool>, image: I, imageFormat: string, outputFilePath: string)
    returns (o: WriteOutcome<I>)
    ensures o == ImageToFile(writer, image, imageFormat, outputFilePath)
  {
    if imageFormat == "ico" {
      o := WriteIcoDirectoryEntry(writer, image, outputFilePath);
    } else {
      o := ImageIoWrite(writer, WriteCall(image, imageFormat, outputFilePath));
    }
  }

  /** writeImagesToFiles: check the lengths, then write image j with format j at path j, in order. */
  method WriteImagesToFiles<I>(writer: WriteCall<I> -> Option<bool>, images: seq<I>, imagesFormats: seq<string>,
                               outputFilesPaths: seq<string>) returns (o: BatchOutcome<I>)
    ensures o == WriteImages(writer, images, imagesFormats, outputFilesPaths)
  {
    if !(|outputFilesPaths| == |imagesFormats| && |imagesFormats| == |images|) {
      return BatchOutcome(Failure(IllegalArgument), []);
    }
    var calls: seq<WriteCall<I>> := [];
    var j := 0;
    while j < |images|
      invariant 0 <= j <= |images|
      invariant WriteAll(writer, images, imagesFormats, outputFilesPaths, j) == BatchOutcome(Success(()), calls)
    {
      var write := WriteImageToFile(writer, images[j], imagesFormats[j], outputFilesPaths[j]);
      calls := calls + write.calls;
      if write.result.Failure? {
        WriteAllStopped(writer, images, imagesFormats, outputFilesPaths, j + 1, |images|);
        return BatchOutcome(Failure(IoError), calls);
      }
      j := j + 1;
    }
    return BatchOutcome(Success(()), calls);
  }

  lemma {:induction false} WriteAllStopped<I>(writer: WriteCall<I> -> Option<bool>, images: seq<I>, formats: seq<string>,
                                              paths: seq<string>, m: nat, n: nat)
    requires SameLengths(images, formats, paths) && m <= n <= |images|
    requires WriteAll(writer, images, formats, paths, m).result.Failure?
    ensures WriteAll(writer, images, formats, paths, n) == WriteAll(writer, images, formats, paths, m)
    decreases n - m
  {
    if m < n {
      WriteAllStopped(writer, images, formats, paths, m, n - 1);
    }
  }

  // ---------------------------------------------------------------------------------------
  // Properties of the write path
  // ---------------------------------------------------------------------------------------

  /**
   * For "ico", PNG is tried first at the path with extension png; BMP is tried, at the path
   * with extension bmp, exactly when PNG returned false; the entry is written exactly when
   * one of them returned true.
   */
  lemma IcoTriesPngThenBmp<I>(writer: WriteCall<I> -> Option<bool>, image: I, outputFilePath: string)
    ensures var o := ImageToFile(writer, image, "ico", outputFilePath);
      var png := WriteCall(image, "png", ReplaceExtension(outputFilePath, "png"));
      var bmp := WriteCall(image, "bmp", ReplaceExtension(outputFilePath, "bmp"));
      && o.calls[0] == png
      && (|o.calls| == 2 <==> writer(png) == Some(false))
      && (|o.calls| == 2 ==> o.calls[1] == bmp)
      && |o.calls| <= 2
      && (o.result == Success(true) <==> writer(png) == Some(true) || (writer(png) == Some(false) && writer(bmp) == Some(true)))
  {
  }

  /** Any other format is written once, as given, and its result is the writer's. */
  lemma OtherFormatWrittenAsGiven<I>(writer: WriteCall<I> -> Option<bool>, image: I, imageFormat: string, outputFilePath: string)
    requires imageFormat != "ico"
    ensures var o := ImageToFile(writer, image, imageFormat, outputFilePath);
      && o.calls == [WriteCall(image, imageFormat, outputFilePath)]
      && (o.result.Failure? <==> writer(WriteCall(image, imageFormat, outputFilePath)).None?)
  {
  }

  /** Unequal lengths: IllegalArgumentException, and no write happens. */
  lemma UnequalLengthsNoWrite<I>(writer: WriteCall<I> -> Option<bool>, images: seq<I>, formats: seq<string>, paths: seq<string>)
    requires !SameLengths(images, formats, paths)
    ensures WriteImages(writer, images, formats, paths) == BatchOutcome(Failure(IllegalArgument), [])
  {
  }

  /** The calls of writing images 0..n-1 one after the other, block j being image j's. */
  function CallsUpTo<I>(writer: WriteCall<I> -> Option<bool>, images: seq<I>, formats: seq<string>,
                        paths: seq<string>, n: nat): seq<WriteCall<I>>
    requires SameLengths(images, formats, paths) && n <= |images|
  {
    if n == 0 then [] else CallsUpTo(writer, images, formats, paths, n - 1) + ImageToFile(writer, images[n - 1], formats[n - 1], paths[n - 1]).calls
  }

  /**
   * A batch of the first n writes succeeds exactly when none of them throws; a write that
   * returns false does not stop the loop. On success the calls are image 0's, then image 1's,
   * and so on.
   */
  lemma {:induction false} WriteAllSucceedsIff<I>(writer: WriteCall<I> -> Option<bool>, images: seq<I>, formats: seq<string>,
                                                  paths: seq<string>, n: nat)
    requires SameLengths(images, formats, paths) && n <= |images|
    ensures WriteAll(writer, images, formats, paths, n).result.Success? <==>
      forall j :: 0 <= j < n ==> ImageToFile(writer, images[j], formats[j], paths[j]).result.Success?
    ensures WriteAll(writer, images, formats, paths, n).result.Success? ==>
      WriteAll(writer, images, formats, paths, n).calls == CallsUpTo(writer, images, formats, paths, n)
  {
    if n > 0 {
      WriteAllSucceedsIff(writer, images, formats, paths, n - 1);
      if WriteAll(writer, images, formats, paths, n - 1).result.Failure? {
        var j :| 0 <= j < n - 1 && !ImageToFile(writer, images[j], formats[j], paths[j]).result.Success?;
      }
    }
  }

  /** Every call made for image j writes image j (pairing it with its own format and path). */
  lemma CallsCarryTheirImage<I>(writer: WriteCall<I> -> Option<bool>, image: I, imageFormat: string, outputFilePath: string)
    ensures forall c :: c in ImageToFile(writer, image, imageFormat, outputFilePath).calls ==> c.image == image
    ensures imageFormat != "ico" ==> ImageToFile(writer, image, imageFormat, outputFilePath).calls == [WriteCall(image, imageFormat, outputFilePath)]
  {
  }
}
