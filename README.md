# Favicon finder core in Dafny

This project models the logic at the core of a Java favicon finder. The repository holds two near-identical
copies of it, packages `ch.bisi.jicon` and `ch.bisi.jbesticon`. Textually identical copies are
modelled once, and the table cites the different copies on different members. The modules follow the
components of the program:

- `Rgb`: 8-bit colour channels, Java's `>>` on a channel (`Shr`) and its channel-wise use.
- `ShiftedColors`: the `ShiftedColor` value type, with `equals`/`hashCode`. `java.awt.Color.equals`
  compares packed RGB ints, and `hashCode` is computed with 32-bit wrap-around.
- `SaturationWeight`: `JiconColorFinder.getWeight`, the saturation weight of a colour, in exact reals.
- `ColorFinder`: the dominant-colour finder. It builds a colour-statistics table over the whole image,
  then runs four bucketing passes at right-shifts 6, 4, 2 and 0 on sampled pixels. Each pass picks the
  heaviest bucket and restricts the next pass to that bucket. The table and the pass loops are `method`s
  with loop invariants, proved against specification functions (`StatsOf`, `PassWeights`).
- `ColorUtil`: relative luminance, the white contrast ratio, and the foreground-colour choice.
- `PathUtil`: `getExtension` and `replaceExtension` over `String.lastIndexOf`.
- `FaviconLinks`: the four copies of the link fetcher. The effective base URL is the first `<head><base href>`
  resolved against the document location. On it are resolved the three conventional favicon paths and
  then every `<link>` whose `rel` is one of four values, selector by selector and in document order.
  URL parsing and resolution are an abstract oracle (`UrlParser`). The list-building loops are methods
  proved equal to the specification functions.
- `ImageUtil`: reader choice and the embedded-image loop in `executeOperationForEachEmbeddedImage`, and
  the write path with its `"ico"` special case. ImageIO is an oracle (`ImageIo`, a writer function), and
  a write's effect is modelled as the sequence of write calls made. `GetImageReader` and `WriteImageToFile`
  have no loop: each is the same logic as its specification function (`ChooseReader`, `ImageToFile`), kept
  as a method as in the source and proved equal to it. Their promises are proved about the functions.
- `IconFetching`: `JiconIconFactory.getIcon` and the two `FaviconsFetcher` copies. They map links to
  icons and drop the links whose icon cannot be read.

IOException, ImageFormatNotSupportedException, IllegalArgumentException, MalformedURLException and
EmptyImageException become the error values of a `Result`.

## Model

| member | source | states |
|---|---|---|
| Rgb.Shr | src/main/java/ch/bisi/jbesticon/colorfinder/ColorFinder.java:193-195 | `x >> s` on a channel, as s halvings, is again a channel and never exceeds x |
| Rgb.ShrIsDivision | src/main/java/ch/bisi/jbesticon/colorfinder/ColorFinder.java:229-234 | `x >> s` is floor division by 2^s |
| Rgb.ShrShr | src/main/java/ch/bisi/jbesticon/colorfinder/ColorFinder.java:192-196 | shifting by s and then by t is shifting by s + t |
| Rgb.ShiftColorShiftColor | src/main/java/ch/bisi/jbesticon/colorfinder/ColorFinder.java:229-234 | the same for a whole colour, channel by channel |
| ShiftedColors.Wrap32 | src/main/java/ch/bisi/jbesticon/colorfinder/ShiftedColor.java:58-60 | Java int arithmetic: the result is in the int range and congruent to the exact value modulo 2^32 |
| ShiftedColors.HashCode | src/main/java/ch/bisi/jbesticon/colorfinder/ShiftedColor.java:56-61 | `31 * shift + color.hashCode()` with wrap-around is a Java int |
| ShiftedColors.ColorRgbInjective | src/main/java/ch/bisi/jbesticon/colorfinder/ShiftedColor.java:53 | `Color.equals`, comparing packed RGB values, holds exactly when the three channels are equal |
| ShiftedColors.EqualsIff | src/main/java/ch/bisi/jicon/colorfinder/ShiftedColor.java:38-55 | equals holds iff shifts and colours are equal, i.e. iff the values are equal |
| ShiftedColors.EqualsNull | src/main/java/ch/bisi/jbesticon/colorfinder/ShiftedColor.java:43-45 | nothing equals null |
| ShiftedColors.EqualsIsEquivalence | src/main/java/ch/bisi/jbesticon/colorfinder/ShiftedColor.java:38-54 | equals is reflexive, symmetric and transitive |
| ShiftedColors.HashCodeConsistent | src/main/java/ch/bisi/jicon/colorfinder/ShiftedColor.java:57-62 | equal instances have equal hash codes |
| ShiftedColors.GettersReadColor | src/main/java/ch/bisi/jicon/colorfinder/ShiftedColor.java:10-36 | the getters return the wrapped colour's channels; shift and getters rebuild the same immutable value |
| SaturationWeight.Weight | src/main/java/ch/bisi/jicon/colorfinder/JiconColorFinder.java:38-41 | the weight is at least 1, so the 1E-10 branch is never taken |
| SaturationWeight.WeightIsFormula | src/main/java/ch/bisi/jicon/colorfinder/JiconColorFinder.java:33-37 | the weight is (sum of squared channel differences) * 1000 / 65535 + 1 |
| SaturationWeight.GreyWeighsOne | src/main/java/ch/bisi/jicon/colorfinder/JiconColorFinder.java:33-37 | grey colours (r = g = b) weigh exactly 1 |
| SaturationWeight.WeightOneOnlyForGrey | src/main/java/ch/bisi/jicon/colorfinder/JiconColorFinder.java:33-37 | weight 1 only for grey colours |
| SaturationWeight.WeightPermutationInvariant | src/main/java/ch/bisi/jicon/colorfinder/JiconColorFinder.java:30-37 | the weight is the same for all six orders of (r, g, b) |
| SaturationWeight.SquaredDifferencesBound | src/main/java/ch/bisi/jicon/colorfinder/JiconColorFinder.java:34-36 | the squared differences sum to at most 2 * 255^2 |
| SaturationWeight.WeightUpperBound | src/main/java/ch/bisi/jicon/colorfinder/JiconColorFinder.java:33-37 | the weight is at most 1 + 2 * 255^2 * 1000 / 65535 |
| SaturationWeight.WeightOfRed | src/main/java/ch/bisi/jicon/colorfinder/JiconColorFinder.java:33-37 | pure red attains that bound |
| ColorFinder.MergeColor | src/main/java/ch/bisi/jbesticon/colorfinder/ColorFinder.java:68-69 | `merge` adds only the pixel's colour as a key and leaves every other entry unchanged |
| ColorFinder.StatsOfSnoc | src/main/java/ch/bisi/jbesticon/colorfinder/ColorFinder.java:66-70 | the table of one more pixel is one more merge |
| ColorFinder.StatsOfCounts | src/main/java/ch/bisi/jbesticon/colorfinder/ColorFinder.java:63-73 | the keys are exactly the pixels' colours; each count is that colour's multiplicity, and each weight is its `getWeight` |
| ColorFinder.TotalCountMerge | src/main/java/ch/bisi/jbesticon/colorfinder/ColorFinder.java:68-69 | one merge raises the sum of counts by one |
| ColorFinder.TotalCountStatsOf | src/main/java/ch/bisi/jbesticon/colorfinder/ColorFinder.java:63-73 | the counts sum to the number of pixels |
| ColorFinder.BuildColorMap | src/main/java/ch/bisi/jbesticon/colorfinder/ColorFinder.java:63-73 | the nested pixel loops with `merge` build the table of all pixels in row-major order |
| ColorFinder.StatsCoverImage | src/main/java/ch/bisi/jbesticon/colorfinder/ColorFinder.java:209 | every pixel's colour has an entry, so `colorStatsMap.get(color)` is never null |
| ColorFinder.ColorMapProperties | src/main/java/ch/bisi/jbesticon/colorfinder/ColorFinder.java:63-73 | for a whole image: coverage, keys exactly the pixel colours, counts and weights per colour, counts summing to width * height |
| ColorFinder.SmallImageFullySampled | src/main/java/ch/bisi/jbesticon/colorfinder/ColorFinder.java:157-163 | up to 180 * 180 pixels (SAMPLE_THRESHOLD) a pass visits every pixel of the image, in the same row-major order as buildColorMap |
| ColorFinder.LargeImageSampledEveryOther | src/main/java/ch/bisi/jbesticon/colorfinder/ColorFinder.java:157-163 | beyond that, a pass visits ceil(width / 2) * ceil(height / 2) pixels, all of them pixels of the image |
| ColorFinder.GetShiftedColor | src/main/java/ch/bisi/jbesticon/colorfinder/ColorFinder.java:229-234 | the bucket key keeps the shift, and each channel is floor(channel / 2^(shift mod 32)) |
| ColorFinder.MatchIsSameBucket | src/main/java/ch/bisi/jbesticon/colorfinder/ColorFinder.java:192-196 | with a target, a pixel is admitted iff its bucket at the target's shift is the target itself |
| ColorFinder.ContributionInHundredths | src/main/java/ch/bisi/jbesticon/colorfinder/ColorFinder.java:212-213 | floor(weight * count * 100) = count * 100 + (count * 100000 * S) / 65535, with S the squared differences |
| ColorFinder.IncreaseColorWeight | src/main/java/ch/bisi/jbesticon/colorfinder/ColorFinder.java:206-219 | `compute` adds floor(weight * count * 100) / 100 to the pixel's bucket (from absent as 0) and changes no other bucket |
| ColorFinder.AccumulateAppend | src/main/java/ch/bisi/jbesticon/colorfinder/ColorFinder.java:108-115 | processing a + b is processing a, then b |
| ColorFinder.AccumulateKeys | src/main/java/ch/bisi/jbesticon/colorfinder/ColorFinder.java:108-115 | the buckets are the earlier ones plus the bucket of each admitted pixel, and no others |
| ColorFinder.GetColorWithMaxWeight | src/main/java/ch/bisi/jbesticon/colorfinder/ColorFinder.java:141-149 | empty iff the map is empty; otherwise a key of maximal weight |
| ColorFinder.GetColorWithMaxWeightOrThrow | src/main/java/ch/bisi/jbesticon/colorfinder/ColorFinder.java:128-132 | EmptyImageException iff the map is empty; otherwise a key of maximal weight |
| ColorFinder.AccumulateRow | src/main/java/ch/bisi/jbesticon/colorfinder/ColorFinder.java:109-114 | the inner loop over x (step stepLength) processes exactly the row's sampled pixels in order |
| ColorFinder.FindMainColorStep | src/main/java/ch/bisi/jbesticon/colorfinder/ColorFinder.java:103-117 | the pass throws iff its bucket map is empty; otherwise it returns a heaviest bucket of the sampled, admitted pixels |
| ColorFinder.PassKeys | src/main/java/ch/bisi/jbesticon/colorfinder/ColorFinder.java:106-115 | the buckets of a pass are exactly the keys, at the pass's shift, of its admitted sampled pixels |
| ColorFinder.PassEmptyIff | src/main/java/ch/bisi/jbesticon/colorfinder/ColorFinder.java:110-116 | a pass has no bucket iff no sampled pixel is admitted |
| ColorFinder.SampledPixelsEmpty | src/main/java/ch/bisi/jbesticon/colorfinder/ColorFinder.java:107-110 | nothing is sampled iff width or height is 0 |
| ColorFinder.FirstPassEmptyIff | src/main/java/ch/bisi/jbesticon/colorfinder/ColorFinder.java:45 | the untargeted first pass throws iff the image has no pixels |
| ColorFinder.LaterPassNonEmpty | src/main/java/ch/bisi/jbesticon/colorfinder/ColorFinder.java:46-48 | a pass targeting a bucket of an earlier pass always finds a pixel, so it never throws |
| ColorFinder.BucketRefinesTarget | src/main/java/ch/bisi/jbesticon/colorfinder/ColorFinder.java:192-196 | a bucket of a targeted pass, shifted further by (target shift - shift), is the target colour |
| ColorFinder.KeyRefinesTarget | src/main/java/ch/bisi/jbesticon/colorfinder/ColorFinder.java:229-234 | the same for one admitted pixel's key |
| ColorFinder.MatchedColor | src/main/java/ch/bisi/jbesticon/colorfinder/ColorFinder.java:193-195 | an admitted pixel shifted by the target's shift is the target's colour |
| ColorFinder.ShiftZeroBucketIsPixel | src/main/java/ch/bisi/jbesticon/colorfinder/ColorFinder.java:48-49 | a bucket at shift 0 is the colour of a sampled pixel |
| ColorFinder.FindMainColor | src/main/java/ch/bisi/jbesticon/colorfinder/ColorFinder.java:43-50 | EmptyImageException iff the image has no pixels; otherwise the colour of the last winner of a chain of passes at 6, 4, 2, 0 (each targeting the previous winner), which is a sampled pixel's colour |
| ColorFinder.WinnerChainRefines | src/main/java/ch/bisi/jbesticon/colorfinder/ColorFinder.java:43-50 | along the chain the shifts are 6, 4, 2, 0; each winner shifted by 2 is the previous winner; the final colour is sampled |
| ColorFinder.OnePixelMainColor | src/test/java/ch/bisi/jbesticon/colorfinder/JiconColorFinderTest.java:17-25 | a 1x1 image's main colour is its pixel (white gives ffffff, black gives 000000) |
| ColorUtil.RelativeLuminance | src/main/java/ch/bisi/jicon/common/ColorUtil.java:51-54 | 0.2126R + 0.7152G + 0.0722B lies in [0, 255] |
| ColorUtil.LuminanceOfWhite | src/main/java/ch/bisi/jicon/common/ColorUtil.java:51-54 | white has luminance 255 |
| ColorUtil.WhiteContrastRatio | src/main/java/ch/bisi/jicon/common/ColorUtil.java:37-40 | ratio * (L(bg) + 0.05) = L(white) + 0.05, and the ratio is at least 1 |
| ColorUtil.ForegroundColor | src/main/java/ch/bisi/jicon/common/ColorUtil.java:20-26 | the result is WHITE or DARK_GRAY |
| ColorUtil.ForegroundIff | src/main/java/ch/bisi/jicon/common/ColorUtil.java:20-26 | WHITE iff the contrast ratio exceeds 1.5, DARK_GRAY iff it does not |
| ColorUtil.ForegroundByLuminance | src/main/java/ch/bisi/jicon/common/ColorUtil.java:20-40 | WHITE iff 3 * L(bg) < 509.95 |
| ColorUtil.WhiteAndBlackBackgrounds | src/main/java/ch/bisi/jicon/common/ColorUtil.java:20-40 | white has ratio 1 and gets DARK_GRAY; black gets WHITE |
| ColorUtil.LuminanceMonotone | src/main/java/ch/bisi/jicon/common/ColorUtil.java:51-54 | raising channels never lowers luminance |
| ColorUtil.ForegroundMonotone | src/main/java/ch/bisi/jicon/common/ColorUtil.java:20-54 | raising channels never turns DARK_GRAY into WHITE |
| PathUtil.LastIndexOf | src/main/java/ch/bisi/jicon/common/Util.java:31 | `lastIndexOf` is -1 iff the character is absent; otherwise it is an index holding it with none later |
| PathUtil.GetExtension | src/main/java/ch/bisi/jicon/common/Util.java:30-36 | an extension is shorter than the path |
| PathUtil.GetExtensionNone | src/main/java/ch/bisi/jbesticon/common/Util.java:30-34 | null iff the path has no '.' or its last '.' is the final character |
| PathUtil.GetExtensionSome | src/main/java/ch/bisi/jbesticon/common/Util.java:31-35 | a non-null result is non-empty and dot-free, and path = prefix + "." + result |
| PathUtil.ReplaceWithoutExtension | src/main/java/ch/bisi/jicon/common/Util.java:45-49 | without an extension the path is returned unchanged |
| PathUtil.ReplaceWithExtension | src/main/java/ch/bisi/jicon/common/Util.java:50 | otherwise: the prefix up to and including the last '.', then the new extension |
| PathUtil.ReplaceThenGet | src/main/java/ch/bisi/jicon/common/Util.java:30-51 | getExtension(replaceExtension(p, e)) = e when p has an extension and e is non-empty and dot-free |
| PathUtil.ReplaceByOwnExtension | src/main/java/ch/bisi/jicon/common/Util.java:30-51 | replaceExtension(p, getExtension(p)) = p when p has an extension |
| FaviconLinks.MissingHrefResolvesEmpty | src/main/java/ch/bisi/jicon/fetcher/link/JsoupFaviconsLinksFetcher.java:119-122 | a matching link without href is not skipped: it contributes "" |
| FaviconLinks.ExtractCommonFaviconsUrls | src/main/java/ch/bisi/jicon/fetcher/link/JsoupFaviconsLinksFetcher.java:95-103 | the loop resolves the three conventional paths in order; the first failure aborts |
| FaviconLinks.ExtractFaviconsUrlsFromCssSelectors | src/main/java/ch/bisi/jicon/fetcher/link/FaviconsLinksFetcher.java:126-137 | the nested loops resolve the hrefs of the selected links, selector by selector and in document order; the first failure aborts |
| FaviconLinks.FetchLinks | src/main/java/ch/bisi/jicon/fetcher/link/JsoupFaviconsLinksFetcher.java:61-68 | the base, then the common URLs followed by the tag URLs |
| FaviconLinks.ResolveAllIff | src/main/java/ch/bisi/jbesticon/fetcher/FaviconsLinksFetcher.java:123-132 | resolving a list succeeds iff every entry resolves; then entry i is the resolution of href i |
| FaviconLinks.CommonUrlsInOrder | src/main/java/ch/bisi/jbesticon/fetcher/FaviconsLinksFetcher.java:105-112 | exactly three URLs: favicon.ico, apple-touch-icon.png, apple-touch-icon-precomposed.png against the base |
| FaviconLinks.LinksAreCommonThenTags | src/main/java/ch/bisi/jicon/fetcher/link/FaviconsLinksFetcher.java:62-79 | fetchLinks succeeds iff getCommonUrls and getTagsUrls do; its first three entries are the common URLs, and the rest are getTagsUrls |
| FaviconLinks.LinksFailIff | src/main/java/ch/bisi/jbesticon/fetcher/link/FaviconsLinksFetcher.java:62-69 | any failure (base, a common path, a tag href) aborts the whole call, and nothing else does |
| FaviconLinks.FirstBaseHrefIff | src/main/java/ch/bisi/jicon/fetcher/link/JsoupFaviconsLinksFetcher.java:78-86 | the base href is that of the first `head base[href]` element, and there is none iff no element qualifies |
| FaviconLinks.SelectAppend | src/main/java/ch/bisi/jbesticon/fetcher/link/FaviconsLinksFetcher.java:135-146 | selection keeps document order: selecting in a + b is selecting in a, then in b |
| FaviconLinks.SelectMembers | src/main/java/ch/bisi/jbesticon/fetcher/link/FaviconsLinksFetcher.java:135-146 | the selected elements are exactly the links with that rel |
| FaviconLinks.SelectedHrefsLength | src/main/java/ch/bisi/jbesticon/fetcher/link/FaviconsLinksFetcher.java:38-43 | with distinct rels each matching link yields exactly one href, with no dedup |
| FaviconLinks.LinksLength | src/main/java/ch/bisi/jicon/fetcher/link/JsoupFaviconsLinksFetcher.java:61-68 | the result has 3 + (number of matching links) entries |
| FaviconLinks.TagHrefsGrouped | src/main/java/ch/bisi/jicon/fetcher/link/JsoupFaviconsLinksFetcher.java:37-42 | the tag hrefs are grouped as icon, shortcut icon, apple-touch-icon, apple-touch-icon-precomposed |
| FaviconLinks.TagsUnderBase | src/test/java/ch/bisi/jbesticon/fetcher/FaviconsLinksFetcherTest.java:49-64 | with `<base href="images/">` the base is images/ resolved against the location, failing iff that resolution is malformed; tag URL i is href i resolved against that base, and the tags fail iff some href does not resolve |
| ImageUtil.GetImageReader | src/main/java/ch/bisi/jicon/common/ImageUtil.java:191-205 | the reassigned reader iterator yields the specified choice |
| ImageUtil.SniffedReaderFirst | src/main/java/ch/bisi/jbesticon/common/ImageUtil.java:75-89 | a sniffed reader always wins, and the first one is taken |
| ImageUtil.SuffixLookupOnlyWhenNeeded | src/main/java/ch/bisi/jicon/common/ImageUtil.java:196-198 | the suffix registry matters only when sniffing finds nothing and there is an extension |
| ImageUtil.NoReaderIff | src/main/java/ch/bisi/jicon/common/ImageUtil.java:193-201 | there is no reader iff nothing is sniffed and (no extension or no reader for it) |
| ImageUtil.ExecuteOperationForEachEmbeddedImage | src/main/java/ch/bisi/jicon/common/ImageUtil.java:89-111 | open, choose the reader, then loop from minIndex below numImages appending each operation result |
| ImageUtil.MapIndicesIff | src/main/java/ch/bisi/jbesticon/common/ImageUtil.java:53-58 | the loop succeeds iff every operation does; then it has max(0, numImages - minIndex) entries and entry k is operation(reader, minIndex + k) |
| ImageUtil.NoReaderFails | src/main/java/ch/bisi/jicon/common/ImageUtil.java:94-96 | with no reader the call throws ImageFormatNotSupportedException, whatever the operation |
| ImageUtil.OperationErrorPropagates | src/main/java/ch/bisi/jicon/common/ImageUtil.java:102-105 | an operation's IOException on any index in range propagates, with no partial list |
| ImageUtil.WriteIcoDirectoryEntry | src/main/java/ch/bisi/jicon/common/ImageUtil.java:173-181 | the `written` flag logic yields the specified outcome and calls |
| ImageUtil.WriteImageToFile | src/main/java/ch/bisi/jicon/common/ImageUtil.java:151-162 | "ico" goes to the directory-entry writer, other formats to one write |
| ImageUtil.WriteImagesToFiles | src/main/java/ch/bisi/jicon/common/ImageUtil.java:123-140 | the length check, then the write loop, yield the specified outcome and calls |
| ImageUtil.IcoTriesPngThenBmp | src/main/java/ch/bisi/jicon/common/ImageUtil.java:175-180 | PNG first at the path with extension png; BMP at the path with extension bmp iff PNG returned false; written iff one of them returned true |
| ImageUtil.OtherFormatWrittenAsGiven | src/main/java/ch/bisi/jicon/common/ImageUtil.java:157-160 | any other format is one write, at the given path with the given format |
| ImageUtil.UnequalLengthsNoWrite | src/main/java/ch/bisi/jicon/common/ImageUtil.java:126-130 | unequal list lengths: IllegalArgumentException before any write |
| ImageUtil.WriteAllSucceedsIff | src/main/java/ch/bisi/jicon/common/ImageUtil.java:131-139 | the loop succeeds iff no write throws (a false result does not stop it); the calls are image 0's, then image 1's, and so on |
| ImageUtil.CallsCarryTheirImage | src/main/java/ch/bisi/jicon/common/ImageUtil.java:132-137 | every call made for image j writes image j, with format j and path j unless the format is "ico" |
| IconFetching.GetIconContents | src/main/java/ch/bisi/jicon/common/JiconIconFactory.java:24-32 | errors propagate unchanged; otherwise the icon has the input URL and one image per index in order, with the reader's format and that index's size |
| IconFetching.IndexedIconContents | src/main/java/ch/bisi/jbesticon/fetcher/icon/FaviconsFetcher.java:59-64 | image k records index minIndex + k (consecutive from minIndex), and the icon carries its URL |
| IconFetching.CopiesAgree | src/main/java/ch/bisi/jbesticon/fetcher/icon/FaviconsFetcher.java:57-72 | both copies succeed on the same URLs and read the same formats and sizes |
| IconFetching.FilterMapKeepsOrder | src/main/java/ch/bisi/jicon/fetcher/icon/FaviconsFetcher.java:40-43 | the output is the present results at strictly increasing input positions, and these are exactly the positions with a result |
| IconFetching.FilterMapLength | src/main/java/ch/bisi/jicon/fetcher/icon/FaviconsFetcher.java:40-43 | the output is no longer than the input, and as long only when nothing is dropped |
| IconFetching.FilterMapAppend | src/main/java/ch/bisi/jicon/fetcher/icon/FaviconsFetcher.java:52-62 | the output for a + b is the output for a, then for b |
| IconFetching.GetIconsFromLinks | src/main/java/ch/bisi/jicon/fetcher/icon/FaviconsFetcher.java:39-62 | a fetchLinks failure propagates; otherwise the icons are those of the readable links, in link order |
| IconFetching.GetIndexedIconsFromLinks | src/main/java/ch/bisi/jbesticon/fetcher/icon/FaviconsFetcher.java:44-72 | the same for the jbesticon copy |
| IconFetching.GetIconsSplit | src/main/java/ch/bisi/jicon/fetcher/icon/FaviconsFetcher.java:52-62 | one link's failure does not affect the icons of other links |
| IconFetching.IcoFixture | src/test/java/ch/bisi/jicon/fetcher/icon/FaviconsFetcherTest.java:27-36 | a four-image .ico link and an unreachable link give exactly one icon, with images 64, 32, 24 and 16 pixels square |

## Left out

- Network and file I/O (jsoup connections, `openStream`, file writes and copies, both `Jicon` facades, the fetching strategy and the example program) are not part of this model. A stream that does not open, and a write, are oracle answers.
- java.net.URL parsing and resolution are an abstract `UrlParser` oracle. `Util.getDomain` is not part of this model.
- jsoup selector semantics beyond exact `rel` matching and the `head` position of `base` are not modelled.
- Image decoding and encoding are left out: the reader and the writer are oracles. `getNumImages` and `getMinIndex` never throw in the model.
- Letter-icon rendering (`LetterIcon`, `createLetterIcon`) depends on fonts and Graphics2D and is not part of this model.
- Weights, contributions, luminance and contrast are exact reals, not IEEE doubles.
- ColorFinder.GetColorWithMaxWeight: promises a key of maximal weight, not the one HashMap iteration order would give on a tie.
- ColorFinder.FindMainColor: states that the result comes from some chain of winners, because ties are not resolved.
- ColorFinder.StepLength: does not model 32-bit overflow of `width * height` on huge images.
- ColorFinder.GetShiftedColor: Java masks a shift distance to its low five bits. This is modelled (`ShiftDistance`), but the finder only uses shifts 0..6.
- The pixel loops start at 0: `BufferedImage.getMinX()` and `getMinY()` are always 0.
- ColorFinder.AccumulateRow: the inner x loop of `findMainColorStep` is a method of its own, so the outer loop's proof stays small.
- A null pixel colour or a null target reached through `equals` is not modelled beyond `equals(null)` being false.
- `ch.bisi.jicon.colorfinder.JiconColorFinder` extends a `ColorFinder` that exists only in `ch.bisi.jbesticon.colorfinder`. The finder is modelled once.
- In `ch.bisi.jbesticon`, `FaviconsFetcher` builds a `JiconIcon` from a URL and a list of images, but that package's `JiconIcon` constructor takes a URL and an `Image`. The model follows the fetcher and keeps the list.
- The HTML fixtures behind the link-count tests (9 URLs for one page, 2 tag URLs for another, six under images/) are not available. `LinksLength` states the count for any document.
- FaviconLinks.TagsUnderBase: does not promise that the tag URLs lie textually under the images/ directory. That follows from java.net.URL resolution, which the model leaves abstract. The lemma states that each tag URL is its href resolved against the images/ base.
- IconFetching.GetIcons: the jicon `getIcons` returns a lazy `Stream`, so a link is opened and decoded only when the stream is consumed. The model is an eager sequence: it captures the content and order of the icons, not when each link is read.
- Logging and `reader.dispose()` have no observable effect in the model.
