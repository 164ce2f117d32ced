/** `identifyFileType` and the two extension tables of ObjectDetector.h. */
module Media {
  import opened Wrappers
  import opened Paths

  datatype FileType = Video | Image | Other

  /** `imageExtensions`, with its "" end marker; note "pdm" where "pbm" was meant. */
  const ImageExtensions: seq<string> :=
    ["bmp", "dib", "jpeg", "jpg", "jpe", "jp2", "png", "pdm", "pgm", "ppm", "sr", "ras", "tiff", "tif", ""]

  /** `videoExtensions`, with its "" end marker. */
  const VideoExtensions: seq<string> := ["avi", "mp4", ""]

  /** The extensions the image table accepts, as a set. */
  const ImageSet: set<string> :=
    {"bmp", "dib", "jpeg", "jpg", "jpe", "jp2", "png", "pdm", "pgm", "ppm", "sr", "ras", "tiff", "tif"}

  /** The extensions the video table accepts, as a set. */
  const VideoSet: set<string> := {"avi", "mp4"}

  /** A table whose only empty entry is its last one, which ends every scan. */
  predicate SentinelTerminated(table: seq<string>) {
    && |table| > 0
    && table[|table| - 1] == ""
    && forall i :: 0 <= i < |table| - 1 ==> table[i] != ""
  }

  /** One `while (table[iterator].length() > 0)` scan for an exact, case-sensitive match. */
  function ScanTable(table: seq<string>, ext: string): bool
    requires SentinelTerminated(table)
  {
    if table[0] == "" then false
    else if table[0] == ext then true
    else ScanTable(table[1..], ext)
  }

  /** A scan finds exactly the non-empty entries of the table; "" is never found. */
  lemma {:induction false} ScanTableFinds(table: seq<string>, ext: string)
    requires SentinelTerminated(table)
    ensures ScanTable(table, ext) <==> ext != "" && ext in table
    decreases |table|
  {
    if table[0] != "" && table[0] != ext {
      assert SentinelTerminated(table[1..]);
      ScanTableFinds(table[1..], ext);
      assert table == [table[0]] + table[1..];
    }
  }

  /**
   `identifyFileType` over two given tables: no '.' gives Other; otherwise the
   image table is scanned first, then the video table.
   */
  function ClassifyWith(images: seq<string>, videos: seq<string>, path: string): FileType
    requires SentinelTerminated(images) && SentinelTerminated(videos)
  {
    match Extension(path)
    case None => Other
    case Some(ext) =>
      if ScanTable(images, ext) then Image
      else if ScanTable(videos, ext) then Video
      else Other
  }

  /** An extension listed in both tables classifies as an image. */
  lemma ImageTableFirst(images: seq<string>, videos: seq<string>, path: string)
    requires SentinelTerminated(images) && SentinelTerminated(videos)
    requires Extension(path).Some?
    requires Extension(path).value in images && Extension(path).value in videos
    requires Extension(path).value != ""
    ensures ClassifyWith(images, videos, path) == Image
  {
    ScanTableFinds(images, Extension(path).value);
  }

  lemma TablesAreSentinelTerminated()
    ensures SentinelTerminated(ImageExtensions) && SentinelTerminated(VideoExtensions)
  {
  }

  /** The non-empty entries of each table are exactly its set. */
  lemma TablesMatchSets(ext: string)
    ensures ext != "" && ext in ImageExtensions <==> ext in ImageSet
    ensures ext != "" && ext in VideoExtensions <==> ext in VideoSet
  {
    assert ImageExtensions == ImageExtensions[..14] + [""];
    assert ImageExtensions[..14] == ["bmp", "dib", "jpeg", "jpg", "jpe", "jp2", "png", "pdm", "pgm", "ppm", "sr", "ras", "tiff", "tif"];
  }

  /** `identifyFileType`: the image table, then the video table, against the text after the last '.'. */
  function IdentifyFileType(path: string): FileType {
    TablesAreSentinelTerminated();
    ClassifyWith(ImageExtensions, VideoExtensions, path)
  }

  /**
   Image exactly when the text after the last '.' is in the image set, Video
   exactly when it is in the video set and not in the image set.
   */
  lemma IdentifyFileTypeSpec(path: string)
    ensures IdentifyFileType(path) == Image <==> Extension(path).Some? && Extension(path).value in ImageSet
    ensures IdentifyFileType(path) == Video <==>
              Extension(path).Some? && Extension(path).value !in ImageSet && Extension(path).value in VideoSet
  {
    TablesAreSentinelTerminated();
    var ext := Extension(path);
    if ext.Some? {
      ScanTableFinds(ImageExtensions, ext.value);
      ScanTableFinds(VideoExtensions, ext.value);
      TablesMatchSets(ext.value);
    }
  }

  /** A path without a '.' is never an image or a video. */
  lemma NoDotIsOther(path: string)
    requires '.' !in path
    ensures IdentifyFileType(path) == Other
  {
    IdentifyFileTypeSpec(path);
  }

  /** Classification looks only at the text after the last '.'. */
  lemma ClassifyJoin(stem: string, ext: string)
    requires '.' !in ext
    ensures IdentifyFileType(stem + "." + ext) ==
              if ext in ImageSet then Image else if ext in VideoSet then Video else Other
  {
    ExtensionOfJoin(stem, ext);
    IdentifyFileTypeSpec(stem + "." + ext);
  }

  /** Set membership of the sample extensions used below. */
  lemma SampleMemberships()
    ensures "avi" in VideoSet && "mp4" in VideoSet && "avi" !in ImageSet && "mp4" !in ImageSet
    ensures "jpg" in ImageSet && "pdm" in ImageSet
    ensures "JPG" !in ImageSet && "JPG" !in VideoSet && "pbm" !in ImageSet && "pbm" !in VideoSet
    ensures "" !in ImageSet && "" !in VideoSet && "txt" !in ImageSet && "txt" !in VideoSet
  {
  }

  /**
   Sample classifications: the comparison is exact and case-sensitive, the
   image table says "pdm" rather than "pbm", and an empty extension (a path
   ending in '.') matches neither table.
   */
  lemma SampleClassifications(path: string)
    ensures Extension(path) == Some("avi") ==> IdentifyFileType(path) == Video
    ensures Extension(path) == Some("mp4") ==> IdentifyFileType(path) == Video
    ensures Extension(path) == Some("jpg") ==> IdentifyFileType(path) == Image
    ensures Extension(path) == Some("pdm") ==> IdentifyFileType(path) == Image
    ensures Extension(path) == Some("JPG") ==> IdentifyFileType(path) == Other
    ensures Extension(path) == Some("pbm") ==> IdentifyFileType(path) == Other
    ensures Extension(path) == Some("") ==> IdentifyFileType(path) == Other
    ensures Extension(path) == Some("txt") ==> IdentifyFileType(path) == Other
  {
    SampleMemberships();
    IdentifyFileTypeSpec(path);
  }
}
