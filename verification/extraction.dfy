/**
 Output names and the per-detection write loop of `extractAndSaveDetections`
 (ObjectDetector.h). Cropping and `cv::imwrite` are outside the model: a crop
 is identified by its box, and the write is an oracle that reports success.
 */
module Extraction {
  import opened Decimal

  /** A `cv::Rect` returned by the detector, in pixel coordinates of its frame. */
  datatype Box = Box(x: int, y: int, width: int, height: int)

  /**
   The arguments of one `extractAndSaveDetections` call, in the order of its
   signature: `directory`, `prefix`, `filename`, `extension`, `frame`.
   */
  datatype ExtractCall = ExtractCall(
    directory: string,
    prefix: string,
    filename: string,
    extension: string,
    frame: nat,
    detections: seq<Box>)

  /** One attempted write: the destination, the region cropped, and what the write reported. */
  datatype WriteAttempt = WriteAttempt(name: string, region: Box, written: bool)

  /** The text every crop name of a call starts with, up to the detection index. */
  function NameHead(c: ExtractCall): string {
    c.directory + (if |c.prefix| > 0 then c.prefix + "_" else "") + c.filename + "_" + NatToString(c.frame) + "_"
  }

  /** The destination of the crop of detection `index`. */
  function CropName(c: ExtractCall, index: nat): string {
    NameHead(c) + NatToString(index) + c.extension
  }

  /** The destinations of all crops of a call, in detection order. */
  function CropNames(c: ExtractCall): seq<string> {
    seq(|c.detections|, i requires 0 <= i < |c.detections| => CropName(c, i))
  }

  /**
   A crop name is, piece by piece, the directory, the prefix and "_" when the
   prefix is non-empty, the file name, "_", the frame number, "_", the
   detection index and the extension.
   */
  lemma CropNameLayout(c: ExtractCall, index: nat)
    ensures |c.prefix| > 0 ==>
              CropName(c, index) == c.directory + c.prefix + "_" + c.filename + "_"
                                    + NatToString(c.frame) + "_" + NatToString(index) + c.extension
    ensures |c.prefix| == 0 ==>
              CropName(c, index) == c.directory + c.filename + "_"
                                    + NatToString(c.frame) + "_" + NatToString(index) + c.extension
  {
  }

  /** The detection index can be read back from a crop name, so the name determines it. */
  lemma CropNameIndex(c: ExtractCall, index: nat)
    ensures var name := CropName(c, index);
            var head := NameHead(c);
            && |head| + |c.extension| < |name|
            && AllDigits(name[|head|..|name| - |c.extension|])
            && ParseDecimal(name[|head|..|name| - |c.extension|]) == index
  {
    var name := CropName(c, index);
    var head := NameHead(c);
    var digits := NatToString(index);
    assert name == head + digits + c.extension;
    assert name[|head|..|name| - |c.extension|] == digits;
    ParseNatToString(index);
  }

  /** Within one call, distinct detection indices give distinct crop names. */
  lemma CropNamesDistinct(c: ExtractCall, i: nat, j: nat)
    requires i != j
    ensures CropName(c, i) != CropName(c, j)
  {
    CropNameIndex(c, i);
    CropNameIndex(c, j);
    if CropName(c, i) == CropName(c, j) {
      NatToStringInjective(i, j);
    }
  }

  /**
   `extractAndSaveDetections`: one write per detection, in index order, each
   to its own crop name; a failed write is reported in its attempt and the
   loop carries on, and the call returns true whatever the writes reported.
   */
  method ExtractAndSaveDetections(c: ExtractCall, imwrite: (string, Box) -> bool)
    returns (attempts: seq<WriteAttempt>, result: bool)
    ensures result
    ensures |attempts| == |c.detections|
    ensures forall i :: 0 <= i < |attempts| ==>
              && attempts[i].name == CropName(c, i)
              && attempts[i].region == c.detections[i]
              && attempts[i].written == imwrite(CropName(c, i), c.detections[i])
    ensures forall i, j :: 0 <= i < j < |attempts| ==> attempts[i].name != attempts[j].name
  {
    attempts := [];
    var iter := 0;
    while iter < |c.detections|
      invariant 0 <= iter <= |c.detections|
      invariant |attempts| == iter
      invariant forall i :: 0 <= i < iter ==>
                  && attempts[i].name == CropName(c, i)
                  && attempts[i].region == c.detections[i]
                  && attempts[i].written == imwrite(CropName(c, i), c.detections[i])
    {
      var stringIter := NatToString(iter);
      var stringFrame := NatToString(c.frame);
      var filenameCrop := c.directory;
      if |c.prefix| > 0 {
        filenameCrop := filenameCrop + (c.prefix + "_");
      }
      filenameCrop := filenameCrop + (c.filename + "_" + stringFrame + "_" + stringIter + c.extension);
      assert filenameCrop == CropName(c, iter) by {
        CropNameLayout(c, iter);
      }
      var success := imwrite(filenameCrop, c.detections[iter]);
      attempts := attempts + [WriteAttempt(filenameCrop, c.detections[iter], success)];
      iter := iter + 1;
    }
    forall i, j | 0 <= i < j < |attempts|
      ensures attempts[i].name != attempts[j].name
    {
      CropNamesDistinct(c, i, j);
    }
    result := true;
  }
}
