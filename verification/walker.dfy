/**
 The driver in `main` (ObjectDetector.cpp): the options are accumulated, then
 every input file is classified and handled in order. Decoding, opening,
 frame reads and detection are oracles; the run is described by the trace of
 the calls it makes.
 */
module Walker {
  import opened Wrappers
  import opened Decimal
  import opened Media
  import opened Extraction
  import opened Options

  /**
   One `video.read(matSrc)`: whether it succeeded, whether the frame it filled
   has data, and what detection returns for that frame.
   */
  datatype FrameRead = FrameRead(ok: bool, hasData: bool, detections: seq<Box>)

  /** `imread` of an image, followed by detection when the image has data. */
  datatype ImageDecode = Unreadable | Decoded(detections: seq<Box>)

  /** `video.open`, and the reads the stream will answer; reads past the end fail. */
  datatype VideoOpen = Unopenable | Opened(script: seq<FrameRead>)

  /** POSIX `dirname`: its result, and the argument buffer after the call (which it may truncate). */
  datatype DirnameCall = DirnameCall(result: string, argAfter: string)

  /** Everything outside the program that the driver consults, by path. */
  datatype Oracles = Oracles(
    dirname: string -> DirnameCall,
    imread: string -> ImageDecode,
    video: string -> VideoOpen)

  /** What `main` fixes before the walk: the output directory with "/" appended, prefix, extension, `-o`. */
  datatype Settings = Settings(outputDirectory: string, prefix: string, extension: string, output: bool)

  function SettingsOf(a: Arguments): Settings {
    Settings(a.outputDirectory + "/", a.prefix, a.extension, a.output)
  }

  /** The calls the walk makes, in order. */
  datatype Event =
    | DecodeImage(path: string)
    | OpenVideo(path: string)
    | ReadFrame(path: string)
    | Extract(call: ExtractCall)

  /** `extractAndSaveDetections` runs only for a non-empty detection list with `-o` given. */
  function ExtractIf(s: Settings, c: ExtractCall): seq<Event> {
    if |c.detections| > 0 && s.output then [Extract(c)] else []
  }

  /** The image branch's call: `prefix` and `outputDirectory` in swapped positions, `dirname` as file name, frame 0. */
  function ImageCall(s: Settings, base: string, detections: seq<Box>): ExtractCall {
    ExtractCall(s.prefix, s.outputDirectory, base, s.extension, 0, detections)
  }

  /** The video branch's call: the full input path as file name and the current frame index. */
  function VideoCall(s: Settings, path: string, frame: nat, detections: seq<Box>): ExtractCall {
    ExtractCall(s.outputDirectory, s.prefix, path, s.extension, frame, detections)
  }

  /** The trace of the frame loop and the frame index it ends with. */
  datatype VideoRun = VideoRun(events: seq<Event>, frames: nat)

  /**
   The `while (readSuccessful)` loop: a failed read ends it; a successful read
   without data loops again with the same index; a frame with data is
   detected on, extracted from when needed, and advances the index.
   */
  function FrameLoop(s: Settings, path: string, script: seq<FrameRead>, frame: nat): VideoRun
    decreases |script|
  {
    if |script| == 0 || !script[0].ok then VideoRun([ReadFrame(path)], frame)
    else if !script[0].hasData then
      var rest := FrameLoop(s, path, script[1..], frame);
      VideoRun([ReadFrame(path)] + rest.events, rest.frames)
    else
      var rest := FrameLoop(s, path, script[1..], frame + 1);
      VideoRun([ReadFrame(path)] + ExtractIf(s, VideoCall(s, path, frame, script[0].detections)) + rest.events,
               rest.frames)
  }

  /** Number of reads before the first failed one (all of them when none fails). */
  function FirstFailure(script: seq<FrameRead>): (k: nat)
    ensures k <= |script|
    ensures forall j :: 0 <= j < k ==> script[j].ok
    ensures k < |script| ==> !script[k].ok
  {
    if |script| == 0 || !script[0].ok then 0 else 1 + FirstFailure(script[1..])
  }

  /** The detections of the reads that delivered a frame with data, in order. */
  function DataFrames(script: seq<FrameRead>): seq<seq<Box>> {
    if |script| == 0 then []
    else (if script[0].ok && script[0].hasData then [script[0].detections] else []) + DataFrames(script[1..])
  }

  /** The extraction calls for data frames numbered from `first`, one per non-empty detection list. */
  function NumberedCalls(s: Settings, path: string, frames: seq<seq<Box>>, first: nat): seq<ExtractCall>
    decreases |frames|
  {
    if |frames| == 0 then []
    else
      (if |frames[0]| > 0 && s.output then [VideoCall(s, path, first, frames[0])] else [])
      + NumberedCalls(s, path, frames[1..], first + 1)
  }

  /** How many `ReadFrame` events a trace holds. */
  function ReadCount(events: seq<Event>): nat {
    if |events| == 0 then 0
    else (if events[0].ReadFrame? then 1 else 0) + ReadCount(events[1..])
  }

  /** The `extractAndSaveDetections` calls of a trace, in order. */
  function Calls(events: seq<Event>): seq<ExtractCall> {
    if |events| == 0 then []
    else (if events[0].Extract? then [events[0].call] else []) + Calls(events[1..])
  }

  lemma {:induction false} ReadCountAppend(a: seq<Event>, b: seq<Event>)
    ensures ReadCount(a + b) == ReadCount(a) + ReadCount(b)
    decreases |a|
  {
    if |a| > 0 {
      assert (a + b)[1..] == a[1..] + b;
      ReadCountAppend(a[1..], b);
    } else {
      assert a + b == b;
    }
  }

  lemma {:induction false} CallsAppend(a: seq<Event>, b: seq<Event>)
    ensures Calls(a + b) == Calls(a) + Calls(b)
    decreases |a|
  {
    if |a| > 0 {
      assert (a + b)[1..] == a[1..] + b;
      CallsAppend(a[1..], b);
    } else {
      assert a + b == b;
    }
  }

  /** The data frames of the successful reads: the first one's (if it has data), then the rest's. */
  lemma DataFramesStep(script: seq<FrameRead>)
    requires |script| > 0 && script[0].ok
    ensures var k := FirstFailure(script);
            && k == 1 + FirstFailure(script[1..])
            && script[..k] == [script[0]] + script[1..][..k - 1]
            && DataFrames(script[..k]) ==
               (if script[0].hasData then [script[0].detections] else []) + DataFrames(script[1..][..k - 1])
  {
    var k := FirstFailure(script);
    assert script[..k] == [script[0]] + script[1..][..k - 1];
    assert script[..k][1..] == script[1..][..k - 1];
  }

  /** The frame loop reads exactly once more than the reads that succeed before the first failure. */
  lemma {:induction false} FrameLoopReads(s: Settings, path: string, script: seq<FrameRead>, frame: nat)
    ensures ReadCount(FrameLoop(s, path, script, frame).events) == FirstFailure(script) + 1
    decreases |script|
  {
    if |script| > 0 && script[0].ok {
      var next := if script[0].hasData then frame + 1 else frame;
      var rest := FrameLoop(s, path, script[1..], next);
      FrameLoopReads(s, path, script[1..], next);
      var ext := if script[0].hasData then ExtractIf(s, VideoCall(s, path, frame, script[0].detections)) else [];
      assert FrameLoop(s, path, script, frame).events == [ReadFrame(path)] + ext + rest.events;
      ReadCountAppend([ReadFrame(path)] + ext, rest.events);
      ReadCountAppend([ReadFrame(path)], ext);
      assert ReadCount(ext) == 0 by {
        if |ext| > 0 {
          assert ReadCount(ext) == ReadCount(ext[1..]);
        }
      }
    }
  }

  /** The frame index ends advanced once per data frame delivered before the first failed read. */
  lemma {:induction false} FrameLoopFrames(s: Settings, path: string, script: seq<FrameRead>, frame: nat)
    ensures FrameLoop(s, path, script, frame).frames == frame + |DataFrames(script[..FirstFailure(script)])|
    decreases |script|
  {
    if |script| > 0 && script[0].ok {
      var next := if script[0].hasData then frame + 1 else frame;
      FrameLoopFrames(s, path, script[1..], next);
      DataFramesStep(script);
    }
  }

  /**
   The extraction calls of the frame loop are, in order, those of the data
   frames with detections, numbered by their position among the data frames.
   */
  lemma {:induction false} FrameLoopCalls(s: Settings, path: string, script: seq<FrameRead>, frame: nat)
    ensures Calls(FrameLoop(s, path, script, frame).events) ==
            NumberedCalls(s, path, DataFrames(script[..FirstFailure(script)]), frame)
    decreases |script|
  {
    var r := FrameLoop(s, path, script, frame);
    var k := FirstFailure(script);
    if |script| == 0 || !script[0].ok {
      assert script[..k] == [];
      assert Calls(r.events) == Calls(r.events[1..]);
    } else {
      var next := if script[0].hasData then frame + 1 else frame;
      FrameLoopCalls(s, path, script[1..], next);
      DataFramesStep(script);
      var ext := ReadTail(s, path, script, frame);
      ReadCalls(s, path, script, frame);
      if script[0].hasData {
        FrameLoopCallsStep(s, path, script, frame, ext);
      } else {
        assert Calls(ext) == [];
        assert DataFrames(script[..k]) == DataFrames(script[1..][..k - 1]);
      }
    }
  }

  /** What a successful first read adds between its `ReadFrame` and the rest of the loop. */
  function ReadTail(s: Settings, path: string, script: seq<FrameRead>, frame: nat): seq<Event>
    requires |script| > 0
  {
    if script[0].hasData then ExtractIf(s, VideoCall(s, path, frame, script[0].detections)) else []
  }

  /** After a successful first read, the loop's calls are that read's, then those of the rest of the loop. */
  lemma ReadCalls(s: Settings, path: string, script: seq<FrameRead>, frame: nat)
    requires |script| > 0 && script[0].ok
    ensures var next := if script[0].hasData then frame + 1 else frame;
            Calls(FrameLoop(s, path, script, frame).events) ==
            Calls(ReadTail(s, path, script, frame)) + Calls(FrameLoop(s, path, script[1..], next).events)
  {
    var next := if script[0].hasData then frame + 1 else frame;
    var rest := FrameLoop(s, path, script[1..], next);
    var ext := ReadTail(s, path, script, frame);
    assert FrameLoop(s, path, script, frame).events == [ReadFrame(path)] + ext + rest.events;
    CallsAppend([ReadFrame(path)] + ext, rest.events);
    CallsAppend([ReadFrame(path)], ext);
    assert Calls([ReadFrame(path)]) == [];
  }

  /** The step of `FrameLoopCalls` for a read that delivers a frame with data. */
  lemma FrameLoopCallsStep(s: Settings, path: string, script: seq<FrameRead>, frame: nat, ext: seq<Event>)
    requires |script| > 0 && script[0].ok && script[0].hasData
    requires ext == ExtractIf(s, VideoCall(s, path, frame, script[0].detections))
    ensures var frames := DataFrames(script[..FirstFailure(script)]);
            NumberedCalls(s, path, frames, frame) ==
            Calls(ext) + NumberedCalls(s, path, DataFrames(script[1..][..FirstFailure(script[1..])]), frame + 1)
  {
    DataFramesStep(script);
    var k := FirstFailure(script);
    var frames := DataFrames(script[..k]);
    var c := VideoCall(s, path, frame, script[0].detections);
    assert frames[0] == script[0].detections;
    assert frames[1..] == DataFrames(script[1..][..k - 1]);
    if |c.detections| > 0 && s.output {
      assert ext == [Extract(c)];
      assert Calls(ext) == [c] + Calls(ext[1..]);
    } else {
      assert ext == [];
    }
  }

  /** Nothing after the first failed read is ever read. */
  lemma {:induction false} FrameLoopStopsAtFailure(s: Settings, path: string, script: seq<FrameRead>, frame: nat)
    ensures FrameLoop(s, path, script, frame) == FrameLoop(s, path, script[..FirstFailure(script)], frame)
    decreases |script|
  {
    var k := FirstFailure(script);
    if |script| > 0 && script[0].ok {
      var next := if script[0].hasData then frame + 1 else frame;
      FrameLoopStopsAtFailure(s, path, script[1..], next);
      var p := script[..k];
      assert p[0] == script[0];
      assert p[1..] == script[1..][..FirstFailure(script[1..])];
    }
  }

  /** What follows the decode of an image: extraction from its detections, if any. */
  function ImageTail(s: Settings, base: string, decoded: ImageDecode): seq<Event> {
    match decoded
    case Unreadable => []
    case Decoded(boxes) => ExtractIf(s, ImageCall(s, base, boxes))
  }

  /** What follows the open of a video: the frame loop from index 0. */
  function VideoTail(s: Settings, path: string, stream: VideoOpen): seq<Event> {
    match stream
    case Unopenable => []
    case Opened(script) => FrameLoop(s, path, script, 0).events
  }

  /**
   One input file of a given kind, after `dirname`: an image is decoded and
   a video opened under the name left in the argument buffer; Other files are
   passed over, and a failed decode or open ends that file's handling.
   */
  function HandleFile(s: Settings, o: Oracles, d: DirnameCall, kind: FileType): seq<Event> {
    match kind
    case Image => [DecodeImage(d.argAfter)] + ImageTail(s, d.result, o.imread(d.argAfter))
    case Video => [OpenVideo(d.argAfter)] + VideoTail(s, d.argAfter, o.video(d.argAfter))
    case Other => []
  }

  /**
   One input file: `dirname` is applied to the argument first, and the
   classification, decoding and naming use the buffer it leaves.
   */
  function ProcessFile(s: Settings, o: Oracles, arg: string): seq<Event> {
    var d := o.dirname(arg);
    HandleFile(s, o, d, IdentifyFileType(d.argAfter))
  }

  /** The loop over the input files, in order. */
  function Walk(s: Settings, o: Oracles, files: seq<string>): seq<Event>
    decreases |files|
  {
    if |files| == 0 then [] else ProcessFile(s, o, files[0]) + Walk(s, o, files[1..])
  }

  /** The walk over two lists is the walk over the first followed by the walk over the second. */
  lemma {:induction false} WalkAppend(s: Settings, o: Oracles, a: seq<string>, b: seq<string>)
    ensures Walk(s, o, a + b) == Walk(s, o, a) + Walk(s, o, b)
    decreases |a|
  {
    if |a| > 0 {
      var head := ProcessFile(s, o, a[0]);
      assert (a + b)[0] == a[0];
      assert (a + b)[1..] == a[1..] + b;
      WalkAppend(s, o, a[1..], b);
      calc {
        Walk(s, o, a + b);
        head + Walk(s, o, a[1..] + b);
        head + (Walk(s, o, a[1..]) + Walk(s, o, b));
        (head + Walk(s, o, a[1..])) + Walk(s, o, b);
      }
    } else {
      assert a + b == b;
    }
  }

  /**
   A file classified Other leads to no call at all; an unreadable image to
   its decode and nothing more; a video that does not open to the open and
   nothing more.
   */
  lemma FileSkips(s: Settings, o: Oracles, d: DirnameCall, kind: FileType)
    ensures kind == Other ==> HandleFile(s, o, d, kind) == []
    ensures kind == Image && o.imread(d.argAfter).Unreadable? ==> HandleFile(s, o, d, kind) == [DecodeImage(d.argAfter)]
    ensures kind == Video && o.video(d.argAfter).Unopenable? ==> HandleFile(s, o, d, kind) == [OpenVideo(d.argAfter)]
  {
  }

  /**
   Conversely, a decoded image with detections and `-o` given is extracted
   from exactly once, right after its decode, through the image call.
   */
  lemma ImageExtracts(s: Settings, o: Oracles, d: DirnameCall, boxes: seq<Box>)
    requires o.imread(d.argAfter) == Decoded(boxes) && |boxes| > 0 && s.output
    ensures HandleFile(s, o, d, Image) == [DecodeImage(d.argAfter), Extract(ImageCall(s, d.result, boxes))]
  {
  }

  /**
   An image is decoded once, first, and then only extracted from; a video is
   opened once, first, and then only read and extracted from.
   */
  lemma FileKindsApart(s: Settings, o: Oracles, d: DirnameCall, kind: FileType)
    ensures var ev := HandleFile(s, o, d, kind);
            && (kind == Image ==> ev[0] == DecodeImage(d.argAfter) && forall e :: e in ev[1..] ==> e.Extract?)
            && (kind == Video ==> ev[0] == OpenVideo(d.argAfter) && forall e :: e in ev[1..] ==> e.ReadFrame? || e.Extract?)
  {
    var ev := HandleFile(s, o, d, kind);
    match kind
    case Image =>
      assert ev[1..] == ImageTail(s, d.result, o.imread(d.argAfter));
    case Video =>
      assert ev[1..] == VideoTail(s, d.argAfter, o.video(d.argAfter));
      if o.video(d.argAfter).Opened? {
        FrameLoopEvents(s, d.argAfter, o.video(d.argAfter).script, 0);
      }
    case Other =>
  }

  /** The frame loop only reads frames of its own path and extracts through the video call. */
  lemma {:induction false} FrameLoopEvents(s: Settings, path: string, script: seq<FrameRead>, frame: nat)
    ensures forall e :: e in FrameLoop(s, path, script, frame).events ==>
              || e == ReadFrame(path)
              || (e.Extract? && e.call == VideoCall(s, path, e.call.frame, e.call.detections))
    decreases |script|
  {
    if |script| > 0 && script[0].ok {
      var next := if script[0].hasData then frame + 1 else frame;
      FrameLoopEvents(s, path, script[1..], next);
    }
  }

  /** Extraction happens only with `-o` given and only for non-empty detection lists. */
  lemma {:induction false} ExtractionNeedsOutputAndDetections(s: Settings, o: Oracles, files: seq<string>)
    ensures forall c :: c in Calls(Walk(s, o, files)) ==> s.output && |c.detections| > 0
    decreases |files|
  {
    if |files| > 0 {
      var d := o.dirname(files[0]);
      var head := ProcessFile(s, o, files[0]);
      assert head == HandleFile(s, o, d, IdentifyFileType(d.argAfter));
      CallsAppend(head, Walk(s, o, files[1..]));
      ExtractionNeedsOutputAndDetections(s, o, files[1..]);
      FileCallsGuarded(s, o, d, IdentifyFileType(d.argAfter));
    }
  }

  lemma FileCallsGuarded(s: Settings, o: Oracles, d: DirnameCall, kind: FileType)
    ensures forall c :: c in Calls(HandleFile(s, o, d, kind)) ==> s.output && |c.detections| > 0
  {
    var f := d.argAfter;
    match kind
    case Image =>
      var tail := ImageTail(s, d.result, o.imread(f));
      CallsAppend([DecodeImage(f)], tail);
      assert Calls([DecodeImage(f)]) == [];
      if |tail| > 0 {
        assert Calls(tail) == [tail[0].call] + Calls(tail[1..]);
        assert tail[1..] == [];
      }
    case Video =>
      var tail := VideoTail(s, f, o.video(f));
      CallsAppend([OpenVideo(f)], tail);
      assert Calls([OpenVideo(f)]) == [];
      if o.video(f).Opened? {
        var script := o.video(f).script;
        FrameLoopCalls(s, f, script, 0);
        NumberedCallsGuarded(s, f, DataFrames(script[..FirstFailure(script)]), 0);
      }
    case Other =>
  }

  lemma {:induction false} NumberedCallsGuarded(s: Settings, path: string, frames: seq<seq<Box>>, first: nat)
    ensures forall c :: c in NumberedCalls(s, path, frames, first) ==> s.output && |c.detections| > 0
    decreases |frames|
  {
    if |frames| > 0 {
      NumberedCallsGuarded(s, path, frames[1..], first + 1);
    }
  }

  /**
   The names an image's crops get: since the image branch passes the prefix
   as the directory and the output directory (which ends in "/") as the
   prefix, they are `prefix + outputDirectory + "_" + dirname + "_0_" + i + extension`.
   */
  lemma ImageCropNames(s: Settings, base: string, boxes: seq<Box>, i: nat)
    requires |s.outputDirectory| > 0
    ensures CropName(ImageCall(s, base, boxes), i) ==
              s.prefix + s.outputDirectory + "_" + base + "_0_" + NatToString(i) + s.extension
  {
    assert NatToString(0) == "0";
  }

  /**
   The names a video frame's crops get:
   `outputDirectory + [prefix + "_"] + path + "_" + frame + "_" + i + extension`.
   */
  lemma VideoCropNames(s: Settings, path: string, frame: nat, boxes: seq<Box>, i: nat)
    ensures var name := CropName(VideoCall(s, path, frame, boxes), i);
            var middle := if |s.prefix| > 0 then s.prefix + "_" else "";
            name == s.outputDirectory + middle + path + "_" + NatToString(frame) + "_" + NatToString(i) + s.extension
  {
  }

  /** The files a list of extraction calls tries to write, in order. */
  function WriteNames(calls: seq<ExtractCall>): seq<string> {
    if |calls| == 0 then [] else CropNames(calls[0]) + WriteNames(calls[1..])
  }

  /** How a run of `main` ends once option parsing is over. */
  datatype RunOutcome =
    | UsageExit
    | ParseFailure
    | Completed(settings: Settings, detector: string, events: seq<Event>)

  /**
   `main` from the parse onwards: a usage error or an unrecognised option ends
   the run; otherwise the input files are walked in the order given. The
   existence checks and the detector load are not part of the model, and the
   directory loop has an empty body.
   */
  function Run(cwd: Option<string>, opts: seq<Opt>, o: Oracles): (r: RunOutcome)
    ensures r.Completed? <==> Accumulate(opts, InitialArguments(cwd)).Accepted?
    ensures r.UsageExit? <==> Accumulate(opts, InitialArguments(cwd)).UsageError?
    ensures r.ParseFailure? <==> Accumulate(opts, InitialArguments(cwd)).Unrecognised?
    ensures r.Completed? ==>
              var a := Accumulate(opts, InitialArguments(cwd)).args;
              && r.settings.outputDirectory == a.outputDirectory + "/"
              && r.settings.prefix == a.prefix
              && r.settings.extension == a.extension
              && r.settings.output == a.output
              && r.detector == DetectorPath(a)
    ensures r.Completed? ==>
              && |FileArgs(opts)| <= MaxInputFiles
              && r.events == Walk(r.settings, o, FileArgs(opts))
              && |r.settings.outputDirectory| > 0
              && r.settings.outputDirectory[|r.settings.outputDirectory| - 1] == '/'
  {
    var init := InitialArguments(cwd);
    match Accumulate(opts, init)
    case UsageError => UsageExit
    case Unrecognised => ParseFailure
    case Accepted(a) =>
      AccumulateFiles(opts, init);
      AccumulateBounded(opts, init);
      assert a.files == FileArgs(opts);
      Completed(SettingsOf(a), DetectorPath(a), Walk(SettingsOf(a), o, a.files))
  }

  /** Any path ending in ".jpg" is an image. */
  lemma JpgIsImage(stem: string)
    ensures IdentifyFileType(stem + ".jpg") == Image
  {
    SampleMemberships();
    ClassifyJoin(stem, "jpg");
    assert stem + ".jpg" == stem + "." + "jpg";
  }

  /**
   A single image `stem.jpg` with two detections, no prefix and `-o` given:
   two crops, frame 0, indices 0 and 1. Because of the swapped arguments the
   names are the output directory, "_", the `dirname` result, then the
   numbers; the image's own name does not appear in them.
   */
  lemma ImageScenario(s: Settings, o: Oracles, stem: string, base: string, b0: Box, b1: Box)
    requires s.prefix == "" && s.output && |s.outputDirectory| > 0
    requires o.dirname(stem + ".jpg") == DirnameCall(base, stem + ".jpg")
    requires o.imread(stem + ".jpg") == Decoded([b0, b1])
    ensures WriteNames(Calls(ProcessFile(s, o, stem + ".jpg"))) ==
              [s.outputDirectory + "_" + base + "_0_0" + s.extension,
               s.outputDirectory + "_" + base + "_0_1" + s.extension]
  {
    var path := stem + ".jpg";
    JpgIsImage(stem);
    var c := ImageCall(s, base, [b0, b1]);
    var ev := ProcessFile(s, o, path);
    assert ev == [DecodeImage(path), Extract(c)];
    assert Calls(ev) == [c] by {
      assert Calls(ev) == Calls(ev[1..]);
      assert Calls(ev[1..]) == [c] + Calls([]);
    }
    assert WriteNames([c]) == CropNames(c) + WriteNames([]);
    ImageNameDigits(s, base, [b0, b1]);
  }

  lemma ImageNameDigits(s: Settings, base: string, boxes: seq<Box>)
    requires s.prefix == "" && |s.outputDirectory| > 0 && |boxes| == 2
    ensures CropNames(ImageCall(s, base, boxes)) ==
              [s.outputDirectory + "_" + base + "_0_0" + s.extension,
               s.outputDirectory + "_" + base + "_0_1" + s.extension]
  {
    var c := ImageCall(s, base, boxes);
    var head := s.outputDirectory + "_" + base;
    assert NatToString(0) == "0" && NatToString(1) == "1";
    assert CropName(c, 0) == head + "_0_0" + s.extension by {
      ImageCropNames(s, base, boxes, 0);
      assert "_0_" + "0" == "_0_0";
    }
    assert CropName(c, 1) == head + "_0_1" + s.extension by {
      ImageCropNames(s, base, boxes, 1);
      assert "_0_" + "1" == "_0_1";
    }
    assert CropNames(c) == [CropName(c, 0), CropName(c, 1)];
  }

  /** The script of the video scenario below. */
  function ScenarioScript(b: Box): seq<FrameRead> {
    [FrameRead(true, true, []), FrameRead(true, true, [b]), FrameRead(true, true, []), FrameRead(false, false, [])]
  }

  lemma ScenarioScriptShape(b: Box)
    ensures FirstFailure(ScenarioScript(b)) == 3
    ensures DataFrames(ScenarioScript(b)[..3]) == [[], [b], []]
  {
    var script := ScenarioScript(b);
    var f0, f1, f2, f3 := script[0], script[1], script[2], script[3];
    assert script[1..] == [f1, f2, f3] && [f1, f2, f3][1..] == [f2, f3] && [f2, f3][1..] == [f3];
    assert FirstFailure([f3]) == 0;
    assert script[..3] == [f0, f1, f2];
    assert [f0, f1, f2][1..] == [f1, f2] && [f1, f2][1..] == [f2] && [f2][1..] == [];
    assert DataFrames([f2]) == [[]];
    assert DataFrames([f1, f2]) == [[b], []];
  }

  /**
   A video whose first three reads deliver frames, of which only the middle
   one has a detection, and whose fourth read fails: four reads, three frames,
   and one crop named after the full input path with frame 1 and index 0.
   */
  lemma VideoScenario(s: Settings, path: string, b: Box)
    requires s.prefix == "" && s.output
    ensures var r := FrameLoop(s, path, ScenarioScript(b), 0);
            && ReadCount(r.events) == 4
            && r.frames == 3
            && WriteNames(Calls(r.events)) == [s.outputDirectory + path + "_1_0" + s.extension]
  {
    var script := ScenarioScript(b);
    FrameLoopReads(s, path, script, 0);
    FrameLoopFrames(s, path, script, 0);
    FrameLoopCalls(s, path, script, 0);
    ScenarioScriptShape(b);
    var empty: seq<Box> := [];
    var frames := [empty, [b], empty];
    var c := VideoCall(s, path, 1, [b]);
    assert NumberedCalls(s, path, frames, 0) == [c] by {
      assert frames[1..] == [[b], empty] && [[b], empty][1..] == [empty] && [empty][1..] == [];
      assert NumberedCalls(s, path, [empty], 2) == [];
      assert NumberedCalls(s, path, [[b], empty], 1) == [c];
    }
    assert WriteNames([c]) == CropNames(c) + WriteNames([]);
    assert CropNames(c) == [CropName(c, 0)];
    assert CropName(c, 0) == s.outputDirectory + path + "_1_0" + s.extension by {
      assert NatToString(0) == "0" && NatToString(1) == "1";
      VideoCropNames(s, path, 1, [b], 0);
      assert "_" + "1" + "_" + "0" == "_1_0";
    }
  }
}
