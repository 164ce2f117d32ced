# ObjectDetector core, modelled in Dafny

ObjectDetector is a small OpenCV command-line tool. It reads options, then for
every input file decides from the file name whether it is an image or a video.
It runs a cascade detector on the image or on every video frame, and with `-o`
it writes each detected region to its own image file. This project models the
tool's own logic. OpenCV, the file system and POSIX `dirname` are replaced by
oracles; argp's calls of `parse_opt` are modelled as a fold over the options,
with `argp_usage` as a usage-error outcome:

- `Decimal`: `numberToString` on non-negative numbers and C `atoi`.
- `Paths`: `find_last_of(".")`, the extension, `removeExtension`.
- `Media`: `identifyFileType` and the two sentinel-terminated extension tables.
- `Extraction`: crop-name composition and the write loop of `extractAndSaveDetections`.
- `Options`: the `arguments` record, `main`'s defaults, and `parse_opt` folded over the options.
- `Walker`: `main`'s per-file dispatch. The video frame loop is a fold over a scripted
  sequence of read results. A run is described by the trace of calls it makes
  (decode, open, read, extract).

Where the code does something other than its names suggest, the model
follows the code:

- The image branch passes `prefix` where `extractAndSaveDetections` expects
  the directory, and the output directory (already ending in `/`) where it
  expects the prefix. It also passes the `dirname` of the input as the file
  name. So an image `face.jpg` with two detections, no prefix and output
  directory `out/` gets crops `out/_._0_0.jpg` and `out/_._0_1.jpg`, not
  `face_0_0.jpg` (`Walker.ImageScenario`).
- The video branch passes the full input path as the file name, so `clip.avi`
  gives `out/clip.avi_1_0.jpg` (`Walker.VideoScenario`).
- A video read that succeeds without data does not end the loop: it reads
  again without advancing the frame index. Only a failed read ends the loop.
- The image table lists `"pdm"`, so `.pbm` files are not images.
- The option table declares `-y` (`output-file`), but `parse_opt` has no case
  for it, so it returns `ARGP_ERR_UNKNOWN`.
- At most 128 files and 128 directories are accepted. Another `-f` or `-d`
  beyond that is a usage error.
- `removeExtension` is modelled but never called by the tool. `minDetections`,
  `recursive` and the directory list are parsed but never used.

## Model

| member | source | states |
|---|---|---|
| `Decimal.NatToString` | ObjectDetector.h:173-179 | rendering a non-negative number gives a non-empty digit string with no leading zero, and it is "0" exactly for 0 |
| `Decimal.ParseNatToString` | ObjectDetector.h:174-178 | reading the rendering of `n` back as a decimal numeral gives `n` |
| `Decimal.NatToStringParse` | ObjectDetector.h:174-178 | every canonical numeral is the rendering of the number it denotes (the other direction of the round trip) |
| `Decimal.NatToStringInjective` | ObjectDetector.h:154-155 | two numbers render to the same text exactly when they are equal |
| `Decimal.SkipSpaceSpec` | ObjectDetector.cpp:80 | `atoi`'s first step drops exactly the leading white space: what remains is a suffix that does not start with a space, and everything dropped is space |
| `Decimal.LeadingDigitsSpec` | ObjectDetector.cpp:80 | `atoi` reads the longest run of digits at the front: a prefix of the input followed by the end or a non-digit |
| `Decimal.AtoiUnsigned` | ObjectDetector.cpp:80 | text that starts with a digit is read as the value of its leading digits |
| `Decimal.AtoiMinus` | ObjectDetector.cpp:80 | a leading '-' negates the value of the digits that follow it |
| `Decimal.AtoiOfNatToString` | ObjectDetector.cpp:79-80 | `atoi` of a rendered number followed by text that does not start with a digit is that number |
| `Decimal.AtoiOfNegatedNatToString` | ObjectDetector.cpp:79-80 | `atoi` of '-' and a rendered number, followed by text that does not start with a digit, is minus that number |
| `Decimal.AtoiWithoutDigits` | ObjectDetector.cpp:79-88 | text with no digit after the white space and optional sign reads as 0, which `-m` rejects |
| `Paths.LastDot` | ObjectDetector.h:67 | `find_last_of(".")` is absent exactly when there is no '.', and otherwise is a '.' position with no '.' after it |
| `Paths.Extension` | ObjectDetector.h:67-70 | the extension exists exactly when the path holds a '.', holds no '.', and is what follows the last '.' |
| `Paths.RemoveExtension` | ObjectDetector.h:100-113 | without a '.', the name is returned unchanged; otherwise the result is the prefix strictly before the last '.' |
| `Paths.RemoveExtensionRoundTrip` | ObjectDetector.h:100-113 | stripped name + "." + extension gives back the original path |
| `Paths.ExtensionOfJoin` | ObjectDetector.h:67-70 | the extension of `stem + "." + ext` is `ext` whenever `ext` has no '.', whatever the stem holds |
| `Media.TablesAreSentinelTerminated` | ObjectDetector.h:40-52 | both tables end in "" and have no other empty entry |
| `Media.ScanTableFinds` | ObjectDetector.h:72-79 | a table scan succeeds exactly for a non-empty extension equal to a table entry; the "" marker never matches |
| `Media.TablesMatchSets` | ObjectDetector.h:40-52 | the non-empty entries of the image and video tables are exactly the image and video extension sets |
| `Media.ImageTableFirst` | ObjectDetector.h:72-90 | an extension listed in both tables would classify as an image, since the image table is scanned first |
| `Media.IdentifyFileTypeSpec` | ObjectDetector.h:65-95 | Image exactly when the text after the last '.' is in the image set; Video exactly when it is in the video set and not the image set; Other otherwise |
| `Media.NoDotIsOther` | ObjectDetector.h:65-95 | a path without a '.' is Other |
| `Media.ClassifyJoin` | ObjectDetector.h:70-90 | the classification of `stem + "." + ext` depends on `ext` alone |
| `Media.SampleMemberships` | ObjectDetector.h:40-52 | "pbm", "JPG", "txt" and "" are in neither set; "avi" and "mp4" are videos only; "jpg" and "pdm" are images |
| `Media.SampleClassifications` | ObjectDetector.h:40-90 | avi/mp4 give Video, jpg/pdm give Image, and JPG, pbm, txt and the empty extension of a trailing '.' give Other |
| `Extraction.CropNameLayout` | ObjectDetector.h:156-161 | a crop name is directory, then prefix and "_" only when the prefix is non-empty, then file name, "_", frame, "_", index, extension |
| `Extraction.CropNameIndex` | ObjectDetector.h:154-161 | the detection index can be read back from the digits between the common head and the extension |
| `Extraction.CropNamesDistinct` | ObjectDetector.h:151-161 | within one call, distinct detection indices give distinct names |
| `Extraction.ExtractAndSaveDetections` | ObjectDetector.h:149-171 | the name built piece by piece in the loop is the crop name of that index; there is one write per detection, in index order, whatever earlier writes reported; names are pairwise distinct; the result is always true |
| `Options.ParseOpt` | ObjectDetector.cpp:63-150 | unhandled keys (including the declared 'y') give `ARGP_ERR_UNKNOWN`; a usage error happens exactly for `-m` with `atoi <= 0` or `-f`/`-d` at the 128 bound; an accepted option changes only its own field and keeps the arrays within bounds |
| `Options.ParseOptValues` | ObjectDetector.cpp:72-142 | `-o`/`-v`/`-r` set their flag, `-m` stores the positive `atoi` value, `-u`/`-e`/`-x`/`-p` store the argument, `-f`/`-d` append it |
| `Options.MinDetectionsFromNumeral` | ObjectDetector.cpp:77-90 | `-m n` with a positive numeral sets `minDetections` to `n` and nothing else |
| `Options.ParseOptLists` | ObjectDetector.cpp:121-141 | an accepted option appends its argument to `files` for `-f`, to `directories` for `-d`, and leaves both lists alone otherwise |
| `Options.AccumulateStep` | ObjectDetector.cpp:63-150 | an accepted parse accepted its first option and continued from that option's record, which appended to the lists as `-f`/`-d` do and kept the bounds |
| `Options.AccumulateFiles` | ObjectDetector.cpp:121-131 | an accepted parse has appended exactly the `-f` arguments to `files`, in command-line order |
| `Options.AccumulateDirectories` | ObjectDetector.cpp:132-142 | an accepted parse has appended exactly the `-d` arguments to `directories`, in command-line order |
| `Options.AccumulateBounded` | ObjectDetector.cpp:121-141 | an accepted parse that starts within the 128-entry bounds stays within them |
| `Options.AccumulateAccepts` | ObjectDetector.cpp:63-150 | handled options with positive `-m` values are accepted whenever files and directories fit in their arrays |
| `Options.TooManyRejected` | ObjectDetector.cpp:121-141 | more than 128 files, or more than 128 directories, is never accepted |
| `Options.InitialArguments` | ObjectDetector.cpp:157-168 | `main` starts with every flag off, `minDetections` 0, no files or directories, empty prefix and detector, extension ".jpg", and the working directory, or "." when `getcwd` fails |
| `Options.DetectorPath` | ObjectDetector.cpp:186-191 | the detector path is never empty: the `-x` argument when one was given, otherwise the default cascade path |
| `Walker.FirstFailure` | ObjectDetector.cpp:265-274 | the number of reads before the first failed read: all those reads succeed and the next one, if scripted, fails |
| `Walker.ReadCountAppend` | ObjectDetector.cpp:265-274 | the reads of two traces in sequence add up |
| `Walker.CallsAppend` | ObjectDetector.cpp:277-285 | the extraction calls of two traces in sequence are those of the first, then those of the second |
| `Walker.DataFramesStep` | ObjectDetector.cpp:265-285 | after a successful first read, the data frames before the first failure are that read's frame (if it had data) followed by those of the rest |
| `Walker.FrameLoopReads` | ObjectDetector.cpp:265-274 | the loop reads exactly once more than the successful reads before the first failure |
| `Walker.FrameLoopFrames` | ObjectDetector.cpp:265-288 | the frame index ends advanced once per data frame delivered before the first failure; reads without data do not advance it |
| `Walker.FrameLoopCalls` | ObjectDetector.cpp:265-288 | the extraction calls are, in order, those of the data frames with detections, each numbered by its position among the data frames |
| `Walker.FrameLoopCallsStep` | ObjectDetector.cpp:277-288 | a data frame contributes its own extraction call, if any, ahead of the calls of the rest, which are numbered from the next index |
| `Walker.ReadCalls` | ObjectDetector.cpp:265-288 | after a successful read, the loop's extraction calls are that read's own call, if any, followed by the calls of the rest of the loop |
| `Walker.FrameLoopStopsAtFailure` | ObjectDetector.cpp:265-274 | nothing scripted after the first failed read affects the loop |
| `Walker.FrameLoopEvents` | ObjectDetector.cpp:265-285 | the loop only reads frames of its own stream and extracts with the output directory, the prefix and the full path |
| `Walker.FileSkips` | ObjectDetector.cpp:219-260 | for a file of a given kind after `dirname`: an Other file leads to no call; an unreadable image stops after its decode; a video that does not open stops after the open |
| `Walker.ImageExtracts` | ObjectDetector.cpp:239-247 | conversely, a decoded image with detections and `-o` given is decoded and then extracted from exactly once, with the image call built from the `dirname` result |
| `Walker.FileKindsApart` | ObjectDetector.cpp:227-291 | for a file of a given kind after `dirname`: an image is decoded once, first, and then only extracted from; a video is opened once, first, and then only read and extracted from |
| `Walker.WalkAppend` | ObjectDetector.cpp:219-292 | files are handled one after another: the walk over `a + b` is the walk over `a` followed by the walk over `b` |
| `Walker.FileCallsGuarded` | ObjectDetector.cpp:241-285 | every extraction call of one file has `-o` set and a non-empty detection list |
| `Walker.NumberedCallsGuarded` | ObjectDetector.cpp:277-285 | every extraction call of the frame loop has `-o` set and a non-empty detection list |
| `Walker.ExtractionNeedsOutputAndDetections` | ObjectDetector.cpp:241-285 | over the whole walk, extraction happens only with `-o` and only for non-empty detection lists |
| `Walker.ImageCropNames` | ObjectDetector.cpp:221-246 | image crops are named `prefix + outputDirectory + "_" + dirname + "_0_" + index + extension` (swapped arguments, frame 0) |
| `Walker.VideoCropNames` | ObjectDetector.cpp:284 | video crops are named `outputDirectory + [prefix + "_"] + full path + "_" + frame + "_" + index + extension` |
| `Walker.JpgIsImage` | ObjectDetector.h:41 | any path ending in ".jpg" is an image |
| `Walker.ImageNameDigits` | ObjectDetector.cpp:246 | with no prefix, the two crops of an image are named `outputDirectory + "_" + dirname + "_0_0"` and `"_0_1"`, each followed by the output extension |
| `Walker.ImageScenario` | ObjectDetector.cpp:219-247 | a `.jpg` input with two detections, no prefix and `-o` writes exactly those two names, in that order, whatever the output extension |
| `Walker.ScenarioScriptShape` | ObjectDetector.cpp:265-274 | the scenario stream fails on its fourth read and delivers three data frames, the middle one with a detection |
| `Walker.VideoScenario` | ObjectDetector.cpp:252-290 | three data frames with a detection only in the middle one: four reads, frame index 3, and one crop `outputDirectory + path + "_1_0" + extension` |
| `Walker.Run` | ObjectDetector.cpp:155-300 | a completed run walks exactly the `-f` arguments in command-line order, at most 128 of them, with an output directory ending in '/' |

## Left out

- OpenCV: `imread`, `VideoCapture::open`/`read`, `cvtColor`, `equalizeHist`,
  `detectMultiScale` with its fixed parameters, `Mat` cropping and `imwrite`
  are foreign library calls. They are oracles here: an image decode returns
  the detections directly, a read returns a scripted `(ok, hasData,
  detections)`, and `imwrite` is a function from name and box to success.
- Reads past the end of a scripted video count as failed reads. A real stream
  that kept succeeding without data would loop forever; a finite script
  cannot express that.
- `fileExists`/`stat`, `getcwd` and the detector load are file-system I/O. The
  aborts that depend on them (missing output directory, missing or unloadable
  detector) are not modelled; `getcwd`'s answer is an input of `Run`.
- POSIX `dirname` is an oracle that returns its result and the argument buffer
  after the call, because it may truncate that buffer, and `main` classifies
  and names the file from the buffer afterwards.
- argp internals are C library behaviour: what argp does after
  `ARGP_ERR_UNKNOWN`, its special keys, and the exit status of `argp_usage`.
  An unrecognised key and a usage error both end the parse.
- `strncpy` truncation to `PATH_MAX` is C library behaviour and is not modelled.
- Decimal.Atoi: `atoi` overflow is undefined behaviour in C; the model reads
  arbitrarily long numerals without wrap-around.
- The `int` frame counter and loop index could overflow after 2^31 frames or
  detections. Numbers here are unbounded.
- `VERBOSE`/`REPORT` logging and the `std::cout`/`std::cerr` messages. The
  "Failed to write" report appears only as the `written` flag of each write
  attempt.
- The directory loop at the end of `main` has an empty body and does nothing.
  `recursive`, `minDetections` and the directory list are parsed but have no
  effect on the walk.
- `exit(0)` and the process exit codes.
