/**
 Command-line option accumulation: the `arguments` record, its defaults in
 `main`, and `parse_opt` folded over the options in command-line order
 (ObjectDetector.cpp).
 */
module Options {
  import opened Wrappers
  import opened Decimal

  const MaxInputFiles: nat := 128
  const MaxInputDirectories: nat := 128
  const DefaultDetectorPath: string := "cascades/haarcascade_profileface.xml"
  const DefaultExtension: string := ".jpg"

  /**
   `struct arguments`. The C counters `noFiles` and `noDirectories` are the
   lengths of `files` and `directories`; the 0/1 `int` flags are booleans.
   */
  datatype Arguments = Arguments(
    output: bool,
    verbose: bool,
    recursive: bool,
    minDetections: int,
    prefix: string,
    detector: string,
    extension: string,
    outputDirectory: string,
    files: seq<string>,
    directories: seq<string>)

  /** The fixed-size file and directory arrays are never overrun. */
  predicate WithinBounds(a: Arguments) {
    |a.files| <= MaxInputFiles && |a.directories| <= MaxInputDirectories
  }

  /** One option as argp hands it to `parse_opt`: its key and its argument text. */
  datatype Opt = Opt(key: char, arg: string)

  /**
   What one `parse_opt` call leads to: the updated record; `argp_usage`, which
   prints the usage text and ends the process; or `ARGP_ERR_UNKNOWN`.
   */
  datatype ParseOutcome = Accepted(args: Arguments) | UsageError | Unrecognised

  /** The keys `parse_opt` handles; 'y' is declared in the option table but is not among them. */
  const HandledKeys: set<char> := {'o', 'm', 'v', 'r', 'u', 'e', 'x', 'p', 'f', 'd'}

  /** The fields of `Arguments`, to say which one an option may change. */
  datatype Field = Output | Verbose | Recursive | MinDetections | Prefix | Detector
                 | Extension | OutputDirectory | Files | Directories

  /** The field an option key writes to. */
  function FieldOf(key: char): Field
    requires key in HandledKeys
  {
    match key
    case 'o' => Output
    case 'm' => MinDetections
    case 'v' => Verbose
    case 'r' => Recursive
    case 'u' => OutputDirectory
    case 'e' => Extension
    case 'x' => Detector
    case 'p' => Prefix
    case 'f' => Files
    case _ => Directories
  }

  /** `b` agrees with `a` on every field except possibly `f`. */
  predicate SameExcept(a: Arguments, b: Arguments, f: Field) {
    && (f != Output ==> b.output == a.output)
    && (f != Verbose ==> b.verbose == a.verbose)
    && (f != Recursive ==> b.recursive == a.recursive)
    && (f != MinDetections ==> b.minDetections == a.minDetections)
    && (f != Prefix ==> b.prefix == a.prefix)
    && (f != Detector ==> b.detector == a.detector)
    && (f != Extension ==> b.extension == a.extension)
    && (f != OutputDirectory ==> b.outputDirectory == a.outputDirectory)
    && (f != Files ==> b.files == a.files)
    && (f != Directories ==> b.directories == a.directories)
  }

  /**
   `parse_opt`. Each handled key changes only its own field; 'm' needs a
   positive `atoi` value, 'f' and 'd' a free slot in their array, and anything
   else is a usage error; unhandled keys are left to argp.
   */
  function ParseOpt(key: char, arg: string, a: Arguments): (r: ParseOutcome)
    ensures r.Unrecognised? <==> key !in HandledKeys
    ensures r.UsageError? <==>
              || (key == 'm' && Atoi(arg) <= 0)
              || (key == 'f' && |a.files| >= MaxInputFiles)
              || (key == 'd' && |a.directories| >= MaxInputDirectories)
    ensures r.Accepted? ==> key in HandledKeys && SameExcept(a, r.args, FieldOf(key))
    ensures r.Accepted? && WithinBounds(a) ==> WithinBounds(r.args)
  {
    match key
    case 'o' => Accepted(a.(output := true))
    case 'm' =>
      var tmp := Atoi(arg);
      if tmp > 0 then Accepted(a.(minDetections := tmp)) else UsageError
    case 'v' => Accepted(a.(verbose := true))
    case 'r' => Accepted(a.(recursive := true))
    case 'u' => Accepted(a.(outputDirectory := arg))
    case 'e' => Accepted(a.(extension := arg))
    case 'x' => Accepted(a.(detector := arg))
    case 'p' => Accepted(a.(prefix := arg))
    case 'f' =>
      if |a.files| >= MaxInputFiles then UsageError
      else Accepted(a.(files := a.files + [arg]))
    case 'd' =>
      if |a.directories| >= MaxInputDirectories then UsageError
      else Accepted(a.(directories := a.directories + [arg]))
    case _ => Unrecognised
  }

  /** What an accepted option writes into its own field. */
  lemma ParseOptValues(key: char, arg: string, a: Arguments)
    requires ParseOpt(key, arg, a).Accepted?
    ensures var b := ParseOpt(key, arg, a).args;
            && (key == 'o' ==> b.output)
            && (key == 'v' ==> b.verbose)
            && (key == 'r' ==> b.recursive)
            && (key == 'm' ==> b.minDetections == Atoi(arg) > 0)
            && (key == 'u' ==> b.outputDirectory == arg)
            && (key == 'e' ==> b.extension == arg)
            && (key == 'x' ==> b.detector == arg)
            && (key == 'p' ==> b.prefix == arg)
            && (key == 'f' ==> b.files == a.files + [arg])
            && (key == 'd' ==> b.directories == a.directories + [arg])
  {
  }

  /** An accepted option appends its argument to `files` for 'f', to `directories` for 'd', and to neither otherwise. */
  lemma ParseOptLists(key: char, arg: string, a: Arguments)
    requires ParseOpt(key, arg, a).Accepted?
    ensures ParseOpt(key, arg, a).args.files == a.files + (if key == 'f' then [arg] else [])
    ensures ParseOpt(key, arg, a).args.directories == a.directories + (if key == 'd' then [arg] else [])
  {
    if key != 'f' {
      assert a.files + [] == a.files;
    }
    if key != 'd' {
      assert a.directories + [] == a.directories;
    }
  }

  /** `-m` with a decimal numeral `n > 0` sets `minDetections` to `n`. */
  lemma MinDetectionsFromNumeral(n: nat, a: Arguments)
    requires n > 0
    ensures ParseOpt('m', NatToString(n), a) == Accepted(a.(minDetections := n))
  {
    AtoiOfNatToString(n, "");
    assert NatToString(n) + "" == NatToString(n);
  }

  /**
   argp calls `parse_opt` once per option in command-line order; a usage error
   ends the process and an unrecognised key ends the parse with an error.
   */
  function Accumulate(opts: seq<Opt>, a: Arguments): ParseOutcome
    decreases |opts|
  {
    if |opts| == 0 then Accepted(a)
    else match ParseOpt(opts[0].key, opts[0].arg, a)
      case Accepted(b) => Accumulate(opts[1..], b)
      case UsageError => UsageError
      case Unrecognised => Unrecognised
  }

  /** The arguments of the '-f' options, in command-line order. */
  function FileArgs(opts: seq<Opt>): seq<string> {
    if |opts| == 0 then []
    else (if opts[0].key == 'f' then [opts[0].arg] else []) + FileArgs(opts[1..])
  }

  /** The arguments of the '-d' options, in command-line order. */
  function DirectoryArgs(opts: seq<Opt>): seq<string> {
    if |opts| == 0 then []
    else (if opts[0].key == 'd' then [opts[0].arg] else []) + DirectoryArgs(opts[1..])
  }

  /** Every option is handled and every '-m' value is positive. */
  predicate WellFormed(opts: seq<Opt>) {
    forall i :: 0 <= i < |opts| ==>
      opts[i].key in HandledKeys && (opts[i].key == 'm' ==> Atoi(opts[i].arg) > 0)
  }

  /**
   An accepted parse accepted its first option and went on from the record `b`
   that option produced: `b` has the option's argument appended to `files` for
   'f', to `directories` for 'd', and stays within the bounds.
   */
  lemma AccumulateStep(opts: seq<Opt>, a: Arguments) returns (b: Arguments)
    requires |opts| > 0 && Accumulate(opts, a).Accepted?
    ensures Accumulate(opts, a) == Accumulate(opts[1..], b)
    ensures b.files == a.files + (if opts[0].key == 'f' then [opts[0].arg] else [])
    ensures b.directories == a.directories + (if opts[0].key == 'd' then [opts[0].arg] else [])
    ensures WithinBounds(a) ==> WithinBounds(b)
  {
    b := ParseOpt(opts[0].key, opts[0].arg, a).args;
    ParseOptLists(opts[0].key, opts[0].arg, a);
  }

  lemma AppendRegroup(x: seq<string>, y: seq<string>, z: seq<string>)
    ensures (x + y) + z == x + (y + z)
  {
  }

  /** An accepted parse appends the '-f' arguments to `files`, in command-line order. */
  lemma {:induction false} AccumulateFiles(opts: seq<Opt>, a: Arguments)
    requires Accumulate(opts, a).Accepted?
    ensures Accumulate(opts, a).args.files == a.files + FileArgs(opts)
    decreases |opts|
  {
    if |opts| > 0 {
      var b := AccumulateStep(opts, a);
      AccumulateFiles(opts[1..], b);
      AppendRegroup(a.files, if opts[0].key == 'f' then [opts[0].arg] else [], FileArgs(opts[1..]));
    } else {
      assert a.files + [] == a.files;
    }
  }

  /** An accepted parse appends the '-d' arguments to `directories`, in command-line order. */
  lemma {:induction false} AccumulateDirectories(opts: seq<Opt>, a: Arguments)
    requires Accumulate(opts, a).Accepted?
    ensures Accumulate(opts, a).args.directories == a.directories + DirectoryArgs(opts)
    decreases |opts|
  {
    if |opts| > 0 {
      var b := AccumulateStep(opts, a);
      AccumulateDirectories(opts[1..], b);
      AppendRegroup(a.directories, if opts[0].key == 'd' then [opts[0].arg] else [], DirectoryArgs(opts[1..]));
    } else {
      assert a.directories + [] == a.directories;
    }
  }

  /**
   An accepted parse stays within the array bounds, so more than
   `MaxInputFiles` files (or `MaxInputDirectories` directories) in all is never
   accepted.
   */
  lemma {:induction false} AccumulateBounded(opts: seq<Opt>, a: Arguments)
    requires WithinBounds(a)
    requires Accumulate(opts, a).Accepted?
    ensures WithinBounds(Accumulate(opts, a).args)
    decreases |opts|
  {
    if |opts| > 0 {
      var b := AccumulateStep(opts, a);
      AccumulateBounded(opts[1..], b);
    }
  }

  /**
   Conversely, handled options with positive '-m' values are accepted as long
   as the files and directories fit in their arrays.
   */
  lemma {:induction false} AccumulateAccepts(opts: seq<Opt>, a: Arguments)
    requires WellFormed(opts)
    requires |a.files| + |FileArgs(opts)| <= MaxInputFiles
    requires |a.directories| + |DirectoryArgs(opts)| <= MaxInputDirectories
    ensures Accumulate(opts, a).Accepted?
    decreases |opts|
  {
    if |opts| > 0 {
      var r := ParseOpt(opts[0].key, opts[0].arg, a);
      assert r.Accepted?;
      ParseOptValues(opts[0].key, opts[0].arg, a);
      assert WellFormed(opts[1..]) by {
        forall i | 0 <= i < |opts| - 1
          ensures opts[1..][i].key in HandledKeys
        {
          assert opts[1..][i] == opts[i + 1];
        }
      }
      AccumulateAccepts(opts[1..], r.args);
    }
  }

  /** More '-f' options than the file array holds never yield an accepted parse; likewise for '-d'. */
  lemma {:induction false} TooManyRejected(opts: seq<Opt>, a: Arguments)
    requires WithinBounds(a)
    requires || |a.files| + |FileArgs(opts)| > MaxInputFiles
             || |a.directories| + |DirectoryArgs(opts)| > MaxInputDirectories
    ensures !Accumulate(opts, a).Accepted?
  {
    if Accumulate(opts, a).Accepted? {
      AccumulateFiles(opts, a);
      AccumulateDirectories(opts, a);
      AccumulateBounded(opts, a);
    }
  }

  /** The record `main` starts from: all zero, extension ".jpg", the working directory or ".". */
  function InitialArguments(cwd: Option<string>): (a: Arguments)
    ensures WithinBounds(a) && |a.files| == 0 && |a.directories| == 0
    ensures !a.output && !a.verbose && !a.recursive && a.minDetections == 0
    ensures a.prefix == "" && a.detector == ""
    ensures a.extension == DefaultExtension
    ensures a.outputDirectory == if cwd.Some? then cwd.value else "."
  {
    Arguments(
      output := false, verbose := false, recursive := false, minDetections := 0,
      prefix := "", detector := "", extension := DefaultExtension,
      outputDirectory := if cwd.Some? then cwd.value else ".",
      files := [], directories := [])
  }

  /** The detector file `main` loads: the '-x' argument, or the default path when none was given. */
  function DetectorPath(a: Arguments): (path: string)
    ensures |path| > 0
    ensures |a.detector| > 0 ==> path == a.detector
    ensures |a.detector| == 0 ==> path == DefaultDetectorPath
  {
    if |a.detector| == 0 then DefaultDetectorPath else a.detector
  }
}
