/**
 * The two batch drivers: the standard pass over the input folder's images
 * and the upscale pass over existing artifacts.
 */
module Drivers {
  import opened Options
  import opened Naming
  import opened Text
  import opened Reconcile
  import opened Engine

  /** The settings both drivers read; paths and the endpoint are not modelled. */
  datatype Config = Config(iterations: int, seed: Option<int>, params: Params, upscale: bool)

  /** The result of a pass: the directory, the unused steps, the requests sent. */
  datatype Drive = Drive(files: map<string, Bytes>, rest: seq<Step>, sent: nat)

  const ImageExtensions: set<string> := {".jpg", ".jpeg", ".png", ".gif", ".bmp", ".tiff"}

  const SourceExtensions: set<string> := {".jpg", ".jpeg", ".png"}

  predicate IsDotfile(f: string)
  {
    StartsWith(f, ".")
  }

  /** The standard pass's filter: not hidden, an image extension in any case, a regular file. */
  predicate IsImageFile(f: string, input: map<string, SourceFile>)
  {
    !IsDotfile(f) && Lower(Ext(f)) in ImageExtensions && f in input
  }

  function Lookup(input: map<string, SourceFile>, f: string): Option<SourceFile>
  {
    if f in input then Some(input[f]) else None
  }

  /** The list comprehension over `os.listdir(folder)`. */
  function FilterImages(listing: seq<string>, input: map<string, SourceFile>): (r: seq<string>)
    ensures forall x :: multiset(r)[x] == if IsImageFile(x, input) then multiset(listing)[x] else 0
  {
    if listing == [] then []
    else
      assert listing == [listing[0]] + listing[1..];
      (if IsImageFile(listing[0], input) then [listing[0]] else []) + FilterImages(listing[1..], input)
  }

  /** The images the standard pass processes, in the order it processes them. */
  function SelectImages(listing: seq<string>, input: map<string, SourceFile>): (r: seq<string>)
    ensures Sorted(r)
    ensures forall x :: multiset(r)[x] == if IsImageFile(x, input) then multiset(listing)[x] else 0
  {
    SortNames(FilterImages(listing, input))
  }

  function StandardJob(cfg: Config, f: string): Job
  {
    Job(Stem(f), cfg.params, cfg.iterations, cfg.seed, false)
  }

  /** `process_image` once per selected image, in order, threading the environment. */
  function FolderRun(files: map<string, Bytes>, images: seq<string>, input: map<string, SourceFile>,
                     cfg: Config, steps: seq<Step>): Drive
    decreases |images|
  {
    if images == [] then Drive(files, steps, 0)
    else
      var r := ImageRun(files, Lookup(input, images[0]), StandardJob(cfg, images[0]), steps);
      var d := FolderRun(r.files, images[1..], input, cfg, r.rest);
      d.(sent := d.sent + r.sent)
  }

  /** `process_folder`, with the upscale argument passed as false. */
  method ProcessFolder(out: OutputDir, cfg: Config, listing: seq<string>, input: map<string, SourceFile>,
                       steps: seq<Step>)
    returns (rest: seq<Step>, sent: nat)
    modifies out
    ensures Drive(out.files, rest, sent) == FolderRun(old(out.files), SelectImages(listing, input), input, cfg, steps)
  {
    var images := SelectImages(listing, input);
    rest, sent := steps, 0;
    if images == [] {
      return;
    }
    ghost var total := FolderRun(out.files, images, input, cfg, steps);
    for i := 0 to |images|
      invariant var d := FolderRun(out.files, images[i..], input, cfg, rest);
        d.files == total.files && d.rest == total.rest && sent + d.sent == total.sent
    {
      assert images[i..][1..] == images[i + 1..];
      var r, s, _ := out.ProcessImage(Lookup(input, images[i]), StandardJob(cfg, images[i]), rest);
      rest, sent := r, sent + s;
    }
  }

  /** The upscale pass's source test: not hidden, same stem, a jpg/jpeg/png extension in any case. */
  predicate IsSourceFor(f: string, base: string)
  {
    !IsDotfile(f) && Stem(f) == base && Lower(Ext(f)) in SourceExtensions
  }

  /** The position of the first source image for `base` at or after position `i` of the listing. */
  function FirstSourceFrom(listing: seq<string>, base: string, i: nat): (r: Option<nat>)
    requires i <= |listing|
    ensures r.Some? ==> i <= r.value < |listing| && IsSourceFor(listing[r.value], base)
    ensures forall j :: i <= j < |listing| && (r.None? || j < r.value) ==> !IsSourceFor(listing[j], base)
    decreases |listing| - i
  {
    if i == |listing| then None
    else if IsSourceFor(listing[i], base) then Some(i)
    else FirstSourceFrom(listing, base, i + 1)
  }

  function FirstSource(listing: seq<string>, base: string): Option<string>
  {
    match FirstSourceFrom(listing, base, 0)
    case None => None
    case Some(k) => Some(listing[k])
  }

  /** The search loop that assigns `source_image_path`. */
  method FindSource(listing: seq<string>, base: string) returns (source: Option<string>)
    ensures source == FirstSource(listing, base)
  {
    var i := 0;
    while i < |listing|
      invariant 0 <= i <= |listing|
      invariant FirstSourceFrom(listing, base, i) == FirstSourceFrom(listing, base, 0)
    {
      var fname := listing[i];
      if !StartsWith(fname, ".") {
        var (name, ext) := SplitExt(fname);
        if name == base && Lower(ext) in SourceExtensions {
          assert IsSourceFor(fname, base);
          return Some(fname);
        }
        assert name == Stem(fname) && ext == Ext(fname);
      }
      assert !IsSourceFor(fname, base);
      i := i + 1;
    }
    return None;
  }

  /** The three-field "at least as strong" test; the face count takes no part. */
  predicate AtLeastAsStrong(found: Params, target: Params)
  {
    found.octree >= target.octree && found.steps >= target.steps && found.guidance >= target.guidance
  }

  datatype Decision = NotGlb | Unparsed | Adequate | NoSource | Regenerate(source: string, job: Job)

  /** What the upscale pass does with one file of the output directory. */
  function Decide(file: string, cfg: Config, inputListing: seq<string>): Decision
  {
    if !EndsWith(file, Extension) then NotGlb
    else
      match ParseName(file)
      case None => Unparsed
      case Some(a) =>
        if AtLeastAsStrong(a.params, cfg.params) then Adequate
        else
          match FirstSource(inputListing, a.base)
          case None => NoSource
          case Some(src) => Regenerate(src, Job(Stem(src), cfg.params, 1, Some(a.seed), cfg.upscale))
  }

  /** The upscale pass over a listing of the output directory taken when the pass starts. */
  function UpscaleRun(files: map<string, Bytes>, listing: seq<string>, cfg: Config, inputListing: seq<string>,
                      input: map<string, SourceFile>, steps: seq<Step>): Drive
    decreases |listing|
  {
    if listing == [] then Drive(files, steps, 0)
    else
      match Decide(listing[0], cfg, inputListing)
      case Regenerate(src, job) =>
        var r := ImageRun(files, Lookup(input, src), job, steps);
        var d := UpscaleRun(r.files, listing[1..], cfg, inputListing, input, r.rest);
        d.(sent := d.sent + r.sent)
      case _ => UpscaleRun(files, listing[1..], cfg, inputListing, input, steps)
  }

  /** `process_glb_upscaling` over the top level of the output directory. */
  method ProcessGlbUpscaling(out: OutputDir, cfg: Config, listing: seq<string>, inputListing: seq<string>,
                             input: map<string, SourceFile>, steps: seq<Step>)
    returns (rest: seq<Step>, sent: nat)
    modifies out
    ensures Drive(out.files, rest, sent) == UpscaleRun(old(out.files), listing, cfg, inputListing, input, steps)
  {
    rest, sent := steps, 0;
    ghost var total := UpscaleRun(out.files, listing, cfg, inputListing, input, steps);
    for i := 0 to |listing|
      invariant var d := UpscaleRun(out.files, listing[i..], cfg, inputListing, input, rest);
        d.files == total.files && d.rest == total.rest && sent + d.sent == total.sent
    {
      assert listing[i..][1..] == listing[i + 1..];
      var file := listing[i];
      if !EndsWith(file, Extension) {
        continue;
      }
      var parsed := ParseName(file);
      if parsed.None? {
        continue;
      }
      var a := parsed.value;
      if AtLeastAsStrong(a.params, cfg.params) {
        continue;
      }
      var source := FindSource(inputListing, a.base);
      if source.None? {
        continue;
      }
      var job := Job(Stem(source.value), cfg.params, 1, Some(a.seed), cfg.upscale);
      var r, s, _ := out.ProcessImage(Lookup(input, source.value), job, rest);
      rest, sent := r, sent + s;
    }
  }

  /** The standard pass never overwrites; each new file belongs to one of the selected images. */
  lemma {:induction false} FolderWrites(files: map<string, Bytes>, images: seq<string>, input: map<string, SourceFile>,
                                        cfg: Config, steps: seq<Step>)
    ensures var d := FolderRun(files, images, input, cfg, steps);
      && Preserves(files, d.files)
      && forall n :: n in d.files && n !in files ==>
           exists i :: 0 <= i < |images| && IsCandidate(StandardJob(cfg, images[i]), n)
    decreases |images|
  {
    if images != [] {
      var r := ImageRun(files, Lookup(input, images[0]), StandardJob(cfg, images[0]), steps);
      ImageRunWrites(files, Lookup(input, images[0]), StandardJob(cfg, images[0]), steps);
      FolderWrites(r.files, images[1..], input, cfg, r.rest);
      var d := FolderRun(files, images, input, cfg, steps);
      forall n | n in d.files && n !in files
        ensures exists i :: 0 <= i < |images| && IsCandidate(StandardJob(cfg, images[i]), n)
      {
        if n !in r.files {
          var i :| 0 <= i < |images[1..]| && IsCandidate(StandardJob(cfg, images[1..][i]), n);
          assert images[1..][i] == images[i + 1];
        }
      }
    }
  }

  /** A parsed name always ends in `.glb`. */
  lemma ParsedEndsWithExtension(file: string)
    requires ParseName(file).Some?
    ensures EndsWith(file, Extension)
  {
    var r := ParseFields(file).value;
    var stem := r.base + "_" + r.octree + "_" + r.steps + "_" + r.guidance + "_" + r.faces + "_" + r.seed;
    assert file == stem + Extension;
    assert file[|file| - |Extension|..] == Extension;
  }

  /**
   * The upscale pass skips a file as adequate exactly when it parses and is
   * at least as strong on octree, steps and guidance; it skips, without
   * regenerating, exactly the files that do not parse.
   */
  lemma DecideSkips(file: string, cfg: Config, inputListing: seq<string>)
    ensures Decide(file, cfg, inputListing) == Adequate <==>
      ParseName(file).Some? && AtLeastAsStrong(ParseName(file).value.params, cfg.params)
    ensures Decide(file, cfg, inputListing) in {NotGlb, Unparsed} <==> ParseName(file).None?
  {
    if ParseName(file).Some? {
      ParsedEndsWithExtension(file);
    }
  }

  /** The face count of either side never changes the adequacy test. */
  lemma AdequacyIgnoresFaces(found: Params, target: Params, f1: int, f2: int)
    ensures AtLeastAsStrong(found.(faces := f1), target.(faces := f2)) == AtLeastAsStrong(found, target)
  {
  }

  /**
   * A regeneration is for a weaker artifact, from the first source image with
   * its stem, with iterations 1, the target parameters and the artifact's own seed.
   */
  lemma RegenerationReusesSeed(file: string, cfg: Config, inputListing: seq<string>)
    requires Decide(file, cfg, inputListing).Regenerate?
    ensures ParseName(file).Some?
    ensures var a := ParseName(file).value;
      var d := Decide(file, cfg, inputListing);
      && !AtLeastAsStrong(a.params, cfg.params)
      && d.job == Job(a.base, cfg.params, 1, Some(a.seed), cfg.upscale)
      && IsSourceFor(d.source, a.base)
      && FirstSource(inputListing, a.base) == Some(d.source)
  {
  }

  /** The upgrade of an artifact: its stem and seed with the target parameters. */
  ghost predicate UpgradeOf(file: string, cfg: Config, n: string)
  {
    && ParseName(file).Some?
    && !AtLeastAsStrong(ParseName(file).value.params, cfg.params)
    && n == BuildName(ParseName(file).value.(params := cfg.params))
  }

  /** One regeneration never overwrites, and every file it writes is the upgrade of its artifact. */
  lemma RegenerationWrites(files: map<string, Bytes>, file: string, cfg: Config, inputListing: seq<string>,
                           input: map<string, SourceFile>, steps: seq<Step>)
    requires Decide(file, cfg, inputListing).Regenerate?
    ensures var dec := Decide(file, cfg, inputListing);
      var r := ImageRun(files, Lookup(input, dec.source), dec.job, steps);
      && Preserves(files, r.files)
      && forall n :: n in r.files && n !in files ==> UpgradeOf(file, cfg, n)
  {
    var dec := Decide(file, cfg, inputListing);
    RegenerationReusesSeed(file, cfg, inputListing);
    ImageRunWrites(files, Lookup(input, dec.source), dec.job, steps);
  }

  /**
   * The upscale pass never overwrites, and every file it writes is the
   * upgrade of a weaker artifact of the listing.
   */
  lemma {:induction false} UpscaleWrites(files: map<string, Bytes>, listing: seq<string>, cfg: Config,
                                         inputListing: seq<string>, input: map<string, SourceFile>, steps: seq<Step>)
    ensures var d := UpscaleRun(files, listing, cfg, inputListing, input, steps);
      && Preserves(files, d.files)
      && forall n :: n in d.files && n !in files ==> exists i :: 0 <= i < |listing| && UpgradeOf(listing[i], cfg, n)
    decreases |listing|
  {
    if listing != [] {
      var d := UpscaleRun(files, listing, cfg, inputListing, input, steps);
      var dec := Decide(listing[0], cfg, inputListing);
      if dec.Regenerate? {
        var r := ImageRun(files, Lookup(input, dec.source), dec.job, steps);
        RegenerationWrites(files, listing[0], cfg, inputListing, input, steps);
        UpscaleWrites(r.files, listing[1..], cfg, inputListing, input, r.rest);
        assert d.files == UpscaleRun(r.files, listing[1..], cfg, inputListing, input, r.rest).files;
        CombineUpgrades(files, r.files, d.files, listing, cfg);
      } else {
        UpscaleWrites(files, listing[1..], cfg, inputListing, input, steps);
        assert d.files == UpscaleRun(files, listing[1..], cfg, inputListing, input, steps).files;
        CombineUpgrades(files, files, d.files, listing, cfg);
      }
    }
  }

  /** What the first file's regeneration and the rest of the pass write, together. */
  lemma CombineUpgrades(files: map<string, Bytes>, mid: map<string, Bytes>, after: map<string, Bytes>,
                        listing: seq<string>, cfg: Config)
    requires listing != []
    requires Preserves(files, mid) && Preserves(mid, after)
    requires forall n :: n in mid && n !in files ==> UpgradeOf(listing[0], cfg, n)
    requires forall n :: n in after && n !in mid ==>
      exists i :: 0 <= i < |listing[1..]| && UpgradeOf(listing[1..][i], cfg, n)
    ensures Preserves(files, after)
    ensures forall n :: n in after && n !in files ==> exists i :: 0 <= i < |listing| && UpgradeOf(listing[i], cfg, n)
  {
    forall n | n in after && n !in files
      ensures exists i :: 0 <= i < |listing| && UpgradeOf(listing[i], cfg, n)
    {
      if n in mid {
        assert UpgradeOf(listing[0], cfg, n);
      } else {
        var i :| 0 <= i < |listing[1..]| && UpgradeOf(listing[1..][i], cfg, n);
        assert listing[1..][i] == listing[i + 1];
      }
    }
  }
}
