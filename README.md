# Batch GLB generation: the job-reconciliation core

This project models the reconciliation logic of `generate_glb.py`, the batch
driver that asks a remote generation service for 3D models (`.glb` files) of
source images. The output directory is the only database. An artifact's
identity is its file name, `{stem}_{octree}_{steps}_{guidance}_{faces}_{seed}.glb`.

- **Naming** (`naming.dfy`, `decimal.dfy`): `BuildName` formats a name.
  `PatternPrefix` and `MatchesPattern` give the seed-wildcarded glob.
  `ParseFields` and `ParseName` read a name back the way the `.glb` test, the
  six-group regex and `int()` do together (generate_glb.py:255-262). On names
  ending in `.glb` the parser is proved to be exactly the regex, both ways, and
  the two round trips are proved. `BuildName` is proved injective for every
  base and every integer. For one stem, the pattern never counts an artifact
  made with other parameters. Across stems it can: a lemma shows that an image
  whose stem extends another stem's pattern prefix (such as `a_1_2_3_4_9`
  against `a` with parameters (1, 2, 3, 4)) produces artifacts, with any
  parameters and seed, that the other stem's pattern counts.
- **Existence oracle** (`oracle.dfy`): the number of directory names that match
  the pattern.
- **Reconciliation loop** (`reconcile.dfy`, `engine.dfy`): `ImageRun` and
  `LoopRun` specify `process_image` as a function of the directory and of what
  the environment supplies for each iteration (a `Step`: the random draw and
  what became of the request). `OutputDir` is a class whose `files` map is the
  output directory. Its method `ProcessImage` runs the `while` loop, which
  re-counts before every iteration, and is proved equal to `ImageRun`. The
  lemmas show the following:
  - The loop never overwrites.
  - Every file it adds is a candidate name of the job, with an allowed seed, and
    is counted on the next check.
  - It adds at most one file per request.
  - Standard mode stops exactly at the target. Upscale mode writes at most one
    file.
  - A fixed seed whose name already exists stalls the loop for good.
  - When at most one artifact is wanted, every iteration sends a request and the
    first successful write ends the loop.
- **Drivers** (`drivers.dfy`): the standard pass (`ProcessFolder`: filter,
  sort, one loop per image) and the upscale pass (`ProcessGlbUpscaling`:
  parse, a three-field adequacy test, the `FindSource` search loop, then one
  upscale-mode loop reusing the parsed seed).
- **Entry point** (`batch.dfy`): the seed/iterations coercion, the input-folder
  check and the dispatch (`RunBatch`), plus the two findings below.

Inputs that the program gets from outside are parameters:
- the input folder: a listing, plus a map from regular files to readable or
  unreadable content;
- the listing of the output directory seen by the upscale walk;
- one `Step` per loop iteration.

The loop is bounded by the supplied steps. When it runs out of steps
(`StepsExhausted`), the program would have kept looping.

Where the specification and the code differ, the model follows the code:
- `random.randint(0, 10000000)` includes 10000000 (`RandomSeed`).
- The early exit `matches >= iterations` also applies in upscale mode.
- The comment at generate_glb.py:248-249 leaves out the face count. The regex
  and the unpacking agree with the builder, and the model follows them.
- The standard pass cannot run as written (see Findings).

## Model

| member | source | states |
|---|---|---|
| Decimal.NatToDec | generate_glb.py:159-162 | a non-negative field is written as ASCII digits without a leading zero and without `_` |
| Decimal.IntToDec | generate_glb.py:159-162 | any integer field is written without `_`; a negative one starts with `-` |
| Decimal.NatToDecRoundTrip | generate_glb.py:262-263 | `int` of what was written for n is n |
| Decimal.CanonicalRoundTrip | generate_glb.py:262-263 | digits without a leading zero are exactly what is written for their value |
| Decimal.IntToDecInjective | generate_glb.py:159-162 | different integers give different field text |
| Decimal.DecToNat | generate_glb.py:262-263 | `int()` of a digit group, leading zeros allowed; its value is fixed by `Decimal.NatToDecRoundTrip` and `Decimal.CanonicalRoundTrip` |
| Text.SplitExt | generate_glb.py:216 | `os.path.splitext`: stem + extension is the name; the extension is empty or a final dot segment after a non-dot stem |
| Text.Lower | generate_glb.py:216 | `str.lower` on ASCII: same length, each letter mapped to lower case, other characters kept |
| Text.SortNames | generate_glb.py:227 | the result is sorted by code point and is a permutation of the input |
| Text.StrLe | generate_glb.py:227 | Python's `<=` on strings by code point; a total order by `Text.StrLeTotal`, `Text.StrLeTrans` and `Text.StrLeAntisym` |
| Text.StrLeCommonPrefix | generate_glb.py:214-227 | sorting `folder/name` paths orders them as their names |
| Text.StrLeTotal | generate_glb.py:227 | any two names are comparable |
| Text.StrLeTrans | generate_glb.py:227 | the string order is transitive |
| Text.StrLeAntisym | generate_glb.py:227 | two names each at most the other are equal |
| Naming.PatternPrefix | generate_glb.py:121 | the pattern text up to the wildcard; characterised by `Naming.PatternSeparatesParams` and `Naming.PatternAdmitsExtendedStem` |
| Naming.MatchesPattern | generate_glb.py:121-123 | the glob test: the name starts with the prefix and ends with `.glb`, with any text between; see `Naming.BuildNameMatchesPattern` and `Naming.PatternSeparatesParams` |
| Naming.BuildName | generate_glb.py:159-162 | the artifact name; invertible by `Naming.BuildParseRoundTrip` and injective by `Naming.BuildNameInjective` |
| Naming.ParseFields | generate_glb.py:250-259 | a match gives six groups: a newline-free base and five digit runs that rebuild the name |
| Naming.ParseName | generate_glb.py:257-262 | a parsed artifact has non-negative fields and a newline-free base |
| Naming.ParseFieldsComplete | generate_glb.py:250 | every name of the six-group shape is matched with exactly those groups |
| Naming.ParseFieldsIsRegexMatch | generate_glb.py:250-259 | the parser returns groups iff they form a regex match of the name; otherwise no match, never an error |
| Naming.ParseRejectsOtherExtensions | generate_glb.py:255-256 | a name not ending in `.glb` never parses |
| Naming.BuildParseRoundTrip | generate_glb.py:159-162 | parsing a built name returns exactly its base, four parameters and seed |
| Naming.ParseBuildRoundTrip | generate_glb.py:262 | a parsed name without leading zeros is rebuilt exactly |
| Naming.BuildNameInjective | generate_glb.py:159-162 | two artifacts with the same name have the same base, parameters and seed |
| Naming.BuildNameMatchesPattern | generate_glb.py:121-123 | every built name is matched by the pattern of its base and parameters, whatever the seed |
| Naming.PatternSeparatesParams | generate_glb.py:121-123 | for one stem, the pattern of p matches a name built with q only if q = p |
| Naming.PatternAdmitsExtendedStem | generate_glb.py:121 | the pattern of a stem and parameters matches every artifact, with any parameters and seed, of a stem that extends that pattern's prefix (`a_1_2_3_4_9` against `a` and (1, 2, 3, 4)) |
| Oracle.CountMatching | generate_glb.py:123-142 | `len(glob.glob(pattern))` over the current directory; see `Oracle.CountAddMatching` and `Oracle.CountIsArtifactsWithParams` |
| Oracle.NamesCount | generate_glb.py:159-162 | a set of artifacts has exactly as many names as members |
| Oracle.CountIsArtifactsWithParams | generate_glb.py:121-123 | over a directory whose names are all built for one stem, the count for p is exactly the number of those artifacts made with p, whatever their seeds |
| Oracle.CountAddMatching | generate_glb.py:141-142 | a new matching file raises the count by one |
| Reconcile.Attempt | generate_glb.py:145-193 | one loop body: skip an existing candidate, otherwise send and maybe write; characterised by `Reconcile.AttemptCount` |
| Reconcile.LoopRun | generate_glb.py:137-193 | the `while condition():` loop over the supplied steps; characterised by `Reconcile.LoopConsumes`, `Reconcile.LoopExit`, `Reconcile.LoopWrites`, `Reconcile.LoopCounts` |
| Reconcile.AttemptCount | generate_glb.py:145-186 | one iteration adds at most one file, the absent candidate, and the count rises by exactly the files added |
| Reconcile.LoopConsumes | generate_glb.py:137-144 | the loop uses a prefix of the steps and sends at most one request per step it uses |
| Reconcile.LoopExit | generate_glb.py:137-144 | the loop stops with the target reached exactly when the condition fails, and otherwise only when the steps run out |
| Reconcile.LoopWrites | generate_glb.py:159-186 | the loop never overwrites, and each new file is a candidate name with the fixed seed or a draw in [0, 10000000] |
| Reconcile.LoopCounts | generate_glb.py:141-186 | the count grows by exactly the number of new files, which is at most the requests sent |
| Reconcile.LoopStopsAtTarget | generate_glb.py:135-144 | standard mode, entered at or below the target, never passes it |
| Reconcile.LoopUpscaleOnce | generate_glb.py:135-144 | upscale mode adds at most one file, and none when a match exists |
| Reconcile.FixedSeedCollisionStalls | generate_glb.py:145-167 | a fixed seed whose name exists makes every iteration skip: no request, no write, no end |
| Reconcile.SingleTargetNoCollision | generate_glb.py:135-167 | with at most one artifact wanted, the candidate name is never already taken |
| Reconcile.SingleTargetFirstWriteEnds | generate_glb.py:135-186 | with at most one artifact wanted, the first successful write ends the loop after k+1 requests |
| Reconcile.SingleTargetAlwaysSends | generate_glb.py:163-182 | with at most one artifact wanted, every iteration sends a request |
| Reconcile.FixedSeedManyNeverReached | generate_glb.py:141-167 | fixed seed, standard mode, two or more wanted, no match yet: the target is never reached |
| Reconcile.ImageRun | generate_glb.py:98-193 | `process_image`: image checks, early exit, then the loop; characterised by `Reconcile.ImageRunWrites`, `Reconcile.ImageRunCounts`, `Reconcile.ImageRunTarget` |
| Reconcile.ImageRunEarlyExit | generate_glb.py:121-128 | with at least `iterations` matches on entry, no request is sent and the directory is unchanged |
| Reconcile.ImageRunWrites | generate_glb.py:98-193 | no overwrite; every new file is a candidate name of the job; the image checks and the early exit change nothing and send nothing |
| Reconcile.ImageRunCounts | generate_glb.py:98-193 | at most one new file per request, at most one request per iteration, and the iterations used are a prefix of the steps |
| Reconcile.ImageRunTarget | generate_glb.py:135-144 | on reaching its target the count is exactly the target in standard mode and at least one in upscale mode |
| Engine.OutputDir.ProcessImage | generate_glb.py:98-193 | the imperative loop leaves the directory, steps and request count that `ImageRun` specifies, and keeps every existing file |
| Drivers.IsImageFile | generate_glb.py:216-217 | the filter test: not a dotfile, a lower-cased image extension, a regular file; used by `Drivers.FilterImages` |
| Drivers.FilterImages | generate_glb.py:211-218 | keeps exactly the non-dotfile regular files whose lower-cased extension is an image extension, with multiplicity |
| Drivers.SelectImages | generate_glb.py:211-227 | the selected images, sorted |
| Drivers.FolderRun | generate_glb.py:227-229 | one `process_image` per selected image in order, threading the directory and the steps; characterised by `Drivers.FolderWrites` |
| Drivers.ProcessFolder | generate_glb.py:197-229 | runs the loop once per selected image in order, with upscale false, as `FolderRun` specifies |
| Drivers.FolderWrites | generate_glb.py:227-229 | the standard pass never overwrites; each new file is a candidate of one selected image's job |
| Drivers.IsSourceFor | generate_glb.py:270-274 | the source test: not a dotfile, the same stem, a jpg/jpeg/png extension in any case |
| Drivers.FirstSourceFrom | generate_glb.py:269-276 | the first non-dotfile with the stem and a jpg/jpeg/png extension, or none when no entry qualifies |
| Drivers.FirstSource | generate_glb.py:269-276 | the entry at the first qualifying position, or none; computed by `Drivers.FindSource` |
| Drivers.FindSource | generate_glb.py:269-276 | the search loop returns the first qualifying source image, or none |
| Drivers.AtLeastAsStrong | generate_glb.py:263 | the adequacy test on octree, steps and guidance; see `Drivers.AdequacyIgnoresFaces` |
| Drivers.Decide | generate_glb.py:255-281 | what the upscale pass does with one file; characterised by `Drivers.DecideSkips` and `Drivers.RegenerationReusesSeed` |
| Drivers.UpscaleRun | generate_glb.py:253-298 | the upscale pass as a function of the listing; characterised by `Drivers.UpscaleWrites` |
| Drivers.ProcessGlbUpscaling | generate_glb.py:231-298 | the imperative pass leaves the directory, steps and request count that `UpscaleRun` specifies |
| Drivers.DecideSkips | generate_glb.py:255-266 | a file is skipped as adequate iff it parses and is at least as strong on octree, steps and guidance; unparsable files are skipped without regeneration |
| Drivers.AdequacyIgnoresFaces | generate_glb.py:263 | the face count of either side never changes the adequacy test |
| Drivers.RegenerationReusesSeed | generate_glb.py:262-298 | a regeneration comes from a weaker artifact and uses its first source image, its stem, its seed, the target parameters and one iteration |
| Drivers.RegenerationWrites | generate_glb.py:286-298 | one regeneration never overwrites, and every file it writes is the upgrade of its artifact: same stem and seed, target parameters |
| Drivers.UpscaleWrites | generate_glb.py:253-298 | the upscale pass never overwrites; each new file has the stem and seed of a weaker listed artifact, with the target parameters |
| Batch.CoerceIterations | generate_glb.py:303-305 | a configured seed, 0 included, forces one iteration; nothing else changes |
| Batch.CoerceIterationsAsWritten | generate_glb.py:303-305 | truthiness: a non-zero seed forces one iteration; seed 0 or no seed changes nothing |
| Batch.CoercedFixedSeedAlwaysSends | generate_glb.py:303-305 | after coercion, a fixed seed never hits the skip path |
| Batch.CoercedFixedSeedFinishes | generate_glb.py:303-305 | after coercion, a fixed seed ends at the first successful write |
| Batch.ZeroSeedNeverFinishesAsWritten | generate_glb.py:303-305 | as written, seed 0 with three iterations is not coerced, and the standard loop (with line 229 corrected) never reaches its target |
| Batch.ProcessFolderAsWritten | generate_glb.py:229 | as written, any selected image raises `TypeError` with nothing sent or written |
| Batch.FolderTypeErrorShown | generate_glb.py:229 | for one image: the as-written pass raises, the corrected pass writes one file |
| Batch.BatchRun | generate_glb.py:300-320 | coercion, the input-folder check, then one of the two passes; characterised by `Batch.BatchNeverOverwrites` |
| Batch.RunBatch | generate_glb.py:300-320 | the run is the coercion, the input check, then one of the two passes, as `BatchRun` specifies |
| Batch.BatchNeverOverwrites | generate_glb.py:300-320 | a whole run keeps every file that existed before it |

## Left out

- `load_config`, argparse and TOML loading: the configuration is the `Config` record. Input and output paths, the endpoint address, and non-integer values from a TOML file are not modelled.
- Console output and log lines, including the `count` variable used only in log labels.
- `requests.post`: each request's result is an abstract `Outcome`. The query parameters, the headers and the image bytes sent are not modelled.
- `random.randint`: draws are supplied as `Step.draw`, typed to the inclusive range [0, 10000000].
- Unbounded looping: the loop consumes one supplied `Step` per iteration. Non-termination shows as `StepsExhausted` (see `FixedSeedCollisionStalls`), not as divergence.
- File I/O: directories are a listing plus maps. `os.makedirs`, `os.path.isfile` (membership in the input map), `os.listdir` failures and subdirectories in the upscale walk are not modelled; only the top level of the output directory is scanned.
- The upscale listing is a parameter. The model does not require it to list the output directory's entries.
- A write that fails after `open` has created the file: the model leaves no file behind.
- Glob metacharacters (`*`, `?`, `[`) inside a stem, and glob's rule for hidden files: the wildcard is "any text between the prefix and `.glb`".
- Python's `$` also matches before a final newline, so the regex alone would accept `a_1_2_3_4_5.glb` followed by a newline. `ParseFields` rejects it, as the `.glb` test at line 255 does first; the regex on its own is not modelled.
- `str.lower` beyond ASCII letters, and `os.path.splitext` on names containing a directory separator.
- Concurrency: other writers to the output directory are not modelled.

## Findings

| source | as written | input that shows it | evidently intended | confidence | as-written member | corrected member |
|---|---|---|---|---|---|---|
| generate_glb.py:229 | `process_image` is called with nine positional arguments, but `upscale` has no default, so `TypeError` is raised | an input folder holding one image such as `cat.png`: nothing is generated | pass `upscale=False` | high; not executed | Batch.ProcessFolderAsWritten (shown by Batch.FolderTypeErrorShown) | Drivers.ProcessFolder (property Drivers.FolderWrites) |
| generate_glb.py:303 | `if config["seed"]` treats seed 0 as unset, so iterations are not forced to 1 | seed 0, iterations 3, no artifacts yet, once the call at line 229 is fixed: after the first write, every iteration finds `..._0.glb` and skips forever. As written the defect is latent: the standard pass raises `TypeError` at line 229 first, and the upscale pass passes `iterations=1` at line 289 | test `config["seed"] is not None` | medium; not executed | Batch.CoerceIterationsAsWritten (shown by Batch.ZeroSeedNeverFinishesAsWritten) | Batch.CoerceIterations (property Batch.CoercedFixedSeedFinishes) |

`RunBatch` uses the corrected versions of both.
