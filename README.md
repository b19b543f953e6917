# CellProfiler batch processor, modelled in Dafny

The repository runs CellProfiler over a directory of microscopy images in
parallel Docker containers and then merges the per-container CSV results.

- `process_images.py`
  - Checks that the pipeline file has a `.cppipe` extension, ignoring case, and that the image directory exists.
  - Computes a logical image count from the number of files and the number of channels.
  - Cuts the range `[0, total_images)` into batches of `batch_size`, each with an id padded to three digits.
  - Starts one detached container per batch. The container runs as the invoking user, with the pipeline and the images mounted read-only and the batch's own output directory mounted writable, and it asks CellProfiler for image sets `start` to `end - 1`.
- `merge_output.py`
  - Visits the result directories in sorted order.
  - Appends every CSV file except `Experiment.csv` to a table named after the file without its extension.
  - Writes each table once to `<output_dir>/<name>.csv`.

The project has one module per concern:

| module | file | what it holds |
|---|---|---|
| `Wrappers` | wrappers.dfy | `Option` and `Result` |
| `Strings` | strings.dfy | ASCII lower-casing, `endswith`, Python's code-point string order |
| `Decimal` | decimal.dfy | `str` of integers, `zfill`, reading digits back |
| `Paths` | paths.dfy | `os.path.join` and `os.path.splitext`, as posixpath defines them |
| `Sorting` | sorting.dfy | `sorted` on strings |
| `BatchPlanner` | batch_planner.dfy | the image count and the batch plan |
| `DockerCommand` | docker_command.dfy | the container command line, and a reader that parses it as docker and CellProfiler consume options |
| `ProcessImages` | process_images.dfy | `main`: the checks and the batch loop, as methods |
| `MergeOutput` | merge_output.dfy | `merge_csv_files`: a fold specification and the imperative loops proved equal to it |
| `MergeProperties` | merge_properties.dfy | what a merge promises, stated over directories and files |

The batch loop of `main` is the method `ProcessImages.LaunchBatches`.
- Its loop invariant ties the batches built so far to `ProcessImages.BatchesFrom`, the batches the `range` visits.
- After the loop, `ProcessImages.BatchesFromPlan` equates those with a pure plan, `BatchPlanner.Plan`.
- The plan's properties are proved as lemmas: partition, bounds, count and ids.

`merge_csv_files` is modelled as three methods, one per loop:
- `MergeOutput.MergeCsvFiles` is the loop over the sorted directories.
- `MergeOutput.MergeDirectory` is the loop over one directory's files.
- `MergeOutput.WriteOutputs` is the output loop.

`MergeDirectory` and `MergeCsvFiles` update a `map<string, seq<Row>>` and a key list in place.
- `MergeDirectory` is proved equal to folding one directory's per-file steps (`MergeOutput.DirSteps`) from whatever dictionary it starts with.
- `MergeCsvFiles` is proved equal to the fold over all the sorted directories (`MergeOutput.MergeDirs`). Its loop invariant keeps the dictionary equal to the fold over the directories visited so far.

`WriteOutputs` only reads the map and key list, and is proved equal to `MergeOutput.Outputs`, one output per key. What the fold produces is stated in `MergeProperties`.

## Model

| member | source | states |
|---|---|---|
| `BatchPlanner.TotalImages` | process_images.py:86 | The logical count is at least 1, and it is one more than the number of complete channel groups among the files. |
| `BatchPlanner.NumBatches` | process_images.py:91 | The number of loop iterations is the least n with `total <= n * size`, i.e. the ceiling of total / size. |
| `BatchPlanner.NumBatchesUnique` | process_images.py:91 | That ceiling characterisation determines the iteration count uniquely. |
| `BatchPlanner.BatchAt` | process_images.py:92-94 | Batch k of the plan: id `str(k + 1).zfill(3)`, from k·size to `min(k·size + size, total)`. Its bounds are stated in `PlanBatchBounds`. |
| `BatchPlanner.Plan` | process_images.py:91-94 | The batches the loop visits, one per iteration. Partition, cover, count and ids are stated in `PlanPartitions`, `PlanCovers`, `PlanCount` and `PlanIds`; the loop is proved to visit exactly these in `ProcessImages.LaunchBatches`. |
| `BatchPlanner.BatchId` | process_images.py:94 | Batch k's id is a digit string of value k + 1, at least three characters long, and exactly three long iff k < 999. From the 1000th batch on it is `str(k + 1)` unpadded. |
| `BatchPlanner.ThreeDigits` | process_images.py:94 | A number fits in three decimal digits iff it is below 1000, so padding to width 3 adds zeros exactly below 1000. |
| `BatchPlanner.BatchIdOrder` | process_images.py:94 | For the first 999 batches, string order of ids is batch order. |
| `BatchPlanner.BatchIdOrderBreaksAtThousand` | process_images.py:94 | The 1000th id is "1000", and it sorts before the 999th id, "999". |
| `BatchPlanner.PlanBatchBounds` | process_images.py:91-93 | Batch k starts at k·size, is non-empty, lies within the total and holds at most size sets. Every batch but the last is full, and the last ends at the total. |
| `BatchPlanner.PlanPartitions` | process_images.py:91-93 | The batches tile [0, total): the first starts at 0, each starts where the previous ended, and the last ends at the total. Only the last may be short. |
| `BatchPlanner.PlanBatchOf` | process_images.py:91-93 | Image set x below the total lies in batch x / size. |
| `BatchPlanner.PlanCovers` | process_images.py:91-93 | x lies in some batch iff 0 <= x < total, and never in two batches. |
| `BatchPlanner.PlanCount` | process_images.py:91-93 | There are ceil(total / size) batches. The last holds `total % size` sets, or a full batch when that remainder is 0. |
| `BatchPlanner.LastBatchLength` | process_images.py:93 | When q full batches precede a last one of length m, m is the remainder, or size when the total divides evenly. |
| `BatchPlanner.PlanIds` | process_images.py:94 | Ids read as 1, 2, … and are pairwise distinct. With at most 999 batches their string order is batch order. |
| `BatchPlanner.PlanExample` | process_images.py:91-94 | 10 sets in batches of 4 give ("001", 0, 4), ("002", 4, 8) and ("003", 8, 10). |
| `BatchPlanner.PlanNeverEmpty` | process_images.py:86-91 | Because of the `+ 1`, every run has at least one batch. An empty image directory gives the single batch ("001", 0, 1). |
| `Decimal.NatToDecimal` | process_images.py:94 | `str(n)` is a non-empty digit string with no leading zero unless n = 0. |
| `Decimal.DigitsValueOfDecimal` | process_images.py:94 | Reading `str(n)` back gives n. |
| `Decimal.IntToDecimal` | process_images.py:42-43 | `str(i)` for any integer. `Decimal.ParseIntOfDecimal` reads it back as i, and `Decimal.IntToDecimalInjective` proves distinct integers print distinctly. |
| `Decimal.ParseIntOfDecimal` | process_images.py:42-43 | `int(str(i)) == i` for every integer, negative ones included. |
| `Decimal.IntToDecimalInjective` | process_images.py:42-43 | Different integers print differently. |
| `Decimal.ZFill` | process_images.py:94 | `zfill(width)` has length max(len, width). |
| `Decimal.ZFillValue` | process_images.py:94 | Padding a digit string with zeros keeps it a digit string of the same value. |
| `Decimal.DigitsValueLeadingZeros` | process_images.py:94 | Leading zeros do not change a digit string's value. |
| `Decimal.LexLessIsNumericLess` | process_images.py:94 | Digit strings of equal length compare as strings exactly as their values compare. |
| `Strings.Lower` | process_images.py:75 | Lower-casing keeps the length and maps each character on its own: 'A'–'Z' to 'a'–'z', and every other character to itself. |
| `Strings.LowerIdempotent` | merge_output.py:23 | Lower-casing twice is lower-casing once. |
| `Strings.LexLessTotal` | merge_output.py:13 | Python's string order is total: of two different strings, one is smaller. |
| `Strings.LexLessTransitive` | merge_output.py:13 | Python's string order is transitive. |
| `Strings.LexLeTotalOrder` | merge_output.py:13 | `<=` on strings is a total order (reflexive, antisymmetric, transitive, total), so `sorted` is well defined. |
| `Paths.Join` | process_images.py:20 | `join(a, b)` ends with b. It is b when b is absolute. Otherwise it is a followed by b, with at most one '/' added between them. |
| `Paths.JoinInjective` | process_images.py:20 | Joining relative names to the same directory gives distinct paths for distinct names. |
| `Paths.SplitExt` | process_images.py:74 | Root and extension concatenate back to the path. The extension is empty or one dot followed by neither '.' nor '/'. |
| `Paths.SplitExtLower` | process_images.py:74-75 | Splitting a lower-cased path gives the lower-cased parts. |
| `Paths.SplitExtOfSuffix` | merge_output.py:32 | A final dot-suffix is the extension when the basename has a non-dot before it; otherwise there is none. |
| `Paths.SplitExtIsSuffix` | merge_output.py:32 | With a non-dot character before it in the basename, the final dot-suffix is exactly the extension. |
| `Sorting.Insert` | merge_output.py:13 | Inserting into a sorted list gives a sorted list with the element added. |
| `Sorting.Sort` | merge_output.py:13 | `sorted` returns an ordered permutation of its input. |
| `Sorting.SortedUnique` | merge_output.py:13 | Two ordered permutations of the same multiset are equal. |
| `Sorting.SortIgnoresOrder` | merge_output.py:13 | `sorted` of two permutations of each other gives the same list. |
| `DockerCommand.BatchOutputDir` | process_images.py:20 | `output_dir/batch_id`. Distinct batches get distinct directories (`ProcessImages.LaunchesDistinct`), and this one is the writable mount (`DockerCommand.RunMounts`). |
| `DockerCommand.ContainerName` | process_images.py:31 | `cellprofiler_` + id. It is docker's `--name` (`DockerCommand.RunSettings`), and distinct ids give distinct names (`ProcessImages.DistinctIdsDistinctOutputs`). |
| `DockerCommand.RunArgs` | process_images.py:30-39 | The docker options of the command. `DockerCommand.RunArgsParse` reads them back as options; `RunSettings`, `RunMounts` and `RunUser` state their meaning. |
| `DockerCommand.ProgramArgs` | process_images.py:41-46 | CellProfiler's options. `DockerCommand.ProgramArgsParse` reads them back; `ProgramSettings` and `ProgramRange` state their meaning. |
| `DockerCommand.LaunchArgs` | process_images.py:29-47 | The whole command, element for element. `DockerCommand.LaunchArgsParse` and `LaunchArgsMeaning` state what each program is told, and `LaunchRange` the image range requested. |
| `DockerCommand.ProgramArgsParse` | process_images.py:41-46 | Read as CellProfiler reads options, its part of the command gives exactly the intended options in order, with nothing left over. |
| `DockerCommand.RunArgsParse` | process_images.py:30-39 | Read as docker reads `run` options, the docker part gives exactly the intended options, stopping at the image name. |
| `DockerCommand.ImageName` | process_images.py:40 | The image `cellprofiler/cellprofiler:<version>`. `DockerCommand.LaunchArgsParse` proves the command names it as the image, right after docker's options. |
| `DockerCommand.LaunchArgsParse` | process_images.py:29-47 | The whole command parses back as `docker run`, those options, the image `cellprofiler/cellprofiler:<version>`, the program `cellprofiler` and its options. |
| `DockerCommand.UserRoundTrip` | process_images.py:39 | The `uid:gid` text reads back as the same uid and gid. |
| `DockerCommand.LastValue` | process_images.py:42-43 | The value an option parser keeps for a flag is one of the values given for it, and it is absent only when no value is given. `LastValueIsLast` pins which one. |
| `DockerCommand.LastValueIsLast` | process_images.py:42-43 | The kept value is that of the last occurrence of the flag carrying a value: the occurrence after which no other value is given. |
| `DockerCommand.ProgramLastValues` | process_images.py:42-43 | CellProfiler's `-f` is the printed start and its `-l` the printed end minus one. |
| `DockerCommand.LaunchRange` | process_images.py:42-43 | The range CellProfiler is asked for is (start, end - 1): the exclusive end becomes an inclusive last index. |
| `DockerCommand.RunSettings` | process_images.py:31-35 | Docker gets the name `cellprofiler_<id>`, the given memory and one CPU, and the flags `--rm` and `-dit`. |
| `DockerCommand.RunMounts` | process_images.py:36-38 | Exactly three volumes are mounted. Pipeline and images are read-only; the batch's own output directory is writable. |
| `DockerCommand.OutputMountWritable` | process_images.py:37 | A volume mapped to `:/output` has no `:ro` suffix. |
| `DockerCommand.RunUser` | process_images.py:39 | Docker's `-u` value reads back as the invoking user's uid and gid. |
| `DockerCommand.ProgramSettings` | process_images.py:41 | CellProfiler runs headless (`-c -r`) on `/pipeline.cppipe`, reading `/input` and writing `/output`. |
| `DockerCommand.ProgramRange` | process_images.py:42-43 | Every `-f` value reads as the batch start and every `-l` value as the batch end minus one. |
| `DockerCommand.LaunchArgsMeaning` | process_images.py:29-47 | Everything the two programs are told by one command: name, limits, flags, mounts and user for docker; pipeline, directories and image range for CellProfiler. |
| `ProcessImages.IsPipelineFile` | process_images.py:74-75 | The extension check. `PipelineFileSuffix` characterises it by the path's last seven characters, and `PipelineFileCaseInsensitive` shows it ignores case. |
| `ProcessImages.WorkerOf` | process_images.py:97-100 | The arguments of one `run_docker_container` call: the batch and the run's settings. `LaunchRanges` and `LaunchesDistinct` state what each launch asks for. |
| `ProcessImages.Workers` | process_images.py:91-100 | One launch per batch, in order, so as many launches as batches. `LaunchBatches` is proved to start exactly `Workers` of the plan. |
| `ProcessImages.BatchesFrom` | process_images.py:91 | The batches `range(0, total, size)` visits from counter i on. `ProcessImages.BatchesFromPlan` proves them equal to the plan from batch i / size on. |
| `ProcessImages.LoopBatch` | process_images.py:92-94 | The batch the loop body builds at counter i. `ProcessImages.PlannedBatchAt` proves it is batch i / size of the plan. |
| `ProcessImages.BatchesFromPlan` | process_images.py:91-94 | The batches the loop still visits from counter n·size are exactly the plan from batch n on. |
| `ProcessImages.PlannedBatchAt` | process_images.py:92-94 | The batch the loop body builds at counter n·size is batch n of the plan. |
| `ProcessImages.LaunchBatches` | process_images.py:91-100 | The loop starts one container per planned batch, in plan order, each with the run's settings. |
| `ProcessImages.StartBatches` | process_images.py:74-100 | A wrong pipeline extension fails first. A missing image directory fails next. Otherwise the run starts the containers for the plan of `len(files) // channels + 1` sets. |
| `ProcessImages.CppipeShape` | process_images.py:75 | An extension that lower-cases to ".cppipe" is a dot followed by six non-dot, non-slash characters. |
| `ProcessImages.PipelineFileSuffix` | process_images.py:74-75 | A path is accepted iff its last seven characters lower-case to ".cppipe" and its basename has a character other than '.' before them. |
| `ProcessImages.PipelineFileCaseInsensitive` | process_images.py:75 | Acceptance does not depend on the path's letter case, so ".CPPIPE" passes. |
| `ProcessImages.LaunchRanges` | process_images.py:91-93 | Launch k asks CellProfiler for image sets start to end - 1 of batch k. |
| `ProcessImages.LaunchesTile` | process_images.py:91-93 | The requested ranges are non-empty (first ≤ last), start at 0 and follow one another without gap or overlap. The last ends at set total - 1. |
| `ProcessImages.DistinctIdsDistinctOutputs` | process_images.py:20 | Distinct digit ids give distinct output directories and container names. |
| `ProcessImages.LaunchesDistinct` | process_images.py:20 | No two launches of a run share an output directory or a container name. |
| `ProcessImages.LaunchExample` | process_images.py:86-94 | 36 files in 4 channels give a count of 10 (9 complete groups plus one). In batches of 4 the launches are "001", "002" and "003", asking for sets 0-3, 4-7 and 8-9. |
| `MergeOutput.AddValid` | merge_output.py:35-38 | Storing a table keeps the dictionary's key order listing every key once. |
| `MergeOutput.AddKey` | merge_output.py:35-38 | After storing rows, a key is present iff it was before or is the stored key. The stored key's table is the old one followed by the new rows. |
| `MergeOutput.ApplyAllSplit` | merge_output.py:13-38 | Folding a+b is folding a and then, if that went through, folding b. |
| `MergeOutput.ApplyAllOutcome` | merge_output.py:29 | The fold succeeds iff no step fails. Otherwise its error is that of the first failing step. |
| `MergeOutput.ApplyAllKey` | merge_output.py:35-38 | After a successful fold a key is present iff it was before or some step put it. |
| `MergeOutput.ApplyAllRows` | merge_output.py:35-38 | After a successful fold a key's table is the old one followed by every row put under it, in step order. |
| `MergeOutput.ApplyAllValid` | merge_output.py:35-38 | A successful fold keeps the key order listing every key once. |
| `MergeOutput.PutRowsAppend` | merge_output.py:35-38 | The rows put under a key by a+b are a's followed by b's. |
| `MergeOutput.DirStepsRows` | merge_output.py:21-38 | One directory's steps put under a key the rows of its contributing files with that key, in listing order. |
| `MergeOutput.StepsRows` | merge_output.py:13-38 | A run's steps put under a key the contributing rows of each directory, in the order visited. |
| `MergeOutput.NoFailureAppend` | merge_output.py:29 | a+b has no failing step iff neither a nor b has. |
| `MergeOutput.PutsKeyAppend` | merge_output.py:35-38 | a+b puts a key iff a or b does. |
| `MergeOutput.DirStepsNoFailure` | merge_output.py:29 | A directory's steps all go through iff each of its contributing files can be read. |
| `MergeOutput.DirStepsPutsKey` | merge_output.py:23-32 | A readable directory's steps put a key iff one of its contributing files has that key. |
| `MergeOutput.StepsNoFailure` | merge_output.py:18-29 | A run has no failing step iff every directory exists and all its contributing files can be read. |
| `MergeOutput.StepsPutsKey` | merge_output.py:23-32 | In a readable run a key is put iff some listed directory has a contributing file with that key. |
| `MergeOutput.StepsFailure` | merge_output.py:18-29 | A failing step is a listed directory that does not exist, or an unreadable contributing file named by its joined path. |
| `MergeOutput.StepsAppend` | merge_output.py:13 | The steps of directories a+b are a's followed by b's. |
| `MergeOutput.FailureStays` | merge_output.py:29 | Once the fold has failed, later steps do not change the outcome. |
| `MergeOutput.DirMissing` | merge_output.py:18 | A missing directory reached with no earlier failure ends the merge with its NotFound error. |
| `MergeOutput.DirFails` | merge_output.py:13-29 | An error that ends the merge at one directory is the outcome of the whole merge. |
| `MergeOutput.MergeDirectory` | merge_output.py:21-38 | The file loop appends each contributing file's rows to its key's table (a new key goes last), stops at an unreadable file, and equals the fold of the directory's steps. |
| `MergeOutput.WriteOutputs` | merge_output.py:41-45 | The output loop writes one table per key, in insertion order, to `<output_dir>/<key>.csv`. |
| `MergeOutput.MergeCsvFiles` | merge_output.py:5-45 | The whole function returns the specified merge: directories sorted, the fold of their steps, then one output per key, or the first error. |
| `MergeOutput.Contributes` | merge_output.py:23 | The file filter. `MergeProperties.ContributingName` states the shape of every contributing name, and `MergeProperties.LowerCaseExperimentExample`, `ExcludedExamples` and `DotCsvExample` pin its edge cases. |
| `MergeOutput.Key` | merge_output.py:32 | The name without its extension. `MergeProperties.ContributingName` and `KeyOfPlainName` state what it leaves, and `DotCsvExample` covers a name with no extension. |
| `MergeOutput.Add` | merge_output.py:35-38 | One dictionary update: append to an existing table, or add a new key at the end. `AddKey` and `AddValid` state its effect. |
| `MergeOutput.MergeDirs` | merge_output.py:13-38 | The fold of the steps of the sorted directories. `ApplyAllOutcome`, `ApplyAllKey` and `ApplyAllRows` state its outcome, keys and rows. `MergeOutput.MergeCsvFiles` is proved equal to it. `MergeOutput.MergeDirectory` is proved equal to one directory's steps, and so the loop in `MergeCsvFiles` keeps the dictionary equal to `MergeDirs` of the directories visited so far. |
| `MergeOutput.Outputs` | merge_output.py:41-45 | One `<output_dir>/<key>.csv` per key, in insertion order, as many as keys. `MergeOutput.WriteOutputs` is proved equal to it. |
| `MergeOutput.Merge` | merge_output.py:5-45 | The whole merge. `MergeProperties.MergeSucceeds`, `MergeFailure`, `MergedTables`, `MergeOutputsContributed`, `MergeOutputsComplete` and `MergeOutputsDistinct` state what it writes. |
| `MergeProperties.ContributingName` | merge_output.py:23-32 | A contributing name ends in a dot and "csv" in some case. Its key is the name without those four characters, or the whole name when only dots precede them in its last component. |
| `MergeProperties.SortKeepsMembers` | merge_output.py:13 | Sorting the directory list keeps exactly the same directories. |
| `MergeProperties.ReadableOfSort` | merge_output.py:13 | Sorting does not change whether every directory and file can be read. |
| `MergeProperties.ContributedOfSort` | merge_output.py:13 | Sorting does not change which keys are contributed. |
| `MergeProperties.MergeSucceeds` | merge_output.py:18-29 | The merge writes its tables iff every listed directory exists and all its contributing files can be read. |
| `MergeProperties.MergeFailure` | merge_output.py:18-29 | A failed merge names a listed directory that does not exist, or an unreadable contributing file of a listed directory. |
| `MergeProperties.MergedTables` | merge_output.py:13-38 | A key has a table iff some contributing file has that key. The table is those files' rows: directories in sorted order, files in listing order. |
| `MergeProperties.MergeOutputsContributed` | merge_output.py:41-45 | Every table written is `<output_dir>/<key>.csv` for a contributed key, with all that key's rows. |
| `MergeProperties.MergeOutputsComplete` | merge_output.py:41-45 | Every contributed key has its table written. |
| `MergeProperties.ContributedKeyPlain` | merge_output.py:32 | A key taken from a listed file name contains no '/'. |
| `MergeProperties.MergeOutputsDistinct` | merge_output.py:42 | No two written tables share an output path. |
| `MergeProperties.CsvNameRelative` | merge_output.py:42 | `<key>.csv` for a key without '/' is a relative name, so it stays inside the output directory. |
| `MergeProperties.MergeIgnoresOrder` | merge_output.py:13 | The order in which directories are given does not change the result. |
| `MergeProperties.KeyOfPlainName` | merge_output.py:32 | A name made of a plain stem and one extension is keyed by its stem. |
| `MergeProperties.CsvName` | merge_output.py:23-32 | A plain stem with any-case ".csv" passes the extension test and is keyed by its stem. |
| `MergeProperties.ImageCsvExample` | merge_output.py:23-32 | "Image.csv" contributes under key "Image". |
| `MergeProperties.UpperCaseCsvExample` | merge_output.py:23-42 | "Nuclei.CSV" contributes under key "Nuclei", and is therefore written as "Nuclei.csv". |
| `MergeProperties.LowerCaseExperimentExample` | merge_output.py:23 | The exclusion is case-sensitive: "experiment.csv" still contributes. |
| `MergeProperties.ExcludedExamples` | merge_output.py:23 | "Experiment.csv", "log.txt" and "Image.csv.bak" take no part. |
| `MergeProperties.DotCsvExample` | merge_output.py:32 | ".csv" contributes, and since it has no extension its key is ".csv" itself. |
| `MergeProperties.SortTwo` | merge_output.py:13 | Two names out of order are swapped by `sorted`. |
| `MergeProperties.ExampleSort` | merge_output.py:13 | "out/batch_002", "out/batch_001" sort to batch 001 first. |
| `MergeProperties.MergeExample` | merge_output.py:5-45 | Two batch directories given in reverse order merge in sorted order. Batch 001's rows come first; the experiment summary and a log file take no part; "Nuclei.CSV" is written as "Nuclei.csv". |
| `MergeProperties.RowsForAppend` | merge_output.py:35-38 | The rows the directories a+b add under a key are a's followed by b's: splitting the visited sequence and concatenating gives the same table. |
| `MergeProperties.DirRowsLength` | merge_output.py:36 | A directory adds as many rows under a key as its contributing files with that key hold together. |
| `MergeProperties.RowsForLength` | merge_output.py:36 | The directories add as many rows under a key as all their contributing files with that key hold together. |
| `MergeProperties.MergedRowCount` | merge_output.py:36 | A merged table's row count is the sum of the row counts of the files that contributed to it. |
| `MergeProperties.RepeatedDirCountsTwice` | merge_output.py:13 | A directory given twice is visited twice, and its rows appear twice in a row. |
| `MergeProperties.SortRepeat` | merge_output.py:13 | `sorted` keeps a repeated directory, adjacent to itself. |
| `MergeProperties.NothingContributes` | merge_output.py:23 | A directory none of whose files pass the filter adds no key and no rows. |
| `MergeProperties.ExperimentOnlyDir` | merge_output.py:23 | A directory holding only `Experiment.csv` adds no key and no rows. |

## Left out

- Docker, `subprocess.run` and container execution are not modelled. A launch is the `WorkerSpec` its command line is built from. With `check=True` a failing launch would abort the loop; the model has no failing launches.
- `pwd.getpwuid(os.getuid())` is not modelled. The uid and gid are inputs.
- `os.makedirs`, `os.path.abspath` and argparse are not modelled. `Config` holds the already-parsed, already-absolute arguments.
- `os.path.isdir` is a boolean input.
- An `os.listdir` listing is an input sequence in the order the OS returns it.
- `print` and the `--verbose` output are not modelled: they change no state the model tracks.
- pandas is not modelled. A table is a sequence of data rows. `read_csv` is an input per file, with None where reading fails. CSV text, headers, the column union of `concat` on differing columns, and index handling are not modelled.
- Errors raised while writing output are not modelled.
- `batch_size > 0` and `num_channels > 0` are preconditions, and `Config` holds both as natural numbers. The code never checks them. A zero raises: `range` rejects a zero step, and `//` a zero divisor. A negative value raises nothing. The loop runs over whatever range the arithmetic gives. With a negative batch size, no batch runs unless a negative channel count has also made the total negative; then the range counts down from 0. Negative values are outside the model.
- `Strings.Lower`: lower-cases ASCII letters only. Python's `str.lower` also maps non-ASCII letters, which changes no verdict for ".cppipe" or ".csv" unless a non-ASCII letter lower-cases into an ASCII one.
- `Decimal.ZFill`: does not model `zfill`'s handling of a leading sign. The ids it pads are positive.
- `DockerCommand.ParseRun`: the option reader knows only the flags the command uses. It is a model of how docker and CellProfiler consume options, not of their full option sets.
- `MergeProperties.MergeOutputsDistinct`: assumes listed file names contain no '/', which `os.listdir` guarantees.
- `MergeProperties.MergedRowCount`: counts rows over the sorted directory list. The sum does not depend on order, but that is not stated separately.
- `check=True` aborts the loop at the first failed launch. One unreadable CSV or missing directory aborts the whole merge, and nothing is written. The batch size is never checked. The model follows the code: `MergeOutput.MergeCsvFiles` returns the first error, and a positive batch size is a precondition.
