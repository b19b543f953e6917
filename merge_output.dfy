/**
 * `merge_csv_files` of merge_output.py: every CSV file of the given
 * directories, except the experiment summary, is appended to the table
 * named after the file, and each table is written once to the output
 * directory. Tables are sequences of rows; reading and writing CSV text is
 * not modelled. The directories are given as a map from the path of each
 * existing directory to its listing, each entry carrying the rows
 * `read_csv` would return, or None where reading fails.
 *
 * The merge is specified in two layers: each directory entry (or a
 * directory that cannot be listed) becomes a `Step`, and the dictionary is
 * the fold of those steps.
 */
module MergeOutput {
  import opened Wrappers
  import opened Strings
  import opened Paths
  import opened Sorting

  /** One data row of a table; the header line is not a row. */
  type Row = seq<string>

  /** A directory entry as `os.listdir` names it, with what `pd.read_csv` makes of it. */
  datatype Entry = Entry(name: string, rows: Option<seq<Row>>)

  /** The directories that exist, each with its listing in `os.listdir` order. */
  type FileSystem = map<string, seq<Entry>>

  /** The exception that ends a merge: a directory `listdir` cannot list, or a file `read_csv` cannot read. */
  datatype MergeError = NotFound(path: string) | ReadFailure(path: string)

  /** One `to_csv` call: where the merged table goes and its rows. */
  datatype Output = Output(path: string, rows: seq<Row>)

  /**
   * The dictionary `merged_dataframes`: its keys in insertion order (the
   * order `items()` yields them) and the table stored under each.
   */
  datatype Merged = Merged(keys: seq<string>, tables: map<string, seq<Row>>)

  /** The keys are listed once each, and exactly the keys that have a table are listed. */
  ghost predicate Valid(m: Merged)
  {
    && (forall i, j :: 0 <= i < j < |m.keys| ==> m.keys[i] != m.keys[j])
    && (forall key :: key in m.tables <==> key in m.keys)
  }

  /** Whether a file takes part: its lower-cased name ends in ".csv" and it is not exactly "Experiment.csv". */
  predicate Contributes(name: string)
  {
    EndsWith(Lower(name), ".csv") && name != "Experiment.csv"
  }

  /** The table a file is merged into: its name without the extension. */
  function Key(name: string): string
  {
    SplitExt(name).0
  }

  // ---- the merge as a fold over steps ----

  /** What the merge does with one entry: nothing, stop with an error, or add rows under a key. */
  datatype Step = Skip | Fail(error: MergeError) | Put(key: string, rows: seq<Row>)

  /** The step for entry `e` of directory `dir`. */
  function Classify(dir: string, e: Entry): Step
  {
    if !Contributes(e.name) then Skip
    else if e.rows.None? then Fail(ReadFailure(Join(dir, e.name)))
    else Put(Key(e.name), e.rows.value)
  }

  /** The steps for a listing, in listing order. */
  function DirSteps(dir: string, entries: seq<Entry>): (steps: seq<Step>)
    ensures |steps| == |entries|
  {
    seq(|entries|, i requires 0 <= i < |entries| => Classify(dir, entries[i]))
  }

  /** The steps for the directories in the order given; a directory that does not exist is one failing step. */
  function Steps(fs: FileSystem, dirs: seq<string>): seq<Step>
    decreases |dirs|
  {
    if dirs == [] then []
    else
      var dir := dirs[|dirs| - 1];
      Steps(fs, dirs[..|dirs| - 1]) + if dir in fs then DirSteps(dir, fs[dir]) else [Fail(NotFound(dir))]
  }

  /** Rows stored under a key: appended to the table already there (`pd.concat`), or a new key at the end of the order. */
  function Add(m: Merged, key: string, rows: seq<Row>): Merged
  {
    if key in m.tables then Merged(m.keys, m.tables[key := m.tables[key] + rows])
    else Merged(m.keys + [key], m.tables[key := rows])
  }

  function Apply(m: Merged, s: Step): Result<Merged, MergeError>
  {
    match s
    case Skip => Success(m)
    case Fail(err) => Failure(err)
    case Put(key, rows) => Success(Add(m, key, rows))
  }

  /** The steps applied in order, stopping at the first failure. */
  function ApplyAll(m: Merged, steps: seq<Step>): Result<Merged, MergeError>
    decreases |steps|
  {
    if steps == [] then Success(m)
    else
      match ApplyAll(m, steps[..|steps| - 1])
      case Failure(err) => Failure(err)
      case Success(m') => Apply(m', steps[|steps| - 1])
  }

  /** The dictionary after the directories, visited in the order given, starting from an empty one. */
  function MergeDirs(fs: FileSystem, dirs: seq<string>): Result<Merged, MergeError>
  {
    ApplyAll(Merged([], map[]), Steps(fs, dirs))
  }

  // ---- the fold of steps ----

  /** No step fails. */
  predicate NoFailure(steps: seq<Step>)
  {
    forall i :: 0 <= i < |steps| ==> !steps[i].Fail?
  }

  /** Some step puts rows under `key`. */
  predicate PutsKey(steps: seq<Step>, key: string)
  {
    exists i :: 0 <= i < |steps| && steps[i].Put? && steps[i].key == key
  }

  /** The rows the steps put under `key`, in step order. */
  function PutRows(steps: seq<Step>, key: string): seq<Row>
    decreases |steps|
  {
    if steps == [] then []
    else
      var s := steps[|steps| - 1];
      PutRows(steps[..|steps| - 1], key) + if s.Put? && s.key == key then s.rows else []
  }

  /** The table under `key`, or no rows when the key is absent. */
  function Stored(m: Merged, key: string): seq<Row>
  {
    if key in m.tables then m.tables[key] else []
  }

  /** Adding rows keeps each key listed once. */
  lemma AddValid(m: Merged, key: string, rows: seq<Row>)
    requires Valid(m)
    ensures Valid(Add(m, key, rows))
  {
  }

  /** Adding rows under `key` appends them to that key's table and leaves every other key alone. */
  lemma AddKey(m: Merged, key: string, rows: seq<Row>, k: string)
    ensures k in Add(m, key, rows).tables <==> k in m.tables || k == key
    ensures Stored(Add(m, key, rows), k) == Stored(m, k) + if k == key then rows else []
  {
    if k != key {
      assert Stored(m, k) + [] == Stored(m, k);
    }
  }

  /** Applying one more step after a run of steps that went through. */
  lemma ApplyLast(m: Merged, steps: seq<Step>, s: Step)
    ensures ApplyAll(m, steps + [s]) == match ApplyAll(m, steps) case Failure(err) => Failure(err) case Success(m') => Apply(m', s)
  {
    assert (steps + [s])[..|steps|] == steps;
  }

  /**
   * Running the steps of `a + b` is running those of `a` and, if that went
   * through, those of `b` from where `a` left off: so the visit can be cut
   * anywhere into a prefix and a suffix.
   */
  lemma {:induction false} ApplyAllSplit(m: Merged, a: seq<Step>, b: seq<Step>)
    ensures ApplyAll(m, a + b) == match ApplyAll(m, a) case Failure(err) => Failure(err) case Success(m') => ApplyAll(m', b)
    decreases |b|
  {
    if b == [] {
      assert a + b == a;
    } else {
      var init, last := b[..|b| - 1], b[|b| - 1];
      assert a + b == (a + init) + [last];
      assert b == init + [last];
      ApplyAllSplit(m, a, init);
      ApplyLast(m, a + init, last);
      match ApplyAll(m, a)
      case Failure(err) =>
      case Success(m') =>
        ApplyLast(m', init, last);
    }
  }

  /** The steps go through exactly when none fails; otherwise the error is that of the first failing step. */
  lemma {:induction false} ApplyAllOutcome(m: Merged, steps: seq<Step>)
    ensures ApplyAll(m, steps).Success? <==> NoFailure(steps)
    ensures ApplyAll(m, steps).Failure? ==>
      exists i :: 0 <= i < |steps| && steps[i] == Fail(ApplyAll(m, steps).error) && NoFailure(steps[..i])
    decreases |steps|
  {
    if steps != [] {
      var init, last := steps[..|steps| - 1], steps[|steps| - 1];
      assert steps == init + [last];
      ApplyAllOutcome(m, init);
      ApplyLast(m, init, last);
      if ApplyAll(m, init).Failure? {
        var i :| 0 <= i < |init| && init[i] == Fail(ApplyAll(m, init).error) && NoFailure(init[..i]);
        assert steps[..i] == init[..i];
      } else {
        assert steps[..|init|] == init;
      }
    }
  }

  /** After steps that go through, a key has a table exactly when it had one or some step puts it. */
  lemma {:induction false} ApplyAllKey(m: Merged, steps: seq<Step>, key: string)
    requires ApplyAll(m, steps).Success?
    ensures key in ApplyAll(m, steps).value.tables <==> key in m.tables || PutsKey(steps, key)
    decreases |steps|
  {
    if steps != [] {
      var init, last := steps[..|steps| - 1], steps[|steps| - 1];
      assert steps == init + [last];
      ApplyLast(m, init, last);
      ApplyAllKey(m, init, key);
      if last.Put? {
        AddKey(ApplyAll(m, init).value, last.key, last.rows, key);
      }
      if PutsKey(steps, key) && !PutsKey(init, key) {
        var i :| 0 <= i < |steps| && steps[i].Put? && steps[i].key == key;
        assert i == |init|;
      }
    }
  }

  /** One step that goes through grows the table of `key` by the rows it puts there. */
  lemma ApplyRows(m: Merged, s: Step, key: string)
    requires Apply(m, s).Success?
    ensures Stored(Apply(m, s).value, key) == Stored(m, key) + if s.Put? && s.key == key then s.rows else []
  {
    if s.Put? {
      AddKey(m, s.key, s.rows, key);
    } else {
      assert Stored(m, key) + [] == Stored(m, key);
    }
  }

  /** After steps that go through, each key's table has grown by the rows the steps put under it, in order. */
  lemma {:induction false} ApplyAllRows(m: Merged, steps: seq<Step>, key: string)
    requires ApplyAll(m, steps).Success?
    ensures Stored(ApplyAll(m, steps).value, key) == Stored(m, key) + PutRows(steps, key)
    decreases |steps|
  {
    if steps == [] {
      assert Stored(m, key) + [] == Stored(m, key);
    } else {
      var init, last := steps[..|steps| - 1], steps[|steps| - 1];
      var tail := if last.Put? && last.key == key then last.rows else [];
      assert PutRows(steps, key) == PutRows(init, key) + tail;
      ApplyAllRows(m, init, key);
      var m1 := ApplyAll(m, init).value;
      assert ApplyAll(m, steps) == Apply(m1, last);
      ApplyRows(m1, last, key);
      assert Stored(m, key) + PutRows(steps, key) == (Stored(m, key) + PutRows(init, key)) + tail;
    }
  }

  /** Steps that go through keep each key listed once. */
  lemma {:induction false} ApplyAllValid(m: Merged, steps: seq<Step>)
    requires Valid(m) && ApplyAll(m, steps).Success?
    ensures Valid(ApplyAll(m, steps).value)
    decreases |steps|
  {
    if steps != [] {
      var init, last := steps[..|steps| - 1], steps[|steps| - 1];
      ApplyAllValid(m, init);
      if last.Put? {
        AddValid(ApplyAll(m, init).value, last.key, last.rows);
      }
    }
  }

  // ---- the steps of a run, in terms of the directories and their files ----

  /** Every listed directory exists and each of its contributing files can be read. */
  predicate Readable(fs: FileSystem, dirs: seq<string>)
  {
    forall d :: d in dirs ==> d in fs && forall e :: e in fs[d] && Contributes(e.name) ==> e.rows.Some?
  }

  /** A contributing file of a listed, existing directory has this key. */
  predicate Contributed(fs: FileSystem, dirs: seq<string>, key: string)
  {
    exists d :: d in dirs && d in fs && DirContributes(fs[d], key)
  }

  /** A contributing file of the listing has this key. */
  predicate DirContributes(entries: seq<Entry>, key: string)
  {
    exists e :: e in entries && Contributes(e.name) && Key(e.name) == key
  }

  /** The rows one file adds under `key`. */
  function Contribution(e: Entry, key: string): seq<Row>
  {
    if Contributes(e.name) && Key(e.name) == key && e.rows.Some? then e.rows.value else []
  }

  /** What a listing adds under `key`: its files' contributions, in listing order. */
  function DirRows(entries: seq<Entry>, key: string): seq<Row>
    decreases |entries|
  {
    if entries == [] then []
    else DirRows(entries[..|entries| - 1], key) + Contribution(entries[|entries| - 1], key)
  }

  /** What the directories add under `key`, in the order given. */
  function RowsFor(fs: FileSystem, dirs: seq<string>, key: string): seq<Row>
    decreases |dirs|
  {
    if dirs == [] then []
    else
      var dir := dirs[|dirs| - 1];
      RowsFor(fs, dirs[..|dirs| - 1], key) + if dir in fs then DirRows(fs[dir], key) else []
  }

  lemma DirStepsLast(dir: string, entries: seq<Entry>)
    requires entries != []
    ensures DirSteps(dir, entries) == DirSteps(dir, entries[..|entries| - 1]) + [Classify(dir, entries[|entries| - 1])]
  {
  }

  lemma {:induction false} PutRowsAppend(a: seq<Step>, b: seq<Step>, key: string)
    ensures PutRows(a + b, key) == PutRows(a, key) + PutRows(b, key)
    decreases |b|
  {
    if b == [] {
      assert a + b == a;
    } else {
      var init := b[..|b| - 1];
      assert (a + b)[..|a + b| - 1] == a + init;
      PutRowsAppend(a, init, key);
    }
  }

  /** The rows a listing's steps put under a key are the listing's contributions to it. */
  lemma {:induction false} DirStepsRows(dir: string, entries: seq<Entry>, key: string)
    ensures PutRows(DirSteps(dir, entries), key) == DirRows(entries, key)
    decreases |entries|
  {
    if entries != [] {
      var init := entries[..|entries| - 1];
      DirStepsLast(dir, entries);
      PutRowsAppend(DirSteps(dir, init), [Classify(dir, entries[|entries| - 1])], key);
      DirStepsRows(dir, init, key);
      assert PutRows([Classify(dir, entries[|entries| - 1])], key) == Contribution(entries[|entries| - 1], key);
    }
  }

  /** The rows the steps of a run put under a key are the directories' contributions to it, in visit order. */
  lemma {:induction false} StepsRows(fs: FileSystem, dirs: seq<string>, key: string)
    ensures PutRows(Steps(fs, dirs), key) == RowsFor(fs, dirs, key)
    decreases |dirs|
  {
    if dirs != [] {
      var init, dir := dirs[..|dirs| - 1], dirs[|dirs| - 1];
      var more := if dir in fs then DirSteps(dir, fs[dir]) else [Fail(NotFound(dir))];
      StepsRows(fs, init, key);
      PutRowsAppend(Steps(fs, init), more, key);
      if dir in fs {
        DirStepsRows(dir, fs[dir], key);
      } else {
        assert PutRows(more, key) == [];
      }
    }
  }

  lemma NoFailureAppend(a: seq<Step>, b: seq<Step>)
    ensures NoFailure(a + b) <==> NoFailure(a) && NoFailure(b)
  {
    if NoFailure(a + b) {
      forall i | 0 <= i < |a| ensures !a[i].Fail? {
        assert a[i] == (a + b)[i];
      }
      forall i | 0 <= i < |b| ensures !b[i].Fail? {
        assert b[i] == (a + b)[|a| + i];
      }
    }
  }

  lemma PutsKeyAppend(a: seq<Step>, b: seq<Step>, key: string)
    ensures PutsKey(a + b, key) <==> PutsKey(a, key) || PutsKey(b, key)
  {
    if PutsKey(b, key) {
      var i :| 0 <= i < |b| && b[i].Put? && b[i].key == key;
      assert (a + b)[|a| + i] == b[i];
    }
    if PutsKey(a, key) {
      var i :| 0 <= i < |a| && a[i].Put? && a[i].key == key;
      assert (a + b)[i] == a[i];
    }
  }

  /** A listing's steps go through exactly when its contributing files can be read. */
  lemma DirStepsNoFailure(dir: string, entries: seq<Entry>)
    ensures NoFailure(DirSteps(dir, entries)) <==> forall e :: e in entries && Contributes(e.name) ==> e.rows.Some?
  {
    var steps := DirSteps(dir, entries);
    if NoFailure(steps) {
      forall e | e in entries && Contributes(e.name) ensures e.rows.Some? {
        var i :| 0 <= i < |entries| && entries[i] == e;
        assert steps[i] == Classify(dir, e);
      }
    }
  }

  /** Under readable files, a listing's steps put a key exactly when a contributing file has it. */
  lemma DirStepsPutsKey(dir: string, entries: seq<Entry>, key: string)
    requires forall e :: e in entries && Contributes(e.name) ==> e.rows.Some?
    ensures PutsKey(DirSteps(dir, entries), key) <==> DirContributes(entries, key)
  {
    var steps := DirSteps(dir, entries);
    if PutsKey(steps, key) {
      var i :| 0 <= i < |steps| && steps[i].Put? && steps[i].key == key;
      assert steps[i] == Classify(dir, entries[i]);
      assert entries[i] in entries;
    }
    if DirContributes(entries, key) {
      var e :| e in entries && Contributes(e.name) && Key(e.name) == key;
      var i :| 0 <= i < |entries| && entries[i] == e;
      assert steps[i] == Classify(dir, e);
    }
  }

  /** The steps of a run go through exactly when every directory exists and every contributing file can be read. */
  lemma {:induction false} StepsNoFailure(fs: FileSystem, dirs: seq<string>)
    ensures NoFailure(Steps(fs, dirs)) <==> Readable(fs, dirs)
    decreases |dirs|
  {
    if dirs != [] {
      var init, dir := dirs[..|dirs| - 1], dirs[|dirs| - 1];
      assert dirs == init + [dir];
      var more := if dir in fs then DirSteps(dir, fs[dir]) else [Fail(NotFound(dir))];
      StepsNoFailure(fs, init);
      NoFailureAppend(Steps(fs, init), more);
      if dir in fs {
        DirStepsNoFailure(dir, fs[dir]);
      } else {
        assert more[0].Fail?;
      }
      assert forall d :: d in dirs <==> d in init || d == dir;
    }
  }

  /** With readable files, the steps of a run put a key exactly when some contributing file has it. */
  lemma {:induction false} StepsPutsKey(fs: FileSystem, dirs: seq<string>, key: string)
    requires Readable(fs, dirs)
    ensures PutsKey(Steps(fs, dirs), key) <==> Contributed(fs, dirs, key)
    decreases |dirs|
  {
    if dirs != [] {
      var init, dir := dirs[..|dirs| - 1], dirs[|dirs| - 1];
      assert dirs == init + [dir];
      assert forall d :: d in dirs <==> d in init || d == dir;
      var more := DirSteps(dir, fs[dir]);
      StepsPutsKey(fs, init, key);
      PutsKeyAppend(Steps(fs, init), more, key);
      DirStepsPutsKey(dir, fs[dir], key);
    }
  }

  /** A failing step of a run is a listed directory that does not exist or a contributing file that cannot be read. */
  lemma {:induction false} StepsFailure(fs: FileSystem, dirs: seq<string>, i: nat)
    requires i < |Steps(fs, dirs)| && Steps(fs, dirs)[i].Fail?
    ensures var err := Steps(fs, dirs)[i].error;
      && (err.NotFound? ==> err.path in dirs && err.path !in fs)
      && (err.ReadFailure? ==> exists d, e :: d in dirs && d in fs && e in fs[d] && Contributes(e.name) && e.rows.None? && err.path == Join(d, e.name))
    decreases |dirs|
  {
    var init, dir := dirs[..|dirs| - 1], dirs[|dirs| - 1];
    var more := if dir in fs then DirSteps(dir, fs[dir]) else [Fail(NotFound(dir))];
    assert dir in dirs;
    if i < |Steps(fs, init)| {
      assert Steps(fs, dirs)[i] == Steps(fs, init)[i];
      StepsFailure(fs, init, i);
      assert forall d :: d in init ==> d in dirs;
    } else if dir in fs {
      var j := i - |Steps(fs, init)|;
      assert Steps(fs, dirs)[i] == more[j] == Classify(dir, fs[dir][j]);
      assert fs[dir][j] in fs[dir];
    }
  }

  // ---- the whole merge ----

  /** The `to_csv` calls for a dictionary: one per key, in insertion order, to `<output_dir>/<key>.csv`. */
  function Outputs(outputDir: string, m: Merged): (outs: seq<Output>)
    ensures |outs| == |m.keys|
  {
    seq(|m.keys|, i requires 0 <= i < |m.keys| => Output(Join(outputDir, m.keys[i] + ".csv"), Stored(m, m.keys[i])))
  }

  /** What `merge_csv_files(dir_paths, output_dir)` writes, or the error that stops it. */
  function Merge(fs: FileSystem, dirPaths: seq<string>, outputDir: string): Result<seq<Output>, MergeError>
  {
    var r := MergeDirs(fs, Sort(dirPaths));
    if r.Failure? then Failure(r.error)
    else Success(Outputs(outputDir, r.value))
  }

  /** A run of steps that has failed stays failed whatever follows. */
  lemma FailureStays(m: Merged, a: seq<Step>, b: seq<Step>)
    requires ApplyAll(m, a).Failure?
    ensures ApplyAll(m, a + b) == ApplyAll(m, a)
  {
    ApplyAllSplit(m, a, b);
  }

  /** The steps of one directory. */
  lemma StepsSingle(fs: FileSystem, dir: string)
    ensures Steps(fs, [dir]) == if dir in fs then DirSteps(dir, fs[dir]) else [Fail(NotFound(dir))]
  {
    assert [dir][..0] == [];
  }

  /** The last directory's steps come after those of the directories before it. */
  lemma StepsLast(fs: FileSystem, dirs: seq<string>)
    requires dirs != []
    ensures Steps(fs, dirs) == Steps(fs, dirs[..|dirs| - 1]) + Steps(fs, [dirs[|dirs| - 1]])
  {
    var dir := dirs[|dirs| - 1];
    assert [dir][..0] == [];
    assert Steps(fs, [dir]) == Steps(fs, []) + (if dir in fs then DirSteps(dir, fs[dir]) else [Fail(NotFound(dir))]);
  }

  lemma SeqAssoc<T>(x: seq<T>, y: seq<T>, z: seq<T>)
    ensures (x + y) + z == x + (y + z)
  {
  }

  /** The steps of consecutive runs of directories follow each other. */
  lemma {:induction false} StepsAppend(fs: FileSystem, a: seq<string>, b: seq<string>)
    ensures Steps(fs, a + b) == Steps(fs, a) + Steps(fs, b)
    decreases |b|
  {
    if b == [] {
      assert a + b == a;
    } else {
      var init := b[..|b| - 1];
      assert (a + b)[..|a + b| - 1] == a + init && (a + b)[|a + b| - 1] == b[|b| - 1];
      StepsLast(fs, a + b);
      StepsLast(fs, b);
      StepsAppend(fs, a, init);
      SeqAssoc(Steps(fs, a), Steps(fs, init), Steps(fs, [b[|b| - 1]]));
    }
  }

  /** One more step after a prefix of steps that went through. */
  lemma StepNext(m0: Merged, steps: seq<Step>, j: nat, m: Merged)
    requires j < |steps| && ApplyAll(m0, steps[..j]) == Success(m)
    ensures ApplyAll(m0, steps[..j + 1]) == Apply(m, steps[j])
  {
    assert steps[..j + 1] == steps[..j] + [steps[j]];
    ApplyLast(m0, steps[..j], steps[j]);
  }

  /** A prefix of steps that failed decides the outcome of all of them. */
  lemma FailsEarly(m0: Merged, steps: seq<Step>, j: nat)
    requires j <= |steps| && ApplyAll(m0, steps[..j]).Failure?
    ensures ApplyAll(m0, steps) == ApplyAll(m0, steps[..j])
  {
    assert steps == steps[..j] + steps[j..];
    FailureStays(m0, steps[..j], steps[j..]);
  }

  /** The visit of the next directory, from where the earlier ones left off. */
  lemma DirNext(fs: FileSystem, dirs: seq<string>, d: nat, m: Merged)
    requires d < |dirs| && dirs[d] in fs && MergeDirs(fs, dirs[..d]) == Success(m)
    ensures MergeDirs(fs, dirs[..d + 1]) == ApplyAll(m, DirSteps(dirs[d], fs[dirs[d]]))
  {
    assert dirs[..d] + [dirs[d]] == dirs[..d + 1];
    StepsAppend(fs, dirs[..d], [dirs[d]]);
    StepsSingle(fs, dirs[d]);
    ApplyAllSplit(Merged([], map[]), Steps(fs, dirs[..d]), Steps(fs, [dirs[d]]));
  }

  /** A directory that does not exist stops the visit there. */
  lemma DirMissing(fs: FileSystem, dirs: seq<string>, d: nat, m: Merged)
    requires d < |dirs| && dirs[d] !in fs && MergeDirs(fs, dirs[..d]) == Success(m)
    ensures MergeDirs(fs, dirs) == Failure(NotFound(dirs[d]))
  {
    var pre, fail := Steps(fs, dirs[..d]), Fail(NotFound(dirs[d]));
    assert dirs[..d] + [dirs[d]] == dirs[..d + 1];
    StepsAppend(fs, dirs[..d], [dirs[d]]);
    StepsSingle(fs, dirs[d]);
    assert Steps(fs, dirs[..d + 1]) == pre + [fail];
    ApplyLast(Merged([], map[]), pre, fail);
    assert MergeDirs(fs, dirs[..d + 1]) == Failure(NotFound(dirs[d]));
    DirFails(fs, dirs, d, NotFound(dirs[d]));
  }

  /** A directory whose visit fails stops the whole visit with its error. */
  lemma DirFails(fs: FileSystem, dirs: seq<string>, d: nat, err: MergeError)
    requires d < |dirs| && MergeDirs(fs, dirs[..d + 1]) == Failure(err)
    ensures MergeDirs(fs, dirs) == Failure(err)
  {
    assert dirs[..d + 1] + dirs[d + 1..] == dirs;
    StepsAppend(fs, dirs[..d + 1], dirs[d + 1..]);
    FailureStays(Merged([], map[]), Steps(fs, dirs[..d + 1]), Steps(fs, dirs[d + 1..]));
  }

  /**
   * The inner loop of `merge_csv_files`: the files of one directory in
   * listing order; a contributing file's rows are appended to the table of
   * its key, or start a new table at the end of the key order.
   */
  method MergeDirectory(dirPath: string, files: seq<Entry>, keys0: seq<string>, merged0: map<string, seq<Row>>)
    returns (r: Result<Merged, MergeError>)
    ensures r == ApplyAll(Merged(keys0, merged0), DirSteps(dirPath, files))
  {
    ghost var steps := DirSteps(dirPath, files);
    var keys, merged := keys0, merged0;
    var j := 0;
    assert steps[..0] == [];
    while j < |files|
      invariant 0 <= j <= |files|
      invariant ApplyAll(Merged(keys0, merged0), steps[..j]) == Success(Merged(keys, merged))
    {
      var file := files[j];
      StepNext(Merged(keys0, merged0), steps, j, Merged(keys, merged));
      if Contributes(file.name) {
        var filePath := Join(dirPath, file.name);
        if file.rows.None? {
          assert steps[j] == Fail(ReadFailure(filePath));
          FailsEarly(Merged(keys0, merged0), steps, j + 1);
          return Failure(ReadFailure(filePath));
        }
        var df := file.rows.value;
        var filenameWithoutExt := Key(file.name);
        assert steps[j] == Put(filenameWithoutExt, df);
        if filenameWithoutExt in merged {
          merged := merged[filenameWithoutExt := merged[filenameWithoutExt] + df];
        } else {
          merged := merged[filenameWithoutExt := df];
          keys := keys + [filenameWithoutExt];
        }
      } else {
        assert steps[j] == Skip;
      }
      j := j + 1;
    }
    assert steps[..j] == steps;
    return Success(Merged(keys, merged));
  }

  /** The last loop of `merge_csv_files`: one `to_csv` per key, in insertion order. */
  method WriteOutputs(outputDir: string, keys: seq<string>, merged: map<string, seq<Row>>) returns (outputs: seq<Output>)
    requires forall key :: key in keys ==> key in merged
    ensures outputs == Outputs(outputDir, Merged(keys, merged))
  {
    ghost var all := Outputs(outputDir, Merged(keys, merged));
    outputs := [];
    var k := 0;
    while k < |keys|
      invariant 0 <= k <= |keys|
      invariant outputs == all[..k]
    {
      var filename := keys[k];
      var outputPath := Join(outputDir, filename + ".csv");
      assert all[k] == Output(outputPath, merged[filename]);
      assert all[..k + 1] == all[..k] + [all[k]];
      outputs := outputs + [Output(outputPath, merged[filename])];
      k := k + 1;
    }
    assert all[..k] == all;
  }

  /**
   * `merge_csv_files`: visits the directories in sorted order, merging each
   * one's tables into the dictionary, then writes one table per key.
   */
  method MergeCsvFiles(fs: FileSystem, dirPaths: seq<string>, outputDir: string) returns (r: Result<seq<Output>, MergeError>)
    ensures r == Merge(fs, dirPaths, outputDir)
  {
    var dirs := Sort(dirPaths);
    var keys: seq<string> := [];
    var merged: map<string, seq<Row>> := map[];
    var d := 0;
    assert dirs[..0] == [];
    while d < |dirs|
      invariant 0 <= d <= |dirs|
      invariant MergeDirs(fs, dirs[..d]) == Success(Merged(keys, merged))
    {
      var dirPath := dirs[d];
      if dirPath !in fs {
        DirMissing(fs, dirs, d, Merged(keys, merged));
        return Failure(NotFound(dirPath));
      }
      DirNext(fs, dirs, d, Merged(keys, merged));
      var visited := MergeDirectory(dirPath, fs[dirPath], keys, merged);
      if visited.Failure? {
        DirFails(fs, dirs, d, visited.error);
        return Failure(visited.error);
      }
      keys, merged := visited.value.keys, visited.value.tables;
      d := d + 1;
    }
    assert dirs[..d] == dirs;
    ApplyAllValid(Merged([], map[]), Steps(fs, dirs));
    var outputs := WriteOutputs(outputDir, keys, merged);
    return Success(outputs);
  }
}
