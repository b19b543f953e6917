/**
 * What `merge_csv_files` promises about its outcome, stated over the
 * directories and files it is given rather than over the fold that
 * computes it.
 */
module MergeProperties {
  import opened Wrappers
  import opened Strings
  import opened Paths
  import opened Sorting
  import opened MergeOutput

  /** Sorting the directory list keeps exactly the same directories. */
  lemma SortKeepsMembers(s: seq<string>, d: string)
    ensures d in Sort(s) <==> d in s
  {
    assert d in Sort(s) <==> d in multiset(Sort(s));
    assert d in s <==> d in multiset(s);
  }

  /** Whether the directories are readable does not depend on the order they are listed in. */
  lemma ReadableOfSort(fs: FileSystem, dirPaths: seq<string>)
    ensures Readable(fs, Sort(dirPaths)) <==> Readable(fs, dirPaths)
  {
    forall d ensures d in Sort(dirPaths) <==> d in dirPaths {
      SortKeepsMembers(dirPaths, d);
    }
  }

  /** Whether a key is contributed does not depend on the order the directories are listed in. */
  lemma ContributedOfSort(fs: FileSystem, dirPaths: seq<string>, key: string)
    ensures Contributed(fs, Sort(dirPaths), key) <==> Contributed(fs, dirPaths, key)
  {
    forall d ensures d in Sort(dirPaths) <==> d in dirPaths {
      SortKeepsMembers(dirPaths, d);
    }
  }

  /**
   * The merge writes its tables exactly when every listed directory exists
   * and every contributing file in them can be read.
   */
  lemma MergeSucceeds(fs: FileSystem, dirPaths: seq<string>, outputDir: string)
    ensures Merge(fs, dirPaths, outputDir).Success? <==> Readable(fs, dirPaths)
  {
    var steps := Steps(fs, Sort(dirPaths));
    ApplyAllOutcome(Merged([], map[]), steps);
    StepsNoFailure(fs, Sort(dirPaths));
    ReadableOfSort(fs, dirPaths);
  }

  /**
   * A failed merge names what stopped it: a listed directory that does not
   * exist, or a contributing file of a listed directory that cannot be read,
   * by its joined path.
   */
  lemma MergeFailure(fs: FileSystem, dirPaths: seq<string>, outputDir: string)
    requires Merge(fs, dirPaths, outputDir).Failure?
    ensures var err := Merge(fs, dirPaths, outputDir).error;
      && (err.NotFound? ==> err.path in dirPaths && err.path !in fs)
      && (err.ReadFailure? ==>
            exists d, e :: d in dirPaths && d in fs && e in fs[d] && Contributes(e.name) && e.rows.None? && err.path == Join(d, e.name))
  {
    var dirs := Sort(dirPaths);
    var steps := Steps(fs, dirs);
    var err := MergeDirs(fs, dirs).error;
    ApplyAllOutcome(Merged([], map[]), steps);
    var i :| 0 <= i < |steps| && steps[i] == Fail(err) && NoFailure(steps[..i]);
    StepsFailure(fs, dirs, i);
    forall d ensures d in dirs <==> d in dirPaths {
      SortKeepsMembers(dirPaths, d);
    }
  }

  /** The table one merge writes for `key`. */
  function Expected(fs: FileSystem, dirPaths: seq<string>, outputDir: string, key: string): Output
  {
    Output(Join(outputDir, key + ".csv"), RowsFor(fs, Sort(dirPaths), key))
  }

  /**
   * In the dictionary a successful merge builds, a key has a table exactly
   * when some listed directory has a contributing file with that key, and
   * the table holds the rows of those files, directories in sorted order and
   * files in listing order.
   */
  lemma MergedTables(fs: FileSystem, dirPaths: seq<string>, key: string)
    requires MergeDirs(fs, Sort(dirPaths)).Success?
    ensures var m := MergeDirs(fs, Sort(dirPaths)).value;
      && (key in m.tables <==> Contributed(fs, dirPaths, key))
      && Stored(m, key) == RowsFor(fs, Sort(dirPaths), key)
  {
    var dirs := Sort(dirPaths);
    var steps := Steps(fs, dirs);
    ApplyAllOutcome(Merged([], map[]), steps);
    StepsNoFailure(fs, dirs);
    ApplyAllKey(Merged([], map[]), steps, key);
    StepsPutsKey(fs, dirs, key);
    ContributedOfSort(fs, dirPaths, key);
    ApplyAllRows(Merged([], map[]), steps, key);
    StepsRows(fs, dirs, key);
  }

  /**
   * Each table a successful merge writes is that of a contributed key: the
   * file `<key>.csv` in the output directory, with every contributing row
   * for that key.
   */
  lemma MergeOutputsContributed(fs: FileSystem, dirPaths: seq<string>, outputDir: string, i: nat)
    requires Merge(fs, dirPaths, outputDir).Success? && i < |Merge(fs, dirPaths, outputDir).value|
    ensures exists key :: Contributed(fs, dirPaths, key) && Merge(fs, dirPaths, outputDir).value[i] == Expected(fs, dirPaths, outputDir, key)
  {
    var m := MergeDirs(fs, Sort(dirPaths)).value;
    ApplyAllValid(Merged([], map[]), Steps(fs, Sort(dirPaths)));
    var key := m.keys[i];
    MergedTables(fs, dirPaths, key);
    assert Merge(fs, dirPaths, outputDir).value[i] == Expected(fs, dirPaths, outputDir, key);
  }

  /** Every contributed key has its table written by a successful merge. */
  lemma MergeOutputsComplete(fs: FileSystem, dirPaths: seq<string>, outputDir: string, key: string)
    requires Merge(fs, dirPaths, outputDir).Success? && Contributed(fs, dirPaths, key)
    ensures exists i :: 0 <= i < |Merge(fs, dirPaths, outputDir).value| && Merge(fs, dirPaths, outputDir).value[i] == Expected(fs, dirPaths, outputDir, key)
  {
    var m := MergeDirs(fs, Sort(dirPaths)).value;
    ApplyAllValid(Merged([], map[]), Steps(fs, Sort(dirPaths)));
    MergedTables(fs, dirPaths, key);
    var i :| 0 <= i < |m.keys| && m.keys[i] == key;
    assert Merge(fs, dirPaths, outputDir).value[i] == Expected(fs, dirPaths, outputDir, key);
  }

  /** `os.listdir` names never contain a path separator. */
  predicate PlainNames(fs: FileSystem)
  {
    forall d, e :: d in fs && e in fs[d] ==> '/' !in e.name
  }

  /** A contributed key is part of a file name, so it holds no separator either. */
  lemma ContributedKeyPlain(fs: FileSystem, dirPaths: seq<string>, key: string)
    requires PlainNames(fs) && Contributed(fs, dirPaths, key)
    ensures '/' !in key
  {
    var d :| d in dirPaths && d in fs && DirContributes(fs[d], key);
    var e :| e in fs[d] && Contributes(e.name) && Key(e.name) == key;
    var (stem, ext) := SplitExt(e.name);
    assert stem + ext == e.name;
    forall k | 0 <= k < |key| ensures key[k] != '/' {
      assert key[k] == e.name[k];
    }
  }

  /**
   * No two tables of a successful merge go to the same file: the keys are
   * distinct and joined to the same directory, given names from a listing.
   */
  lemma MergeOutputsDistinct(fs: FileSystem, dirPaths: seq<string>, outputDir: string, i: nat, j: nat)
    requires PlainNames(fs)
    requires Merge(fs, dirPaths, outputDir).Success?
    requires i < j < |Merge(fs, dirPaths, outputDir).value|
    ensures Merge(fs, dirPaths, outputDir).value[i].path != Merge(fs, dirPaths, outputDir).value[j].path
  {
    var m := MergeDirs(fs, Sort(dirPaths)).value;
    ApplyAllValid(Merged([], map[]), Steps(fs, Sort(dirPaths)));
    var ki, kj := m.keys[i], m.keys[j];
    MergedTables(fs, dirPaths, ki);
    MergedTables(fs, dirPaths, kj);
    ContributedKeyPlain(fs, dirPaths, ki);
    ContributedKeyPlain(fs, dirPaths, kj);
    var bi, bj := ki + ".csv", kj + ".csv";
    CsvNameRelative(ki);
    CsvNameRelative(kj);
    SameSuffixCancels(ki, kj, ".csv");
    if Join(outputDir, bi) == Join(outputDir, bj) {
      JoinInjective(outputDir, bi, bj);
    }
  }

  /** The file name of a key without a separator is relative, so joining keeps the directory. */
  lemma CsvNameRelative(key: string)
    requires '/' !in key
    ensures !(|key + ".csv"| > 0 && (key + ".csv")[0] == '/')
  {
    if |key| > 0 {
      assert (key + ".csv")[0] == key[0];
    } else {
      assert key + ".csv" == ".csv";
    }
  }

  /** Two names with the same suffix are equal only when what comes before the suffix is. */
  lemma SameSuffixCancels(a: string, b: string, suffix: string)
    ensures a + suffix == b + suffix ==> a == b
  {
    if a + suffix == b + suffix {
      assert a == (a + suffix)[..|a|];
      assert b == (b + suffix)[..|b|];
    }
  }

  /** The order the directories are passed in does not matter: they are sorted first. */
  lemma MergeIgnoresOrder(fs: FileSystem, a: seq<string>, b: seq<string>, outputDir: string)
    requires multiset(a) == multiset(b)
    ensures Merge(fs, a, outputDir) == Merge(fs, b, outputDir)
  {
    SortIgnoresOrder(a, b);
  }

  /** A name made of a stem without dots or separators and one extension is keyed by the stem. */
  lemma KeyOfPlainName(stem: string, ext: string)
    requires |stem| > 0 && forall i :: 0 <= i < |stem| ==> stem[i] != '.' && stem[i] != '/'
    requires |ext| > 0 && ext[0] == '.' && forall i :: 1 <= i < |ext| ==> ext[i] != '.' && ext[i] != '/'
    ensures Key(stem + ext) == stem
  {
    var p := stem + ext;
    assert forall i :: |p| - |ext| < i < |p| ==> p[i] == ext[i - |stem|];
    SplitExtOfSuffix(p, |ext|);
    var sep := RFind(p, '/');
    assert p[|stem| - 1] == stem[|stem| - 1];
    assert HasStem(p, sep, |stem|);
    assert p[..|stem|] == stem;
  }

  /** A plain stem followed by ".csv" in any letter case contributes under that stem. */
  lemma CsvName(stem: string, ext: string)
    requires |stem| > 0 && forall i :: 0 <= i < |stem| ==> stem[i] != '.' && stem[i] != '/'
    requires Lower(ext) == ".csv"
    ensures EndsWith(Lower(stem + ext), ".csv") && Key(stem + ext) == stem
  {
    forall i | 0 <= i < 4 ensures (ext[i] == '.' <==> i == 0) && ext[i] != '/' {
      assert LowerChar(ext[i]) == ".csv"[i];
    }
    var p := stem + ext;
    assert Lower(p)[|stem|..] == Lower(ext);
    KeyOfPlainName(stem, ext);
  }

  /**
   * A contributing file's name ends in a dot and "csv" in some letter case,
   * and its key is the name without those four characters, or the whole
   * name when nothing but dots comes before them in its last component.
   */
  lemma ContributingName(name: string)
    requires Contributes(name)
    ensures |name| >= 4 && name[|name| - 4] == '.' && Lower(name[|name| - 4..]) == ".csv"
    ensures Key(name) == if HasStem(name, RFind(name, '/'), |name| - 4) then name[..|name| - 4] else name
  {
    LowerSplit(name, |name| - 4);
    CsvSuffixShape(name);
    SplitExtOfSuffix(name, 4);
  }

  /** A name ending in ".csv" in any case has a dot four from the end and no dot or '/' after it. */
  lemma CsvSuffixShape(p: string)
    requires |p| >= 4 && Lower(p[|p| - 4..]) == ".csv"
    ensures p[|p| - 4] == '.'
    ensures forall i :: |p| - 4 < i < |p| ==> p[i] != '.' && p[i] != '/'
  {
    var n := |p| - 4;
    var tail := p[n..];
    forall i | 0 <= i < 4 ensures (tail[i] == '.' <==> i == 0) && tail[i] != '/' {
      assert LowerChar(tail[i]) == ".csv"[i];
    }
    assert p[n] == tail[0];
    forall i | n < i < |p| ensures p[i] != '.' && p[i] != '/' {
      assert p[i] == tail[i - n];
    }
  }

  /** A measurement table takes part under its base name. */
  lemma ImageCsvExample()
    ensures Contributes("Image.csv") && Key("Image.csv") == "Image"
  {
    assert "Image.csv" == "Image" + ".csv";
    CsvName("Image", ".csv");
  }

  /** The extension test ignores letter case; the key keeps the name's own case. */
  lemma UpperCaseCsvExample()
    ensures Contributes("Nuclei.CSV") && Key("Nuclei.CSV") == "Nuclei"
  {
    assert "Nuclei.CSV" == "Nuclei" + ".CSV";
    CsvName("Nuclei", ".CSV");
  }

  /** Only the exact name "Experiment.csv" is excluded: another letter case takes part. */
  lemma LowerCaseExperimentExample()
    ensures Contributes("experiment.csv") && Key("experiment.csv") == "experiment"
  {
    assert "experiment.csv" == "experiment" + ".csv";
    CsvName("experiment", ".csv");
  }

  /** The experiment summary and files of other types take no part. */
  lemma ExcludedExamples()
    ensures !Contributes("Experiment.csv")
    ensures !Contributes("log.txt") && !Contributes("Image.csv.bak")
  {
    assert Lower("log.txt")[4] == 't';
    assert Lower("Image.csv.bak")[10] == 'b';
  }

  /** A file named just ".csv" takes part, and as splitext sees no extension its key is the whole name. */
  lemma DotCsvExample()
    ensures Contributes(".csv") && Key(".csv") == ".csv"
  {
    assert Lower(".csv") == ".csv";
    SplitExtOfSuffix(".csv", 4);
  }

  // ---- an example run over two batch output directories ----

  /** Names sharing a prefix compare as what follows the prefix does. */
  lemma {:induction false} LexLessSharedPrefix(prefix: string, a: string, b: string)
    requires LexLess(a, b)
    ensures LexLess(prefix + a, prefix + b)
    decreases |prefix|
  {
    if prefix != [] {
      assert (prefix + a)[0] == prefix[0] == (prefix + b)[0];
      assert (prefix + a)[1..] == prefix[1..] + a;
      assert (prefix + b)[1..] == prefix[1..] + b;
      LexLessSharedPrefix(prefix[1..], a, b);
      assert LexLess((prefix + a)[1..], (prefix + b)[1..]);
    } else {
      assert prefix + a == a && prefix + b == b;
    }
  }

  const Batch1: seq<Entry> := [Entry("Image.csv", Some([["1"]])), Entry("Nuclei.CSV", Some([["n"]])), Entry("log.txt", None)]
  const Batch2: seq<Entry> := [Entry("Image.csv", Some([["2"]])), Entry("Experiment.csv", Some([["x"]]))]
  const ExampleFs: FileSystem := map["out/batch_002" := Batch2, "out/batch_001" := Batch1]

  /** `sorted` on two names. */
  lemma SortTwo(x: string, y: string)
    requires LexLess(y, x)
    ensures Sort([x, y]) == [y, x]
  {
    assert Sorted([y, x]);
    assert multiset([y, x]) == multiset([x, y]);
    SortedUnique([y, x], Sort([x, y]));
  }

  /** `sorted` puts batch 001 before batch 002. */
  lemma ExampleSort()
    ensures Sort(["out/batch_002", "out/batch_001"]) == ["out/batch_001", "out/batch_002"]
  {
    assert "out/batch_001" == "out/batch_00" + "1" && "out/batch_002" == "out/batch_00" + "2";
    LexLessSharedPrefix("out/batch_00", "1", "2");
    SortTwo("out/batch_002", "out/batch_001");
  }

  /** The steps of a listing are its entries' steps, one by one. */
  lemma DirStepsOfTwo(dir: string, a: Entry, b: Entry)
    ensures DirSteps(dir, [a, b]) == [Classify(dir, a), Classify(dir, b)]
  {
  }

  lemma DirStepsOfThree(dir: string, a: Entry, b: Entry, c: Entry)
    ensures DirSteps(dir, [a, b, c]) == [Classify(dir, a), Classify(dir, b), Classify(dir, c)]
  {
  }

  lemma ClassifyImage(dir: string, rows: seq<Row>)
    ensures Classify(dir, Entry("Image.csv", Some(rows))) == Put("Image", rows)
  {
    ImageCsvExample();
  }

  lemma ClassifyNuclei(dir: string, rows: seq<Row>)
    ensures Classify(dir, Entry("Nuclei.CSV", Some(rows))) == Put("Nuclei", rows)
  {
    UpperCaseCsvExample();
  }

  lemma ClassifySkipped(dir: string, e: Entry)
    requires !Contributes(e.name)
    ensures Classify(dir, e) == Skip
  {
  }

  lemma ExampleBatch1()
    ensures DirSteps("out/batch_001", Batch1) == [Put("Image", [["1"]]), Put("Nuclei", [["n"]]), Skip]
  {
    var dir := "out/batch_001";
    ClassifyImage(dir, [["1"]]);
    ClassifyNuclei(dir, [["n"]]);
    ExcludedExamples();
    ClassifySkipped(dir, Entry("log.txt", None));
    DirStepsOfThree(dir, Entry("Image.csv", Some([["1"]])), Entry("Nuclei.CSV", Some([["n"]])), Entry("log.txt", None));
  }

  lemma ExampleBatch2()
    ensures DirSteps("out/batch_002", Batch2) == [Put("Image", [["2"]]), Skip]
  {
    var dir := "out/batch_002";
    ClassifyImage(dir, [["2"]]);
    ExcludedExamples();
    ClassifySkipped(dir, Entry("Experiment.csv", Some([["x"]])));
    DirStepsOfTwo(dir, Entry("Image.csv", Some([["2"]])), Entry("Experiment.csv", Some([["x"]])));
  }

  lemma StepsOfTwoDirs(fs: FileSystem, a: string, b: string)
    requires a in fs && b in fs
    ensures Steps(fs, [a, b]) == DirSteps(a, fs[a]) + DirSteps(b, fs[b])
  {
    assert [a] + [b] == [a, b];
    StepsAppend(fs, [a], [b]);
    StepsSingle(fs, a);
    StepsSingle(fs, b);
  }

  /** The steps of the example: the files of batch 001, then those of batch 002. */
  lemma ExampleSteps()
    ensures Steps(ExampleFs, ["out/batch_001", "out/batch_002"])
      == [Put("Image", [["1"]]), Put("Nuclei", [["n"]]), Skip, Put("Image", [["2"]]), Skip]
  {
    var first, second := DirSteps("out/batch_001", Batch1), DirSteps("out/batch_002", Batch2);
    assert ExampleFs["out/batch_001"] == Batch1 && ExampleFs["out/batch_002"] == Batch2;
    StepsOfTwoDirs(ExampleFs, "out/batch_001", "out/batch_002");
    ExampleBatch1();
    ExampleBatch2();
    assert first + second == [Put("Image", [["1"]]), Put("Nuclei", [["n"]]), Skip, Put("Image", [["2"]]), Skip];
  }

  /** The fold of the example's steps. */
  lemma ExampleFold()
    ensures ApplyAll(Merged([], map[]), [Put("Image", [["1"]]), Put("Nuclei", [["n"]]), Skip, Put("Image", [["2"]]), Skip])
      == Success(Merged(["Image", "Nuclei"], map["Image" := [["1"], ["2"]], "Nuclei" := [["n"]]]))
  {
    var s0, s1, s2, s3, s4 := Put("Image", [["1"]]), Put("Nuclei", [["n"]]), Skip, Put("Image", [["2"]]), Skip;
    var e := Merged([], map[]);
    var m1 := Add(e, "Image", [["1"]]);
    var m2 := Add(m1, "Nuclei", [["n"]]);
    var m3 := Add(m2, "Image", [["2"]]);
    ApplyLast(e, [], s0);
    assert ApplyAll(e, [s0]) == Success(m1);
    ApplyLast(e, [s0], s1);
    assert [s0] + [s1] == [s0, s1];
    ApplyLast(e, [s0, s1], s2);
    assert [s0, s1] + [s2] == [s0, s1, s2];
    ApplyLast(e, [s0, s1, s2], s3);
    assert [s0, s1, s2] + [s3] == [s0, s1, s2, s3];
    ApplyLast(e, [s0, s1, s2, s3], s4);
    assert [s0, s1, s2, s3] + [s4] == [s0, s1, s2, s3, s4];
    assert m1 == Merged(["Image"], map["Image" := [["1"]]]);
    assert m2 == Merged(["Image", "Nuclei"], map["Image" := [["1"]], "Nuclei" := [["n"]]]);
    assert [["1"]] + [["2"]] == [["1"], ["2"]];
    assert m3 == Merged(["Image", "Nuclei"], map["Image" := [["1"], ["2"]], "Nuclei" := [["n"]]]);
  }

  /** The tables written for a dictionary of two keys, in insertion order. */
  lemma OutputsOfTwo(dir: string, k1: string, k2: string, r1: seq<Row>, r2: seq<Row>)
    requires k1 != k2
    ensures Outputs(dir, Merged([k1, k2], map[k1 := r1, k2 := r2]))
      == [Output(Join(dir, k1 + ".csv"), r1), Output(Join(dir, k2 + ".csv"), r2)]
  {
  }

  /** Where the example's two tables go. */
  lemma ExampleJoins()
    ensures Join("merged", "Image" + ".csv") == "merged/Image.csv"
    ensures Join("merged", "Nuclei" + ".csv") == "merged/Nuclei.csv"
  {
  }

  /** The two tables the example writes. */
  lemma ExampleOutputs()
    ensures Outputs("merged", Merged(["Image", "Nuclei"], map["Image" := [["1"], ["2"]], "Nuclei" := [["n"]]]))
      == [Output("merged/Image.csv", [["1"], ["2"]]), Output("merged/Nuclei.csv", [["n"]])]
  {
    OutputsOfTwo("merged", "Image", "Nuclei", [["1"], ["2"]], [["n"]]);
    ExampleJoins();
  }

  /**
   * Two batch directories passed in reverse order: they are visited sorted,
   * so batch 001's rows come first; the experiment summary and the log file
   * take no part, and the upper-case extension is written as ".csv".
   */
  lemma MergeExample()
    ensures Merge(ExampleFs, ["out/batch_002", "out/batch_001"], "merged")
      == Success([Output("merged/Image.csv", [["1"], ["2"]]), Output("merged/Nuclei.csv", [["n"]])])
  {
    var m := Merged(["Image", "Nuclei"], map["Image" := [["1"], ["2"]], "Nuclei" := [["n"]]]);
    ExampleSort();
    ExampleSteps();
    ExampleFold();
    assert MergeDirs(ExampleFs, Sort(["out/batch_002", "out/batch_001"])) == Success(m);
    ExampleOutputs();
  }

  // ---- row counts, repeated directories, files that take no part ----

  /** The directories `a` then `b` add `a`'s rows under a key, then `b`'s. */
  lemma {:induction false} RowsForAppend(fs: FileSystem, a: seq<string>, b: seq<string>, key: string)
    ensures RowsFor(fs, a + b, key) == RowsFor(fs, a, key) + RowsFor(fs, b, key)
    decreases |b|
  {
    if b == [] {
      assert a + b == a;
    } else {
      var init := b[..|b| - 1];
      var last := b[|b| - 1];
      assert (a + b)[..|a + b| - 1] == a + init && (a + b)[|a + b| - 1] == last;
      RowsForAppend(fs, a, init, key);
      var extra := if last in fs then DirRows(fs[last], key) else [];
      SeqAssoc(RowsFor(fs, a, key), RowsFor(fs, init, key), extra);
    }
  }

  /** The number of rows a file holds for `key`, zero when it takes no part. */
  function FileRowCount(e: Entry, key: string): nat
  {
    if Contributes(e.name) && Key(e.name) == key && e.rows.Some? then |e.rows.value| else 0
  }

  /** The sum of the row counts of a listing's files for `key`. */
  function DirRowCount(entries: seq<Entry>, key: string): nat
  {
    if entries == [] then 0 else FileRowCount(entries[0], key) + DirRowCount(entries[1..], key)
  }

  /** The sum, over the directories, of their files' row counts for `key`. */
  function RowCount(fs: FileSystem, dirs: seq<string>, key: string): nat
  {
    if dirs == [] then 0
    else (if dirs[0] in fs then DirRowCount(fs[dirs[0]], key) else 0) + RowCount(fs, dirs[1..], key)
  }

  lemma {:induction false} DirRowCountLast(entries: seq<Entry>, key: string)
    requires entries != []
    ensures DirRowCount(entries, key)
      == DirRowCount(entries[..|entries| - 1], key) + FileRowCount(entries[|entries| - 1], key)
    decreases |entries|
  {
    if |entries| > 1 {
      var tail := entries[1..];
      assert tail[..|tail| - 1] == entries[..|entries| - 1][1..];
      assert tail[|tail| - 1] == entries[|entries| - 1];
      DirRowCountLast(tail, key);
    }
  }

  /** A listing adds under `key` as many rows as its files hold for it together. */
  lemma {:induction false} DirRowsLength(entries: seq<Entry>, key: string)
    ensures |DirRows(entries, key)| == DirRowCount(entries, key)
    decreases |entries|
  {
    if entries != [] {
      DirRowsLength(entries[..|entries| - 1], key);
      DirRowCountLast(entries, key);
    }
  }

  lemma {:induction false} RowsForLength(fs: FileSystem, dirs: seq<string>, key: string)
    ensures |RowsFor(fs, dirs, key)| == RowCount(fs, dirs, key)
    decreases |dirs|
  {
    if dirs != [] {
      var rest := dirs[1..];
      assert dirs == [dirs[0]] + rest;
      RowsForAppend(fs, [dirs[0]], rest, key);
      assert [dirs[0]][..0] == [];
      if dirs[0] in fs {
        DirRowsLength(fs[dirs[0]], key);
      }
      RowsForLength(fs, rest, key);
    }
  }

  /**
   * The table a successful merge writes for `key` has as many rows as the
   * contributing files of the listed directories hold together.
   */
  lemma MergedRowCount(fs: FileSystem, dirPaths: seq<string>, key: string)
    requires MergeDirs(fs, Sort(dirPaths)).Success?
    ensures |Stored(MergeDirs(fs, Sort(dirPaths)).value, key)| == RowCount(fs, Sort(dirPaths), key)
  {
    MergedTables(fs, dirPaths, key);
    RowsForLength(fs, Sort(dirPaths), key);
  }

  /**
   * A directory listed twice is visited twice: its rows appear twice, one
   * copy after the other, since the sort keeps the repeat next to itself.
   */
  lemma RepeatedDirCountsTwice(fs: FileSystem, d: string, key: string)
    requires d in fs && MergeDirs(fs, [d, d]).Success?
    ensures Stored(MergeDirs(fs, [d, d]).value, key) == DirRows(fs[d], key) + DirRows(fs[d], key)
  {
    SortRepeat(d);
    MergedTables(fs, [d, d], key);
    RowsForAppend(fs, [d], [d], key);
    RowsForOne(fs, d, key);
  }

  lemma SortRepeat(d: string)
    ensures Sort([d, d]) == [d, d]
  {
    LexLeTotalOrder(d, d, d);
    assert Sorted([d, d]);
    SortedUnique(Sort([d, d]), [d, d]);
  }

  lemma RowsForOne(fs: FileSystem, d: string, key: string)
    requires d in fs
    ensures RowsFor(fs, [d], key) == DirRows(fs[d], key)
  {
    assert [d][..0] == [];
  }

  /** A listing none of whose files take part adds no key and no rows. */
  lemma {:induction false} NothingContributes(entries: seq<Entry>, key: string)
    requires forall e :: e in entries ==> !Contributes(e.name)
    ensures !DirContributes(entries, key) && DirRows(entries, key) == []
    decreases |entries|
  {
    if entries != [] {
      var init := entries[..|entries| - 1];
      assert forall e :: e in init ==> e in entries;
      NothingContributes(init, key);
    }
  }

  /**
   * A directory holding only the experiment summary, whatever its contents,
   * adds nothing to any table.
   */
  lemma ExperimentOnlyDir(rows: Option<seq<Row>>, key: string)
    ensures !DirContributes([Entry("Experiment.csv", rows)], key)
    ensures DirRows([Entry("Experiment.csv", rows)], key) == []
  {
    assert !Contributes("Experiment.csv");
    NothingContributes([Entry("Experiment.csv", rows)], key);
  }
}
