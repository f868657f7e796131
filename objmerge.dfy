/**
 * `merge_obj_files` of model-manipulation/mergeModels.py: the lines of the numbered OBJ files
 * are sorted into vertex, normal and face buckets by their prefix, stripped, and written out as
 * all vertices, then all normals, then all faces, joined by newlines. Face indices are not
 * renumbered. Reading a file is a parameter `read` from a path to the file's `readlines()`.
 */
module ObjMerge {
  import opened Strings
  import opened Seqs

  /** The bucket a line goes to; `Other` lines are dropped. */
  datatype Kind = Vertex | Normal | Face | Other

  /** The `if`/`elif` chain on `v `, `vn ` and `f `. */
  function Classify(line: string): (k: Kind)
    ensures k == Vertex <==> StartsWith(line, "v ")
    ensures k == Normal <==> StartsWith(line, "vn ")
    ensures k == Face <==> StartsWith(line, "f ")
  {
    if StartsWith(line, "v ") then
      assert !StartsWith(line, "vn ") by {
        assert line[..2][1] == line[1] && line[1] == ' ';
        if |line| >= 3 {
          assert line[..3][1] == line[1];
        }
      }
      Vertex
    else if StartsWith(line, "vn ") then Normal
    else if StartsWith(line, "f ") then Face
    else Other
  }

  /** The stripped lines of kind `k`, in the order they come. */
  function Bucket(lines: seq<string>, k: Kind): (r: seq<string>)
    ensures |r| <= |lines|
  {
    if lines == [] then []
    else
      var last := lines[|lines| - 1];
      Bucket(lines[..|lines| - 1], k) + (if Classify(last) == k then [Strip(last)] else [])
  }

  /** The lines of all files, file after file. */
  function AllLines(files: seq<seq<string>>): (r: seq<string>)
  {
    if files == [] then [] else AllLines(files[..|files| - 1]) + files[|files| - 1]
  }

  /** The merged list: all vertex lines, then all normal lines, then all face lines. */
  function Merged(lines: seq<string>): seq<string>
  {
    Bucket(lines, Vertex) + Bucket(lines, Normal) + Bucket(lines, Face)
  }

  /** The path of input file `i`. */
  function InputPath(root: string, prefix: string, i: nat): string
  {
    root + prefix + "-" + NatToString(i) + ".obj"
  }

  /** The `readlines()` of the input files, in the order `0` to `numFiles - 1`. */
  function Inputs(root: string, prefix: string, numFiles: nat, read: string -> seq<string>): seq<seq<string>>
  {
    seq(numFiles, i requires 0 <= i < numFiles => read(InputPath(root, prefix, i)))
  }

  /** There are `numFiles` inputs, and input `i` is the content of the file at `InputPath(root, prefix, i)`. */
  lemma InputsAt(root: string, prefix: string, numFiles: nat, read: string -> seq<string>, i: nat)
    ensures |Inputs(root, prefix, numFiles, read)| == numFiles
    ensures i < numFiles ==> Inputs(root, prefix, numFiles, read)[i] == read(InputPath(root, prefix, i))
  {
  }

  function OutputName(prefix: string): (r: string)
    ensures StartsWith(r, prefix) && EndsWith(r, "-merged.obj")
  {
    EndsWithAppended(prefix, "-merged.obj");
    prefix + "-merged.obj"
  }

  lemma BucketSnoc(lines: seq<string>, line: string, k: Kind)
    ensures Bucket(lines + [line], k) == Bucket(lines, k) + (if Classify(line) == k then [Strip(line)] else [])
  {
    assert (lines + [line])[..|lines|] == lines;
  }

  lemma AllLinesStep(files: seq<seq<string>>, i: nat)
    requires i < |files|
    ensures AllLines(files[..i + 1]) == AllLines(files[..i]) + files[i]
  {
    assert files[..i + 1][..i] == files[..i];
  }

  /** The three lists are the vertex, normal and face buckets of `lines`. */
  predicate Buckets(lines: seq<string>, vertices: seq<string>, normals: seq<string>, faces: seq<string>)
  {
    vertices == Bucket(lines, Vertex) && normals == Bucket(lines, Normal) && faces == Bucket(lines, Face)
  }

  /** One more line goes to the bucket of its kind, if any. */
  lemma BucketsSnoc(lines: seq<string>, line: string, vertices: seq<string>, normals: seq<string>, faces: seq<string>)
    requires Buckets(lines, vertices, normals, faces)
    ensures var s := [Strip(line)];
      Buckets(lines + [line],
              if Classify(line) == Vertex then vertices + s else vertices,
              if Classify(line) == Normal then normals + s else normals,
              if Classify(line) == Face then faces + s else faces)
  {
    BucketSnoc(lines, line, Vertex);
    BucketSnoc(lines, line, Normal);
    BucketSnoc(lines, line, Face);
  }

  /**
   * `merge_obj_files`: the loops over the files and their lines that append to the three
   * buckets, then the joined output and its file name.
   */
  method MergeObjFiles(root: string, prefix: string, numFiles: nat, read: string -> seq<string>)
    returns (outputName: string, contents: string)
    ensures outputName == OutputName(prefix)
    ensures contents == JoinWith(Merged(AllLines(Inputs(root, prefix, numFiles, read))), '\n')
  {
    ghost var files := Inputs(root, prefix, numFiles, read);
    InputsAt(root, prefix, numFiles, read, 0);
    var vertices: seq<string> := [];
    var normals: seq<string> := [];
    var faces: seq<string> := [];
    var i := 0;
    while i < numFiles
      invariant i <= numFiles
      invariant Buckets(AllLines(files[..i]), vertices, normals, faces)
    {
      var lines := read(InputPath(root, prefix, i));
      ghost var before := AllLines(files[..i]);
      InputsAt(root, prefix, numFiles, read, i);
      AllLinesStep(files, i);
      var j := 0;
      assert before + lines[..0] == before;
      while j < |lines|
        invariant j <= |lines|
        invariant Buckets(before + lines[..j], vertices, normals, faces)
      {
        var line := lines[j];
        ghost var kind := Classify(line);
        BucketsSnoc(before + lines[..j], line, vertices, normals, faces);
        PrefixStep(before, lines, j);
        if StartsWith(line, "v ") {
          assert kind == Vertex;
          vertices := vertices + [Strip(line)];
        } else if StartsWith(line, "vn ") {
          assert kind == Normal;
          normals := normals + [Strip(line)];
        } else if StartsWith(line, "f ") {
          assert kind == Face;
          faces := faces + [Strip(line)];
        } else {
          assert kind == Other;
        }
        j := j + 1;
      }
      TakeAll(lines);
      i := i + 1;
    }
    TakeAll(files);
    var mergedData := vertices + normals + faces;
    outputName := prefix + "-merged.obj";
    contents := JoinWith(mergedData, '\n');
  }

  /** Buckets of a concatenation: the first part's lines come first, each bucket keeps file order. */
  lemma {:induction false} BucketAppend(a: seq<string>, b: seq<string>, k: Kind)
    ensures Bucket(a + b, k) == Bucket(a, k) + Bucket(b, k)
    decreases |b|
  {
    if b == [] {
      assert a + b == a;
    } else {
      var init := b[..|b| - 1];
      assert a + b == (a + init) + [b[|b| - 1]];
      assert b == init + [b[|b| - 1]];
      BucketSnoc(a + init, b[|b| - 1], k);
      BucketSnoc(init, b[|b| - 1], k);
      BucketAppend(a, init, k);
    }
  }

  /** Adding a file adds its lines after those of the files before it. */
  lemma AllLinesSnoc(files: seq<seq<string>>, f: seq<string>)
    ensures AllLines(files + [f]) == AllLines(files) + f
  {
    assert (files + [f])[..|files|] == files;
  }

  /** Line `i` of `lines` is one of kind `k` that strips to `l`. */
  predicate Source(lines: seq<string>, k: Kind, l: string, i: int)
  {
    0 <= i < |lines| && Classify(lines[i]) == k && Strip(lines[i]) == l
  }

  /** A bucket holds exactly the stripped lines of its kind. */
  lemma BucketMembers(lines: seq<string>, k: Kind, l: string)
    ensures l in Bucket(lines, k) <==> exists i :: Source(lines, k, l, i)
  {
    if l in Bucket(lines, k) {
      BucketFrom(lines, k, l);
    }
    if i :| Source(lines, k, l, i) {
      BucketHas(lines, k, i);
    }
  }

  /** Every line of the kind contributes its stripped text to the bucket. */
  lemma {:induction false} BucketHas(lines: seq<string>, k: Kind, i: nat)
    requires i < |lines| && Classify(lines[i]) == k
    ensures Strip(lines[i]) in Bucket(lines, k)
    decreases |lines|
  {
    var n := |lines| - 1;
    var init := lines[..n];
    var last := lines[n];
    var tail := if Classify(last) == k then [Strip(last)] else [];
    assert Bucket(lines, k) == Bucket(init, k) + tail by {
      assert lines == init + [last];
      BucketSnoc(init, last, k);
    }
    if i < n {
      assert init[i] == lines[i];
      BucketHas(init, k, i);
    } else {
      assert Strip(lines[i]) in tail;
    }
  }

  /** Everything in the bucket comes from some line of the kind. */
  lemma {:induction false} BucketFrom(lines: seq<string>, k: Kind, l: string)
    requires l in Bucket(lines, k)
    ensures exists i :: Source(lines, k, l, i)
    decreases |lines|
  {
    var n := |lines| - 1;
    var init := lines[..n];
    var last := lines[n];
    var tail := if Classify(last) == k then [Strip(last)] else [];
    assert Bucket(lines, k) == Bucket(init, k) + tail by {
      assert lines == init + [last];
      BucketSnoc(init, last, k);
    }
    if l in Bucket(init, k) {
      BucketFrom(init, k, l);
      var i :| Source(init, k, l, i);
      assert init[i] == lines[i];
      assert Source(lines, k, l, i);
    } else {
      assert l in tail;
      assert Source(lines, k, l, n);
    }
  }

  /** Every line goes to exactly one of the three buckets or is dropped: the counts add up. */
  lemma {:induction false} EachLineOnce(lines: seq<string>)
    ensures |Bucket(lines, Vertex)| + |Bucket(lines, Normal)| + |Bucket(lines, Face)| + |Bucket(lines, Other)| == |lines|
    decreases |lines|
  {
    if lines != [] {
      EachLineOnce(lines[..|lines| - 1]);
    }
  }

  /** Only `v `, `vn ` and `f ` lines are kept: a file of other lines adds nothing to the output. */
  lemma {:induction false} OtherLinesDropped(lines: seq<string>)
    requires forall i :: 0 <= i < |lines| ==> Classify(lines[i]) == Other
    ensures Merged(lines) == []
    decreases |lines|
  {
    if lines != [] {
      OtherLinesDropped(lines[..|lines| - 1]);
    }
  }

  /**
   * A kept line is copied as it is apart from its trailing whitespace: nothing in it, face
   * indices included, is rewritten.
   */
  lemma KeptLineVerbatim(line: string)
    requires Classify(line) != Other
    ensures Strip(line) != [] && line == Strip(line) + line[|Strip(line)|..]
    ensures AllSpace(line[|Strip(line)|..])
  {
    assert !IsSpace(line[0]);
    assert SpanSpaces(line) == 0;
    StripShape(line);
    StripIsMiddle(line);
    TrailingStartSpans(line);
    assert line[..0] == [];
  }

  /** What `readlines()` gives: a newline, if any, only as the last character. */
  predicate IsReadLine(line: string)
  {
    forall k :: 0 <= k < |line| - 1 ==> line[k] != '\n'
  }

  /** A slice of a read line that stops short of a final newline holds no newline. */
  lemma NoNewlineInSlice(line: string, lo: nat, hi: nat)
    requires IsReadLine(line) && lo <= hi <= |line|
    requires hi == |line| && hi > 0 ==> line[hi - 1] != '\n'
    ensures '\n' !in line[lo..hi]
  {
    forall k | lo <= k < hi
      ensures line[k] != '\n'
    {
    }
    assert forall k :: 0 <= k < hi - lo ==> line[lo..hi][k] == line[lo + k];
  }

  /** Stripping a read line removes its newline. */
  lemma StrippedHasNoNewline(line: string)
    requires IsReadLine(line)
    ensures '\n' !in Strip(line)
  {
    var lo := SpanSpaces(line);
    if lo < |line| {
      var hi := TrailingStart(line);
      LeadBeforeTrail(line);
      StripIsMiddle(line);
      assert Strip(line) == line[lo..hi];
      assert IsSpace('\n');
      NoNewlineInSlice(line, lo, hi);
    }
  }

  /** No kept line holds a newline when the files were read line by line. */
  lemma {:induction false} BucketHasNoNewline(lines: seq<string>, k: Kind)
    requires forall i :: 0 <= i < |lines| ==> IsReadLine(lines[i])
    ensures forall i :: 0 <= i < |Bucket(lines, k)| ==> '\n' !in Bucket(lines, k)[i]
    decreases |lines|
  {
    if lines != [] {
      BucketHasNoNewline(lines[..|lines| - 1], k);
      StrippedHasNoNewline(lines[|lines| - 1]);
    }
  }

  /** Splitting the text written to the file on newlines gives back the merged lines, when there are any. */
  lemma ContentsRoundTrip(lines: seq<string>)
    requires forall i :: 0 <= i < |lines| ==> IsReadLine(lines[i])
    requires Merged(lines) != []
    ensures SplitOn(JoinWith(Merged(lines), '\n'), '\n') == Merged(lines)
  {
    BucketHasNoNewline(lines, Vertex);
    BucketHasNoNewline(lines, Normal);
    BucketHasNoNewline(lines, Face);
    var m := Merged(lines);
    var v := Bucket(lines, Vertex);
    var n := Bucket(lines, Normal);
    forall i | 0 <= i < |m|
      ensures '\n' !in m[i]
    {
      if i < |v| {
        assert m[i] == v[i];
      } else if i < |v| + |n| {
        assert m[i] == n[i - |v|];
      } else {
        assert m[i] == Bucket(lines, Face)[i - |v| - |n|];
      }
    }
    SplitOnJoinWith(m, '\n');
  }

  /** Different file numbers name different input files, so no file is read twice. */
  lemma InputPathsDistinct(root: string, prefix: string, i: nat, j: nat)
    requires InputPath(root, prefix, i) == InputPath(root, prefix, j)
    ensures i == j
  {
    NumberedNamesDistinct(root + prefix + "-", i, ".obj", j, ".obj");
  }
}
