/**
 * `resize_images_in_folder` of image-manipulation/image-resize.py: every `.jpg` of a folder
 * listing (by lower-cased name) is scaled by `resize_factor`, each side truncated to a whole
 * pixel, and saved beside the original under its root plus `-resized.jpg`. The listing and
 * each image's size are parameters; PIL's resampling and saving are not modelled.
 */
module ImageResize {
  import opened Numeric
  import opened Strings

  /** The filter: the lower-cased name ends with `.jpg`. */
  predicate IsJpg(name: string)
  {
    EndsWith(Lower(name), ".jpg")
  }

  /** `.jpeg` files are not picked up. */
  lemma JpegSkipped(name: string)
    requires EndsWith(Lower(name), ".jpeg")
    ensures !IsJpg(name)
  {
    var l := Lower(name);
    assert l[|l| - 5..][1] == 'j';
    assert l[|l| - 5..][1] == l[|l| - 4];
  }

  /** Upper-case extensions are picked up. */
  lemma UpperCaseJpgAccepted()
    ensures IsJpg("A.JPG")
  {
    assert Lower("A.JPG") == "a.jpg";
  }

  /** `(int(img.width * resize_factor), int(img.height * resize_factor))`. */
  function NewSize(width: nat, height: nat, factor: real): (size: (int, int))
    ensures factor >= 0.0 ==> 0 <= size.0 && size.0 as real <= width as real * factor < size.0 as real + 1.0
    ensures factor >= 0.0 ==> 0 <= size.1 && size.1 as real <= height as real * factor < size.1 as real + 1.0
  {
    (Trunc(width as real * factor), Trunc(height as real * factor))
  }

  /** A factor of at most 1 never enlarges an image. */
  lemma ShrinkNeverGrows(width: nat, height: nat, factor: real)
    requires 0.0 <= factor <= 1.0
    ensures NewSize(width, height, factor).0 <= width && NewSize(width, height, factor).1 <= height
  {
    assert width as real * factor <= width as real;
    assert height as real * factor <= height as real;
  }

  /** Halving, as the script's own call does, gives each side rounded down. */
  lemma HalfSize(width: nat, height: nat)
    ensures NewSize(width, height, 0.5) == (width / 2, height / 2)
  {
    HalfSide(width);
    HalfSide(height);
  }

  /** Half a side, truncated, is the side halved in whole numbers. */
  lemma HalfSide(x: nat)
    ensures Trunc(x as real * 0.5) == x / 2
  {
    var q, r := x / 2, x % 2;
    assert x == 2 * q + r;
    assert x as real * 0.5 == q as real + r as real * 0.5;
  }

  /** `f"{os.path.splitext(filename)[0]}-resized.jpg"`. */
  function ResizedName(filename: string): (r: string)
    ensures EndsWith(r, "-resized.jpg")
  {
    EndsWithAppended(SplitExtRoot(filename), "-resized.jpg");
    SplitExtRoot(filename) + "-resized.jpg"
  }

  /** The resized copy is itself a `.jpg`: a listing taken again would pick it up. */
  lemma ResizedNameIsJpg(filename: string)
    ensures IsJpg(ResizedName(filename))
  {
    var root := SplitExtRoot(filename);
    var low := Lower(root) + "-resized";
    assert Lower(ResizedName(filename)) == low + ".jpg" by {
      LowerAppend(root, "-resized.jpg");
      assert Lower("-resized.jpg") == "-resized.jpg";
    }
    EndsWithAppended(low, ".jpg");
  }

  /** A resized copy never overwrites its original, whose name is shorter. */
  lemma ResizedNameDiffers(filename: string)
    ensures ResizedName(filename) != filename
  {
    var root := SplitExtRoot(filename);
    assert |root| <= |filename|;
  }

  /** The `.jpg` names of a listing, in listing order. */
  function JpgFiles(listing: seq<string>): (r: seq<string>)
    ensures |r| <= |listing|
    ensures forall k :: 0 <= k < |r| ==> IsJpg(r[k])
  {
    if listing == [] then []
    else JpgFiles(listing[..|listing| - 1]) + (if IsJpg(listing[|listing| - 1]) then [listing[|listing| - 1]] else [])
  }

  lemma JpgFilesSnoc(listing: seq<string>, name: string)
    ensures JpgFiles(listing + [name]) == JpgFiles(listing) + (if IsJpg(name) then [name] else [])
  {
    assert (listing + [name])[..|listing|] == listing;
  }

  /** Exactly the `.jpg` names of the listing are picked up. */
  lemma {:induction false} JpgFilesMembers(listing: seq<string>, name: string)
    ensures name in JpgFiles(listing) <==> name in listing && IsJpg(name)
    decreases |listing|
  {
    if listing != [] {
      var init := listing[..|listing| - 1];
      var last := listing[|listing| - 1];
      assert listing == init + [last];
      JpgFilesSnoc(init, last);
      JpgFilesMembers(init, name);
    }
  }

  /** The filter keeps listing order: the files of a first part come before those of the rest. */
  lemma {:induction false} JpgFilesAppend(a: seq<string>, b: seq<string>)
    ensures JpgFiles(a + b) == JpgFiles(a) + JpgFiles(b)
    decreases |b|
  {
    if b == [] {
      assert a + b == a;
    } else {
      var init := b[..|b| - 1];
      assert a + b == (a + init) + [b[|b| - 1]];
      assert b == init + [b[|b| - 1]];
      JpgFilesSnoc(a + init, b[|b| - 1]);
      JpgFilesSnoc(init, b[|b| - 1]);
      JpgFilesAppend(a, init);
    }
  }

  /** One resize: the file read, the file written and the new size. */
  datatype ResizeJob = ResizeJob(input: string, output: string, size: (int, int))

  /** The resize of one listed name, for an image of `sizeOf` its path. */
  function ResizeOne(folderPath: string, name: string, factor: real, sizeOf: string -> (nat, nat)): ResizeJob
  {
    var path := PathJoin(folderPath, name);
    ResizeJob(path, PathJoin(folderPath, ResizedName(name)), NewSize(sizeOf(path).0, sizeOf(path).1, factor))
  }

  /**
   * The resizes run for one listing, taken once before anything is written: job `k` reads the
   * `k`-th `.jpg`, writes its `-resized.jpg` copy beside it and scales it by `factor`.
   */
  function ResizeImagesInFolder(folderPath: string, listing: seq<string>, factor: real, sizeOf: string -> (nat, nat)): (jobs: seq<ResizeJob>)
    ensures var files := JpgFiles(listing);
      && |jobs| == |files|
      && forall k :: 0 <= k < |files| ==>
           var path := PathJoin(folderPath, files[k]);
           jobs[k] == ResizeJob(path, PathJoin(folderPath, ResizedName(files[k])),
                                NewSize(sizeOf(path).0, sizeOf(path).1, factor))
  {
    var files := JpgFiles(listing);
    seq(|files|, k requires 0 <= k < |files| => ResizeOne(folderPath, files[k], factor, sizeOf))
  }

  /** Every `.jpg` of the listing is resized, to its truncated scaled size. */
  lemma EveryJpgResized(folderPath: string, listing: seq<string>, factor: real, sizeOf: string -> (nat, nat), name: string)
    requires name in listing && IsJpg(name)
    ensures exists job :: (job in ResizeImagesInFolder(folderPath, listing, factor, sizeOf)
      && job.input == PathJoin(folderPath, name) && job.output == PathJoin(folderPath, ResizedName(name))
      && job.size == NewSize(sizeOf(job.input).0, sizeOf(job.input).1, factor))
  {
    var files := JpgFiles(listing);
    JpgFilesMembers(listing, name);
    var k :| 0 <= k < |files| && files[k] == name;
    var jobs := ResizeImagesInFolder(folderPath, listing, factor, sizeOf);
    assert jobs[k] in jobs;
  }

  /** Only listed `.jpg` names are resized. */
  lemma OnlyJpgResized(folderPath: string, listing: seq<string>, factor: real, sizeOf: string -> (nat, nat), k: nat)
    requires k < |ResizeImagesInFolder(folderPath, listing, factor, sizeOf)|
    ensures exists name :: (name in listing && IsJpg(name)
      && ResizeImagesInFolder(folderPath, listing, factor, sizeOf)[k] == ResizeOne(folderPath, name, factor, sizeOf))
  {
    var files := JpgFiles(listing);
    JpgFilesMembers(listing, files[k]);
  }

  /** The jobs of a listing split in two are those of the first part, then those of the rest. */
  lemma ResizeJobsAppend(folderPath: string, a: seq<string>, b: seq<string>, factor: real, sizeOf: string -> (nat, nat))
    ensures ResizeImagesInFolder(folderPath, a + b, factor, sizeOf)
      == ResizeImagesInFolder(folderPath, a, factor, sizeOf) + ResizeImagesInFolder(folderPath, b, factor, sizeOf)
  {
    JpgFilesAppend(a, b);
  }

  /** `root.JPG` and `root.jpg` both write `root-resized.jpg`. */
  lemma CaseVariantsShareOutput()
    ensures ResizedName("a.jpg") == ResizedName("a.JPG") == "a-resized.jpg"
  {
    var lower, upper := "a.jpg", "a.JPG";
    assert lower[0] == 'a' && lower[1] == '.' && lower[2] == 'j' && lower[3] == 'p' && lower[4] == 'g';
    assert upper[0] == 'a' && upper[1] == '.' && upper[2] == 'J' && upper[3] == 'P' && upper[4] == 'G';
    RootBeforeOnlyDot(lower);
    RootBeforeOnlyDot(upper);
    assert lower[..1] == upper[..1] == "a";
  }

  /** A name whose only dot is its second character has the first character as its root. */
  lemma RootBeforeOnlyDot(p: string)
    requires |p| >= 2 && p[0] != '.' && p[0] != '/' && p[1] == '.'
    requires forall k :: 1 < k < |p| ==> p[k] != '.' && p[k] != '/'
    ensures SplitExtRoot(p) == p[..1]
  {
    assert RFind(p, '/') == -1;
    assert RFind(p, '.') == 1;
  }

  /**
   * Saves follow the listing, so when two listed names share the resized name the later one's
   * copy is written last: for `a.jpg` then `a.JPG`, `a-resized.jpg` ends up holding `a.JPG`.
   */
  lemma LaterCopyOverwrites(folderPath: string, factor: real, sizeOf: string -> (nat, nat))
    ensures var jobs := ResizeImagesInFolder(folderPath, ["a.jpg", "a.JPG"], factor, sizeOf);
      && |jobs| == 2 && jobs[0].output == jobs[1].output
      && jobs[0].input == PathJoin(folderPath, "a.jpg") && jobs[1].input == PathJoin(folderPath, "a.JPG")
  {
    var listing := ["a.jpg", "a.JPG"];
    assert JpgFiles(listing) == listing by {
      assert IsJpg("a.JPG") by {
        assert Lower("a.JPG") == "a.jpg";
      }
      assert IsJpg("a.jpg") by {
        assert Lower("a.jpg") == "a.jpg";
      }
      assert listing == ["a.jpg"] + ["a.JPG"];
      JpgFilesSnoc([], "a.jpg");
      JpgFilesSnoc(["a.jpg"], "a.JPG");
    }
    assert ResizedName("a.jpg") == ResizedName("a.JPG") by {
      CaseVariantsShareOutput();
    }
  }

  /** The extension cut off is only the last one, whatever its case. */
  lemma ResizedNameKeepsInnerDots()
    ensures ResizedName("a.b.JPG") == "a.b-resized.jpg"
  {
    assert SplitExtRoot("a.b.JPG") == "a.b" by {
      assert RFind("a.b.JPG", '/') == -1;
      assert "a.b.JPG"[0] == 'a' && "a.b.JPG"[1] == '.' && "a.b.JPG"[2] == 'b' && "a.b.JPG"[3] == '.' && "a.b.JPG"[4] == 'J' && "a.b.JPG"[5] == 'P' && "a.b.JPG"[6] == 'G';
      assert RFind("a.b.JPG", '.') == 3;
      assert "a.b.JPG"[0] != '.';
    }
  }

  /** A name whose only dot leads it has no extension to cut. */
  lemma ResizedNameOfDotFile()
    ensures ResizedName(".jpg") == ".jpg-resized.jpg"
  {
    assert ".jpg"[0] == '.' && ".jpg"[1] == 'j' && ".jpg"[2] == 'p' && ".jpg"[3] == 'g';
    assert RFind(".jpg", '.') == 0;
    assert SplitExtRoot(".jpg") == ".jpg";
  }
}
