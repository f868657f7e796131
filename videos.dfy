/**
 * video-manipulation/format_videos.py: `trim_video` keeps a window of `duration` seconds
 * centred in the clip; `process_folder` picks the `.mp4` names of a folder listing and writes
 * the k-th one's trimmed copy to `<output_folder>/<output_name>_<k>.mp4`. The listing and each
 * clip's total duration are parameters; moviepy's decoding and encoding are not modelled.
 */
module VideoTrim {
  import opened Numeric
  import opened Strings

  /** The `(start_time, end_time)` window `trim_video` cuts out of a clip `total` seconds long. */
  function TrimWindow(total: real, duration: real): (w: (real, real))
    ensures w.1 - w.0 == duration
    ensures w.0 >= 0.0
    ensures duration <= total ==> w.1 <= total && w.0 == total - w.1
    ensures duration > total ==> w.0 == 0.0 && w.1 == duration
  {
    var start := RealMax(0.0, (total - duration) / 2.0);
    (start, start + duration)
  }

  /** A window no longer than the clip is the only one of its length with equal margins. */
  lemma TrimWindowCentred(total: real, duration: real, start: real)
    requires duration <= total
    requires start == total - (start + duration)
    ensures TrimWindow(total, duration) == (start, start + duration)
  {
  }

  /** The filter of `process_folder`: the lower-cased name ends with `.mp4`. */
  predicate IsMp4(name: string)
  {
    EndsWith(Lower(name), ".mp4")
  }

  /** The `.mp4` names of a listing, in listing order. */
  function Mp4Files(listing: seq<string>): (r: seq<string>)
    ensures |r| <= |listing|
    ensures forall k :: 0 <= k < |r| ==> IsMp4(r[k])
  {
    if listing == [] then []
    else Mp4Files(listing[..|listing| - 1]) + (if IsMp4(listing[|listing| - 1]) then [listing[|listing| - 1]] else [])
  }

  lemma Mp4FilesSnoc(listing: seq<string>, name: string)
    ensures Mp4Files(listing + [name]) == Mp4Files(listing) + (if IsMp4(name) then [name] else [])
  {
    assert (listing + [name])[..|listing|] == listing;
  }

  /** The filter keeps listing order: the files of a first part come before those of the rest. */
  lemma {:induction false} Mp4FilesAppend(a: seq<string>, b: seq<string>)
    ensures Mp4Files(a + b) == Mp4Files(a) + Mp4Files(b)
    decreases |b|
  {
    if b == [] {
      assert a + b == a;
    } else {
      var init := b[..|b| - 1];
      assert a + b == (a + init) + [b[|b| - 1]];
      assert b == init + [b[|b| - 1]];
      Mp4FilesSnoc(a + init, b[|b| - 1]);
      Mp4FilesSnoc(init, b[|b| - 1]);
      Mp4FilesAppend(a, init);
    }
  }

  /** Exactly the `.mp4` names of the listing are processed. */
  lemma {:induction false} Mp4FilesMembers(listing: seq<string>, name: string)
    ensures name in Mp4Files(listing) <==> name in listing && IsMp4(name)
    decreases |listing|
  {
    if listing != [] {
      var init := listing[..|listing| - 1];
      var last := listing[|listing| - 1];
      assert listing == init + [last];
      Mp4FilesSnoc(init, last);
      Mp4FilesMembers(init, name);
    }
  }

  /** Upper-case extensions pass the filter too. */
  lemma UpperCaseMp4Accepted()
    ensures IsMp4("CLIP.MP4")
  {
    assert Lower("CLIP.MP4") == "clip.mp4";
  }

  /** Where the k-th processed file goes: `os.path.join(output_folder, f"{output_name}_{k}.mp4")`. */
  function TrimTarget(outputFolder: string, outputName: string, k: nat): (r: string)
    ensures EndsWith(r, ".mp4")
  {
    var name := outputName + "_" + NatToString(k) + ".mp4";
    EndsWithAppended(outputName + "_" + NatToString(k), ".mp4");
    PathJoin(outputFolder, name)
  }

  /** A trimming job: the clip read, the file written and the window kept. */
  datatype TrimJob = TrimJob(input: string, output: string, start: real, end: real)

  /** The jobs `process_folder` runs for a listing, given each clip's total duration. */
  function ProcessFolder(folderPath: string, outputFolder: string, outputName: string, duration: real,
                         listing: seq<string>, totalOf: string -> real): (jobs: seq<TrimJob>)
    ensures var files := Mp4Files(listing);
      && |jobs| == |files|
      && forall k :: 0 <= k < |files| ==>
           var path := PathJoin(folderPath, files[k]);
           jobs[k] == TrimJob(path, TrimTarget(outputFolder, outputName, k),
                              TrimWindow(totalOf(path), duration).0, TrimWindow(totalOf(path), duration).1)
  {
    var files := Mp4Files(listing);
    seq(|files|, k requires 0 <= k < |files| =>
      var path := PathJoin(folderPath, files[k]);
      var w := TrimWindow(totalOf(path), duration);
      TrimJob(path, TrimTarget(outputFolder, outputName, k), w.0, w.1))
  }

  /** Every job keeps exactly `duration` seconds and starts inside its clip. */
  lemma JobsKeepDuration(folderPath: string, outputFolder: string, outputName: string, duration: real,
                         listing: seq<string>, totalOf: string -> real)
    ensures forall job :: job in ProcessFolder(folderPath, outputFolder, outputName, duration, listing, totalOf) ==>
      job.end - job.start == duration && job.start >= 0.0
  {
  }

  /** Different processed files are written to different targets, so no output overwrites another. */
  lemma TrimTargetsDistinct(outputFolder: string, outputName: string, i: nat, j: nat)
    requires TrimTarget(outputFolder, outputName, i) == TrimTarget(outputFolder, outputName, j)
    ensures i == j
  {
    var a := outputName + "_" + NatToString(i) + ".mp4";
    var b := outputName + "_" + NatToString(j) + ".mp4";
    assert a[0] == b[0] by {
      if outputName == [] {
        assert a[0] == '_' && b[0] == '_';
      } else {
        assert a[0] == outputName[0] && b[0] == outputName[0];
      }
    }
    assert StartsWith(a, "/") == StartsWith(b, "/") by {
      assert StartsWith(a, "/") <==> a[0] == '/';
      assert StartsWith(b, "/") <==> b[0] == '/';
    }
    PathJoinInjective(outputFolder, a, b);
    NumberedNamesDistinct(outputName + "_", i, ".mp4", j, ".mp4");
  }
}
