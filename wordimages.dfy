/**
 * `create_word_images` of image-manipulation/text_images.py: one PNG per whitespace-separated
 * word, numbered from 1, on a canvas 10 pixels larger than the measured text in each
 * direction with the text drawn at (5, 5), saved as `word_<nnn>_<clean>.png`. Whether the font
 * loads and how large PIL measures a word are parameters; drawing and saving are not modelled.
 */
module WordImages {
  import opened Seqs
  import opened Strings

  /** `re.sub('[^A-Za-z0-9]+', '', word)`: the word with everything but ASCII letters and digits removed. */
  function Clean(word: string): (r: string)
    ensures |r| <= |word|
    ensures forall k :: 0 <= k < |r| ==> IsAsciiAlnum(r[k])
  {
    if word == [] then []
    else (if IsAsciiAlnum(word[0]) then [word[0]] else []) + Clean(word[1..])
  }

  /** Cleaning keeps every letter and digit, in order: it distributes over concatenation. */
  lemma {:induction false} CleanAppend(a: string, b: string)
    ensures Clean(a + b) == Clean(a) + Clean(b)
    decreases |a|
  {
    if a != [] {
      assert (a + b)[0] == a[0];
      assert (a + b)[1..] == a[1..] + b;
      CleanAppend(a[1..], b);
    } else {
      assert a + b == b;
    }
  }

  /** A word of letters and digits only is left as it is. */
  lemma {:induction false} CleanKeepsAlnum(word: string)
    requires forall k :: 0 <= k < |word| ==> IsAsciiAlnum(word[k])
    ensures Clean(word) == word
    decreases |word|
  {
    if word != [] {
      CleanKeepsAlnum(word[1..]);
    }
  }

  /** Cleaning twice is cleaning once. */
  lemma CleanIdempotent(word: string)
    ensures Clean(Clean(word)) == Clean(word)
  {
    CleanKeepsAlnum(Clean(word));
  }

  /** A character that is not an ASCII letter or digit is dropped. */
  lemma CleanDropsOther(c: char)
    requires !IsAsciiAlnum(c)
    ensures Clean([c]) == []
  {
    assert [c][1..] == [];
  }

  /** An ASCII letter or digit is kept. */
  lemma CleanKeepsChar(c: char)
    requires IsAsciiAlnum(c)
    ensures Clean([c]) == [c]
  {
    assert [c][1..] == [];
  }

  /** Punctuation disappears without a trace: `IT'S` becomes `ITS`. */
  lemma CleanExample()
    ensures Clean("IT'S") == "ITS"
  {
    assert Clean("S") == "S";
    assert Clean("'S") == "S";
    assert Clean("T'S") == "TS";
  }

  /** What follows the number in an image's file name. */
  function NameTail(word: string): (r: string)
    ensures r != [] && r[0] == '_'
  {
    "_" + Clean(word) + ".png"
  }

  /** `f"word_{i:03d}_{clean}.png"`. */
  function WordImageName(i: nat, word: string): string
  {
    "word_" + ZeroPad3(i) + NameTail(word)
  }

  /** An image name starts with `word_` (so it is never an absolute path) and ends with `.png`. */
  lemma WordImageNameShape(i: nat, word: string)
    ensures StartsWith(WordImageName(i, word), "word_") && EndsWith(WordImageName(i, word), ".png")
    ensures !StartsWith(WordImageName(i, word), "/")
  {
    var tail := NameTail(word);
    var n := "word_" + ZeroPad3(i) + tail;
    assert tail[|tail| - 4..] == ".png";
    assert n[|n| - 4..] == tail[|tail| - 4..];
    assert n[..5] == "word_";
    assert n[..1] == n[..5][..1] == "w";
    assert n == WordImageName(i, word);
  }

  /** Two images with different numbers never share a file name, whatever their words. */
  lemma WordImageNamesDistinct(i: nat, w: string, j: nat, v: string)
    requires WordImageName(i, w) == WordImageName(j, v)
    ensures i == j
  {
    var a := ZeroPad3(i);
    var b := ZeroPad3(j);
    ZeroPad3Pads(i);
    ZeroPad3Pads(j);
    DropPrefix("word_", a, NameTail(w));
    DropPrefix("word_", b, NameTail(v));
    DigitRunsEqual(a, NameTail(w), b, NameTail(v));
  }

  /** One saved image: its path, its canvas size and where the text is drawn on it. */
  datatype WordImage = WordImage(path: string, width: int, height: int, textX: int, textY: int)

  /** The canvas for a word PIL measures as `w` by `h`: 10 larger, the text drawn at (5, 5). */
  function Canvas(outputDir: string, i: nat, word: string, measured: (int, int)): (img: WordImage)
    ensures img.width == measured.0 + 10 && img.height == measured.1 + 10
    ensures img.textX + measured.0 + 5 == img.width && img.textY + measured.1 + 5 == img.height
  {
    WordImage(PathJoin(outputDir, WordImageName(i, word)), measured.0 + 10, measured.1 + 10, 5, 5)
  }

  /**
   * The images `create_word_images` saves: none when the font fails to load, otherwise one per
   * word of `text.split()`, numbered from 1.
   */
  function CreateWordImages(text: string, outputDir: string, fontLoads: bool, measure: string -> (int, int)): (r: seq<WordImage>)
    ensures !fontLoads ==> r == []
    ensures fontLoads ==> |r| == |Words(text)|
  {
    if !fontLoads then []
    else
      var words := Words(text);
      seq(|words|, k requires 0 <= k < |words| => Canvas(outputDir, k + 1, words[k], measure(words[k])))
  }

  /** Image `k` belongs to word `k`: it is saved under that word's numbered name, on that word's canvas. */
  lemma WordImageAt(text: string, outputDir: string, measure: string -> (int, int), k: nat)
    requires k < |Words(text)|
    ensures var r := CreateWordImages(text, outputDir, true, measure); var w := Words(text)[k];
      && |r| == |Words(text)|
      && r[k].path == PathJoin(outputDir, WordImageName(k + 1, w))
      && r[k].width == measure(w).0 + 10 && r[k].height == measure(w).1 + 10
      && r[k].textX == 5 && r[k].textY == 5
  {
    var words := Words(text);
    var r := CreateWordImages(text, outputDir, true, measure);
    assert r[k] == Canvas(outputDir, k + 1, words[k], measure(words[k]));
  }

  /** Images with different numbers are saved at different paths of the output directory. */
  lemma WordImagePathsDiffer(outputDir: string, i: nat, w: string, j: nat, v: string)
    requires i != j
    ensures PathJoin(outputDir, WordImageName(i, w)) != PathJoin(outputDir, WordImageName(j, v))
  {
    WordImageNameShape(i, w);
    WordImageNameShape(j, v);
    if PathJoin(outputDir, WordImageName(i, w)) == PathJoin(outputDir, WordImageName(j, v)) {
      PathJoinInjective(outputDir, WordImageName(i, w), WordImageName(j, v));
      WordImageNamesDistinct(i, w, j, v);
    }
  }

  /** No image overwrites another: the saved paths are pairwise distinct. */
  lemma WordImagePathsDistinct(text: string, outputDir: string, measure: string -> (int, int), a: nat, b: nat)
    requires a < b < |CreateWordImages(text, outputDir, true, measure)|
    ensures CreateWordImages(text, outputDir, true, measure)[a].path != CreateWordImages(text, outputDir, true, measure)[b].path
  {
    var r := CreateWordImages(text, outputDir, true, measure);
    var words := Words(text);
    var pa := PathJoin(outputDir, WordImageName(a + 1, words[a]));
    var pb := PathJoin(outputDir, WordImageName(b + 1, words[b]));
    assert r[a].path == pa by {
      WordImageAt(text, outputDir, measure, a);
    }
    assert r[b].path == pb by {
      WordImageAt(text, outputDir, measure, b);
    }
    assert pa != pb by {
      WordImagePathsDiffer(outputDir, a + 1, words[a], b + 1, words[b]);
    }
  }

  /** With the font loaded, the images carry the words of the text in order, cleaned. */
  lemma WordImagesFollowText(ws: seq<string>, outputDir: string, measure: string -> (int, int), k: nat)
    requires forall i :: 0 <= i < |ws| ==> IsWord(ws[i])
    requires k < |ws|
    ensures |CreateWordImages(JoinSpaced(ws), outputDir, true, measure)| == |ws|
      && CreateWordImages(JoinSpaced(ws), outputDir, true, measure)[k].path == PathJoin(outputDir, WordImageName(k + 1, ws[k]))
  {
    WordsOfJoinSpaced(ws);
    WordImageAt(JoinSpaced(ws), outputDir, measure, k);
  }
}
