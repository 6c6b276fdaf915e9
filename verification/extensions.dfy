/** File extensions of the modified files of each commit: the extension is split
    off each path, cleaned of whitespace and punctuation, lower-cased, and counted
    unless nothing but a dot is left. */
module Extensions {
  import opened Text

  // ---------------------------------------------------------------------------
  // Cleaning

  /** The characters `[\.\w]` keeps. */
  predicate IsWordOrDot(c: char) {
    IsWordChar(c) || c == '.'
  }

  /** Removes whitespace, then every character that is neither a word character
      nor a dot, then lower-cases what is left. */
  function CleanExtension(extension: string): (r: string)
    ensures |r| <= |extension|
    ensures forall k :: 0 <= k < |r| ==> !IsSpace(r[k])
    ensures forall k :: 0 <= k < |r| ==> IsWordOrDot(r[k])
    ensures forall k :: 0 <= k < |r| ==> !IsUpper(r[k])
  {
    Lower(Filter(Filter(extension, IsNotSpace), IsWordOrDot))
  }

  /** Removing whitespace first changes nothing: no word character or dot is
      whitespace. The result is the lower-cased word characters and dots of the
      input, in their original order. */
  lemma CleanExtensionKeepsWordCharsAndDots(extension: string)
    ensures CleanExtension(extension) == Lower(Filter(extension, IsWordOrDot))
  {
    FilterAbsorbs(extension, IsWordOrDot, IsNotSpace);
  }

  /** A string of lower-case word characters and dots is already clean. */
  lemma CleanExtensionFixesClean(e: string)
    requires forall k :: 0 <= k < |e| ==> IsWordOrDot(e[k]) && !IsUpper(e[k])
    ensures CleanExtension(e) == e
  {
    FilterAllKept(e, IsNotSpace);
    FilterAllKept(e, IsWordOrDot);
    assert Lower(e) == e;
  }

  /** Cleaning twice is cleaning once. */
  lemma CleanExtensionIdempotent(extension: string)
    ensures CleanExtension(CleanExtension(extension)) == CleanExtension(extension)
  {
    CleanExtensionFixesClean(CleanExtension(extension));
  }

  // ---------------------------------------------------------------------------
  // Splitting the extension off a path

  /** The position of the last `c` in `s`, or -1. */
  function LastIndexOf(s: string, c: char): (i: int)
    ensures -1 <= i < |s|
    ensures i >= 0 ==> s[i] == c
    ensures forall k :: i < k < |s| ==> s[k] != c
    decreases |s|
  {
    if |s| == 0 then -1
    else if s[|s| - 1] == c then |s| - 1
    else LastIndexOf(s[..|s| - 1], c)
  }

  /** `os.path.splitext(path)[1]` on POSIX: from the last dot of the last path
      component to the end, unless that dot is preceded in the component by dots
      only (a hidden file has no extension). */
  function Extension(path: string): (ext: string)
    ensures |ext| <= |path|
    ensures ext == "" || (ext[0] == '.' && ext == path[|path| - |ext|..])
    ensures forall k :: 0 <= k < |ext| ==> ext[k] != '/'
    ensures forall k :: 1 <= k < |ext| ==> ext[k] != '.'
  {
    var sepIndex := LastIndexOf(path, '/');
    var dotIndex := LastIndexOf(path, '.');
    if dotIndex > sepIndex && exists k :: sepIndex + 1 <= k < dotIndex && path[k] != '.' then
      path[dotIndex..]
    else
      ""
  }

  /** A name with a non-dot character before its last dot has the text from that
      dot on as its extension. */
  lemma ExtensionOfName(directory: string, stem: string, ext: string)
    requires |stem| > 0 && stem[0] != '.' && '/' !in stem
    requires '/' !in ext && '.' !in ext
    ensures Extension(directory + stem + "." + ext) == "." + ext
  {
    var path := directory + stem + "." + ext;
    var d := |directory| + |stem|;
    assert path[d] == '.';
    assert forall k :: d < k < |path| ==> path[k] == ext[k - d - 1];
    assert LastIndexOf(path, '.') == d;
    assert forall k :: |directory| <= k <= d ==> path[k] != '/';
    assert path[|directory|] == stem[0];
    assert path[d..] == "." + ext;
  }

  /** A file name made of dots followed by a name without dots, such as ".bashrc",
      has no extension. */
  lemma HiddenFileHasNoExtension(dots: nat, name: string)
    requires '.' !in name && '/' !in name
    ensures Extension(seq(dots, _ => '.') + name) == ""
  {
  }

  // ---------------------------------------------------------------------------
  // Counting

  /** An extension counts unless it cleaned to nothing or to a lone dot. */
  predicate Counted(extension: string) {
    extension != "" && extension != "."
  }

  /** The cleaned extension of every whitespace-separated path of one cell. */
  function CellExtensions(cell: string): (r: seq<string>)
    ensures |r| == |Words(cell)|
    ensures forall k :: 0 <= k < |r| ==> r[k] == CleanExtension(Extension(Words(cell)[k]))
  {
    var files := Words(cell);
    seq(|files|, k requires 0 <= k < |files| => CleanExtension(Extension(files[k])))
  }

  /** Paths separated by whitespace are handled one by one: the extensions of two
      parts of a cell joined by whitespace are those of each part, in order. */
  lemma CellExtensionsSeparated(a: string, c: char, b: string)
    requires IsSpace(c)
    ensures CellExtensions(a + [c] + b) == CellExtensions(a) + CellExtensions(b)
  {
    WordsSeparated(a, c, b);
  }

  /** A cell of paths joined by spaces yields one extension per path, in order. */
  lemma CellExtensionsOfPaths(paths: seq<string>)
    requires |paths| >= 1
    requires forall i :: 0 <= i < |paths| ==> |paths[i]| > 0
    requires forall i, k :: 0 <= i < |paths| && 0 <= k < |paths[i]| ==> !IsSpace(paths[i][k])
    ensures |CellExtensions(Join(paths, ' '))| == |paths|
    ensures forall i :: 0 <= i < |paths| ==>
      CellExtensions(Join(paths, ' '))[i] == CleanExtension(Extension(paths[i]))
  {
    WordsOfJoin(paths);
  }

  /** The cleaned extensions of all cells, cell after cell. */
  function AllExtensions(cells: seq<string>): seq<string> {
    if |cells| == 0 then [] else AllExtensions(cells[..|cells| - 1]) + CellExtensions(cells[|cells| - 1])
  }

  /** How often `x` occurs in `xs`. */
  function Occurrences(xs: seq<string>, x: string): nat {
    if |xs| == 0 then 0
    else Occurrences(xs[..|xs| - 1], x) + (if xs[|xs| - 1] == x then 1 else 0)
  }

  /** The counter holds every counted extension of `seen` with its number of
      occurrences, and nothing else. */
  ghost predicate Tallies(counter: map<string, nat>, seen: seq<string>) {
    forall e ::
      && (e in counter <==> Counted(e) && Occurrences(seen, e) > 0)
      && (e in counter ==> counter[e] == Occurrences(seen, e))
  }

  /** `Counter.update` with one more extension, skipping the uncounted ones. */
  lemma TalliesStep(counter: map<string, nat>, seen: seq<string>, x: string)
    requires Tallies(counter, seen)
    ensures Tallies(if Counted(x) then counter[x := (if x in counter then counter[x] else 0) + 1] else counter, seen + [x])
  {
    assert (seen + [x])[..|seen|] == seen;
  }

  lemma AllExtensionsStep(cells: seq<string>, i: nat)
    requires i < |cells|
    ensures AllExtensions(cells[..i + 1]) == AllExtensions(cells[..i]) + CellExtensions(cells[i])
  {
    assert cells[..i + 1][..i] == cells[..i];
  }

  /** Adds the counted extensions of one cell to the counter. */
  method TallyCell(counter: map<string, nat>, ghost before: seq<string>, files: seq<string>)
    returns (updated: map<string, nat>)
    requires Tallies(counter, before)
    ensures Tallies(updated, before + files)
  {
    updated := counter;
    assert before + files[..0] == before;
    for j := 0 to |files|
      invariant Tallies(updated, before + files[..j])
    {
      var x := files[j];
      TalliesStep(updated, before + files[..j], x);
      assert before + files[..j] + [x] == before + files[..j + 1];
      if Counted(x) {
        updated := updated[x := (if x in updated then updated[x] else 0) + 1];
      }
    }
    assert files[..|files|] == files;
  }

  /** The extension counter over the modified-files cells of all commits. */
  method FileTypeCounts(cells: seq<string>) returns (counter: map<string, nat>)
    ensures forall e :: e in counter <==> Counted(e) && Occurrences(AllExtensions(cells), e) > 0
    ensures forall e :: e in counter ==> counter[e] == Occurrences(AllExtensions(cells), e)
  {
    counter := map[];
    for i := 0 to |cells|
      invariant Tallies(counter, AllExtensions(cells[..i]))
    {
      AllExtensionsStep(cells, i);
      counter := TallyCell(counter, AllExtensions(cells[..i]), CellExtensions(cells[i]));
    }
    assert cells[..|cells|] == cells;
  }
}
