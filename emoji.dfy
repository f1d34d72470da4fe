/**
 * The in-memory part of the emoji stripper (scripts/remove_all_emojis.py):
 * the character filter `remove_emojis`, the per-file and per-notebook-cell
 * cleaning around it, and the path exclusion used when collecting files.
 */
module EmojiRemoval {
  import opened Strings

  /** The code-point ranges of `EMOJI_PATTERN`, inclusive, in the order they are listed. */
  const EmojiRanges: seq<(int, int)> := [
    (0x1F600, 0x1F64F),  // emoticons
    (0x1F300, 0x1F5FF),  // symbols & pictographs
    (0x1F680, 0x1F6FF),  // transport & map
    (0x1F1E0, 0x1F1FF),  // flags
    (0x2702, 0x27B0),    // dingbats
    (0x24C2, 0x1F251),   // enclosed characters, and everything in between
    (0x1F900, 0x1F9FF),  // supplemental symbols
    (0x1FA00, 0x1FA6F),  // chess symbols
    (0x2600, 0x26FF),    // miscellaneous symbols
    (0x2B50, 0x2B50)     // star
  ]

  /** `c` is matched by the character class of `EMOJI_PATTERN`. */
  predicate IsEmoji(c: char)
  {
    exists k | 0 <= k < |EmojiRanges| :: EmojiRanges[k].0 <= c as int <= EmojiRanges[k].1
  }

  predicate HasEmoji(text: string)
  {
    exists i | 0 <= i < |text| :: IsEmoji(text[i])
  }

  /**
   * The ten ranges collapse to four disjoint intervals: U+24C2..U+1F251 swallows
   * the dingbats, the miscellaneous symbols, the star and the flags.
   */
  lemma EmojiRangesUnion(c: char)
    ensures IsEmoji(c) <==>
      (0x24C2 <= c as int <= 0x1F251) ||
      (0x1F300 <= c as int <= 0x1F64F) ||
      (0x1F680 <= c as int <= 0x1F6FF) ||
      (0x1F900 <= c as int <= 0x1FA6F)
  {
    var n := c as int;
    if 0x24C2 <= n <= 0x1F251 {
      assert EmojiRanges[5] == (0x24C2, 0x1F251);
    } else if 0x1F300 <= n <= 0x1F5FF {
      assert EmojiRanges[1] == (0x1F300, 0x1F5FF);
    } else if 0x1F600 <= n <= 0x1F64F {
      assert EmojiRanges[0] == (0x1F600, 0x1F64F);
    } else if 0x1F680 <= n <= 0x1F6FF {
      assert EmojiRanges[2] == (0x1F680, 0x1F6FF);
    } else if 0x1F900 <= n <= 0x1F9FF {
      assert EmojiRanges[6] == (0x1F900, 0x1F9FF);
    } else if 0x1FA00 <= n <= 0x1FA6F {
      assert EmojiRanges[7] == (0x1FA00, 0x1FA6F);
    }
  }

  /** The wide range also removes ordinary text, such as CJK ideographs and Hangul. */
  lemma WideRangeRemovesText()
    ensures IsEmoji('中')   // CJK ideograph "middle"
    ensures IsEmoji('한')   // Hangul syllable "han"
    ensures !IsEmoji('A') && !IsEmoji('é')
  {
    EmojiRangesUnion('中');
    EmojiRangesUnion('한');
    EmojiRangesUnion('A');
    EmojiRangesUnion('é');
  }

  /** `remove_emojis`: every character in one of the ranges is deleted. */
  function RemoveEmojis(text: string): (cleaned: string)
    ensures |cleaned| <= |text|
    ensures forall i :: 0 <= i < |cleaned| ==> !IsEmoji(cleaned[i])
  {
    if text == [] then []
    else if IsEmoji(text[0]) then RemoveEmojis(text[1..])
    else [text[0]] + RemoveEmojis(text[1..])
  }

  /** Every character that is not an emoji survives, and no character is invented. */
  lemma {:induction false} RemoveEmojisMembers(text: string)
    ensures forall c :: c in text && !IsEmoji(c) ==> c in RemoveEmojis(text)
    ensures forall c :: c in RemoveEmojis(text) ==> c in text
  {
    if text != [] {
      RemoveEmojisMembers(text[1..]);
      assert text == [text[0]] + text[1..];
    }
  }

  /** The filter distributes over concatenation: order is kept and nothing is inserted. */
  lemma {:induction false} RemoveEmojisConcat(a: string, b: string)
    ensures RemoveEmojis(a + b) == RemoveEmojis(a) + RemoveEmojis(b)
  {
    if a == [] {
      assert a + b == b;
    } else {
      assert (a + b)[1..] == a[1..] + b;
      RemoveEmojisConcat(a[1..], b);
    }
  }

  /** On one character the filter keeps it exactly when it is not an emoji. */
  lemma RemoveEmojisSingle(c: char)
    ensures RemoveEmojis([c]) == if IsEmoji(c) then [] else [c]
  {
  }

  /** Text without pattern characters comes back unchanged, and only such text does. */
  lemma {:induction false} RemoveEmojisUnchangedIff(text: string)
    ensures RemoveEmojis(text) == text <==> !HasEmoji(text)
  {
    if text == [] {
    } else {
      RemoveEmojisUnchangedIff(text[1..]);
      if IsEmoji(text[0]) {
        assert |RemoveEmojis(text)| < |text|;
      } else {
        assert HasEmoji(text) <==> HasEmoji(text[1..]) by {
          if HasEmoji(text) {
            var i :| 0 <= i < |text| && IsEmoji(text[i]);
            assert text[1..][i - 1] == text[i];
          }
          if HasEmoji(text[1..]) {
            var i :| 0 <= i < |text[1..]| && IsEmoji(text[1..][i]);
            assert text[i + 1] == text[1..][i];
          }
        }
      }
    }
  }

  /** Removing twice removes nothing more. */
  lemma RemoveEmojisIdempotent(text: string)
    ensures RemoveEmojis(RemoveEmojis(text)) == RemoveEmojis(text)
  {
  }

  // ---------------------------------------------------------------------------
  // clean_text_file, without the file read and write

  /** What cleaning a text file yields: the new text, and whether it is written back. */
  datatype TextCleaning = TextCleaning(cleaned: string, written: bool)

  function CleanText(original: string): (result: TextCleaning)
    ensures result.cleaned == RemoveEmojis(original)
    ensures result.written <==> HasEmoji(original)
  {
    RemoveEmojisUnchangedIff(original);
    var cleaned := RemoveEmojis(original);
    TextCleaning(cleaned, cleaned != original)
  }

  // ---------------------------------------------------------------------------
  // clean_jupyter_notebook, cell loop

  datatype Option<T> = None | Some(value: T)

  /** A cell's `source`: one string, or a list of lines. */
  datatype Source = Text(text: string) | Lines(lines: seq<string>)

  /** A notebook cell; `cellType` stands for the cell's other keys, which are never touched. */
  datatype Cell = Cell(cellType: string, source: Option<Source>)

  predicate SourceHasEmoji(s: Source)
  {
    match s
    case Text(t) => HasEmoji(t)
    case Lines(ls) => exists i | 0 <= i < |ls| :: HasEmoji(ls[i])
  }

  /** A list source is cleaned line by line, a string source as a whole. */
  function CleanSource(s: Source): (r: Source)
    ensures s.Text? <==> r.Text?
    ensures s.Text? ==> r.text == RemoveEmojis(s.text)
    ensures s.Lines? ==>
      (|r.lines| == |s.lines| &&
       forall i :: 0 <= i < |s.lines| ==> r.lines[i] == RemoveEmojis(s.lines[i]))
  {
    match s
    case Text(t) => Text(RemoveEmojis(t))
    case Lines(ls) => Lines(seq(|ls|, i requires 0 <= i < |ls| => RemoveEmojis(ls[i])))
  }

  /** A cleaned source differs from the original exactly when the original holds an emoji. */
  lemma CleanSourceChangesIff(s: Source)
    ensures CleanSource(s) != s <==> SourceHasEmoji(s)
  {
    match s
    case Text(t) =>
      RemoveEmojisUnchangedIff(t);
    case Lines(ls) =>
      var r := CleanSource(s).lines;
      if SourceHasEmoji(s) {
        var i :| 0 <= i < |ls| && HasEmoji(ls[i]);
        RemoveEmojisUnchangedIff(ls[i]);
        assert r[i] != ls[i];
      } else {
        forall i | 0 <= i < |ls| ensures r[i] == ls[i] {
          RemoveEmojisUnchangedIff(ls[i]);
        }
        assert r == ls;
      }
  }

  /** One iteration of the cell loop: the new cell. */
  function CleanCell(cell: Cell): (result: Cell)
    ensures result.cellType == cell.cellType
    ensures cell.source.None? ==> result == cell
    ensures cell.source.Some? ==> result.source == Some(CleanSource(cell.source.value))
  {
    match cell.source
    case None => cell
    case Some(original) =>
      var cleaned := CleanSource(original);
      if cleaned != original then cell.(source := Some(cleaned)) else cell
  }

  /** Whether one iteration of the cell loop sets `changes_made`. */
  predicate CellChanges(cell: Cell)
  {
    cell.source.Some? && CleanSource(cell.source.value) != cell.source.value
  }

  /** A cell is rewritten exactly when it has a source holding an emoji; nothing else in it changes. */
  lemma CleanCellChangesIff(cell: Cell)
    ensures CellChanges(cell) <==> cell.source.Some? && SourceHasEmoji(cell.source.value)
    ensures CleanCell(cell) != cell <==> CellChanges(cell)
    ensures CleanCell(cell).cellType == cell.cellType
    ensures cell.source.None? ==> CleanCell(cell) == cell
    ensures cell.source.Some? ==> CleanCell(cell).source == Some(CleanSource(cell.source.value))
  {
    if cell.source.Some? {
      CleanSourceChangesIff(cell.source.value);
    }
  }

  /** Cleaning a cell twice is the same as cleaning it once. */
  lemma CleanCellIdempotent(cell: Cell)
    ensures CleanCell(CleanCell(cell)) == CleanCell(cell)
    ensures !CellChanges(CleanCell(cell))
  {
    match cell.source
    case None =>
    case Some(s) =>
      var c := CleanSource(s);
      match s
      case Text(t) =>
        RemoveEmojisIdempotent(t);
      case Lines(ls) =>
        forall i | 0 <= i < |ls| ensures CleanSource(c).lines[i] == c.lines[i] {
          RemoveEmojisIdempotent(ls[i]);
        }
        assert CleanSource(c) == c;
  }

  /**
   * The cell loop of `clean_jupyter_notebook`: every cell's source is cleaned
   * in place, and the result says whether any cell changed.
   */
  method CleanNotebookCells(cells: array<Cell>) returns (changesMade: bool)
    modifies cells
    ensures forall i :: 0 <= i < cells.Length ==> cells[i] == CleanCell(old(cells[i]))
    ensures changesMade <==> exists i :: 0 <= i < cells.Length && CellChanges(old(cells[i]))
  {
    changesMade := false;
    for i := 0 to cells.Length
      invariant forall k :: 0 <= k < i ==> cells[k] == CleanCell(old(cells[k]))
      invariant forall k :: i <= k < cells.Length ==> cells[k] == old(cells[k])
      invariant changesMade <==> exists k :: 0 <= k < i && CellChanges(old(cells[k]))
    {
      var cell := cells[i];
      if cell.source.Some? {
        var original := cell.source.value;
        var cleaned := CleanSource(original);
        if cleaned != original {
          cells[i] := cell.(source := Some(cleaned));
          changesMade := true;
        }
      }
    }
  }

  /** A notebook that has been cleaned once reports no change when cleaned again. */
  method CleanTwiceReportsNoChange(cells: array<Cell>) returns (first: bool, second: bool)
    modifies cells
    ensures !second
  {
    first := CleanNotebookCells(cells);
    ghost var once := cells[..];
    second := CleanNotebookCells(cells);
    forall i | 0 <= i < cells.Length ensures !CellChanges(once[i]) {
      CleanCellIdempotent(old(cells[i]));
    }
  }

  // ---------------------------------------------------------------------------
  // find_files_to_clean, exclusion test and collection loop

  /** A path as the sequence of its components (`Path.parts`). */
  type PathParts = seq<string>

  const ExcludeDirs: set<string> :=
    {".git", "__pycache__", "venv", ".ipynb_checkpoints", "node_modules", ".pytest_cache"}

  /** `Path.name`: the last component, or the empty string. */
  function Name(path: PathParts): string
  {
    if path == [] then "" else path[|path| - 1]
  }

  /** Index of the last '.' in `name`, or -1 (Python's `str.rfind('.')`). */
  function LastDot(name: string): (i: int)
    ensures -1 <= i < |name|
    ensures i >= 0 ==> name[i] == '.'
  {
    if name == [] then -1
    else if name[|name| - 1] == '.' then |name| - 1
    else LastDot(name[..|name| - 1])
  }

  /** No dot follows the one `LastDot` finds. */
  lemma {:induction false} LastDotIsLast(name: string, j: int)
    requires LastDot(name) < j < |name|
    ensures name[j] != '.'
  {
    if name[|name| - 1] != '.' && j < |name| - 1 {
      LastDotIsLast(name[..|name| - 1], j);
    }
  }

  /** `PurePath.suffix`: from the last '.', when that dot is neither first nor last. */
  function Suffix(name: string): string
  {
    var i := LastDot(name);
    if 0 < i < |name| - 1 then name[i..] else ""
  }

  predicate IsBackupSuffix(suffix: string)
  {
    suffix == ".backup"
  }

  /** The skip test of `find_files_to_clean`. */
  predicate IsExcluded(path: PathParts)
  {
    (exists excluded | excluded in ExcludeDirs :: excluded in path)
    || IsBackupSuffix(Suffix(Name(path)))
    || Contains(Name(path), "backup")
  }

  /** The `.backup` suffix test adds nothing: such a name already contains "backup". */
  lemma BackupSuffixSubsumed(path: PathParts)
    ensures IsExcluded(path) <==>
      (exists k :: 0 <= k < |path| && path[k] in ExcludeDirs) || Contains(Name(path), "backup")
  {
    var name := Name(path);
    if IsBackupSuffix(Suffix(name)) {
      var i := LastDot(name);
      assert name[i + 1..] == ".backup"[1..] == "backup";
      assert OccursAt(name, "backup", i + 1);
    }
    if exists k :: 0 <= k < |path| && path[k] in ExcludeDirs {
      var k :| 0 <= k < |path| && path[k] in ExcludeDirs;
      var excluded := path[k];
      assert excluded in ExcludeDirs && excluded in path;
    }
  }

  /** The glob patterns with the file type each one tags, in the order they are tried. */
  const FileTypes: seq<string> := ["notebook", "python", "markdown", "text"]

  /**
   * The entries one pattern contributes: its paths that `skip` does not
   * reject, tagged with the pattern's type, in glob order. The collection
   * passes `IsExcluded` as `skip`.
   */
  function Kept(paths: seq<PathParts>, fileType: string, skip: PathParts -> bool): (kept: seq<(PathParts, string)>)
    ensures |kept| <= |paths|
  {
    if paths == [] then []
    else
      var last := paths[|paths| - 1];
      Kept(paths[..|paths| - 1], fileType, skip) + (if skip(last) then [] else [(last, fileType)])
  }

  /** An entry is kept exactly when its path was globbed, is not skipped, and carries the pattern's type. */
  lemma {:induction false} KeptMember(paths: seq<PathParts>, fileType: string, skip: PathParts -> bool, e: (PathParts, string))
    ensures e in Kept(paths, fileType, skip) <==> e.0 in paths && !skip(e.0) && e.1 == fileType
  {
    if paths != [] {
      var n := |paths| - 1;
      KeptMember(paths[..n], fileType, skip, e);
      assert paths == paths[..n] + [paths[n]];
      assert e.0 in paths <==> e.0 in paths[..n] || e.0 == paths[n];
    }
  }

  /** All entries, pattern after pattern. */
  function KeptAll(globbed: seq<seq<PathParts>>, fileTypes: seq<string>): seq<(PathParts, string)>
    requires |globbed| == |fileTypes|
  {
    if globbed == [] then []
    else
      var n := |globbed| - 1;
      KeptAll(globbed[..n], fileTypes[..n]) + Kept(globbed[n], fileTypes[n], IsExcluded)
  }

  /** Pattern `k` globbed the path of `e`, and `e` carries that pattern's type. */
  predicate GlobbedBy(globbed: seq<seq<PathParts>>, fileTypes: seq<string>, k: int, e: (PathParts, string))
  {
    0 <= k < |globbed| && k < |fileTypes| && e.0 in globbed[k] && e.1 == fileTypes[k]
  }

  /**
   * `find_files_to_clean`, given what each pattern's glob yields (in the order
   * of `FileTypes`): every path that is not excluded, tagged with its type.
   */
  method FindFilesToClean(globbed: seq<seq<PathParts>>) returns (files: seq<(PathParts, string)>)
    requires |globbed| == |FileTypes|
    ensures files == KeptAll(globbed, FileTypes)
    ensures forall e :: e in files <==>
      !IsExcluded(e.0) && exists k :: GlobbedBy(globbed, FileTypes, k, e)
  {
    files := [];
    for k := 0 to |globbed|
      invariant files == KeptAll(globbed[..k], FileTypes[..k])
    {
      files := AppendKept(files, globbed[k], FileTypes[k]);
      assert globbed[..k + 1][..k] == globbed[..k];
      assert FileTypes[..k + 1][..k] == FileTypes[..k];
    }
    assert globbed[..|globbed|] == globbed;
    assert FileTypes[..|FileTypes|] == FileTypes;
    KeptAllMembers(globbed, FileTypes);
  }

  /** The inner loop of `find_files_to_clean`: append one pattern's kept paths to `files`. */
  method AppendKept(files: seq<(PathParts, string)>, paths: seq<PathParts>, fileType: string)
    returns (appended: seq<(PathParts, string)>)
    ensures appended == files + Kept(paths, fileType, IsExcluded)
  {
    appended := files;
    for j := 0 to |paths|
      invariant appended == files + Kept(paths[..j], fileType, IsExcluded)
    {
      var path := paths[j];
      ghost var before := Kept(paths[..j], fileType, IsExcluded);
      assert paths[..j + 1][..j] == paths[..j];
      assert Kept(paths[..j + 1], fileType, IsExcluded) ==
        before + (if IsExcluded(path) then [] else [(path, fileType)]);
      if !IsExcluded(path) {
        appended := appended + [(path, fileType)];
        assert appended == files + (before + [(path, fileType)]);
      }
    }
    assert paths[..|paths|] == paths;
  }

  lemma KeptAllMembers(globbed: seq<seq<PathParts>>, fileTypes: seq<string>)
    requires |globbed| == |fileTypes|
    ensures forall e :: e in KeptAll(globbed, fileTypes) <==>
      !IsExcluded(e.0) && exists k :: GlobbedBy(globbed, fileTypes, k, e)
  {
    forall e: (PathParts, string)
      ensures e in KeptAll(globbed, fileTypes) <==>
        !IsExcluded(e.0) && exists k :: GlobbedBy(globbed, fileTypes, k, e)
    {
      KeptAllMember(globbed, fileTypes, e);
    }
  }

  /** An entry is collected exactly when some pattern globbed its path and it is not excluded. */
  lemma {:induction false} KeptAllMember(globbed: seq<seq<PathParts>>, fileTypes: seq<string>, e: (PathParts, string))
    requires |globbed| == |fileTypes|
    ensures e in KeptAll(globbed, fileTypes) <==>
      !IsExcluded(e.0) && exists k :: GlobbedBy(globbed, fileTypes, k, e)
  {
    if globbed != [] {
      var n := |globbed| - 1;
      var front := KeptAll(globbed[..n], fileTypes[..n]);
      var back := Kept(globbed[n], fileTypes[n], IsExcluded);
      KeptAllMember(globbed[..n], fileTypes[..n], e);
      KeptMember(globbed[n], fileTypes[n], IsExcluded, e);
      assert KeptAll(globbed, fileTypes) == front + back;
      assert e in front + back <==> e in front || e in back;
      forall k | 0 <= k < n
        ensures GlobbedBy(globbed, fileTypes, k, e) <==> GlobbedBy(globbed[..n], fileTypes[..n], k, e)
      {
        assert globbed[..n][k] == globbed[k];
        assert fileTypes[..n][k] == fileTypes[k];
      }
      if e in front {
        var k :| GlobbedBy(globbed[..n], fileTypes[..n], k, e);
        assert GlobbedBy(globbed, fileTypes, k, e);
      }
      if e in back {
        assert GlobbedBy(globbed, fileTypes, n, e);
      }
      if exists k :: GlobbedBy(globbed, fileTypes, k, e) {
        var k :| GlobbedBy(globbed, fileTypes, k, e);
        if k == n {
          assert e.0 in globbed[n] && e.1 == fileTypes[n];
        } else {
          assert GlobbedBy(globbed[..n], fileTypes[..n], k, e);
        }
      }
    }
  }
}
