/**
 * merge_files of reader.py: every file of a directory walk, optionally
 * filtered by extension, written into one text file, each preceded by a
 * comment line holding its relative path. The walk itself (os.walk,
 * os.path.relpath) and the reads (open, UTF-8 decoding) are inputs: a walk
 * is the sequence of folders in visiting order, each with its files in
 * listing order, and each file comes with the outcome of reading it.
 */
module TreeMerger {

  import opened Wrappers

  /** The result of reading a file: its text, or the exception's message. */
  datatype ReadResult = Content(text: string) | Failed(message: string)

  /** One file of a folder: its name, its path relative to the root, and its read. */
  datatype WalkFile = WalkFile(name: string, relPath: string, read: ReadResult)

  // ---------------------------------------------------------------------------
  // os.path.splitext and str.lower

  /** The position of the last '.' in s, if any. */
  function LastDot(s: string): (r: Option<nat>)
    ensures r.Some? ==> r.value < |s| && s[r.value] == '.' && '.' !in s[r.value + 1..]
    ensures r.None? ==> '.' !in s
  {
    if s == [] then None
    else if s[|s| - 1] == '.' then Some(|s| - 1)
    else
      var r := LastDot(s[..|s| - 1]);
      assert s == s[..|s| - 1] + [s[|s| - 1]];
      if r.Some? then
        assert s[r.value + 1..] == s[..|s| - 1][r.value + 1..] + [s[|s| - 1]];
        r
      else r
  }

  /** Whether s has a character other than '.' before position d. */
  predicate HasNonDotBefore(s: string, d: nat)
    requires d <= |s|
  {
    exists k :: 0 <= k < d && s[k] != '.'
  }

  /** The extension splitext gives for a file name: from the last dot on, when
      that dot is preceded by something other than dots; otherwise empty. */
  function Extension(name: string): (ext: string)
    ensures ext == [] || (ext[0] == '.' && '.' !in ext[1..])
    ensures |ext| <= |name| && ext == name[|name| - |ext|..]
  {
    var d := LastDot(name);
    if d.Some? && HasNonDotBefore(name, d.value) then name[d.value..] else []
  }

  /** A name with no dot, or only leading dots before the last one, has no extension. */
  lemma ExtensionEmpty(name: string)
    ensures '.' !in name ==> Extension(name) == []
    ensures (forall k :: 0 <= k < |name| ==> name[k] == '.') ==> Extension(name) == []
  {
  }

  /** Characters other than dots after the last dot leave it the last. */
  lemma {:induction false} LastDotAppend(s: string, t: string)
    requires '.' !in t
    ensures LastDot(s + t) == LastDot(s)
    decreases |t|
  {
    if t == [] {
      assert s + t == s;
    } else {
      var init := t[..|t| - 1];
      assert (s + t)[..|s + t| - 1] == s + init;
      assert t[|t| - 1] in t;
      LastDotAppend(s, init);
    }
  }

  /** The extension of stem + "." + ext, for a stem ending in a non-dot and a
      dotless ext. */
  lemma ExtensionOf(stem: string, ext: string)
    requires stem != [] && stem[|stem| - 1] != '.' && '.' !in ext
    ensures Extension(stem + "." + ext) == "." + ext
  {
    var name := stem + "." + ext;
    assert name == (stem + ".") + ext;
    LastDotAppend(stem + ".", ext);
    assert LastDot(stem + ".") == Some(|stem|);
    assert name[|stem| - 1] != '.';
    assert name[|stem|..] == "." + ext;
  }

  function LowerChar(c: char): (l: char)
    ensures 'A' <= c <= 'Z' ==> l as int == c as int + 32
    ensures !('A' <= c <= 'Z') ==> l == c
    ensures !('A' <= l <= 'Z')
  {
    if 'A' <= c <= 'Z' then (c as int + 32) as char else c
  }

  /** str.lower for ASCII letters. */
  function Lower(s: string): (l: string)
    ensures |l| == |s| && forall i :: 0 <= i < |s| ==> l[i] == LowerChar(s[i])
  {
    seq(|s|, i requires 0 <= i < |s| => LowerChar(s[i]))
  }

  // ---------------------------------------------------------------------------
  // The records

  /** The filter: everything passes without extensions, otherwise the
      lower-cased extension must be one of them as given. */
  predicate Included(extensions: Option<seq<string>>, f: WalkFile)
  {
    extensions.None? || Lower(Extension(f.name)) in extensions.value
  }

  const ReadErrorPrefix: string := "[Ошибка при чтении файла: "

  /** What the read writes: the text, or the error line. */
  function Body(r: ReadResult): string
  {
    match r
    case Content(t) => t
    case Failed(m) => ReadErrorPrefix + m + "]\n"
  }

  function Header(relPath: string): string
  {
    "\n// " + relPath + "\n"
  }

  /** A file's record: its header comment line, then what its read wrote. */
  function Record(f: WalkFile): string
  {
    Header(f.relPath) + Body(f.read)
  }

  /** The files the filter keeps, in order. */
  function Kept(files: seq<WalkFile>, extensions: Option<seq<string>>): (kept: seq<WalkFile>)
    ensures |kept| <= |files|
  {
    if files == [] then []
    else (if Included(extensions, files[0]) then [files[0]] else []) + Kept(files[1..], extensions)
  }

  /** A file is kept exactly when it passes the filter. */
  lemma {:induction false} KeptMembers(files: seq<WalkFile>, extensions: Option<seq<string>>)
    ensures forall f :: f in Kept(files, extensions) <==> f in files && Included(extensions, f)
  {
    if files != [] {
      KeptMembers(files[1..], extensions);
      assert files == [files[0]] + files[1..];
    }
  }

  /** Their records. */
  function Records(files: seq<WalkFile>): (rs: seq<string>)
    ensures |rs| == |files| && forall i :: 0 <= i < |files| ==> rs[i] == Record(files[i])
  {
    seq(|files|, i requires 0 <= i < |files| => Record(files[i]))
  }

  /** The parts written one after another. */
  function Concat(parts: seq<string>): string
  {
    if parts == [] then [] else parts[0] + Concat(parts[1..])
  }

  /** The output for files, in order. */
  function Merged(files: seq<WalkFile>, extensions: Option<seq<string>>): string
  {
    Concat(Records(Kept(files, extensions)))
  }

  /** The files of a walk in visiting order. */
  function Flatten(walk: seq<seq<WalkFile>>): (fs: seq<WalkFile>)
    ensures forall f :: f in fs <==> exists i :: 0 <= i < |walk| && f in walk[i]
  {
    if walk == [] then []
    else
      var fs := Flatten(walk[..|walk| - 1]) + walk[|walk| - 1];
      assert forall i :: 0 <= i < |walk| - 1 ==> walk[..|walk| - 1][i] == walk[i];
      fs
  }

  lemma {:induction false} ConcatAppend(xs: seq<string>, ys: seq<string>)
    ensures Concat(xs + ys) == Concat(xs) + Concat(ys)
  {
    if xs == [] {
      assert xs + ys == ys;
    } else {
      assert (xs + ys)[1..] == xs[1..] + ys;
      ConcatAppend(xs[1..], ys);
    }
  }

  lemma {:induction false} KeptAppend(xs: seq<WalkFile>, ys: seq<WalkFile>, extensions: Option<seq<string>>)
    ensures Kept(xs + ys, extensions) == Kept(xs, extensions) + Kept(ys, extensions)
  {
    TailAppend(xs, ys);
    if xs != [] {
      var head := if Included(extensions, xs[0]) then [xs[0]] else [];
      var rest, later := Kept(xs[1..], extensions), Kept(ys, extensions);
      calc {
        Kept(xs + ys, extensions);
        head + Kept(xs[1..] + ys, extensions);
        { KeptAppend(xs[1..], ys, extensions); }
        head + (rest + later);
        { AppendAssoc(head, rest, later); }
        (head + rest) + later;
      }
    }
  }

  lemma SliceSnoc<T>(s: seq<T>, j: nat)
    requires j < |s|
    ensures s[..j + 1] == s[..j] + [s[j]]
  {
  }

  lemma AppendAssoc<T>(a: seq<T>, b: seq<T>, c: seq<T>)
    ensures a + (b + c) == (a + b) + c
  {
  }

  lemma TailAppend<T>(xs: seq<T>, ys: seq<T>)
    ensures xs == [] ==> xs + ys == ys
    ensures xs != [] ==> (xs + ys)[0] == xs[0] && (xs + ys)[1..] == xs[1..] + ys
  {
    if xs != [] {
      assert (xs + ys)[1..] == xs[1..] + ys;
    }
  }

  /** The output of one folder after another is the two outputs in turn. */
  lemma MergedAppend(xs: seq<WalkFile>, ys: seq<WalkFile>, extensions: Option<seq<string>>)
    ensures Merged(xs + ys, extensions) == Merged(xs, extensions) + Merged(ys, extensions)
  {
    KeptAppend(xs, ys, extensions);
    var a, b := Kept(xs, extensions), Kept(ys, extensions);
    assert Records(a + b) == Records(a) + Records(b);
    ConcatAppend(Records(a), Records(b));
  }

  /** An included file contributes its record between the others, whatever
      its read gave. */
  lemma MergedAtKept(xs: seq<WalkFile>, f: WalkFile, ys: seq<WalkFile>, extensions: Option<seq<string>>)
    requires Included(extensions, f)
    ensures Merged(xs + [f] + ys, extensions) == Merged(xs, extensions) + Record(f) + Merged(ys, extensions)
  {
    MergedAppend(xs + [f], ys, extensions);
    MergedAppend(xs, [f], extensions);
    MergedOne(f, extensions);
  }

  /** An excluded file contributes nothing. */
  lemma MergedAtSkipped(xs: seq<WalkFile>, f: WalkFile, ys: seq<WalkFile>, extensions: Option<seq<string>>)
    requires !Included(extensions, f)
    ensures Merged(xs + [f] + ys, extensions) == Merged(xs + ys, extensions)
  {
    MergedAppend(xs + [f], ys, extensions);
    MergedAppend(xs, [f], extensions);
    MergedAppend(xs, ys, extensions);
    MergedOne(f, extensions);
  }

  /** Appending one file appends its output. */
  lemma MergedStep(xs: seq<WalkFile>, f: WalkFile, extensions: Option<seq<string>>)
    ensures Merged(xs + [f], extensions) == Merged(xs, extensions) + if Included(extensions, f) then Record(f) else []
  {
    MergedAppend(xs, [f], extensions);
    MergedOne(f, extensions);
  }

  /** A single file's output: its record, or nothing when filtered out. */
  lemma MergedOne(f: WalkFile, extensions: Option<seq<string>>)
    ensures Merged([f], extensions) == if Included(extensions, f) then Record(f) else []
  {
    assert [f][1..] == [];
    if Included(extensions, f) {
      assert Kept([f], extensions) == [f];
      assert Records([f]) == [Record(f)];
      assert Concat([Record(f)]) == Record(f) + Concat([]);
    } else {
      assert Kept([f], extensions) == [];
    }
  }

  /** Every record without a filter. */
  function AllRecords(files: seq<WalkFile>): string
  {
    if files == [] then [] else Record(files[0]) + AllRecords(files[1..])
  }

  lemma {:induction false} MergedNoFilter(files: seq<WalkFile>)
    ensures Merged(files, None) == AllRecords(files)
  {
    if files != [] {
      MergedNoFilter(files[1..]);
      MergedAtKept([], files[0], files[1..], None);
      assert [] + [files[0]] + files[1..] == files;
    }
  }

  /** A filter entry with an upper-case letter never matches, since the
      extension is lowered and the entries are not. */
  lemma UpperCaseEntryNeverMatches(name: string, entry: string)
    requires exists i :: 0 <= i < |entry| && 'A' <= entry[i] <= 'Z'
    ensures Lower(Extension(name)) != entry
  {
    var i :| 0 <= i < |entry| && 'A' <= entry[i] <= 'Z';
    var l := Lower(Extension(name));
    if |l| == |entry| {
      assert l[i] != entry[i];
    }
  }

  /** The extension is lowered before the lookup: [".cpp"] admits "main.CPP". */
  lemma LoweredExtensionMatches(relPath: string, read: ReadResult)
    ensures Included(Some([".cpp"]), WalkFile("main.CPP", relPath, read))
  {
    ExtensionOf("main", "CPP");
    assert "main" + "." + "CPP" == "main.CPP";
    assert Lower(".CPP") == ".cpp";
  }

  /** The entries are not lowered: [".CPP"] rejects "main.CPP". */
  lemma UpperCaseEntryRejects(relPath: string, read: ReadResult)
    ensures !Included(Some([".CPP"]), WalkFile("main.CPP", relPath, read))
  {
    assert 'A' <= ".CPP"[1] <= 'Z';
    UpperCaseEntryNeverMatches("main.CPP", ".CPP");
    var e := Lower(Extension("main.CPP"));
    assert e !in [".CPP"];
  }

  /** A leading dot does not start an extension: [".cpp"] rejects ".cpp". */
  lemma DotFileRejected(relPath: string, read: ReadResult)
    ensures !Included(Some([".cpp"]), WalkFile(".cpp", relPath, read))
  {
    ExtensionEmpty(".cpp");
    assert Lower([]) == [];
  }

  // ---------------------------------------------------------------------------
  // merge_files

  /** The file written: opened with "w", so it holds exactly this run's
      records, folder by folder and file by file. */
  method MergeFiles(walk: seq<seq<WalkFile>>, extensions: Option<seq<string>>) returns (out: string)
    ensures out == Merged(Flatten(walk), extensions)
  {
    out := [];
    for i := 0 to |walk|
      invariant out == Merged(Flatten(walk[..i]), extensions)
    {
      assert walk[..i + 1][..i] == walk[..i];
      assert Flatten(walk[..i + 1]) == Flatten(walk[..i]) + walk[i];
      MergedAppend(Flatten(walk[..i]), walk[i], extensions);
      out := WriteFolder(out, walk[i], extensions);
    }
    assert walk[..|walk|] == walk;
  }

  /** The inner loop over one folder's files. */
  method WriteFolder(out: string, files: seq<WalkFile>, extensions: Option<seq<string>>) returns (written: string)
    ensures written == out + Merged(files, extensions)
  {
    written := out;
    assert files[..0] == [];
    for j := 0 to |files|
      invariant written == out + Merged(files[..j], extensions)
    {
      FolderStep(out, written, files, j, extensions);
      written := WriteFile(written, files[j], extensions);
    }
    assert files[..|files|] == files;
  }

  /** Writing file j after the output of the files before it gives the
      output of the first j + 1 files. */
  lemma FolderStep(out: string, written: string, files: seq<WalkFile>, j: nat, extensions: Option<seq<string>>)
    requires j < |files| && written == out + Merged(files[..j], extensions)
    ensures written + Merged([files[j]], extensions) == out + Merged(files[..j + 1], extensions)
  {
    SliceSnoc(files, j);
    MergedAppend(files[..j], [files[j]], extensions);
    AppendRegroup(out, written, Merged(files[..j], extensions), Merged([files[j]], extensions),
                  Merged(files[..j + 1], extensions));
  }

  lemma AppendRegroup(out: string, written: string, done: string, next: string, all: string)
    requires written == out + done && all == done + next
    ensures written + next == out + all
  {
  }

  /** The body of the inner loop: a file the filter rejects is skipped;
      otherwise its header line goes out, then its text or the error line. */
  method WriteFile(out: string, file: WalkFile, extensions: Option<seq<string>>) returns (written: string)
    ensures written == out + Merged([file], extensions)
  {
    MergedOne(file, extensions);
    written := out;
    if extensions.Some? {
      var ext := Extension(file.name);
      if Lower(ext) !in extensions.value {
        return;
      }
    }
    written := written + Header(file.relPath);
    match file.read {
      case Content(text) => written := written + text;
      case Failed(e) => written := written + (ReadErrorPrefix + e + "]\n");
    }
  }
}
