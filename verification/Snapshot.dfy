/**
 The snapshot store over a map-shaped file system (src/kernel/previewSnapshot.ts). The code works on path
 strings; the specifications work on lists of names, so the string tests are proved to mean containment.
 */
module Snapshot {
  import opened Text
  import opened Paths
  import opened SnapshotHash

  const MAX_FILES := 1000
  const MAX_FILE_BYTES := 25 * 1024 * 1024
  const MAX_TOTAL_BYTES := 64 * 1024 * 1024

  datatype Node = Dir | File(content: string)

  /** What exists, by absolute path; the root directory always does. */
  type Disk = map<seq<string>, Node>

  datatype SnapshotMeta = SnapshotMeta(snapshotId: string, fileCount: nat, bytes: nat)

  datatype Refusal =
    | NoFiles
    | TooManyFiles(count: nat)
    | FileTooLarge(name: string)
    | TooLarge(bytes: nat)
    | NoIndex
    | WriteFailed

  datatype Ingested = Accepted(meta: SnapshotMeta) | Refused(why: Refusal)

  datatype Stored = Stored(disk: Disk, ok: bool)

  // ----- The file system -----

  /** What a path string leads to; a trailing slash finds only directories, and no path has a NUL. */
  function NodeAt(disk: Disk, p: string): Option<Node> {
    if '\0' in p || Key(p) !in disk || (disk[Key(p)].File? && Slashed(p)) then None else Some(disk[Key(p)])
  }

  /** No file stands where `key` or a directory above it should be. */
  predicate Clear(disk: Disk, key: seq<string>) {
    forall k | k in disk && k <= key :: disk[k].Dir?
  }

  /** `mkdir` of `key` and everything above it. */
  function MkDirs(disk: Disk, key: seq<string>): Disk {
    if key == [] then disk
    else
      var above := MkDirs(disk, key[..|key| - 1]);
      if key in above then above else above[key := Dir]
  }

  function Dirname(p: string): string {
    if Key(p) == [] then "/" else Abs(Key(p)[..|Key(p)| - 1])
  }

  // ----- Names -----

  /** `/^(\.\.(\/|\\|$))+/` removed. */
  function Strip(s: string): string {
    if s == ".." then ""
    else if |s| >= 3 && s[..2] == ".." && (s[2] == '/' || s[2] == '\\') then Strip(s[3..])
    else s
  }

  function StripSlashes(s: string): string {
    if s != "" && s[0] == '/' then StripSlashes(s[1..]) else s
  }

  function Safe(name: string): string {
    Strip(Normalize(name))
  }

  predicate HexId(id: string) {
    8 <= |id| <= 64 && forall c | c in id :: '0' <= c <= '9' || 'a' <= c <= 'f'
  }

  predicate IsIndex(name: string) {
    name == "index.html" || (|name| >= 11 && name[|name| - 11..] == "/index.html")
  }

  // ----- What the names come to -----

  /** An id is 8 to 64 lower-case hexadecimal digits. */
  lemma IdsAreHex(id: string)
    ensures HexId(id) <==> 8 <= |id| <= 64 && forall c | c in id :: c in "0123456789abcdef"
  {
    var digits := "0123456789abcdef";
    assert forall k | 0 <= k < 10 :: digits[k] == '0' + k as char;
    assert forall k | 10 <= k < 16 :: digits[k] == 'a' + (k - 10) as char;
    forall c: char
      ensures c in digits <==> '0' <= c <= '9' || 'a' <= c <= 'f'
    {
      if '0' <= c <= '9' {
        assert digits[c as int - '0' as int] == c;
      } else if 'a' <= c <= 'f' {
        assert digits[c as int - 'a' as int + 10] == c;
      }
    }
  }

  /** A name is that of an index exactly when its last component is `index.html`. */
  lemma IndexIsLastComponent(name: string)
    ensures var parts := Split(name, '/');
            IsIndex(name) <==> parts[|parts| - 1] == "index.html"
  {
    EndsInWord(name, "index.html", '/');
    assert ['/'] + "index.html" == "/index.html";
  }

  /** Nothing is left of leading parents, and what is left is the end of the name. */
  lemma {:induction false} StripLeavesNoParent(s: string)
    ensures var r := Strip(s);
            && r != ".." && !("../" <= r) && !("..\\" <= r)
            && |r| <= |s| && r == s[|s| - |r|..]
            && (r == s <==> s != ".." && !("../" <= s) && !("..\\" <= s))
  {
    if s != ".." && |s| >= 3 && s[..2] == ".." && (s[2] == '/' || s[2] == '\\') {
      assert s[..3] == "../" || s[..3] == "..\\";
      StripLeavesNoParent(s[3..]);
    } else {
      assert s != ".." && |s| >= 3 ==> s[..3] != "../" && s[..3] != "..\\";
    }
  }

  /** Each leading parent is dropped, whichever slash it ends with. */
  lemma StripDrops(s: string)
    ensures Strip("../" + s) == Strip(s) && Strip("..\\" + s) == Strip(s) && Strip("..") == ""
  {
    var a, b := "../" + s, "..\\" + s;
    assert a[..2] == ".." && a[2] == '/' && a[3..] == s && a != "..";
    assert b[..2] == ".." && b[2] == '\\' && b[3..] == s && b != "..";
  }

  // ----- The archive -----

  datatype Entry = Entry(isFile: bool, header: string, content: string)

  /** `/^\.\/+/` removed. */
  function EntryName(header: string): string {
    if "./" <= header then StripSlashes(header[1..]) else header
  }

  function FilesOf(entries: seq<Entry>): seq<CapturedFile> {
    if entries == [] then []
    else
      var e := entries[|entries| - 1];
      FilesOf(entries[..|entries| - 1])
      + if e.isFile && EntryName(e.header) != "" then [CapturedFile(EntryName(e.header), e.content)] else []
  }

  method Untar(entries: seq<Entry>) returns (out: seq<CapturedFile>)
    ensures out == FilesOf(entries)
  {
    out := [];
    for i := 0 to |entries|
      invariant out == FilesOf(entries[..i])
    {
      assert entries[..i + 1][..i] == entries[..i];
      var e := entries[i];
      if e.isFile {
        var name := EntryName(e.header);
        if name != "" {
          out := out + [CapturedFile(name, e.content)];
        }
      }
    }
    assert entries[..|entries|] == entries;
  }

  // ----- Ingesting -----

  function Total(files: seq<CapturedFile>): nat {
    if files == [] then 0 else Total(files[..|files| - 1]) + |files[|files| - 1].content|
  }

  predicate Acceptable(files: seq<CapturedFile>) {
    && 0 < |files| <= MAX_FILES
    && (forall f | f in files :: |f.content| <= MAX_FILE_BYTES)
    && Total(files) <= MAX_TOTAL_BYTES
    && exists f :: f in files && IsIndex(f.name)
  }

  /** Some file's last component is `index.html`. */
  ghost predicate HasIndex(files: seq<CapturedFile>) {
    exists f :: f in files && var parts := Split(f.name, '/'); parts[|parts| - 1] == "index.html"
  }

  lemma IndexIsNeeded(files: seq<CapturedFile>)
    ensures HasIndex(files) <==> exists f :: f in files && IsIndex(f.name)
  {
    forall f | f in files
      ensures var parts := Split(f.name, '/'); IsIndex(f.name) <==> parts[|parts| - 1] == "index.html"
    {
      IndexIsLastComponent(f.name);
    }
  }

  /** Where an archived name is put. */
  function Dest(dir: seq<string>, name: string): seq<string> {
    Under(dir, Safe(name))
  }

  /** A place outside the directory, or the directory itself. */
  predicate Escapes(dir: seq<string>, k: seq<string>, slashed: bool) {
    !(dir <= k && (k != dir || slashed))
  }

  /** Storing at a place; `slashed` says whether its path ends in a slash. */
  function StoreAt(disk: Disk, dir: seq<string>, k: seq<string>, slashed: bool, content: string): Stored {
    if Escapes(dir, k, slashed) || k == [] then Stored(disk, true)
    else
      var parent := k[..|k| - 1];
      if '\0' in Abs(parent) || !Clear(disk, parent) then Stored(disk, false)
      else
        var made := MkDirs(disk, parent);
        if '\0' in Abs(k) || slashed || (k in made && made[k].Dir?) then Stored(made, false)
        else Stored(made[k := File(content)], true)
  }

  function Store(disk: Disk, dir: seq<string>, f: CapturedFile): Stored {
    StoreAt(disk, dir, Dest(dir, f.name), Slashed(Safe(f.name)), f.content)
  }

  function StoreAll(disk: Disk, dir: seq<string>, files: seq<CapturedFile>): Stored {
    if files == [] then Stored(disk, true)
    else
      var prior := StoreAll(disk, dir, files[..|files| - 1]);
      if prior.ok then Store(prior.disk, dir, files[|files| - 1]) else prior
  }

  /** The file a request reaches: the one it names, or the `index.html` of the directory it names. */
  function Found(disk: Disk, root: seq<string>, id: string, rel: string): Option<seq<string>> {
    var dir := root + [id];
    var clean := StripSlashes(rel);
    var k := Under(dir, clean);
    if !HexId(id) || !(dir <= k) then None
    else
      var target := if IsFile(disk, k) && !Slashed(clean) then k else k + ["index.html"];
      if IsFile(disk, target) then Some(target) else None
  }

  predicate IsFile(disk: Disk, key: seq<string>) {
    key in disk && disk[key].File? && '\0' !in Abs(key)
  }

  predicate CleanRoot(root: string) {
    root == Abs(Key(root))
  }

  lemma HexIsProper(id: string)
    requires HexId(id)
    ensures Proper(id) && '\0' !in id
  {
    assert id[0] in id;
  }

  /** The directory of a snapshot. */
  lemma DirPath(root: string, id: string)
    requires CleanRoot(root) && HexId(id)
    ensures AllProper(Key(root) + [id])
    ensures JoinPaths(root, id) == Abs(Key(root) + [id])
  {
    var key := Key(root);
    KeyIsProper(root);
    HexIsProper(id);
    SplitNone(id, '/');
    WalkProper(key, [id], false);
    JoinIsUnder(key, id);
    assert !Slashed(id);
    assert Abs(key + [id]) + "" == Abs(key + [id]);
  }

  lemma KeyOfSlashed(key: seq<string>, slash: bool)
    requires AllProper(key)
    ensures Key(Abs(key) + if slash then "/" else "") == key
  {
    KeyOfAbs(key);
    if slash {
      KeyUnder(key, "");
      assert Abs(key) + "/" + "" == Abs(key) + "/";
      assert Split("", '/') == [""];
      assert Walk(key, [""], false) == Move(Walk(key, [], false), "", false);
    } else {
      assert Abs(key) + "" == Abs(key);
    }
  }

  /** A normalised path, as the store builds them. */
  function Path(key: seq<string>, slash: bool): string {
    Abs(key) + if slash then "/" else ""
  }

  lemma PathFacts(key: seq<string>, slash: bool)
    requires AllProper(key) && key != []
    ensures Key(Path(key, slash)) == key
    ensures Slashed(Path(key, slash)) == slash
    ensures '\0' in Path(key, slash) <==> '\0' in Abs(key)
    ensures Normalize(Path(key, slash)) == Path(key, slash)
    ensures Dirname(Path(key, slash)) == Abs(key[..|key| - 1])
  {
    KeyOfSlashed(key, slash);
    AbsNotSlashed(key);
    if !slash {
      assert Path(key, slash) == Abs(key);
    }
    NormalizeAbsolute(Path(key, slash));
  }

  lemma WriteAt(key: seq<string>, slash: bool)
    requires AllProper(key) && key != []
    ensures Key(Dirname(Path(key, slash))) == key[..|key| - 1]
  {
    PathFacts(key, slash);
    KeyOfAbs(key[..|key| - 1]);
  }

  /** Where a request or an archived name leads from a snapshot's directory, and what the prefix test says of it. */
  lemma Reaches(dir: seq<string>, rel: string)
    requires AllProper(dir) && dir != []
    ensures var k := Under(dir, rel);
            && AllProper(k)
            && JoinPaths(Abs(dir), rel) == Path(k, Slashed(rel) && k != [])
            && (StartsWith(JoinPaths(Abs(dir), rel), Abs(dir) + "/") <==> dir <= k && (Slashed(rel) || k != dir))
            && (JoinPaths(Abs(dir), rel) == Abs(dir) <==> k == dir && !Slashed(rel))
  {
    var k := Under(dir, rel);
    JoinIsUnder(dir, rel);
    PrefixIsContainment(dir, k, Slashed(rel) && k != []);
    if k != [] {
      PathFacts(k, Slashed(rel));
      PathFacts(dir, false);
      assert Path(dir, false) == Abs(dir);
    } else {
      AbsNotSlashed(dir);
      assert Slashed(Abs(k));
    }
  }

  /** A file of the directory that a path names. */
  lemma MemberPath(key: seq<string>, slash: bool, name: string)
    requires AllProper(key) && key != [] && Proper(name)
    ensures JoinPaths(Path(key, slash), name) == Path(key + [name], false)
    ensures AllProper(key + [name])
  {
    var rel := if slash then "/" + name else name;
    var p := Abs(key) + "/" + rel;
    assert Path(key, slash) + "/" + name == p;
    KeyUnder(key, rel);
    UnderOne(key, name);
    NormalizeAbsolute(p);
    assert name[|name| - 1] in name;
  }

  lemma FileThere(disk: Disk, key: seq<string>, slash: bool)
    requires AllProper(key) && key != []
    ensures var node := NodeAt(disk, Path(key, slash));
            node.Some? && node.value.File? <==> IsFile(disk, key) && !slash
  {
    PathFacts(key, slash);
  }

  class PreviewSnapshotStore {
    const root: string
    var disk: Disk

    constructor (root: string, disk: Disk)
      ensures this.root == root && this.disk == disk
    {
      this.root := root;
      this.disk := disk;
    }

    /** The caps, in the order they are tried; `None` when the archive is acceptable. */
    static method Check(files: seq<CapturedFile>) returns (why: Option<Refusal>, total: nat)
      ensures why.None? <==> Acceptable(files)
      ensures why.None? <==>
                && 0 < |files| <= 1000 && (forall f | f in files :: |f.content| <= 26214400)
                && Total(files) <= 67108864 && HasIndex(files)
      ensures why == Some(NoFiles) <==> files == []
      ensures why.Some? && why.value.TooManyFiles? <==> |files| > MAX_FILES
      ensures why.Some? && why.value.FileTooLarge? <==>
                0 < |files| <= MAX_FILES && exists f :: f in files && |f.content| > MAX_FILE_BYTES
      ensures why.Some? && why.value.TooManyFiles? ==> why.value.count == |files|
      ensures why.Some? && why.value.FileTooLarge? ==>
                exists i | 0 <= i < |files| ::
                  && files[i].name == why.value.name && |files[i].content| > 26214400
                  && forall f | f in files[..i] :: |f.content| <= 26214400
      ensures why.None? || why.value.TooLarge? || why.value.NoIndex? ==> total == Total(files)
      ensures why.Some? && why.value.TooLarge? ==> why.value.bytes == total
      ensures why.Some? && why.value.TooLarge? ==> total > MAX_TOTAL_BYTES
      ensures why.Some? && why.value.NoIndex? ==> total <= MAX_TOTAL_BYTES
      ensures why != Some(WriteFailed)
    {
      total := 0;
      IndexIsNeeded(files);
      if |files| == 0 {
        return Some(NoFiles), 0;
      }
      if |files| > MAX_FILES {
        return Some(TooManyFiles(|files|)), 0;
      }
      for i := 0 to |files|
        invariant total == Total(files[..i])
        invariant forall f | f in files[..i] :: |f.content| <= MAX_FILE_BYTES
      {
        if |files[i].content| > MAX_FILE_BYTES {
          return Some(FileTooLarge(files[i].name)), total;
        }
        assert files[..i + 1][..i] == files[..i];
        total := total + |files[i].content|;
      }
      assert files[..|files|] == files;
      if total > MAX_TOTAL_BYTES {
        return Some(TooLarge(total)), total;
      }
      if !exists f :: f in files && IsIndex(f.name) {
        return Some(NoIndex), total;
      }
      return None, total;
    }

    method IngestFiles(files: seq<CapturedFile>, digest: string -> string) returns (r: Ingested)
      requires CleanRoot(root) && HexId(Short(digest(HashText(Sort(files)))))
      modifies this
      ensures !Acceptable(files) ==> r.Refused? && disk == old(disk)
      ensures Acceptable(files) ==>
                var id := Short(digest(HashText(Sort(files))));
                var all := StoreAll(old(disk), Key(root) + [id], files);
                && disk == all.disk
                && r == if all.ok then Accepted(SnapshotMeta(id, |files|, Total(files))) else Refused(WriteFailed)
    {
      var why, total := Check(files);
      if why.Some? {
        return Refused(why.value);
      }
      var id := HashFiles(files, digest);
      DirPath(root, id);
      var ok := WriteFiles(JoinPaths(root, id), Key(root) + [id], files);
      return if ok then Accepted(SnapshotMeta(id, |files|, total)) else Refused(WriteFailed);
    }

    method WriteFiles(dir: string, ghost key: seq<string>, files: seq<CapturedFile>) returns (ok: bool)
      requires AllProper(key) && key != [] && dir == Abs(key)
      modifies this
      ensures Stored(disk, ok) == StoreAll(old(disk), key, files)
    {
      ok := true;
      var i := 0;
      while i < |files| && ok
        invariant i <= |files|
        invariant StoreAll(old(disk), key, files[..i]) == Stored(disk, ok)
      {
        StoreNext(old(disk), key, files, i, disk);
        ok := WriteFile(dir, key, files[i]);
        i := i + 1;
      }
      StoreStops(old(disk), key, files, i);
    }

    method WriteFile(dir: string, ghost key: seq<string>, f: CapturedFile) returns (ok: bool)
      requires AllProper(key) && key != [] && dir == Abs(key)
      modifies this
      ensures Stored(disk, ok) == Store(old(disk), key, f)
    {
      var safe := Strip(Normalize(f.name));
      var dest := JoinPaths(dir, safe);
      Reaches(key, safe);
      if !StartsWith(dest, dir + "/") {
        return true;
      }
      ghost var k := Dest(key, f.name);
      PathFacts(k, Slashed(safe));
      WriteAt(k, Slashed(safe));
      var parent := Dirname(dest);
      if '\0' in parent || !Clear(disk, Key(parent)) {
        return false;
      }
      disk := MkDirs(disk, Key(parent));
      if '\0' in dest || Slashed(dest) || (Key(dest) in disk && disk[Key(dest)].Dir?) {
        return false;
      }
      disk := disk[Key(dest) := File(f.content)];
      return true;
    }

    method Resolve(snapshotId: string, relPath: string) returns (absPath: Option<string>)
      requires CleanRoot(root)
      ensures var found := Found(disk, Key(root), snapshotId, relPath);
              absPath == if found.Some? then Some(Abs(found.value)) else None
    {
      if !HexId(snapshotId) {
        return None;
      }
      DirPath(root, snapshotId);
      ghost var dir := Key(root) + [snapshotId];
      var base := JoinPaths(root, snapshotId);
      var clean := StripSlashes(relPath);
      Reaches(dir, clean);
      ghost var k := Under(dir, clean);
      var abs := JoinPaths(base, clean);
      if abs != base && !StartsWith(abs, base + "/") {
        return None;
      }
      PathFacts(k, Slashed(clean));
      abs := Normalize(abs);
      FileThere(disk, k, Slashed(clean));
      if NodeAt(disk, abs).None? || NodeAt(disk, abs).value.Dir? {
        MemberPath(k, Slashed(clean), "index.html");
        abs := JoinPaths(abs, "index.html");
        FileThere(disk, k + ["index.html"], false);
        PathIsAbs(k + ["index.html"]);
      } else {
        PathIsAbs(k);
      }
      if NodeAt(disk, abs).None? || NodeAt(disk, abs).value.Dir? {
        return None;
      }
      return Some(abs);
    }
  }

  lemma PathIsAbs(key: seq<string>)
    ensures Path(key, false) == Abs(key)
  {
  }

  lemma StoreNext(disk: Disk, dir: seq<string>, files: seq<CapturedFile>, i: nat, so: Disk)
    requires i < |files| && StoreAll(disk, dir, files[..i]) == Stored(so, true)
    ensures StoreAll(disk, dir, files[..i + 1]) == Store(so, dir, files[i])
  {
    assert files[..i + 1][..i] == files[..i];
  }

  /** Later files are not tried after a failure. */
  lemma {:induction false} StoreStops(disk: Disk, dir: seq<string>, files: seq<CapturedFile>, i: nat)
    requires i <= |files| && (StoreAll(disk, dir, files[..i]).ok ==> i == |files|)
    ensures StoreAll(disk, dir, files) == StoreAll(disk, dir, files[..i])
  {
    if i < |files| {
      assert files[..|files| - 1][..i] == files[..i];
      if i < |files| - 1 {
        StoreStops(disk, dir, files[..|files| - 1], i);
      } else {
        assert files[..|files| - 1] == files[..i];
      }
    } else {
      assert files[..i] == files;
    }
  }
}
