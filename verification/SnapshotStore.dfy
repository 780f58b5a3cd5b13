/** What ingesting and resolving promise together (src/kernel/previewSnapshot.ts). */
module SnapshotStore {
  import opened Text
  import opened Paths
  import opened SnapshotHash
  import opened Snapshot

  lemma {:induction false} MkDirsMeans(disk: Disk, key: seq<string>, k: seq<string>)
    ensures k in MkDirs(disk, key) <==> k in disk || (k != [] && k <= key)
    ensures k in MkDirs(disk, key) ==> MkDirs(disk, key)[k] == if k in disk then disk[k] else Dir
  {
    if key != [] {
      MkDirsMeans(disk, key[..|key| - 1], k);
      PrefixOfLast(key, k);
    }
  }

  lemma PrefixOfLast(key: seq<string>, k: seq<string>)
    requires key != []
    ensures k <= key <==> k == key || k <= key[..|key| - 1]
  {
    if k <= key && |k| < |key| {
      assert k == key[..|k|];
    }
  }

  // ----- Containment -----

  /** Files of a store lie in snapshot directories, never in place of one. */
  ghost predicate Layered(disk: Disk, root: seq<string>) {
    forall k | k in disk && root <= k && disk[k].File? :: |root| + 2 <= |k|
  }

  /** Whatever is asked for, a found file lies strictly below the snapshot's directory. */
  lemma FoundInside(disk: Disk, root: seq<string>, id: string, rel: string)
    requires Layered(disk, root) && Found(disk, root, id, rel).Some?
    ensures root + [id] < Found(disk, root, id, rel).value && IsFile(disk, Found(disk, root, id, rel).value)
    ensures 8 <= |id| <= 64 && forall c | c in id :: c in "0123456789abcdef"
  {
    IdsAreHex(id);
    var dir, k := root + [id], Found(disk, root, id, rel).value;
    assert dir <= k;
    assert root <= k;
  }

  /**
   Whatever the archive names, an ingest writes files only strictly below the snapshot's directory, makes
   directories only on the way there, and removes nothing.
   */
  lemma StoreInside(disk: Disk, dir: seq<string>, f: CapturedFile, k: seq<string>)
    ensures k in disk ==> k in Store(disk, dir, f).disk
    ensures k in Store(disk, dir, f).disk && (k !in disk || Store(disk, dir, f).disk[k] != disk[k]) ==>
              if Store(disk, dir, f).disk[k].File? then dir < k else k <= dir || dir <= k
  {
    StoreAtInside(disk, dir, Dest(dir, f.name), Slashed(Safe(f.name)), f.content, k);
  }

  lemma StoreAtInside(disk: Disk, dir: seq<string>, dest: seq<string>, slashed: bool, content: string, k: seq<string>)
    ensures var after := StoreAt(disk, dir, dest, slashed, content).disk;
            && (k in disk ==> k in after)
            && (k in after && (k !in disk || after[k] != disk[k]) ==>
                  if after[k].File? then dir < k else k <= dir || dir <= k)
  {
    if !Escapes(dir, dest, slashed) && dest != [] {
      var parent := dest[..|dest| - 1];
      MkDirsMeans(disk, parent, k);
      MkDirsMeans(disk, parent, dest);
      PrefixOfLast(dest, k);
      PrefixesCompare(dir, k, dest);
    }
  }

  lemma PrefixesCompare(a: seq<string>, b: seq<string>, whole: seq<string>)
    requires a <= whole
    ensures b <= whole ==> a <= b || b <= a
  {
  }

  lemma {:induction false} IngestInside(disk: Disk, dir: seq<string>, files: seq<CapturedFile>, k: seq<string>)
    ensures k in disk ==> k in StoreAll(disk, dir, files).disk
    ensures k in StoreAll(disk, dir, files).disk && (k !in disk || StoreAll(disk, dir, files).disk[k] != disk[k]) ==>
              if StoreAll(disk, dir, files).disk[k].File? then dir < k else k <= dir || dir <= k
  {
    if files != [] {
      var prior := StoreAll(disk, dir, files[..|files| - 1]);
      IngestInside(disk, dir, files[..|files| - 1], k);
      if prior.ok {
        StoreInside(prior.disk, dir, files[|files| - 1], k);
      }
    }
  }

  lemma IngestLayers(disk: Disk, root: seq<string>, id: string, files: seq<CapturedFile>)
    requires Layered(disk, root)
    ensures Layered(StoreAll(disk, root + [id], files).disk, root)
  {
    var after := StoreAll(disk, root + [id], files).disk;
    forall k | k in after && root <= k && after[k].File?
      ensures |root| + 2 <= |k|
    {
      IngestInside(disk, root + [id], files, k);
    }
  }

  /** An ingest leaves everything below another snapshot's directory as it is. */
  lemma OthersUntouched(disk: Disk, root: seq<string>, id: string, other: string, files: seq<CapturedFile>,
                        k: seq<string>)
    requires id != other && root + [other] <= k
    ensures var after := StoreAll(disk, root + [id], files).disk;
            (k in after <==> k in disk) && (k in disk ==> after[k] == disk[k])
  {
    IngestInside(disk, root + [id], files, k);
    assert k[|root|] == other && (root + [id])[|root|] == id;
    assert !(root + [id] <= k) && !(k <= root + [id]);
  }

  /** So every request to another snapshot finds what it found before, byte for byte. */
  lemma OtherSnapshotsStay(disk: Disk, root: seq<string>, id: string, other: string, files: seq<CapturedFile>,
                           rel: string)
    requires id != other
    ensures var after := StoreAll(disk, root + [id], files).disk;
            var found := Found(disk, root, other, rel);
            && Found(after, root, other, rel) == found
            && (found.Some? ==> found.value in after && found.value in disk && after[found.value] == disk[found.value])
  {
    var k := Under(root + [other], StripSlashes(rel));
    if root + [other] <= k {
      OthersUntouched(disk, root, id, other, files, k);
      OthersUntouched(disk, root, id, other, files, k + ["index.html"]);
    }
  }

  // ----- Round trip -----

  function Segs(f: CapturedFile): seq<string> {
    Split(f.name, '/')
  }

  /** A relative name in normal form that the store does not rewrite. */
  predicate Plain(f: CapturedFile) {
    AllProper(Segs(f)) && '\0' !in f.name && !("..\\" <= f.name)
  }

  /** No name is a directory of another, and no two files share one. */
  predicate PrefixFree(files: seq<CapturedFile>) {
    forall f, g | f in files && g in files && Segs(f) <= Segs(g) :: f == g
  }

  /** The text before the first slash is the first part. */
  lemma FirstSeg(s: string)
    requires s != "" && Proper(Split(s, '/')[0])
    ensures !Absolute(s) && s != ".." && !("../" <= s)
  {
    if s == ".." {
      SplitNone(s, '/');
    } else if "../" <= s {
      assert s == ".." + ['/'] + s[3..];
      SplitAtSep("..", s[3..], '/');
    }
  }

  lemma PlainShape(name: string, segs: seq<string>)
    requires segs == Split(name, '/') && AllProper(segs)
    ensures name != "" && !Slashed(name) && !Absolute(name) && name == Join(segs, "/")
    ensures name != ".." && !("../" <= name)
  {
    JoinSplit(name, '/');
    JoinEmpty(segs);
    JoinLast(segs);
    assert segs[0] in segs;
    FirstSeg(name);
  }

  lemma PlainIsNormal(name: string, segs: seq<string>)
    requires segs == Split(name, '/') && AllProper(segs)
    ensures Normalize(name) == name
  {
    PlainShape(name, segs);
    WalkProper([], segs, true);
    assert [] + segs == segs;
    assert "" + name + "" == name;
  }

  lemma PlainIsSafe(f: CapturedFile)
    requires Plain(f)
    ensures Safe(f.name) == f.name && !Slashed(f.name)
  {
    var name := f.name;
    PlainShape(name, Segs(f));
    PlainIsNormal(name, Segs(f));
    if |name| >= 3 && name[..2] == ".." {
      assert name[2] == '/' ==> "../" <= name;
      assert name[2] == '\\' ==> "..\\" <= name;
    }
  }

  /** A plain name goes to its own place below the directory. */
  lemma PlainDest(dir: seq<string>, f: CapturedFile)
    requires Plain(f)
    ensures Dest(dir, f.name) == dir + Segs(f) && !Slashed(Safe(f.name))
  {
    PlainIsSafe(f);
    WalkProper(dir, Segs(f), false);
  }

  lemma {:induction false} NulInJoin(key: seq<string>)
    ensures '\0' in Join(key, "/") <==> exists seg :: seg in key && '\0' in seg
  {
    if |key| > 1 {
      NulInJoin(key[1..]);
      assert key == [key[0]] + key[1..];
    }
  }

  predicate NulFreeKey(key: seq<string>) {
    forall seg | seg in key :: '\0' !in seg
  }

  lemma NulFreePath(key: seq<string>)
    ensures '\0' !in Abs(key) <==> NulFreeKey(key)
  {
    NulInJoin(key);
  }

  /** The place of a plain file below a NUL-free directory is a NUL-free path. */
  lemma PlainNulFree(dir: seq<string>, f: CapturedFile)
    requires Plain(f) && NulFreeKey(dir)
    ensures var k := dir + Segs(f);
            k != [] && '\0' !in Abs(k) && '\0' !in Abs(k[..|k| - 1])
  {
    var k := dir + Segs(f);
    JoinSplit(f.name, '/');
    NulInJoin(Segs(f));
    assert NulFreeKey(k);
    NulFreePath(k);
    NulFreePath(k[..|k| - 1]);
  }

  ghost predicate AtFile(files: seq<CapturedFile>, dir: seq<string>, k: seq<string>) {
    exists f :: f in files && k == dir + Segs(f)
  }

  ghost predicate AboveFile(files: seq<CapturedFile>, dir: seq<string>, k: seq<string>) {
    exists f :: f in files && k < dir + Segs(f)
  }

  /** The way to `dir` is clear, and below it stand at most the files of the archive and their directories. */
  ghost predicate RoomFor(disk: Disk, dir: seq<string>, files: seq<CapturedFile>) {
    && Clear(disk, dir)
    && forall k | k in disk && dir <= k :: if disk[k].File? then AtFile(files, dir, k) else AboveFile(files, dir, k)
  }

  /** The file is stored, and so is every directory above it. */
  ghost predicate InPlace(disk: Disk, dir: seq<string>, f: CapturedFile) {
    var k := dir + Segs(f);
    && k in disk && disk[k] == File(f.content)
    && forall p | p != [] && p <= k :: p in disk
  }

  ghost predicate Archive(files: seq<CapturedFile>) {
    (forall f | f in files :: Plain(f)) && PrefixFree(files)
  }

  lemma DirAppend(dir: seq<string>, a: seq<string>, b: seq<string>)
    ensures dir + a <= dir + b <==> a <= b
    ensures dir + a == dir + b <==> a == b
  {
    assert (dir + a)[|dir|..] == a && (dir + b)[|dir|..] == b;
    if dir + a <= dir + b {
      assert dir + a == (dir + b)[..|dir + a|];
      assert a == (dir + b)[..|dir + a|][|dir|..];
      assert (dir + b)[..|dir + a|][|dir|..] == b[..|a|];
    }
    if a <= b {
      assert b == a + b[|a|..];
      assert dir + b == dir + a + b[|a|..];
    }
  }

  lemma WayIsClear(disk: Disk, dir: seq<string>, files: seq<CapturedFile>, f: CapturedFile)
    requires Archive(files) && RoomFor(disk, dir, files) && f in files
    ensures var k := dir + Segs(f);
            Clear(disk, k[..|k| - 1]) && (k in disk ==> disk[k].File?)
  {
    var k := dir + Segs(f);
    forall p | p in disk && p <= k[..|k| - 1]
      ensures disk[p].Dir?
    {
      PrefixOfLast(k, p);
      PrefixesCompare(dir, p, k);
      if dir <= p && disk[p].File? {
        var g :| g in files && p == dir + Segs(g);
        DirAppend(dir, Segs(g), Segs(f));
      }
    }
    if k in disk && disk[k].Dir? {
      var g :| g in files && k < dir + Segs(g);
      DirAppend(dir, Segs(f), Segs(g));
    }
  }

  lemma StoreWrites(disk: Disk, dir: seq<string>, content: string, k: seq<string>)
    requires dir < k && '\0' !in Abs(k) && '\0' !in Abs(k[..|k| - 1])
    requires Clear(disk, k[..|k| - 1]) && (k in disk ==> disk[k].File?)
    ensures StoreAt(disk, dir, k, false, content) == Stored(MkDirs(disk, k[..|k| - 1])[k := File(content)], true)
  {
    MkDirsMeans(disk, k[..|k| - 1], k);
  }

  lemma PlainWrites(disk: Disk, dir: seq<string>, f: CapturedFile, k: seq<string>)
    requires Plain(f) && NulFreeKey(dir) && k == dir + Segs(f) && dir < k
    requires Clear(disk, k[..|k| - 1]) && (k in disk ==> disk[k].File?)
    ensures Store(disk, dir, f) == Stored(MkDirs(disk, k[..|k| - 1])[k := File(f.content)], true)
  {
    PlainDest(dir, f);
    PlainNulFree(dir, f);
    StoreWrites(disk, dir, f.content, k);
  }

  /** Storing one file of an archive where there is room for all of it. */
  lemma StoreFits(disk: Disk, dir: seq<string>, files: seq<CapturedFile>, f: CapturedFile)
    requires Archive(files) && RoomFor(disk, dir, files) && f in files && NulFreeKey(dir)
    ensures var k := dir + Segs(f);
            Store(disk, dir, f) == Stored(MkDirs(disk, k[..|k| - 1])[k := File(f.content)], true)
  {
    var k := dir + Segs(f);
    WayIsClear(disk, dir, files, f);
    PlainWrites(disk, dir, f, k);
  }

  lemma StoredAt(disk: Disk, k: seq<string>, content: string, p: seq<string>)
    requires k != []
    ensures var after := MkDirs(disk, k[..|k| - 1])[k := File(content)];
            && (p in after <==> p in disk || (p != [] && p <= k))
            && (p in after ==> after[p] == if p == k then File(content) else if p in disk then disk[p] else Dir)
  {
    MkDirsMeans(disk, k[..|k| - 1], p);
    PrefixOfLast(k, p);
  }

  lemma WriteKeepsRoom(disk: Disk, dir: seq<string>, files: seq<CapturedFile>, f: CapturedFile, after: Disk)
    requires RoomFor(disk, dir, files) && f in files && Segs(f) != []
    requires var k := dir + Segs(f); after == MkDirs(disk, k[..|k| - 1])[k := File(f.content)]
    ensures RoomFor(after, dir, files)
  {
    var k := dir + Segs(f);
    forall p | p in after && p <= dir
      ensures after[p].Dir?
    {
      StoredAt(disk, k, f.content, p);
    }
    forall p | p in after && dir <= p
      ensures if after[p].File? then AtFile(files, dir, p) else AboveFile(files, dir, p)
    {
      StoredAt(disk, k, f.content, p);
    }
  }

  lemma WritePlaces(disk: Disk, dir: seq<string>, f: CapturedFile, g: CapturedFile, after: Disk)
    requires Segs(f) != [] && (f == g || (Segs(f) != Segs(g) && InPlace(disk, dir, g)))
    requires var k := dir + Segs(f); after == MkDirs(disk, k[..|k| - 1])[k := File(f.content)]
    ensures InPlace(after, dir, g)
  {
    var k, q := dir + Segs(f), dir + Segs(g);
    StoredAt(disk, k, f.content, q);
    DirAppend(dir, Segs(f), Segs(g));
    forall p | p != [] && p <= q
      ensures p in after
    {
      StoredAt(disk, k, f.content, p);
    }
  }

  /** Ingesting part of an archive where there is room for all of it stores every file of that part. */
  lemma {:induction false} IngestPlaces(disk: Disk, dir: seq<string>, files: seq<CapturedFile>, part: seq<CapturedFile>)
    requires Archive(files) && RoomFor(disk, dir, files) && NulFreeKey(dir)
    requires forall f | f in part :: f in files
    ensures var all := StoreAll(disk, dir, part);
            all.ok && RoomFor(all.disk, dir, files) && forall f | f in part :: InPlace(all.disk, dir, f)
  {
    if part != [] {
      var front, last := part[..|part| - 1], part[|part| - 1];
      assert part == front + [last];
      IngestPlaces(disk, dir, files, front);
      PlaceOneMore(StoreAll(disk, dir, front).disk, dir, files, front, last);
    }
  }

  lemma PlaceOneMore(prior: Disk, dir: seq<string>, files: seq<CapturedFile>, front: seq<CapturedFile>,
        last: CapturedFile)
    requires Archive(files) && RoomFor(prior, dir, files) && NulFreeKey(dir) && last in files
    requires forall f | f in front :: f in files && InPlace(prior, dir, f)
    ensures var next := Store(prior, dir, last);
            next.ok && RoomFor(next.disk, dir, files) && forall f | f in front + [last] :: InPlace(next.disk, dir, f)
  {
    var k := dir + Segs(last);
    var after := MkDirs(prior, k[..|k| - 1])[k := File(last.content)];
    StoreFits(prior, dir, files, last);
    WriteKeepsRoom(prior, dir, files, last, after);
    forall f | f in front + [last]
      ensures InPlace(after, dir, f)
    {
      WritePlaces(prior, dir, last, f, after);
    }
  }

  /** 8 to 64 hexadecimal digits. */
  predicate IsId(id: string) {
    8 <= |id| <= 64 && forall c | c in id :: c in "0123456789abcdef"
  }

  /** Ingested files are found under their own names, byte for byte. */
  lemma RoundTrip(disk: Disk, root: seq<string>, id: string, files: seq<CapturedFile>, f: CapturedFile, rel: string)
    requires Archive(files) && RoomFor(disk, root + [id], files) && NulFreeKey(root) && IsId(id)
    requires f in files && StripSlashes(rel) == f.name
    ensures var all := StoreAll(disk, root + [id], files);
            && all.ok && Found(all.disk, root, id, rel) == Some(root + [id] + Segs(f))
            && all.disk[root + [id] + Segs(f)] == File(f.content)
  {
    var dir := root + [id];
    IdsAreHex(id);
    HexIsProper(id);
    IngestPlaces(disk, dir, files, files);
    assert InPlace(StoreAll(disk, dir, files).disk, dir, f);
    WalkProper(dir, Segs(f), false);
    PlainIsSafe(f);
    PlainNulFree(dir, f);
  }

  /** A request that leads to a directory reaches its `index.html`. */
  lemma DirectoryReachesIndex(disk: Disk, root: seq<string>, id: string, files: seq<CapturedFile>, f: CapturedFile,
                              d: seq<string>, rel: string)
    requires Archive(files) && RoomFor(disk, root + [id], files) && NulFreeKey(root) && IsId(id)
    requires f in files && Segs(f) == d + ["index.html"]
    requires Under(root + [id], StripSlashes(rel)) == root + [id] + d
    ensures Found(StoreAll(disk, root + [id], files).disk, root, id, rel) == Some(root + [id] + Segs(f))
  {
    var dir := root + [id];
    var after := StoreAll(disk, dir, files).disk;
    IdsAreHex(id);
    HexIsProper(id);
    IngestPlaces(disk, dir, files, files);
    assert InPlace(after, dir, f);
    PlainNulFree(dir, f);
    AppendAssociates(dir, d, ["index.html"]);
    if IsFile(after, dir + d) {
      var g :| g in files && dir + d == dir + Segs(g);
      DirAppend(dir, d, Segs(g));
      assert Segs(g) <= Segs(f);
    }
  }

  /** After an ingest, a request reaches a file of the archive or nothing. */
  lemma NothingElseIsFound(disk: Disk, root: seq<string>, id: string, files: seq<CapturedFile>, rel: string)
    requires Archive(files) && RoomFor(disk, root + [id], files) && NulFreeKey(root) && IsId(id)
    ensures var found := Found(StoreAll(disk, root + [id], files).disk, root, id, rel);
            found.Some? ==> AtFile(files, root + [id], found.value)
  {
    IdsAreHex(id);
    HexIsProper(id);
    IngestPlaces(disk, root + [id], files, files);
  }

  /** Ingesting an archive again changes nothing. */
  lemma IngestAgain(disk: Disk, dir: seq<string>, files: seq<CapturedFile>)
    requires Archive(files) && RoomFor(disk, dir, files) && NulFreeKey(dir)
    ensures var all := StoreAll(disk, dir, files);
            StoreAll(all.disk, dir, files) == all
  {
    IngestPlaces(disk, dir, files, files);
    AllInPlace(StoreAll(disk, dir, files).disk, dir, files, files);
  }

  lemma {:induction false} AllInPlace(disk: Disk, dir: seq<string>, files: seq<CapturedFile>, part: seq<CapturedFile>)
    requires Archive(files) && RoomFor(disk, dir, files) && NulFreeKey(dir)
    requires forall f | f in part :: f in files && InPlace(disk, dir, f)
    ensures StoreAll(disk, dir, part) == Stored(disk, true)
  {
    if part != [] {
      AllInPlace(disk, dir, files, part[..|part| - 1]);
      StoreAgain(disk, dir, files, part[|part| - 1]);
    }
  }

  lemma StoreAgain(disk: Disk, dir: seq<string>, files: seq<CapturedFile>, f: CapturedFile)
    requires Archive(files) && RoomFor(disk, dir, files) && NulFreeKey(dir) && f in files && InPlace(disk, dir, f)
    ensures Store(disk, dir, f) == Stored(disk, true)
  {
    StoreFits(disk, dir, files, f);
    PlaceAgain(disk, dir, f);
  }

  lemma PlaceAgain(disk: Disk, dir: seq<string>, f: CapturedFile)
    requires InPlace(disk, dir, f)
    ensures var k := dir + Segs(f); MkDirs(disk, k[..|k| - 1])[k := File(f.content)] == disk
  {
    WriteAgain(disk, dir + Segs(f), f.content);
  }

  lemma WriteAgain(disk: Disk, k: seq<string>, content: string)
    requires k != [] && k in disk && disk[k] == File(content) && forall p | p != [] && p <= k :: p in disk
    ensures MkDirs(disk, k[..|k| - 1])[k := File(content)] == disk
  {
    MkDirsThere(disk, k[..|k| - 1]);
  }

  lemma {:induction false} MkDirsThere(disk: Disk, key: seq<string>)
    requires forall p | p != [] && p <= key :: p in disk
    ensures MkDirs(disk, key) == disk
  {
    if key != [] {
      MkDirsThere(disk, key[..|key| - 1]);
    }
  }

  // ----- Names that are not plain -----

  function Ups(n: nat): string {
    if n == 0 then "" else "../" + Ups(n - 1)
  }

  function Dots(n: nat): seq<string> {
    if n == 0 then [] else [".."] + Dots(n - 1)
  }

  lemma {:induction false} SplitUps(n: nat, name: string)
    ensures Split(Ups(n) + name, '/') == Dots(n) + Split(name, '/')
  {
    if n == 0 {
      assert Ups(0) + name == name && Dots(0) + Split(name, '/') == Split(name, '/');
    } else {
      var rest := Ups(n - 1) + name;
      SplitUps(n - 1, name);
      assert Ups(n) + name == ".." + ['/'] + rest;
      SplitAtSep("..", rest, '/');
      AppendAssociates([".."], Dots(n - 1), Split(name, '/'));
    }
  }

  lemma {:induction false} WalkDots(n: nat)
    ensures Walk([], Dots(n), true) == Dots(n) && Dots(n + 1) == Dots(n) + [".."]
  {
    if n > 0 {
      WalkDots(n - 1);
      assert Dots(n)[..n - 1] == Dots(n - 1) by {
        assert |Dots(n - 1)| == n - 1 by {
          DotsLength(n - 1);
        }
      }
      AppendAssociates([".."], Dots(n - 1), [".."]);
    } else {
      assert Dots(1) == [".."] + Dots(0);
    }
  }

  lemma {:induction false} DotsLength(n: nat)
    ensures |Dots(n)| == n
  {
    if n > 0 {
      DotsLength(n - 1);
    }
  }

  lemma {:induction false} StripUps(n: nat, name: string)
    ensures Strip(Ups(n) + name) == Strip(name)
  {
    if n == 0 {
      assert Ups(0) + name == name;
    } else {
      StripUps(n - 1, name);
      StripDrops(Ups(n - 1) + name);
      AppendAssociates("../", Ups(n - 1), name);
    }
  }

  lemma UpsAreNormal(n: nat, f: CapturedFile)
    requires Plain(f)
    ensures Normalize(Ups(n) + f.name) == Ups(n) + f.name
  {
    var s := Ups(n) + f.name;
    PlainShape(f.name, Segs(f));
    SplitUps(n, f.name);
    WalkDots(n);
    WalkAppend([], Dots(n), Segs(f), true);
    WalkProper(Dots(n), Segs(f), true);
    JoinSplit(s, '/');
    assert s[|s| - 1] == f.name[|f.name| - 1];
    assert n > 0 ==> Ups(n)[0] == '.' && s[0] == '.';
    assert "" + s + "" == s;
  }

  /** A relative name that keeps below the directory is put where walking its components leads. */
  lemma DestIsUnder(dir: seq<string>, name: string)
    requires AllProper(dir) && !Absolute(name) && Safe(name) == Normalize(name)
    ensures Dest(dir, name) == Under(dir, name)
  {
    NormalLeadsThere(dir, name);
  }

  /** Whatever number of parents an archive puts in front of a plain name, the file goes where the name goes. */
  lemma ParentsAreDropped(dir: seq<string>, n: nat, f: CapturedFile)
    requires Plain(f)
    ensures Dest(dir, Ups(n) + f.name) == dir + Segs(f) && !Slashed(Safe(Ups(n) + f.name))
  {
    UpsAreNormal(n, f);
    StripUps(n, f.name);
    PlainIsSafe(f);
    PlainIsNormal(f.name, Segs(f));
    PlainDest(dir, f);
  }

  /**
   A file is stored exactly if nothing is in the way: no file where a directory above it should be, no directory in
   its place, no NUL on the way, and no slash behind its name.
   */
  lemma StoredExactly(disk: Disk, dir: seq<string>, f: CapturedFile)
    requires dir < Dest(dir, f.name)
    ensures var k := Dest(dir, f.name);
            var next := Store(disk, dir, f);
            && (next.ok <==> && NulFreeKey(k) && !Slashed(Safe(f.name)) && !(k in disk && disk[k].Dir?)
                             && forall p | p in disk && p < k :: disk[p].Dir?)
            && (next.ok ==> k in next.disk && next.disk[k] == File(f.content))
  {
    var k := Dest(dir, f.name);
    var parent := k[..|k| - 1];
    NulFreePath(k);
    NulFreePath(parent);
    MkDirsMeans(disk, parent, k);
    forall p | p in disk
      ensures p < k <==> p <= parent
    {
      PrefixOfLast(k, p);
    }
    assert NulFreeKey(k) ==> NulFreeKey(parent);
  }

  function Slashes(n: nat): string {
    if n == 0 then "" else "/" + Slashes(n - 1)
  }

  lemma {:induction false} SlashesGo(n: nat, name: string)
    requires name == "" || name[0] != '/'
    ensures StripSlashes(Slashes(n) + name) == name
  {
    if n == 0 {
      assert Slashes(0) + name == name;
    } else {
      assert (Slashes(n) + name)[1..] == Slashes(n - 1) + name;
      SlashesGo(n - 1, name);
    }
  }

  /** A leading `./`, with any number of slashes, is removed from a header; any other header is the name. */
  lemma HeadersAreRead(n: nat, name: string)
    requires name == "" || name[0] != '/'
    ensures EntryName("." + Slashes(n + 1) + name) == name
    ensures !("./" <= name) ==> EntryName(name) == name
  {
    var header := "." + Slashes(n + 1) + name;
    assert header[..2] == "./" && header[1..] == Slashes(n + 1) + name;
    SlashesGo(n + 1, name);
  }

  /** The entries that `tar -C dir .` writes for a directory of files, with a marker for the directory itself. */
  function Packed(files: seq<CapturedFile>): seq<Entry> {
    if files == [] then [Entry(false, "./", "")]
    else
      var f := files[|files| - 1];
      Packed(files[..|files| - 1]) + [Entry(true, "./" + f.name, f.content)]
  }

  /** What was packed is what is read. */
  lemma {:induction false} PackedIsRead(files: seq<CapturedFile>)
    requires forall f | f in files :: Plain(f)
    ensures FilesOf(Packed(files)) == files
  {
    if files == [] {
      assert Packed(files)[..0] == [];
    } else {
      var front, f := files[..|files| - 1], files[|files| - 1];
      PackedIsRead(front);
      PlainEntry(f);
      var packed := Packed(files);
      assert packed[..|packed| - 1] == Packed(front);
      assert files == front + [f];
    }
  }

  lemma PlainEntry(f: CapturedFile)
    requires Plain(f)
    ensures EntryName("./" + f.name) == f.name != ""
  {
    PlainShape(f.name, Segs(f));
    var header := "./" + f.name;
    assert header[..2] == "./" && header[1..][0] == '/' && header[1..][1..] == f.name;
    assert StripSlashes(header[1..]) == StripSlashes(f.name) == f.name;
  }
}
